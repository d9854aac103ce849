/**
 * The matching step shared by the lexer (`Lexer::next_token`), the
 * parser (`Parser::next_node`) and the older lexer: peek once, skip every
 * rule whose quick check says it cannot match, try the others in order
 * from a checkpoint, restore after each failure, and return the first
 * success.
 *
 * A rule set is a value of `Rules`: `attempt` is the rule's `try_match` /
 * `try_parse` as a function from the context state to what it returns and
 * the state it leaves behind, `priority` and `quickCheck` are the other
 * two trait methods. `H` is what the engine peeks before trying rules (a
 * char for lexers, a token for parsers).
 */
module RuleEngine {
  import opened Common
  import opened Priorities

  /** What one rule attempt returns and the context state it leaves behind. */
  datatype Attempt<O, S> = Attempt(output: Option<O>, after: S)

  datatype Rules<!R, !S, !H, O> = Rules(
    attempt: (R, S) -> Attempt<O, S>,
    priority: R -> int,
    quickCheck: (R, H) -> Option<bool>)

  /** The trait's default `priority`. */
  function DefaultPriority<R>(rule: R): int
  {
    0
  }

  /** The trait's default `quick_check`: unknown, so the rule is always attempted. */
  function DefaultQuickCheck<R, H>(rule: R, hint: H): Option<bool>
  {
    None
  }

  /** A quick check of `Some(false)` makes the engine skip the rule without a checkpoint. */
  predicate Skipped<R, S, H, O>(g: Rules<R, S, H, O>, rule: R, hint: H)
  {
    g.quickCheck(rule, hint) == Some(false)
  }

  /** The same rule set with every quick check answering "unknown". */
  function WithoutQuickCheck<R, S, H, O>(g: Rules<R, S, H, O>): (r: Rules<R, S, H, O>)
    ensures r.attempt == g.attempt && r.priority == g.priority
  {
    g.(quickCheck := (rule: R, hint: H) => DefaultQuickCheck(rule, hint))
  }

  /** Each of `rules` whose quick check answers `Some(false)` at `s` fails at `s`. */
  predicate QuickCheckSoundAt<R, S, H, O>(g: Rules<R, S, H, O>, rules: seq<R>, hint: H, s: S)
  {
    forall i :: 0 <= i < |rules| && Skipped(g, rules[i], hint) ==> g.attempt(rules[i], s).output.None?
  }

  /**
   * The engine's answer when trying `rules[i..]` from state `s` with the
   * peeked `hint`: a failed attempt is undone by restoring `s`.
   */
  function FirstMatchFrom<R, S, H, O>(g: Rules<R, S, H, O>, rules: seq<R>, i: nat, hint: H, s: S): (r: Attempt<O, S>)
    requires i <= |rules|
    ensures r.output.None? ==> r.after == s
    decreases |rules| - i
  {
    if i == |rules| then Attempt(None, s)
    else if Skipped(g, rules[i], hint) then FirstMatchFrom(g, rules, i + 1, hint, s)
    else
      var a := g.attempt(rules[i], s);
      if a.output.Some? then a else FirstMatchFrom(g, rules, i + 1, hint, s)
  }

  /** The rule at `j` is tried and succeeds. */
  predicate Wins<R, S, H, O>(g: Rules<R, S, H, O>, rules: seq<R>, j: nat, hint: H, s: S)
    requires j < |rules|
  {
    !Skipped(g, rules[j], hint) && g.attempt(rules[j], s).output.Some?
  }

  /**
   * First match, not longest match: a successful answer is exactly what
   * some rule `w` returned, and every earlier rule was skipped or failed.
   */
  lemma {:induction false} FirstMatchWinner<R, S, H, O>(g: Rules<R, S, H, O>, rules: seq<R>, i: nat, hint: H, s: S)
    returns (w: nat)
    requires i <= |rules| && FirstMatchFrom(g, rules, i, hint, s).output.Some?
    ensures i <= w < |rules| && Wins(g, rules, w, hint, s)
    ensures FirstMatchFrom(g, rules, i, hint, s) == g.attempt(rules[w], s)
    ensures forall j :: i <= j < w ==> !Wins(g, rules, j, hint, s)
    decreases |rules| - i
  {
    if Wins(g, rules, i, hint, s) {
      w := i;
    } else {
      w := FirstMatchWinner(g, rules, i + 1, hint, s);
    }
  }

  /** No answer exactly when no rule from `i` on is both tried and successful. */
  lemma {:induction false} FirstMatchNoneIff<R, S, H, O>(g: Rules<R, S, H, O>, rules: seq<R>, i: nat, hint: H, s: S)
    requires i <= |rules|
    ensures FirstMatchFrom(g, rules, i, hint, s).output.None?
      <==> forall j :: i <= j < |rules| ==> !Wins(g, rules, j, hint, s)
    decreases |rules| - i
  {
    if i < |rules| {
      FirstMatchNoneIff(g, rules, i + 1, hint, s);
      if !Wins(g, rules, i, hint, s) {
        assert (forall j :: i <= j < |rules| ==> !Wins(g, rules, j, hint, s))
          <==> (forall j :: i + 1 <= j < |rules| ==> !Wins(g, rules, j, hint, s));
      }
    }
  }

  /**
   * With sound quick checks the pre-filter changes nothing: the engine
   * gives the same answer as one that tries every rule.
   */
  lemma {:induction false} QuickCheckIsOptimisation<R, S, H, O>(g: Rules<R, S, H, O>, rules: seq<R>, i: nat, hint: H, s: S)
    requires i <= |rules| && QuickCheckSoundAt(g, rules, hint, s)
    ensures FirstMatchFrom(g, rules, i, hint, s) == FirstMatchFrom(WithoutQuickCheck(g), rules, i, hint, s)
    decreases |rules| - i
  {
    if i < |rules| {
      QuickCheckIsOptimisation(g, rules, i + 1, hint, s);
    }
  }

  /**
   * Rules that all keep the default priority are tried in registration
   * order: the stable sort leaves them where they were.
   */
  lemma {:induction false} DefaultPriorityKeepsOrder<R>(rules: seq<R>)
    ensures SortByPriority(rules, (rule: R) => DefaultPriority(rule)) == rules
    decreases |rules|
  {
    if rules != [] {
      DefaultPriorityKeepsOrder(rules[1..]);
      assert [rules[0]] + rules[1..] == rules;
    }
  }

  /**
   * With the default quick check no rule is skipped: the engine answers
   * nothing exactly when every rule from `i` on fails.
   */
  lemma DefaultQuickCheckTriesEveryRule<R, S, H, O>(g: Rules<R, S, H, O>, rules: seq<R>, i: nat, hint: H, s: S)
    requires i <= |rules|
    ensures FirstMatchFrom(WithoutQuickCheck(g), rules, i, hint, s).output.None?
      <==> forall j :: i <= j < |rules| ==> g.attempt(rules[j], s).output.None?
  {
    var d := WithoutQuickCheck(g);
    FirstMatchNoneIff(d, rules, i, hint, s);
    assert forall j :: i <= j < |rules| ==> (Wins(d, rules, j, hint, s) <==> g.attempt(rules[j], s).output.Some?);
  }

  /**
   * Priority decides: when the rules are in descending priority order, no
   * rule of strictly higher priority than the winner could have matched.
   */
  lemma HigherPriorityRulesFailed<R, S, H, O>(g: Rules<R, S, H, O>, rules: seq<R>, hint: H, s: S) returns (w: nat)
    requires SortedDescending(rules, g.priority) && FirstMatchFrom(g, rules, 0, hint, s).output.Some?
    ensures w < |rules| && FirstMatchFrom(g, rules, 0, hint, s) == g.attempt(rules[w], s)
    ensures forall k :: 0 <= k < |rules| && g.priority(rules[k]) > g.priority(rules[w]) ==> !Wins(g, rules, k, hint, s)
  {
    w := FirstMatchWinner(g, rules, 0, hint, s);
  }
}
