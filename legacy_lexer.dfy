/**
 * The older lexer engine (`src/lexer.rs`): rules sorted by descending
 * priority, every rule tried in order from a checkpoint (there is no
 * quick check), and a `tokenize` loop that stops only when no rule
 * matches. The loop has no end-of-input or progress guard, so the model
 * runs it with a fuel bound: `None` means the loop was still running when
 * the fuel ran out.
 */
module LegacyLexing {
  import opened Common
  import opened Scanning
  import opened Priorities
  import opened RuleEngine
  import opened LexContexts
  import opened Lexers
  import opened LegacyRules

  /** `next_token` of the older lexer: every rule is attempted. */
  function LegacyNextSpec<R, Tok>(g: LexRules<R, Tok>, rules: seq<R>, s: Scan): (r: Attempt<Tok, Scan>)
    ensures r.output.None? ==> r.after == s
  {
    FirstMatchFrom(WithoutQuickCheck(g), rules, 0, Peek(s), s)
  }

  /** It fails exactly when every rule fails. */
  lemma LegacyNextNoneIff<R, Tok>(g: LexRules<R, Tok>, rules: seq<R>, s: Scan)
    ensures LegacyNextSpec(g, rules, s).output.None?
      <==> forall j :: 0 <= j < |rules| ==> g.attempt(rules[j], s).output.None?
  {
    var h := WithoutQuickCheck(g);
    FirstMatchNoneIff(h, rules, 0, Peek(s), s);
    forall j | 0 <= j < |rules| ensures Wins(h, rules, j, Peek(s), s) <==> g.attempt(rules[j], s).output.Some? {
      assert !Skipped(h, rules[j], Peek(s));
    }
  }

  /** A success is what some rule returned, so it only moves the cursor forward. */
  lemma LegacyNextEffect<R, Tok>(g: LexRules<R, Tok>, rules: seq<R>, s: Scan)
    requires Confined(g, rules) && s.Valid()
    ensures MovesForward(s, LegacyNextSpec(g, rules, s).after)
  {
    if LegacyNextSpec(g, rules, s).output.Some? {
      var w := FirstMatchWinner(WithoutQuickCheck(g), rules, 0, Peek(s), s);
    }
  }

  /**
   * With quick checks that keep their promise, the newer `next_token`
   * gives the same answer as the older one, which has none.
   */
  lemma LegacyNextAgrees<R, Tok>(g: LexRules<R, Tok>, rules: seq<R>, s: Scan)
    requires QuickChecksSound(g, rules) && s.Valid()
    ensures LegacyNextSpec(g, rules, s) == NextTokenSpec(g, rules, s)
  {
    QuickCheckIsOptimisation(g, rules, 0, Peek(s), s);
  }

  /**
   * `tokenize` of the older lexer, allowed at most `fuel` tokens: the
   * tokens and the state it stops in, or `None` when it would go on.
   */
  function LegacyTokenizeSpec<R, Tok>(g: LexRules<R, Tok>, rules: seq<R>, s: Scan, fuel: nat): (r: Option<(seq<Tok>, Scan)>)
    ensures r.Some? ==> |r.value.0| <= fuel
    decreases fuel
  {
    var a := LegacyNextSpec(g, rules, s);
    if a.output.None? then Some(([], s))
    else if fuel == 0 then None
    else Prepend([a.output.value], LegacyTokenizeSpec(g, rules, a.after, fuel - 1))
  }

  /** More fuel never changes a finished run: the bound only cuts runs off. */
  lemma {:induction false} LegacyFuelMonotone<R, Tok>(g: LexRules<R, Tok>, rules: seq<R>, s: Scan, fuel: nat, more: nat)
    requires fuel <= more && LegacyTokenizeSpec(g, rules, s, fuel).Some?
    ensures LegacyTokenizeSpec(g, rules, s, more) == LegacyTokenizeSpec(g, rules, s, fuel)
    decreases fuel
  {
    var a := LegacyNextSpec(g, rules, s);
    if a.output.Some? {
      LegacyFuelMonotone(g, rules, a.after, fuel - 1, more - 1);
    }
  }

  /** Every successful attempt moves the cursor. */
  ghost predicate Advancing<R, Tok>(g: LexRules<R, Tok>, rules: seq<R>)
  {
    forall i, s: Scan {:trigger g.attempt(rules[i], s)} :: 0 <= i < |rules| && s.Valid() && g.attempt(rules[i], s).output.Some?
      ==> s.index < g.attempt(rules[i], s).after.index
  }

  /**
   * When every rule that matches consumes input, the missing guards make
   * no difference: given one token of fuel per remaining char or more, the
   * older `tokenize` finishes, with exactly the tokens and final state of
   * the newer one.
   */
  lemma {:induction false} LegacyAgreesWhenAdvancing<R, Tok>(g: LexRules<R, Tok>, rules: seq<R>, s: Scan, fuel: nat)
    requires Confined(g, rules) && Advancing(g, rules) && QuickChecksSound(g, rules) && s.Valid()
    requires |s.buffer| - s.index <= fuel
    ensures LegacyTokenizeSpec(g, rules, s, fuel) == Some(TokenizeSpec(g, rules, s))
    decreases fuel
  {
    if NextTokenSpec(g, rules, s).output.Some? && !IsEof(s) {
      var t := WinnerAdvances(g, rules, s);
      LegacyAgreesWhenAdvancing(g, rules, t, fuel - 1);
      LegacyAgreesOneMore(g, rules, s, t, fuel);
    } else {
      LegacyAgreesAtStop(g, rules, s, fuel);
    }
  }

  /** Where the newer `next` gives nothing, both loops stop with no tokens. */
  lemma LegacyAgreesAtStop<R, Tok>(g: LexRules<R, Tok>, rules: seq<R>, s: Scan, fuel: nat)
    requires Confined(g, rules) && Advancing(g, rules) && QuickChecksSound(g, rules) && s.Valid()
    requires NextTokenSpec(g, rules, s).output.None? || IsEof(s)
    ensures LegacyTokenizeSpec(g, rules, s, fuel) == Some(TokenizeSpec(g, rules, s))
  {
    LegacyNextAgrees(g, rules, s);
    TokenizeStep(g, rules, s);
    var a := NextTokenSpec(g, rules, s);
    if IsEof(s) && a.output.Some? {
      var t := WinnerAdvances(g, rules, s);
      assert false;
    }
    assert NextSpec(g, rules, s) == a;
  }

  /** A token that moves the cursor: both loops take it and agree from there on. */
  lemma LegacyAgreesOneMore<R, Tok>(g: LexRules<R, Tok>, rules: seq<R>, s: Scan, t: Scan, fuel: nat)
    requires Confined(g, rules) && QuickChecksSound(g, rules) && s.Valid() && !IsEof(s) && 0 < fuel
    requires NextTokenSpec(g, rules, s).output.Some? && t == NextTokenSpec(g, rules, s).after
    requires MovesForward(s, t) && s.index < t.index
    requires LegacyTokenizeSpec(g, rules, t, fuel - 1) == Some(TokenizeSpec(g, rules, t))
    ensures LegacyTokenizeSpec(g, rules, s, fuel) == Some(TokenizeSpec(g, rules, s))
  {
    LegacyNextAgrees(g, rules, s);
    CurrentMonotone(s, t);
    assert NextSpec(g, rules, s) == NextTokenSpec(g, rules, s);
    LegacyStepAgrees(g, rules, s, t, fuel);
  }

  /** One token on, the older loop agrees with the newer one wherever it agrees from the next state. */
  lemma LegacyStepAgrees<R, Tok>(g: LexRules<R, Tok>, rules: seq<R>, s: Scan, t: Scan, f: nat)
    requires Confined(g, rules) && s.Valid() && t.Valid() && 0 < f
    requires LegacyNextSpec(g, rules, s) == NextSpec(g, rules, s) && NextSpec(g, rules, s).output.Some?
    requires t == NextSpec(g, rules, s).after
    requires LegacyTokenizeSpec(g, rules, t, f - 1) == Some(TokenizeSpec(g, rules, t))
    ensures LegacyTokenizeSpec(g, rules, s, f) == Some(TokenizeSpec(g, rules, s))
  {
    TokenizeStep(g, rules, s);
  }

  /** Where every successful attempt moves the cursor, so does a successful `next_token`. */
  lemma WinnerAdvances<R, Tok>(g: LexRules<R, Tok>, rules: seq<R>, s: Scan) returns (t: Scan)
    requires Confined(g, rules) && Advancing(g, rules) && s.Valid()
    requires NextTokenSpec(g, rules, s).output.Some?
    ensures t == NextTokenSpec(g, rules, s).after && MovesForward(s, t) && s.index < t.index
  {
    var w := FirstMatchWinner(g, rules, 0, Peek(s), s);
    t := NextTokenSpec(g, rules, s).after;
  }

  /** At the end of input, the only default rule that matches is `EofRule`, which consumes nothing. */
  lemma OnlyEofAtEnd(rule: SimpleRule, s: Scan)
    requires s.Valid() && IsEof(s)
    requires rule.OperatorRule? ==> "" !in rule.operators
    ensures MatchRule(rule, s).output.Some? ==> rule.EofRule? && MatchRule(rule, s) == Attempt(Some(Eof(s.position)), s)
  {
    if rule.OperatorRule? {
      OperatorLongestFirst(rule.operators, s, Bytes);
      forall op | op in rule.operators ensures PeekedFor(s, op, Bytes) != op {
        PeekedText(s, Width(Bytes, op));
      }
    }
  }

  /** The default rules in the order `Lexer::new` puts them. */
  function SortedDefaultRules(classes: CharClasses): (rules: seq<SimpleRule>)
    ensures multiset(rules) == multiset(DefaultRules(classes))
  {
    SortIsPermutation(DefaultRules(classes), SimpleGrammar().priority);
    SortByPriority(DefaultRules(classes), SimpleGrammar().priority)
  }

  /**
   * `Lexer::new` over `default_rules()`: identifiers and numbers first, in
   * registration order (equal priority), then operators, newline,
   * whitespace, and the end-of-input rule last.
   */
  lemma SortedDefaultRulesOrder(classes: CharClasses)
    ensures SortedDefaultRules(classes)
      == [IdentRule(classes), NumberRule, OperatorRule(DefaultOperators), NewlineRule, WhitespaceRule, EofRule]
  {
    var key := SimpleGrammar().priority;
    assert key(OperatorRule(DefaultOperators)) == 5 && key(IdentRule(classes)) == 10;
    RegisteredOrderSorted(key, IdentRule(classes), OperatorRule(DefaultOperators));
  }

  /** The sort of `default_rules()` step by step, for any identifier rule and operator rule. */
  lemma RegisteredOrderSorted(key: SimpleRule -> int, ident: SimpleRule, op: SimpleRule)
    requires key(NewlineRule) == 2 && key(WhitespaceRule) == 1 && key(ident) == 10
    requires key(NumberRule) == 10 && key(op) == 5 && key(EofRule) == -1
    ensures SortByPriority([NewlineRule, WhitespaceRule, ident, NumberRule, op, EofRule], key)
      == [ident, NumberRule, op, NewlineRule, WhitespaceRule, EofRule]
  {
    var rules := [NewlineRule, WhitespaceRule, ident, NumberRule, op, EofRule];
    assert rules[5..] == [EofRule] && rules[4..] == [op, EofRule];
    assert rules[3..] == [NumberRule, op, EofRule] && rules[2..] == [ident, NumberRule, op, EofRule];
    assert rules[1..] == [WhitespaceRule, ident, NumberRule, op, EofRule];
    assert SortByPriority(rules[5..], key) == [EofRule];
    assert SortByPriority(rules[4..], key) == [op, EofRule];
    assert SortByPriority(rules[3..], key) == [NumberRule, op, EofRule];
    var sorted2 := [ident, NumberRule, op, EofRule];
    assert SortByPriority(rules[2..], key) == sorted2;
    InsertAfterHigher(WhitespaceRule, [ident, NumberRule, op], [EofRule], key);
    assert [ident, NumberRule, op] + [EofRule] == sorted2;
    var sorted1 := [ident, NumberRule, op] + [WhitespaceRule] + [EofRule];
    assert SortByPriority(rules[1..], key) == sorted1;
    InsertAfterHigher(NewlineRule, [ident, NumberRule, op], [WhitespaceRule, EofRule], key);
    assert [ident, NumberRule, op] + [WhitespaceRule, EofRule] == sorted1;
  }

  /** A rule of the default set that is an operator rule has the default operators, none of them empty. */
  lemma DefaultOperatorRule(classes: CharClasses, r: SimpleRule)
    requires r in multiset(DefaultRules(classes)) && r.OperatorRule?
    ensures "" !in r.operators
  {
    var i :| 0 <= i < 6 && DefaultRules(classes)[i] == r;
    assert r == OperatorRule(DefaultOperators);
  }

  /** Sorting keeps `EofRule` among the default rules, and adds no operator rule with an empty operator. */
  lemma SortedDefaultRulesHold(classes: CharClasses) returns (k: nat)
    ensures k < |SortedDefaultRules(classes)| && SortedDefaultRules(classes)[k] == EofRule
    ensures forall j :: (0 <= j < |SortedDefaultRules(classes)| && SortedDefaultRules(classes)[j].OperatorRule?
      ==> "" !in SortedDefaultRules(classes)[j].operators)
  {
    var rules := SortedDefaultRules(classes);
    assert DefaultRules(classes)[5] == EofRule;
    assert EofRule in multiset(rules);
    k :| 0 <= k < |rules| && rules[k] == EofRule;
    forall j | 0 <= j < |rules| && rules[j].OperatorRule? ensures "" !in rules[j].operators {
      assert rules[j] in multiset(DefaultRules(classes));
      DefaultOperatorRule(classes, rules[j]);
    }
  }

  /** At the end of input the older `next_token` with the default rules returns `Eof` and consumes nothing. */
  lemma EofTokenAtEnd(classes: CharClasses, s: Scan)
    requires s.Valid() && IsEof(s)
    ensures LegacyNextSpec(SimpleGrammar(), SortedDefaultRules(classes), s) == Attempt(Some(Eof(s.position)), s)
  {
    var g := SimpleGrammar();
    var rules := SortedDefaultRules(classes);
    var k := SortedDefaultRulesHold(classes);
    LegacyNextNoneIff(g, rules, s);
    assert g.attempt(rules[k], s).output.Some?;
    var w := FirstMatchWinner(WithoutQuickCheck(g), rules, 0, Peek(s), s);
    OnlyEofAtEnd(rules[w], s);
  }

  /** Every rule set over the simple rules keeps to the cursor's operations. */
  lemma SimpleRulesConfined(rules: seq<SimpleRule>)
    ensures Confined(SimpleGrammar(), rules)
  {
  }

  /**
   * As written, `tokenize` with the default rules never returns once the
   * input is used up: `EofRule` matches again and again without moving.
   * However much fuel is given, the run is cut off.
   */
  lemma LegacyTokenizeNeverEndsAtEof(classes: CharClasses, s: Scan, fuel: nat)
    requires s.Valid() && IsEof(s)
    ensures LegacyTokenizeSpec(SimpleGrammar(), SortedDefaultRules(classes), s, fuel).None?
  {
    EofTokenAtEnd(classes, s);
    LegacyTokenizeSpins(SimpleGrammar(), SortedDefaultRules(classes), s, fuel);
  }

  /** A state where the older `next_token` yields a token without moving is one the older loop never leaves. */
  lemma {:induction false} LegacyTokenizeSpins<R, Tok>(g: LexRules<R, Tok>, rules: seq<R>, s: Scan, fuel: nat)
    requires LegacyNextSpec(g, rules, s).output.Some? && LegacyNextSpec(g, rules, s).after == s
    ensures LegacyTokenizeSpec(g, rules, s, fuel).None?
    decreases fuel
  {
    if fuel > 0 {
      LegacyTokenizeSpins(g, rules, s, fuel - 1);
    }
  }

  /**
   * Hence it returns only when stuck on a char no rule accepts, never
   * after lexing the whole input, and never on empty input.
   */
  lemma LegacyTokenizeReturnsOnlyWhenStuck(classes: CharClasses, s: Scan, fuel: nat)
    requires s.Valid()
    ensures var r := LegacyTokenizeSpec(SimpleGrammar(), SortedDefaultRules(classes), s, fuel);
      r.Some? ==> !IsEof(r.value.1)
  {
    var g := SimpleGrammar();
    var rules := SortedDefaultRules(classes);
    var r := LegacyTokenizeSpec(g, rules, s, fuel);
    SimpleRulesConfined(rules);
    LegacyTokenizeEndsStuck(g, rules, s, fuel);
    if r.Some? && IsEof(r.value.1) {
      EofTokenAtEnd(classes, r.value.1);
      assert false;
    }
  }

  /** The older `tokenize` returns only from a valid state where no rule matches. */
  lemma {:induction false} LegacyTokenizeEndsStuck<R, Tok>(g: LexRules<R, Tok>, rules: seq<R>, s: Scan, fuel: nat)
    requires Confined(g, rules) && s.Valid()
    ensures var r := LegacyTokenizeSpec(g, rules, s, fuel);
      r.Some? ==> r.value.1.Valid() && LegacyNextSpec(g, rules, r.value.1).output.None?
    decreases fuel
  {
    var a := LegacyNextSpec(g, rules, s);
    if a.output.Some? && fuel > 0 {
      LegacyNextEffect(g, rules, s);
      LegacyTokenizeEndsStuck(g, rules, a.after, fuel - 1);
    }
  }

  /**
   * The corrected loop is the newer engine's `tokenize`, whose end-of-input
   * guard stops before `EofRule` is tried: over the default rules it
   * always finishes, and no `Eof` token appears in its output.
   */
  lemma GuardedTokenizeHasNoEof(classes: CharClasses, s: Scan)
    requires s.Valid()
    ensures Confined(SimpleGrammar(), SortedDefaultRules(classes))
    ensures NoneBad(TokenizeSpec(SimpleGrammar(), SortedDefaultRules(classes), s).0, (t: SimpleToken) => t.Eof?)
  {
    var rules := SortedDefaultRules(classes);
    SimpleRulesConfined(rules);
    forall i, t: Scan | 0 <= i < |rules| && t.Valid() && !IsEof(t)
      ensures NotBad(SimpleGrammar().attempt(rules[i], t).output, (t: SimpleToken) => t.Eof?)
    {
      EofOnlyAtEnd(rules[i], t);
    }
    TokenizeAvoids(SimpleGrammar(), rules, s, (t: SimpleToken) => t.Eof?);
  }

  /** Only `EofRule` produces `Eof`, and only at the end of input. */
  lemma EofOnlyAtEnd(rule: SimpleRule, s: Scan)
    requires !IsEof(s)
    ensures MatchRule(rule, s).output.Some? ==> !MatchRule(rule, s).output.value.Eof?
  {
  }

  /** One step of the older `tokenize` loop, on the accumulated tokens. */
  lemma LegacyTokenizeAccumulate<R, Tok>(g: LexRules<R, Tok>, rules: seq<R>, s: Scan, tokens: seq<Tok>, fuel: nat)
    requires |tokens| <= fuel
    ensures var a := LegacyNextSpec(g, rules, s);
      var rest := LegacyTokenizeSpec(g, rules, s, fuel - |tokens|);
      (a.output.None? ==> Prepend(tokens, rest) == Some((tokens, s)))
      && (a.output.Some? && |tokens| == fuel ==> rest.None?)
      && (a.output.Some? && |tokens| < fuel ==>
            Prepend(tokens, rest) == Prepend(tokens + [a.output.value], LegacyTokenizeSpec(g, rules, a.after, fuel - |tokens + [a.output.value]|)))
  {
    var a := LegacyNextSpec(g, rules, s);
    if a.output.None? {
      assert tokens + [] == tokens;
    } else if |tokens| < fuel {
      PrependTwice(tokens, a.output.value, LegacyTokenizeSpec(g, rules, a.after, fuel - |tokens| - 1));
    }
  }

  class LegacyLexer<R, Tok> {
    const context: DefaultContext
    const grammar: LexRules<R, Tok>
    const rules: seq<R>

    ghost predicate Valid()
      reads this, context, context.cursor
    {
      context.Valid() && Confined(grammar, rules)
    }

    function State(): Scan
      reads this, context, context.cursor
    {
      context.State()
    }

    /** `Lexer::new`: the rules are stable-sorted by descending priority. */
    constructor (context: DefaultContext, grammar: LexRules<R, Tok>, rules: seq<R>)
      requires context.Valid() && Confined(grammar, rules)
      ensures this.context == context && this.grammar == grammar
      ensures this.rules == SortByPriority(rules, grammar.priority)
      ensures Valid()
    {
      this.context := context;
      this.grammar := grammar;
      this.rules := SortByPriority(rules, grammar.priority);
      new;
      SortKeepsConfined(grammar, rules);
    }

    /** `Lexer::from_str`: a lexer over a fresh default context. */
    constructor FromStr(input: string, grammar: LexRules<R, Tok>, rules: seq<R>)
      requires Confined(grammar, rules)
      ensures fresh(context) && fresh(context.cursor) && State() == Start(input)
      ensures this.grammar == grammar && this.rules == SortByPriority(rules, grammar.priority)
      ensures Valid()
    {
      context := new DefaultContext(input);
      this.grammar := grammar;
      this.rules := SortByPriority(rules, grammar.priority);
      new;
      SortKeepsConfined(grammar, rules);
    }

    /** `next_token`: each rule in turn from a checkpoint, restored after a failure. */
    method NextToken() returns (token: Option<Tok>)
      requires Valid()
      modifies context.cursor
      ensures Valid()
      ensures Attempt(token, State()) == LegacyNextSpec(grammar, rules, old(State()))
    {
      ghost var s := State();
      var i := 0;
      while i < |rules|
        invariant i <= |rules| && Valid() && State() == s
        invariant LegacyNextSpec(grammar, rules, s) == FirstMatchFrom(WithoutQuickCheck(grammar), rules, i, Peek(s), s)
      {
        var checkpoint := context.Checkpoint();
        var a := grammar.attempt(rules[i], context.State());
        assert MovesForward(s, grammar.attempt(rules[i], s).after);
        context.cursor.SetState(a.after);
        if a.output.Some? {
          return a.output;
        }
        context.Restore(checkpoint);
        i := i + 1;
      }
      token := None;
    }

    /**
     * `tokenize`, allowed at most `fuel` tokens: `done` tells whether the
     * loop ended by itself, and then the tokens are all of them.
     */
    method Tokenize(fuel: nat) returns (tokens: seq<Tok>, done: bool)
      requires Valid()
      modifies context.cursor
      ensures Valid()
      ensures done ==> LegacyTokenizeSpec(grammar, rules, old(State()), fuel) == Some((tokens, State()))
      ensures !done ==> LegacyTokenizeSpec(grammar, rules, old(State()), fuel).None?
    {
      tokens := [];
      ghost var whole := LegacyTokenizeSpec(grammar, rules, State(), fuel);
      while true
        invariant Valid() && |tokens| <= fuel
        invariant whole == Prepend(tokens, LegacyTokenizeSpec(grammar, rules, State(), fuel - |tokens|))
        decreases fuel - |tokens|
      {
        LegacyTokenizeAccumulate(grammar, rules, State(), tokens, fuel);
        var token := NextToken();
        if token.None? {
          return tokens, true;
        }
        if |tokens| == fuel {
          return tokens, false;
        }
        tokens := tokens + [token.value];
      }
    }
  }
}
