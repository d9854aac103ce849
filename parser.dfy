/**
 * The parser engine: `Parser` owns a token context and a rule set sorted
 * by descending priority. `NextNode` is the first-match step shared with
 * the lexer, `Parse` collects nodes until the end of input or until no
 * progress is made, and `PushToken`/`Finish` make the parser a consumer
 * fed by a streaming pipeline, each followed by `drain_ready_nodes`.
 */
module Parsers {
  import opened Common
  import opened Priorities
  import opened RuleEngine
  import opened ParseContexts

  /** A parsing rule set: rules try to parse at a token state, after peeking the current token. */
  type ParseRules<!R, !Tok, Ast> = Rules<R, Toks<Tok>, Option<Tok>, Ast>

  /** `t` is reachable from `s` by moving the cursor forward over the same tokens. */
  ghost predicate Follows<Tok>(s: Toks<Tok>, t: Toks<Tok>)
  {
    t.Valid() && t.tokens == s.tokens && t.finished == s.finished && s.current <= t.current
  }

  /**
   * What every parsing rule meets by construction, since it can only act
   * on the context through its operations: it leaves the context over the
   * same tokens, never behind where it began.
   */
  ghost predicate Confined<R, Tok(!new), Ast>(g: ParseRules<R, Tok, Ast>, rules: seq<R>)
  {
    forall i, s: Toks<Tok> {:trigger g.attempt(rules[i], s)} :: 0 <= i < |rules| && s.Valid() ==> Follows(s, g.attempt(rules[i], s).after)
  }

  /** Every successful attempt consumes at least one token. */
  ghost predicate Advancing<R, Tok(!new), Ast>(g: ParseRules<R, Tok, Ast>, rules: seq<R>)
  {
    forall i, s: Toks<Tok> {:trigger g.attempt(rules[i], s)} :: 0 <= i < |rules| && s.Valid() && g.attempt(rules[i], s).output.Some?
      ==> s.current < g.attempt(rules[i], s).after.current
  }

  /** Sorting only reorders the rules, so it keeps their obligations. */
  lemma SortKeepsConfined<R, Tok(!new), Ast>(g: ParseRules<R, Tok, Ast>, rules: seq<R>)
    requires Confined(g, rules)
    ensures Confined(g, SortByPriority(rules, g.priority))
  {
    SortedFromInput(rules, g.priority);
  }

  /** The default `AstNode::span`: the node's position as both ends, when it has one. */
  function DefaultSpan(position: Option<Position>): (span: Option<(Position, Position)>)
    ensures span.Some? <==> position.Some?
    ensures span.Some? ==> span.value.0 == position.value && span.value.1 == position.value
  {
    match position
    case None => None
    case Some(p) => Some((p, p))
  }

  /** The default `StatefulNode::transition`: reports no change and leaves the node as it is. */
  function DefaultTransition<Node, Trigger>(node: Node, trigger: Trigger): (r: (bool, Node))
    ensures !r.0 && r.1 == node
  {
    (false, node)
  }

  /** `next_node`: the first match after one peek of the current token. */
  function NextNodeSpec<R, Tok(!new), Ast>(g: ParseRules<R, Tok, Ast>, rules: seq<R>, s: Toks<Tok>): Attempt<Ast, Toks<Tok>>
  {
    FirstMatchFrom(g, rules, 0, PeekTok(s), s)
  }

  /**
   * A failed `next_node` leaves the token index (indeed the whole context)
   * as it was; a successful one only moves the cursor forward.
   */
  lemma NextNodeEffect<R, Tok(!new), Ast>(g: ParseRules<R, Tok, Ast>, rules: seq<R>, s: Toks<Tok>)
    requires Confined(g, rules) && s.Valid()
    ensures NextNodeSpec(g, rules, s).output.None? ==> NextNodeSpec(g, rules, s).after == s
    ensures Follows(s, NextNodeSpec(g, rules, s).after)
  {
    if NextNodeSpec(g, rules, s).output.Some? {
      var w := FirstMatchWinner(g, rules, 0, PeekTok(s), s);
    }
  }

  /** Two states over the same tokens with the same cursor are the same state. */
  lemma SameCursorSameState<Tok>(s: Toks<Tok>, t: Toks<Tok>)
    requires Follows(s, t) && t.current == s.current
    ensures t == s
  {
  }

  /**
   * `parse`: while not at the end of input, record the node of
   * `next_node`; stop when it gives none (a failed `next_node` never
   * moves the cursor) or gives one without moving the token index.
   */
  function ParseSpec<R, Tok(!new), Ast>(g: ParseRules<R, Tok, Ast>, rules: seq<R>, s: Toks<Tok>): (r: (seq<Ast>, Toks<Tok>))
    requires Confined(g, rules) && s.Valid()
    ensures Follows(s, r.1)
    ensures |r.0| <= |s.tokens| - s.current
    decreases |s.tokens| - s.current
  {
    if TokEof(s) then ([], s)
    else
      NextNodeEffect(g, rules, s);
      var a := NextNodeSpec(g, rules, s);
      if a.output.None? || a.after.current == s.current then ([], a.after)
      else
        var rest := ParseSpec(g, rules, a.after);
        ([a.output.value] + rest.0, rest.1)
  }

  /**
   * `parse` stops only at the end of input or where `next_node` cannot
   * make progress: there it either fails or succeeds without consuming.
   */
  lemma {:induction false} ParseStopsStuck<R, Tok(!new), Ast>(g: ParseRules<R, Tok, Ast>, rules: seq<R>, s: Toks<Tok>)
    requires Confined(g, rules) && s.Valid()
    ensures var t := ParseSpec(g, rules, s).1;
      TokEof(t) || NextNodeSpec(g, rules, t).after == t
    decreases |s.tokens| - s.current
  {
    if !TokEof(s) {
      NextNodeEffect(g, rules, s);
      var a := NextNodeSpec(g, rules, s);
      if a.output.None? || a.after.current == s.current {
        SameCursorSameState(s, a.after);
      } else {
        ParseStopsStuck(g, rules, a.after);
      }
    }
  }

  /**
   * Every node `parse` records consumed tokens, so it records at most one
   * per token; and when every rule that matches consumes and some rule
   * matches wherever tokens are left, a finished context is parsed to
   * its end.
   */
  lemma {:induction false} ParseConsumesAll<R, Tok(!new), Ast>(g: ParseRules<R, Tok, Ast>, rules: seq<R>, s: Toks<Tok>)
    requires Confined(g, rules) && Advancing(g, rules) && s.Valid() && s.finished
    requires forall t: Toks<Tok> :: Follows(s, t) && t.current < |t.tokens| ==> NextNodeSpec(g, rules, t).output.Some?
    ensures ParseSpec(g, rules, s).1.current == |s.tokens|
    decreases |s.tokens| - s.current
  {
    if !TokEof(s) {
      NextNodeEffect(g, rules, s);
      var a := NextNodeSpec(g, rules, s);
      var w := FirstMatchWinner(g, rules, 0, PeekTok(s), s);
      assert s.current < a.after.current;
      ParseConsumesAll(g, rules, a.after);
    }
  }

  /** The loop of `parse`: the nodes collected so far, then those of the rest. */
  lemma ParseAccumulate<R, Tok(!new), Ast>(g: ParseRules<R, Tok, Ast>, rules: seq<R>, s: Toks<Tok>, nodes: seq<Ast>, all: seq<Ast>, last: Toks<Tok>)
    requires Confined(g, rules) && s.Valid() && !TokEof(s)
    requires all == nodes + ParseSpec(g, rules, s).0 && last == ParseSpec(g, rules, s).1
    ensures Follows(s, NextNodeSpec(g, rules, s).after)
    ensures NextNodeSpec(g, rules, s).output.None? ==> NextNodeSpec(g, rules, s).after == s
    ensures var a := NextNodeSpec(g, rules, s);
      (a.output.None? || a.after.current == s.current) ==> all == nodes && last == a.after
    ensures var a := NextNodeSpec(g, rules, s);
      (a.output.Some? && a.after.current != s.current) ==>
        all == (nodes + [a.output.value]) + ParseSpec(g, rules, a.after).0
        && last == ParseSpec(g, rules, a.after).1
  {
    NextNodeEffect(g, rules, s);
    var a := NextNodeSpec(g, rules, s);
    if a.output.Some? && a.after.current != s.current {
      assert nodes + ([a.output.value] + ParseSpec(g, rules, a.after).0) == (nodes + [a.output.value]) + ParseSpec(g, rules, a.after).0;
    } else {
      assert nodes + [] == nodes;
    }
  }

  /**
   * `drain_ready_nodes`, allowed at most `fuel` nodes: every node of
   * `next_node` is recorded, with no progress check, until it gives none
   * (which never moves the cursor). `None` when it would go on.
   */
  function DrainSpec<R, Tok(!new), Ast>(g: ParseRules<R, Tok, Ast>, rules: seq<R>, s: Toks<Tok>, fuel: nat): (r: Option<(seq<Ast>, Toks<Tok>)>)
    ensures r.Some? ==> |r.value.0| <= fuel
    decreases fuel
  {
    var a := NextNodeSpec(g, rules, s);
    if a.output.None? then Some(([], a.after))
    else if fuel == 0 then None
    else Prepend([a.output.value], DrainSpec(g, rules, a.after, fuel - 1))
  }

  /**
   * Without a progress check the drain never ends once a rule succeeds
   * without consuming: it records the same node again and again.
   */
  lemma {:induction false} DrainNeverEndsOnStuckSuccess<R, Tok(!new), Ast>(g: ParseRules<R, Tok, Ast>, rules: seq<R>, s: Toks<Tok>, fuel: nat)
    requires Confined(g, rules) && s.Valid()
    requires NextNodeSpec(g, rules, s).output.Some? && NextNodeSpec(g, rules, s).after.current == s.current
    ensures DrainSpec(g, rules, s, fuel).None?
    decreases fuel
  {
    NextNodeEffect(g, rules, s);
    SameCursorSameState(s, NextNodeSpec(g, rules, s).after);
    if fuel > 0 {
      DrainNeverEndsOnStuckSuccess(g, rules, s, fuel - 1);
    }
  }

  /**
   * When every rule that matches consumes, the drain ends within one node
   * per buffered token and gives what `parse` gives on the finished
   * context: no rule can match past the last token.
   */
  lemma {:induction false} DrainAgreesWithParse<R, Tok(!new), Ast>(g: ParseRules<R, Tok, Ast>, rules: seq<R>, s: Toks<Tok>)
    requires Confined(g, rules) && Advancing(g, rules) && s.Valid() && s.finished
    ensures DrainSpec(g, rules, s, |s.tokens| - s.current) == Some(ParseSpec(g, rules, s))
    decreases |s.tokens| - s.current
  {
    NextNodeEffect(g, rules, s);
    var a := NextNodeSpec(g, rules, s);
    if a.output.Some? {
      var w := FirstMatchWinner(g, rules, 0, PeekTok(s), s);
      assert s.current < a.after.current;
      DrainAgreesWithParse(g, rules, a.after);
      DrainFuelMonotone(g, rules, a.after, |s.tokens| - a.after.current, |s.tokens| - s.current - 1);
    }
  }

  /** More fuel never changes a finished drain: the bound only cuts runs off. */
  lemma {:induction false} DrainFuelMonotone<R, Tok(!new), Ast>(g: ParseRules<R, Tok, Ast>, rules: seq<R>, s: Toks<Tok>, fuel: nat, more: nat)
    requires fuel <= more && DrainSpec(g, rules, s, fuel).Some?
    ensures DrainSpec(g, rules, s, more) == DrainSpec(g, rules, s, fuel)
    decreases fuel
  {
    var a := NextNodeSpec(g, rules, s);
    if a.output.Some? {
      DrainFuelMonotone(g, rules, a.after, fuel - 1, more - 1);
    }
  }

  /** The loop of `drain_ready_nodes`: the nodes collected so far, then those of the rest. */
  lemma DrainAccumulate<R, Tok(!new), Ast>(g: ParseRules<R, Tok, Ast>, rules: seq<R>, s: Toks<Tok>, nodes: seq<Ast>, fuel: nat)
    requires |nodes| <= fuel
    ensures var a := NextNodeSpec(g, rules, s);
      var rest := DrainSpec(g, rules, s, fuel - |nodes|);
      (a.output.None? ==> Prepend(nodes, rest) == Some((nodes, a.after)))
      && (a.output.Some? && |nodes| == fuel ==> Prepend(nodes, rest).None?)
      && (a.output.Some? && |nodes| < fuel ==>
            Prepend(nodes, rest) == Prepend(nodes + [a.output.value], DrainSpec(g, rules, a.after, fuel - |nodes + [a.output.value]|)))
  {
    var a := NextNodeSpec(g, rules, s);
    if a.output.None? {
      assert nodes + [] == nodes;
    } else if |nodes| < fuel {
      PrependTwice(nodes, a.output.value, DrainSpec(g, rules, a.after, fuel - |nodes| - 1));
    }
  }

  class Parser<R, Tok(!new), Ast> {
    const context: TokenContext<Tok>
    const grammar: ParseRules<R, Tok, Ast>
    const rules: seq<R>

    ghost predicate Valid()
      reads this, context
    {
      context.Valid() && Confined(grammar, rules)
    }

    function State(): Toks<Tok>
      reads this, context
    {
      context.State()
    }

    /** `Parser::new`: the rules are stable-sorted by descending priority. */
    constructor (context: TokenContext<Tok>, grammar: ParseRules<R, Tok, Ast>, rules: seq<R>)
      requires context.Valid() && Confined(grammar, rules)
      ensures this.context == context && this.grammar == grammar
      ensures this.rules == SortByPriority(rules, grammar.priority)
      ensures Valid()
    {
      this.context := context;
      this.grammar := grammar;
      this.rules := SortByPriority(rules, grammar.priority);
      new;
      SortKeepsConfined(grammar, rules);
    }

    /** `Parser::from_tokens`: a parser over a fresh default context holding the tokens. */
    constructor FromTokens(tokens: seq<Tok>, grammar: ParseRules<R, Tok, Ast>, rules: seq<R>)
      requires Confined(grammar, rules)
      ensures fresh(context) && State() == Toks(tokens, 0, true)
      ensures this.grammar == grammar && this.rules == SortByPriority(rules, grammar.priority)
      ensures Valid()
    {
      context := new TokenContext(tokens);
      this.grammar := grammar;
      this.rules := SortByPriority(rules, grammar.priority);
      new;
      SortKeepsConfined(grammar, rules);
    }

    /** `next_node`: skip rules ruled out by the peeked token, try the rest from a checkpoint. */
    method NextNode() returns (node: Option<Ast>)
      requires Valid()
      modifies context
      ensures Valid()
      ensures Attempt(node, State()) == NextNodeSpec(grammar, rules, old(State()))
    {
      var first := context.Peek();
      ghost var s := State();
      var i := 0;
      while i < |rules|
        invariant i <= |rules| && Valid() && State() == s
        invariant FirstMatchFrom(grammar, rules, 0, first, s) == FirstMatchFrom(grammar, rules, i, first, s)
      {
        var rule := rules[i];
        if grammar.quickCheck(rule, first) == Some(false) {
          i := i + 1;
          continue;
        }
        var checkpoint := context.Checkpoint();
        var a := grammar.attempt(rule, context.State());
        assert Follows(s, grammar.attempt(rules[i], s).after);
        context.SetState(a.after);
        if a.output.Some? {
          return a.output;
        }
        context.Restore(checkpoint);
        i := i + 1;
      }
      node := None;
    }

    /** `parse_one`: exactly `next_node`. */
    method ParseOne() returns (node: Option<Ast>)
      requires Valid()
      modifies context
      ensures Valid()
      ensures Attempt(node, State()) == NextNodeSpec(grammar, rules, old(State()))
    {
      node := NextNode();
    }

    /** `parse`: the nodes in production order, and the state it stops in. */
    method Parse() returns (nodes: seq<Ast>)
      requires Valid()
      modifies context
      ensures Valid()
      ensures (nodes, State()) == ParseSpec(grammar, rules, old(State()))
    {
      nodes := [];
      ghost var whole := ParseSpec(grammar, rules, State());
      while !context.IsEof()
        invariant Valid()
        invariant whole.0 == nodes + ParseSpec(grammar, rules, State()).0
        invariant whole.1 == ParseSpec(grammar, rules, State()).1
        decreases |context.tokens| - context.current
      {
        var before := context.TokenIndex();
        ParseAccumulate(grammar, rules, State(), nodes, whole.0, whole.1);
        var node := NextNode();
        if node.Some? {
          if context.TokenIndex() == before {
            return;
          }
          nodes := nodes + [node.value];
        } else if context.TokenIndex() == before {
          return;
        }
      }
      assert nodes + [] == nodes;
    }

    /**
     * `drain_ready_nodes`, allowed at most `fuel` nodes: `done` tells
     * whether the loop ended by itself, and then the nodes are all of them.
     */
    method DrainReadyNodes(fuel: nat) returns (nodes: seq<Ast>, done: bool)
      requires Valid()
      modifies context
      ensures Valid()
      ensures done ==> DrainSpec(grammar, rules, old(State()), fuel) == Some((nodes, State()))
      ensures !done ==> DrainSpec(grammar, rules, old(State()), fuel).None?
    {
      nodes := [];
      ghost var whole := DrainSpec(grammar, rules, State(), fuel);
      while true
        invariant Valid() && |nodes| <= fuel
        invariant whole == Prepend(nodes, DrainSpec(grammar, rules, State(), fuel - |nodes|))
        decreases fuel - |nodes|
      {
        DrainAccumulate(grammar, rules, State(), nodes, fuel);
        var before := context.TokenIndex();
        var node := NextNode();
        if node.Some? {
          if |nodes| == fuel {
            return nodes, false;
          }
          nodes := nodes + [node.value];
        } else if context.TokenIndex() == before {
          return nodes, true;
        }
      }
    }

    /** `TokenConsumer::push_token`: push, then drain. */
    method PushToken(token: Tok, fuel: nat) returns (nodes: seq<Ast>, done: bool)
      requires Valid()
      modifies context
      ensures Valid()
      ensures var pushed := Toks(old(State()).tokens + [token], old(State()).current, false);
        (done ==> DrainSpec(grammar, rules, pushed, fuel) == Some((nodes, State())))
        && (!done ==> DrainSpec(grammar, rules, pushed, fuel).None?)
    {
      context.PushToken(token);
      nodes, done := DrainReadyNodes(fuel);
    }

    /** `TokenConsumer::finish`: mark finished, then drain. */
    method Finish(fuel: nat) returns (nodes: seq<Ast>, done: bool)
      requires Valid()
      modifies context
      ensures Valid()
      ensures var marked := old(State()).(finished := true);
        (done ==> DrainSpec(grammar, rules, marked, fuel) == Some((nodes, State())))
        && (!done ==> DrainSpec(grammar, rules, marked, fuel).None?)
    {
      context.MarkFinished();
      nodes, done := DrainReadyNodes(fuel);
    }
  }
}
