/**
 * The lexer engine: `Lexer` owns a lexing context and a rule set sorted by
 * descending priority. `NextToken` is the shared first-match step,
 * `Next` is the iterator step with its end-of-input and progress guards,
 * `Tokenize` collects the iterator, and `NextSignal`/`HandleSignal` make the
 * lexer a producer for the streaming pipeline.
 */
module Lexers {
  import opened Common
  import opened TextSlices
  import opened Scanning
  import opened Cursors
  import opened LexContexts
  import opened Priorities
  import opened RuleEngine

  /** A lexing rule set: rules try to match at a cursor state, after peeking one char. */
  type LexRules<!R, Tok> = Rules<R, Scan, Option<char>, Tok>

  /** `t` is reachable from `s` by moving forward through the same input. */
  ghost predicate MovesForward(s: Scan, t: Scan)
  {
    t.Valid() && t.buffer == s.buffer && s.index <= t.index
  }

  /**
   * What every rule meets by construction, since it can only act on its
   * context through the context's operations: whatever it returns, it
   * leaves a valid cursor over the same input, never behind where it began.
   */
  ghost predicate Confined<R, Tok>(g: LexRules<R, Tok>, rules: seq<R>)
  {
    forall i, s: Scan {:trigger g.attempt(rules[i], s)} :: 0 <= i < |rules| && s.Valid() ==> MovesForward(s, g.attempt(rules[i], s).after)
  }

  /** The rule obligation on `quick_check`: `Some(false)` only where the rule fails. */
  ghost predicate QuickChecksSound<R, Tok>(g: LexRules<R, Tok>, rules: seq<R>)
  {
    forall s: Scan {:trigger QuickCheckSoundAt(g, rules, Peek(s), s)} :: s.Valid() ==> QuickCheckSoundAt(g, rules, Peek(s), s)
  }

  /** Sorting only reorders the rules, so it keeps their obligations. */
  lemma SortKeepsConfined<R, Tok>(g: LexRules<R, Tok>, rules: seq<R>)
    requires Confined(g, rules)
    ensures Confined(g, SortByPriority(rules, g.priority))
  {
    SortedFromInput(rules, g.priority);
  }

  /** `next_token`: the first match after one peek. */
  function NextTokenSpec<R, Tok>(g: LexRules<R, Tok>, rules: seq<R>, s: Scan): Attempt<Tok, Scan>
  {
    FirstMatchFrom(g, rules, 0, Peek(s), s)
  }

  /** A failed `next_token` leaves the context as it was; a successful one only moves it forward. */
  lemma NextTokenEffect<R, Tok>(g: LexRules<R, Tok>, rules: seq<R>, s: Scan)
    requires Confined(g, rules) && s.Valid()
    ensures NextTokenSpec(g, rules, s).output.None? ==> NextTokenSpec(g, rules, s).after == s
    ensures MovesForward(s, NextTokenSpec(g, rules, s).after)
  {
    if NextTokenSpec(g, rules, s).output.Some? {
      var w := FirstMatchWinner(g, rules, 0, Peek(s), s);
    }
  }

  /**
   * `Iterator::next`: nothing at the end of input (no rule is tried);
   * otherwise `next_token`, with a token discarded when the byte offset did
   * not move.
   */
  function NextSpec<R, Tok>(g: LexRules<R, Tok>, rules: seq<R>, s: Scan): Attempt<Tok, Scan>
  {
    if IsEof(s) then Attempt(None, s)
    else
      var a := NextTokenSpec(g, rules, s);
      if a.output.Some? && a.after.current == s.current then Attempt(None, a.after)
      else a
  }

  /**
   * Every token `next` returns was produced away from the end of input
   * and moved the cursor; when it returns nothing, the context is as it
   * was.
   */
  lemma NextProgress<R, Tok>(g: LexRules<R, Tok>, rules: seq<R>, s: Scan)
    requires Confined(g, rules) && s.Valid()
    ensures MovesForward(s, NextSpec(g, rules, s).after)
    ensures NextSpec(g, rules, s).output.Some? ==> !IsEof(s) && NextSpec(g, rules, s).after.index > s.index
    ensures NextSpec(g, rules, s).output.None? ==> NextSpec(g, rules, s).after == s
  {
    if !IsEof(s) {
      NextTokenEffect(g, rules, s);
      var a := NextTokenSpec(g, rules, s);
      CurrentMonotone(s, a.after);
    }
  }

  /** `tokenize`: the tokens of `next` until it returns nothing, and the state it stops in. */
  function TokenizeSpec<R, Tok>(g: LexRules<R, Tok>, rules: seq<R>, s: Scan): (r: (seq<Tok>, Scan))
    requires Confined(g, rules) && s.Valid()
    ensures MovesForward(s, r.1)
    ensures |r.0| <= |s.buffer| - s.index
    decreases |s.buffer| - s.index
  {
    NextProgress(g, rules, s);
    var a := NextSpec(g, rules, s);
    if a.output.None? then ([], a.after)
    else
      var rest := TokenizeSpec(g, rules, a.after);
      ([a.output.value] + rest.0, rest.1)
  }

  /** A token of `next` is one some rule produced away from the end of input. */
  lemma NextProducedAwayFromEnd<R, Tok>(g: LexRules<R, Tok>, rules: seq<R>, s: Scan) returns (w: nat)
    requires NextSpec(g, rules, s).output.Some?
    ensures !IsEof(s) && w < |rules| && g.attempt(rules[w], s) == NextSpec(g, rules, s)
  {
    w := FirstMatchWinner(g, rules, 0, Peek(s), s);
  }

  /** No token, or one that is not `bad`. */
  predicate NotBad<Tok>(output: Option<Tok>, bad: Tok -> bool)
  {
    output.Some? ==> !bad(output.value)
  }

  /** One step of `tokenize`: the token of `next`, then the tokens from where it left the cursor. */
  lemma TokenizeStep<R, Tok>(g: LexRules<R, Tok>, rules: seq<R>, s: Scan)
    requires Confined(g, rules) && s.Valid()
    ensures NextSpec(g, rules, s).output.None? ==> TokenizeSpec(g, rules, s) == ([], s)
    ensures NextSpec(g, rules, s).output.Some? ==>
      NextSpec(g, rules, s).after.Valid() &&
      TokenizeSpec(g, rules, s)
        == ([NextSpec(g, rules, s).output.value] + TokenizeSpec(g, rules, NextSpec(g, rules, s).after).0,
            TokenizeSpec(g, rules, NextSpec(g, rules, s).after).1)
  {
    NextProgress(g, rules, s);
  }

  /**
   * No token of `tokenize` comes from a rule that fires only at the end of
   * input: if no rule produces a `bad` token away from the end, none is in
   * the output.
   */
  lemma {:induction false} TokenizeAvoids<R, Tok>(g: LexRules<R, Tok>, rules: seq<R>, s: Scan, bad: Tok -> bool)
    requires Confined(g, rules) && s.Valid()
    requires forall i, t: Scan :: 0 <= i < |rules| && t.Valid() && !IsEof(t) ==> NotBad(g.attempt(rules[i], t).output, bad)
    ensures NoneBad(TokenizeSpec(g, rules, s).0, bad)
    decreases |s.buffer| - s.index
  {
    TokenizeStep(g, rules, s);
    NextProgress(g, rules, s);
    var a := NextSpec(g, rules, s);
    if a.output.Some? {
      TokenizeAvoids(g, rules, a.after, bad);
      var w := NextProducedAwayFromEnd(g, rules, s);
      assert NotBad(a.output, bad);
      NoneBadCons(a.output.value, TokenizeSpec(g, rules, a.after).0, bad);
    }
  }

  /** The loop of `tokenize`: the tokens collected so far, then those of the rest. */
  lemma TokenizeAccumulate<R, Tok>(g: LexRules<R, Tok>, rules: seq<R>, s: Scan, tokens: seq<Tok>, all: seq<Tok>, last: Scan)
    requires Confined(g, rules) && s.Valid()
    requires all == tokens + TokenizeSpec(g, rules, s).0 && last == TokenizeSpec(g, rules, s).1
    ensures MovesForward(s, NextSpec(g, rules, s).after)
    ensures NextSpec(g, rules, s).output.None? ==> all == tokens && last == s && NextSpec(g, rules, s).after == s
    ensures NextSpec(g, rules, s).output.Some? ==>
      var t := NextSpec(g, rules, s).after;
      s.index < t.index
      && all == (tokens + [NextSpec(g, rules, s).output.value]) + TokenizeSpec(g, rules, t).0
      && last == TokenizeSpec(g, rules, t).1
  {
    NextProgress(g, rules, s);
    TokenizeStep(g, rules, s);
    var a := NextSpec(g, rules, s);
    if a.output.Some? {
      AppendAssoc(tokens, a.output.value, TokenizeSpec(g, rules, a.after).0);
    } else {
      assert tokens + [] == tokens;
    }
  }

  lemma AppendAssoc<T>(xs: seq<T>, x: T, ys: seq<T>)
    ensures xs + ([x] + ys) == (xs + [x]) + ys
  {
  }

  /** No element of `tokens` is `bad`. */
  predicate NoneBad<Tok>(tokens: seq<Tok>, bad: Tok -> bool)
  {
    forall k :: 0 <= k < |tokens| ==> !bad(tokens[k])
  }

  lemma NoneBadCons<Tok>(t: Tok, rest: seq<Tok>, bad: Tok -> bool)
    requires !bad(t) && NoneBad(rest, bad)
    ensures NoneBad([t] + rest, bad)
  {
    forall k | 0 <= k < |[t] + rest| ensures !bad(([t] + rest)[k]) {
      if k > 0 {
        assert ([t] + rest)[k] == rest[k - 1];
      }
    }
  }

  /** `Outbound::next_signal` for a lexer: a token, else end of input, else nothing. */
  function SignalSpec<R, Tok, Node>(g: LexRules<R, Tok>, rules: seq<R>, s: Scan): (Option<Signal<Tok, Node>>, Scan)
  {
    var a := NextSpec(g, rules, s);
    if a.output.Some? then (Some(SupplyToken(a.output.value)), a.after)
    else if IsEof(a.after) then (Some(EndOfInput), a.after)
    else (None, a.after)
  }

  /**
   * The lexer's signals: a token whenever `next` gives one; otherwise
   * `EndOfInput` exactly at the end of input, and nothing when stuck
   * before it.
   */
  lemma SignalCases<R, Tok, Node>(g: LexRules<R, Tok>, rules: seq<R>, s: Scan)
    requires Confined(g, rules) && s.Valid()
    ensures var (sig, t) := SignalSpec<R, Tok, Node>(g, rules, s);
      MovesForward(s, t)
      && (sig.Some? && sig.value.SupplyToken? <==> NextSpec(g, rules, s).output.Some?)
      && (sig == Some(EndOfInput) <==> NextSpec(g, rules, s).output.None? && IsEof(s))
      && (sig.None? <==> NextSpec(g, rules, s).output.None? && !IsEof(s))
      && (sig.None? ==> t == s)
  {
    NextProgress(g, rules, s);
  }

  class Lexer<R, Tok> {
    const context: DefaultContext
    const grammar: LexRules<R, Tok>
    const rules: seq<R>

    ghost predicate Valid()
      reads this, context, context.cursor
    {
      context.Valid() && Confined(grammar, rules)
    }

    function State(): Scan
      reads this, context, context.cursor
    {
      context.State()
    }

    /** `Lexer::new`: the rules are stable-sorted by descending priority. */
    constructor (context: DefaultContext, grammar: LexRules<R, Tok>, rules: seq<R>)
      requires context.Valid() && Confined(grammar, rules)
      ensures this.context == context && this.grammar == grammar
      ensures this.rules == SortByPriority(rules, grammar.priority)
      ensures Valid()
    {
      this.context := context;
      this.grammar := grammar;
      this.rules := SortByPriority(rules, grammar.priority);
      new;
      SortKeepsConfined(grammar, rules);
    }

    /** `Lexer::from_str`: a lexer over a fresh default context. */
    constructor FromStr(input: string, grammar: LexRules<R, Tok>, rules: seq<R>)
      requires Confined(grammar, rules)
      ensures fresh(context) && fresh(context.cursor) && State() == Start(input)
      ensures this.grammar == grammar && this.rules == SortByPriority(rules, grammar.priority)
      ensures Valid()
    {
      context := new DefaultContext(input);
      this.grammar := grammar;
      this.rules := SortByPriority(rules, grammar.priority);
      new;
      SortKeepsConfined(grammar, rules);
    }

    /** `next_token`: skip rules ruled out by the peeked char, try the rest from a checkpoint. */
    method NextToken() returns (token: Option<Tok>)
      requires Valid()
      modifies context.cursor
      ensures Valid()
      ensures Attempt(token, State()) == NextTokenSpec(grammar, rules, old(State()))
    {
      var first := context.Peek();
      ghost var s := State();
      var i := 0;
      while i < |rules|
        invariant i <= |rules| && Valid() && State() == s
        invariant FirstMatchFrom(grammar, rules, 0, first, s) == FirstMatchFrom(grammar, rules, i, first, s)
      {
        var rule := rules[i];
        if grammar.quickCheck(rule, first) == Some(false) {
          i := i + 1;
          continue;
        }
        var checkpoint := context.Checkpoint();
        var a := grammar.attempt(rule, context.State());
        assert MovesForward(s, grammar.attempt(rules[i], s).after);
        context.cursor.SetState(a.after);
        if a.output.Some? {
          return a.output;
        }
        context.Restore(checkpoint);
        i := i + 1;
      }
      token := None;
    }

    /** `Iterator::next`. */
    method Next() returns (token: Option<Tok>)
      requires Valid()
      modifies context.cursor
      ensures Valid()
      ensures Attempt(token, State()) == NextSpec(grammar, rules, old(State()))
    {
      if context.IsEof() {
        return None;
      }
      var offsetBefore := context.Offset();
      token := NextToken();
      if token.Some? && context.Offset() == offsetBefore {
        token := None;
      }
    }

    /** `TokenProducer::poll_token`: the iterator step. */
    method PollToken() returns (token: Option<Tok>)
      requires Valid()
      modifies context.cursor
      ensures Valid()
      ensures Attempt(token, State()) == NextSpec(grammar, rules, old(State()))
    {
      token := Next();
    }

    /** `size_hint`: no lower bound, and the number of remaining chars as the upper bound. */
    function SizeHint(): (hint: (nat, Option<nat>))
      reads this, context, context.cursor
      requires Valid()
      ensures hint.0 == 0 && hint.1 == Some(|context.cursor.buffer| - context.cursor.index)
      ensures |TokenizeSpec(grammar, rules, State()).0| <= hint.1.value
    {
      (0, Some(|context.cursor.Remaining().Text()|))
    }

    /** `tokenize`: collect the iterator. */
    method Tokenize() returns (tokens: seq<Tok>)
      requires Valid()
      modifies context.cursor
      ensures Valid()
      ensures (tokens, State()) == TokenizeSpec(grammar, rules, old(State()))
    {
      tokens := [];
      ghost var whole := TokenizeSpec(grammar, rules, State());
      while true
        invariant Valid()
        invariant whole.0 == tokens + TokenizeSpec(grammar, rules, State()).0
        invariant whole.1 == TokenizeSpec(grammar, rules, State()).1
        decreases |context.cursor.buffer| - context.cursor.index
      {
        ghost var before := State();
        TokenizeAccumulate(grammar, rules, before, tokens, whole.0, whole.1);
        var token := Next();
        if token.None? {
          break;
        }
        tokens := tokens + [token.value];
      }
    }

    /** `Outbound::next_signal`. */
    method NextSignal<Node>() returns (signal: Option<Signal<Tok, Node>>)
      requires Valid()
      modifies context.cursor
      ensures Valid()
      ensures (signal, State()) == SignalSpec(grammar, rules, old(State()))
    {
      var token := PollToken();
      if token.Some? {
        return Some(SupplyToken(token.value));
      }
      if context.IsEof() {
        return Some(EndOfInput);
      }
      signal := None;
    }

    /** `Inbound::handle_signal`: no signal changes the lexer (an abort is only logged). */
    method HandleSignal<Node>(signal: Signal<Tok, Node>)
      requires Valid()
      ensures Valid() && State() == old(State())
    {
    }
  }
}
