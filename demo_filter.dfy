/**
 * The pipeline demo's `FilteringProducer`: a producer that wraps the
 * calculator lexer and drops whitespace tokens, both when polled for a
 * token and when asked for its next signal; every other signal, and every
 * signal sent to it, passes through unchanged.
 */
module DemoFiltering {
  import opened Common
  import opened Scanning
  import opened Lexers
  import opened DemoLexing

  /** `filter_token`: whitespace is dropped, any other token kept. */
  function FilterToken(t: CalcToken): (r: Option<CalcToken>)
    ensures r.None? <==> t.Whitespace?
    ensures r.Some? ==> r.value == t
  {
    match t
    case Whitespace(_) => None
    case _ => Some(t)
  }

  /** `tokens` with the whitespace tokens removed, in order. */
  function WithoutWhitespace(tokens: seq<CalcToken>): (r: seq<CalcToken>)
    ensures |r| <= |tokens|
    ensures forall k :: 0 <= k < |r| ==> !r[k].Whitespace?
  {
    if tokens == [] then []
    else (if tokens[0].Whitespace? then [] else [tokens[0]]) + WithoutWhitespace(tokens[1..])
  }

  /** `poll_token`: the lexer's next token that is not whitespace, skipping any before it. */
  function FilteredPoll<R>(g: LexRules<R, CalcToken>, rules: seq<R>, s: Scan): (r: (Option<CalcToken>, Scan))
    requires Confined(g, rules) && s.Valid()
    ensures MovesForward(s, r.1)
    ensures r.0.Some? ==> !r.0.value.Whitespace?
    decreases |s.buffer| - s.index
  {
    NextProgress(g, rules, s);
    var a := NextSpec(g, rules, s);
    if a.output.None? then (None, a.after)
    else
      match FilterToken(a.output.value)
      case Some(t) => (Some(t), a.after)
      case None => FilteredPoll(g, rules, a.after)
  }

  /**
   * Polling the filter is reading the lexer's whole token stream with the
   * whitespace taken out: the first token it gives is the first
   * non-whitespace token `tokenize` would give, and when it gives none
   * there is none left.
   */
  lemma {:induction false} FilteredPollIsTokenizeFiltered<R>(g: LexRules<R, CalcToken>, rules: seq<R>, s: Scan)
    requires Confined(g, rules) && s.Valid()
    ensures var (t, after) := FilteredPoll(g, rules, s);
      (t.None? ==> WithoutWhitespace(TokenizeSpec(g, rules, s).0) == [])
      && (t.Some? ==> WithoutWhitespace(TokenizeSpec(g, rules, s).0) == [t.value] + WithoutWhitespace(TokenizeSpec(g, rules, after).0))
    decreases |s.buffer| - s.index
  {
    NextProgress(g, rules, s);
    var a := NextSpec(g, rules, s);
    if a.output.Some? {
      var tokens := TokenizeSpec(g, rules, s).0;
      assert tokens == [a.output.value] + TokenizeSpec(g, rules, a.after).0;
      assert tokens[1..] == TokenizeSpec(g, rules, a.after).0;
      if a.output.value.Whitespace? {
        FilteredPollIsTokenizeFiltered(g, rules, a.after);
      }
    }
  }

  /**
   * `Outbound::next_signal` of the filter: the lexer's signals, with every
   * whitespace token skipped; the loop ends when the lexer has no signal.
   */
  function FilteredSignal<R, Node>(g: LexRules<R, CalcToken>, rules: seq<R>, s: Scan): (r: (Option<Signal<CalcToken, Node>>, Scan))
    requires Confined(g, rules) && s.Valid()
    ensures MovesForward(s, r.1)
    ensures r.0.Some? && r.0.value.SupplyToken? ==> !r.0.value.token.Whitespace?
    decreases |s.buffer| - s.index
  {
    SignalCases<R, CalcToken, Node>(g, rules, s);
    NextProgress(g, rules, s);
    var (signal, t) := SignalSpec<R, CalcToken, Node>(g, rules, s);
    if signal.None? then (None, t)
    else if signal.value.SupplyToken? && FilterToken(signal.value.token).None? then FilteredSignal<R, Node>(g, rules, t)
    else (signal, t)
  }

  /**
   * The filter's signal is its polled token as a `SupplyToken`; when it
   * has no token, `EndOfInput` exactly at the end of input and no signal
   * when the lexer is stuck before it. Either way it reads the same input.
   */
  lemma {:induction false} FilteredSignalIsPoll<R, Node>(g: LexRules<R, CalcToken>, rules: seq<R>, s: Scan)
    requires Confined(g, rules) && s.Valid()
    ensures var (signal, after) := FilteredSignal<R, Node>(g, rules, s);
      var (t, polled) := FilteredPoll(g, rules, s);
      after == polled
      && (t.Some? ==> signal == Some(SupplyToken(t.value)))
      && (t.None? && IsEof(polled) ==> signal == Some(EndOfInput))
      && (t.None? && !IsEof(polled) ==> signal.None?)
    decreases |s.buffer| - s.index
  {
    SignalCases<R, CalcToken, Node>(g, rules, s);
    NextProgress(g, rules, s);
    var a := NextSpec(g, rules, s);
    if a.output.Some? && a.output.value.Whitespace? {
      FilteredSignalIsPoll<R, Node>(g, rules, a.after);
    }
  }

  class FilteringProducer<R> {
    const inner: Lexer<R, CalcToken>

    ghost predicate Valid()
      reads this, inner, inner.context, inner.context.cursor
    {
      inner.Valid()
    }

    /** `FilteringProducer::new`. */
    constructor (inner: Lexer<R, CalcToken>)
      ensures this.inner == inner
    {
      this.inner := inner;
    }

    /** `TokenProducer::poll_token`: poll the lexer until a token that is not whitespace, or none. */
    method PollToken() returns (token: Option<CalcToken>)
      requires Valid()
      modifies inner.context.cursor
      ensures Valid()
      ensures (token, inner.State()) == FilteredPoll(inner.grammar, inner.rules, old(inner.State()))
    {
      ghost var whole := FilteredPoll(inner.grammar, inner.rules, inner.State());
      while true
        invariant Valid()
        invariant whole == FilteredPoll(inner.grammar, inner.rules, inner.State())
        decreases |inner.context.cursor.buffer| - inner.context.cursor.index
      {
        ghost var before := inner.State();
        NextProgress(inner.grammar, inner.rules, before);
        var next := inner.PollToken();
        if next.None? {
          return None;
        }
        var kept := FilterToken(next.value);
        if kept.Some? {
          return kept;
        }
      }
    }

    /** `Outbound::next_signal`: the lexer's signals until one that is not a whitespace token. */
    method NextSignal<Node>() returns (signal: Option<Signal<CalcToken, Node>>)
      requires Valid()
      modifies inner.context.cursor
      ensures Valid()
      ensures (signal, inner.State()) == FilteredSignal<R, Node>(inner.grammar, inner.rules, old(inner.State()))
    {
      ghost var whole := FilteredSignal<R, Node>(inner.grammar, inner.rules, inner.State());
      while true
        invariant Valid()
        invariant whole == FilteredSignal<R, Node>(inner.grammar, inner.rules, inner.State())
        decreases |inner.context.cursor.buffer| - inner.context.cursor.index
      {
        ghost var before := inner.State();
        SignalCases<R, CalcToken, Node>(inner.grammar, inner.rules, before);
        NextProgress(inner.grammar, inner.rules, before);
        var next := inner.NextSignal<Node>();
        if next.None? {
          return None;
        }
        if next.value.SupplyToken? {
          var kept := FilterToken(next.value.token);
          if kept.Some? {
            return Some(SupplyToken(kept.value));
          }
        } else {
          return next;
        }
      }
    }

    /** `Inbound::handle_signal`: passed to the lexer, which no signal changes. */
    method HandleSignal<Node>(signal: Signal<CalcToken, Node>)
      requires Valid()
      ensures Valid() && inner.State() == old(inner.State())
    {
      inner.HandleSignal(signal);
    }
  }
}
