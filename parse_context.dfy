/**
 * The parsing context: a token vector with a cursor. One class models
 * both the parser's `DefaultContext`, which holds every token from the
 * start, and `StreamingParseContext`, which is fed tokens one by one and
 * is at its end only once `mark_finished` was called. A `DefaultContext`
 * is the streaming one with `finished` set and never pushed to.
 *
 * Tokens carry no position the context can read (the token position
 * helper always answers `None`), so the context's position stays the
 * default position for ever.
 */
module ParseContexts {
  import opened Common

  /** The state of a token cursor: the tokens so far, the cursor, and whether more can come. */
  datatype Toks<Tok> = Toks(tokens: seq<Tok>, current: nat, finished: bool)
  {
    predicate Valid()
    {
      current <= |tokens|
    }
  }

  /** `peek`: the token at the cursor, if any. */
  function PeekTok<Tok>(s: Toks<Tok>): (r: Option<Tok>)
    ensures r.Some? <==> s.current < |s.tokens|
    ensures r.Some? ==> r.value == s.tokens[s.current]
  {
    PeekAt(s, 0)
  }

  /** `peek_at(k)`: the token `k` places after the cursor, if any. */
  function PeekAt<Tok>(s: Toks<Tok>, k: nat): (r: Option<Tok>)
    ensures r.Some? <==> s.current + k < |s.tokens|
    ensures r.Some? ==> r.value == s.tokens[s.current + k]
  {
    if s.current + k < |s.tokens| then Some(s.tokens[s.current + k]) else None
  }

  /** `advance`: the token at the cursor and the cursor one further on, or nothing at the end. */
  function AdvanceTok<Tok>(s: Toks<Tok>): (r: (Option<Tok>, Toks<Tok>))
  {
    if s.current < |s.tokens| then (Some(s.tokens[s.current]), s.(current := s.current + 1))
    else (None, s)
  }

  /** `is_eof`: no more input will come and the cursor has passed every token. */
  predicate TokEof<Tok>(s: Toks<Tok>)
  {
    s.finished && s.current >= |s.tokens|
  }

  /** `advance` consumes exactly the peeked token, and does nothing at the end of the buffer. */
  lemma AdvanceTokTakesPeek<Tok>(s: Toks<Tok>)
    requires s.Valid()
    ensures AdvanceTok(s).0 == PeekTok(s)
    ensures AdvanceTok(s).1.Valid() && AdvanceTok(s).1.tokens == s.tokens && AdvanceTok(s).1.finished == s.finished
    ensures PeekTok(s).Some? ==> AdvanceTok(s).1.current == s.current + 1
    ensures PeekTok(s).None? ==> AdvanceTok(s).1 == s
  {
  }

  class TokenContext<Tok> {
    var tokens: seq<Tok>
    var current: nat
    var position: Position
    var finished: bool

    function State(): Toks<Tok>
      reads this
    {
      Toks(tokens, current, finished)
    }

    ghost predicate Valid()
      reads this
    {
      State().Valid() && position == StartPosition()
    }

    /** Parser `DefaultContext::new` / `from_token_iter`: every token, cursor at the first. */
    constructor (tokens: seq<Tok>)
      ensures Valid() && State() == Toks(tokens, 0, true)
    {
      this.tokens := tokens;
      current := 0;
      position := StartPosition();
      finished := true;
    }

    /** `StreamingParseContext::new`: no tokens yet, and marked finished. */
    constructor Streaming()
      ensures Valid() && State() == Toks([], 0, true)
    {
      tokens := [];
      current := 0;
      position := StartPosition();
      finished := true;
    }

    /** `push_token`: one more token at the end; more may follow. */
    method PushToken(token: Tok)
      requires Valid()
      modifies this
      ensures Valid() && State() == Toks(old(tokens) + [token], old(current), false)
    {
      tokens := tokens + [token];
      finished := false;
    }

    /** `mark_finished`: no more tokens will arrive. */
    method MarkFinished()
      requires Valid()
      modifies this
      ensures Valid() && State() == old(State()).(finished := true)
    {
      finished := true;
    }

    /** `peek`. */
    function Peek(): (t: Option<Tok>)
      reads this
      requires Valid()
      ensures t == PeekTok(State())
    {
      if current < |tokens| then Some(tokens[current]) else None
    }

    /** `peek_at`. */
    function PeekAhead(k: nat): (t: Option<Tok>)
      reads this
      requires Valid()
      ensures t == PeekAt(State(), k)
    {
      if current + k < |tokens| then Some(tokens[current + k]) else None
    }

    /** `advance`. */
    method Advance() returns (t: Option<Tok>)
      requires Valid()
      modifies this
      ensures Valid() && (t, State()) == AdvanceTok(old(State()))
    {
      if current >= |tokens| {
        return None;
      }
      t := Some(tokens[current]);
      current := current + 1;
    }

    /** `position`: never moved from the default, since tokens expose no position. */
    function CurrentPosition(): (p: Position)
      reads this
      requires Valid()
      ensures p == StartPosition()
    {
      position
    }

    /** `is_eof`. */
    function IsEof(): (eof: bool)
      reads this
      requires Valid()
      ensures eof == TokEof(State())
    {
      finished && current >= |tokens|
    }

    /** `token_index`. */
    function TokenIndex(): (i: nat)
      reads this
      requires Valid()
      ensures i == State().current
    {
      current
    }

    /** `checkpoint`: the token index and the position. */
    function Checkpoint(): (m: Checkpoint)
      reads this
      requires Valid()
      ensures m.index == State().current && m.position == StartPosition()
    {
      Common.Checkpoint(current, position)
    }

    /**
     * `restore`: back to a checkpoint of this context. Tokens are only
     * ever added, so every checkpoint taken earlier is still in range.
     */
    method Restore(m: Checkpoint)
      requires Valid() && m.index <= |tokens| && m.position == StartPosition()
      modifies this
      ensures Valid() && State() == old(State()).(current := m.index)
    {
      current := m.index;
      position := m.position;
    }

    /** What a rule's attempt left behind: only the cursor can have moved. */
    method SetState(s: Toks<Tok>)
      requires Valid() && s.Valid() && s.tokens == tokens && s.finished == finished
      modifies this
      ensures Valid() && State() == s
    {
      current := s.current;
    }
  }

  /** `restore(checkpoint())` puts the context back exactly where it was. */
  method CheckpointRoundTrip<Tok>(ctx: TokenContext<Tok>)
    requires ctx.Valid()
    modifies ctx
    ensures ctx.Valid() && ctx.State() == old(ctx.State())
  {
    var m := ctx.Checkpoint();
    var _ := ctx.Advance();
    ctx.Restore(m);
  }
}
