/**
 * The lexing context: the `LexContext` default methods, which forward
 * every operation to the context's cursor, and `DefaultContext`, which
 * owns one cursor over the whole input.
 */
module LexContexts {
  import opened Common
  import opened TextSlices
  import opened Scanning
  import opened Cursors

  class DefaultContext {
    const cursor: Cursor

    ghost predicate Valid()
      reads this, cursor
    {
      cursor.Valid()
    }

    function State(): Scan
      reads this, cursor
    {
      cursor.State()
    }

    /** `DefaultContext::new`: a fresh cursor over the input. */
    constructor (input: string)
      ensures fresh(cursor) && Valid() && State() == Start(input)
    {
      cursor := new Cursor(input);
    }

    /** `position`: the cursor's position. */
    function CurrentPosition(): (p: Position)
      reads this, cursor
      requires Valid()
      ensures p == cursor.CurrentPosition() && p == State().position
    {
      cursor.CurrentPosition()
    }

    /** `is_eof`: the cursor's test. */
    function IsEof(): (eof: bool)
      reads this, cursor
      requires Valid()
      ensures eof == cursor.IsEof()
      ensures eof <==> cursor.current >= Utf8Size(cursor.buffer)
    {
      cursor.IsEof()
    }

    /** `peek`: the cursor's next char. */
    function Peek(): (c: Option<char>)
      reads this, cursor
      requires Valid()
      ensures c == cursor.Peek() && c == Scanning.Peek(State())
    {
      cursor.Peek()
    }

    /** `offset`: the cursor's byte offset. */
    function Offset(): (n: nat)
      reads this, cursor
      requires Valid()
      ensures n == cursor.Offset() && n == State().current
    {
      cursor.Offset()
    }

    /** `checkpoint`: the cursor's checkpoint. */
    function Checkpoint(): (m: Mark)
      reads this, cursor
      requires Valid()
      ensures m == cursor.Checkpoint() && MarkValidFor(cursor.buffer, m) && m == CheckpointOf(State())
    {
      cursor.Checkpoint()
    }

    /** `advance`: the cursor's advance. */
    method Advance() returns (c: Option<char>)
      requires Valid()
      modifies cursor
      ensures Valid()
      ensures (c, State()) == Scanning.Advance(old(State()))
    {
      c := cursor.Advance();
    }

    /** `consume_while`: the cursor's consume_while. */
    method ConsumeWhile(pred: char -> bool) returns (slice: TextSlice)
      requires Valid()
      modifies cursor
      ensures Valid()
      ensures (slice, State()) == Scanning.ConsumeWhile(old(State()), pred)
    {
      slice := cursor.ConsumeWhile(pred);
    }

    /** `restore`: the cursor's restore. */
    method Restore(m: Mark)
      requires Valid() && MarkValidFor(cursor.buffer, m)
      modifies cursor
      ensures Valid() && State() == Scanning.Restore(old(State()), m)
    {
      cursor.Restore(m);
    }
  }

  /** `for _ in 0..n { ctx.advance(); }` */
  method AdvanceTimes(ctx: DefaultContext, n: nat)
    requires ctx.Valid()
    modifies ctx.cursor
    ensures ctx.Valid() && ctx.State() == AdvanceRepeat(old(ctx.State()), n)
  {
    var k := 0;
    while k < n
      invariant k <= n && ctx.Valid()
      invariant AdvanceRepeat(ctx.State(), n - k) == AdvanceRepeat(old(ctx.State()), n)
    {
      var _ := ctx.Advance();
      k := k + 1;
    }
  }

  /** `advance` where a char is ahead, stated on the char index alone. */
  method StepChar(ctx: DefaultContext) returns (c: char)
    requires ctx.Valid() && ctx.State().index < |ctx.State().buffer|
    modifies ctx.cursor
    ensures ctx.Valid() && ctx.State().buffer == old(ctx.State()).buffer
    ensures ctx.State().index == old(ctx.State()).index + 1
    ensures c == old(ctx.State()).buffer[old(ctx.State()).index]
  {
    var r := ctx.Advance();
    c := r.value;
  }

  /** `consume_while(p)`, stated on the char index alone: the text of the run and the index where it ends. */
  method ConsumeRun(ctx: DefaultContext, p: char -> bool) returns (text: string)
    requires ctx.Valid()
    modifies ctx.cursor
    ensures ctx.Valid() && ctx.State().buffer == old(ctx.State()).buffer
    ensures ctx.State().index == RunEnd(old(ctx.State()).buffer, old(ctx.State()).index, p)
    ensures text == ctx.State().buffer[old(ctx.State()).index..ctx.State().index]
  {
    ghost var s := ctx.State();
    var slice := ctx.ConsumeWhile(p);
    ConsumeWhileEndsRun(s, p);
    text := slice.Text();
  }
}
