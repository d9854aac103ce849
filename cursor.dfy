/**
 * `Cursor`: the eager character cursor over a whole input. Its fields are
 * updated in place; every operation is proved against the function of the
 * same name in `Scanning`.
 */
module Cursors {
  import opened Common
  import opened TextSlices
  import opened Scanning

  class Cursor {
    const buffer: string
    /** The char index matching the byte index `current` (model only). */
    var index: nat
    var current: nat
    var position: Position

    function State(): Scan
      reads this
    {
      Scan(buffer, index, current, position)
    }

    ghost predicate Valid()
      reads this
    {
      State().Valid()
    }

    /** `Cursor::new` and `Cursor::with_arc`. */
    constructor (input: string)
      ensures Valid() && State() == Start(input)
    {
      buffer := input;
      index := 0;
      current := 0;
      position := StartPosition();
    }

    /** `position`. */
    function CurrentPosition(): (p: Position)
      reads this
      requires Valid()
      ensures p == PositionAfter(buffer[..index])
    {
      position
    }

    /** `offset`: the byte index, which is the position's offset. */
    function Offset(): (n: nat)
      reads this
      requires Valid()
      ensures n == position.offset && n == Utf8Size(buffer[..index])
    {
      PositionAfterCounts(buffer[..index]);
      current
    }

    /** `is_eof`: the byte index has reached the byte length of the buffer. */
    function IsEof(): (eof: bool)
      reads this
      requires Valid()
      ensures eof <==> current >= Utf8Size(buffer)
      ensures eof <==> Scanning.IsEof(State())
    {
      IsEofIsByteTest(State());
      index >= |buffer|
    }

    /** `peek`. */
    function Peek(): (c: Option<char>)
      reads this
      requires Valid()
      ensures c.Some? <==> index < |buffer|
      ensures c == Scanning.Peek(State())
    {
      if index < |buffer| then Some(buffer[index]) else None
    }

    /** `peek_slice(n)`. */
    function PeekSlice(n: nat): (r: TextSlice)
      reads this
      requires Valid()
      ensures r == Scanning.PeekSlice(State(), n)
      ensures r.Valid() && |r.Text()| <= n
    {
      if index >= |buffer| then TextSlice(buffer, index, index)
      else if index + n <= |buffer| then TextSlice(buffer, index, index + n)
      else TextSlice(buffer, index, |buffer|)
    }

    /** `remaining`. */
    function Remaining(): (r: TextSlice)
      reads this
      requires Valid()
      ensures r.Valid() && r.Text() == buffer[index..]
    {
      TextSlice(buffer, index, |buffer|)
    }

    /** `advance`. */
    method Advance() returns (c: Option<char>)
      requires Valid()
      modifies this
      ensures Valid()
      ensures (c, State()) == Scanning.Advance(old(State()))
    {
      if index >= |buffer| {
        return None;
      }
      var ch := buffer[index];
      PositionAfterSnoc(buffer, index);
      if ch == '\n' {
        position := Position(position.line + 1, 1, position.offset + Utf8Len(ch));
      } else {
        position := Position(position.line, position.column + 1, position.offset + Utf8Len(ch));
      }
      current := current + Utf8Len(ch);
      index := index + 1;
      c := Some(ch);
    }

    /** `advance_by(n)`: a loop of `advance` that stops at the end of input. */
    method AdvanceBy(n: nat) returns (count: nat)
      requires Valid()
      modifies this
      ensures Valid()
      ensures (count, State()) == Scanning.AdvanceBy(old(State()), n)
    {
      count := 0;
      while count < n
        invariant Valid() && count <= n
        invariant Scanning.AdvanceBy(old(State()), n).0 == count + Scanning.AdvanceBy(State(), n - count).0
        invariant Scanning.AdvanceBy(old(State()), n).1 == Scanning.AdvanceBy(State(), n - count).1
        decreases n - count
      {
        AdvanceByStep(State(), n - count);
        var c := Advance();
        if c.None? {
          break;
        }
        count := count + 1;
      }
    }

    /** `consume_while(pred)`: advance while the next char satisfies `pred`; the slice passed over. */
    method ConsumeWhile(pred: char -> bool) returns (slice: TextSlice)
      requires Valid()
      modifies this
      ensures Valid()
      ensures (slice, State()) == Scanning.ConsumeWhile(old(State()), pred)
    {
      var start := index;
      while true
        invariant Valid() && old(index) == start <= index
        invariant ConsumeWhileEnd(old(State()), pred) == ConsumeWhileEnd(State(), pred)
        decreases |buffer| - index
      {
        var c := Peek();
        if c.None? || !pred(c.value) {
          break;
        }
        var _ := Advance();
      }
      slice := TextSlice(buffer, start, index);
    }

    /** `reset`. */
    method Reset()
      requires Valid()
      modifies this
      ensures Valid() && State() == Scanning.Reset(old(State()))
    {
      index := 0;
      current := 0;
      position := StartPosition();
    }

    /** `checkpoint`. */
    function Checkpoint(): (m: Mark)
      reads this
      requires Valid()
      ensures MarkValidFor(buffer, m) && m == CheckpointOf(State())
    {
      Mark(index, current, position)
    }

    /** `restore`: the index and position come back from the mark. */
    method Restore(m: Mark)
      requires Valid() && MarkValidFor(buffer, m)
      modifies this
      ensures Valid() && State() == Scanning.Restore(old(State()), m)
    {
      index := m.index;
      current := m.current;
      position := m.position;
    }

    /**
     * What a rule's `try_match` leaves behind in the cursor it borrows
     * mutably: a state it reached through the operations above.
     */
    method SetState(s: Scan)
      requires Valid() && s.Valid() && s.buffer == buffer
      modifies this
      ensures Valid() && State() == s
    {
      index := s.index;
      current := s.current;
      position := s.position;
    }
  }
}
