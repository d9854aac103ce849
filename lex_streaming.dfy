/**
 * `StreamingLexContext`: a lexing context fed incrementally. Its buffer
 * grows at the end through `push_char`/`push_str`, and the end of input is
 * only reached once the producer has called `mark_finished` and the cursor
 * has passed the last pushed char. Every cursor operation is proved against
 * the function of the same name in `Scanning`.
 */
module StreamingLex {
  import opened Common
  import opened TextSlices
  import opened Scanning

  /** Appending to the buffer keeps every state over its old contents valid. */
  lemma ExtendKeepsValid(s: Scan, more: string)
    requires s.Valid()
    ensures Scan(s.buffer + more, s.index, s.current, s.position).Valid()
  {
    assert (s.buffer + more)[..s.index] == s.buffer[..s.index];
  }

  /** A checkpoint taken before a push can still be restored after it. */
  lemma PushKeepsMarks(buffer: string, more: string, m: Mark)
    requires MarkValidFor(buffer, m)
    ensures MarkValidFor(buffer + more, m)
  {
    ExtendKeepsValid(Scan(buffer, m.index, m.current, m.position), more);
  }

  /** The streaming end-of-input test: finished, and nothing left in the buffer. */
  predicate StreamEof(s: Scan, finished: bool)
  {
    finished && IsEof(s)
  }

  /**
   * Once finished, the streaming context ends exactly where a cursor over
   * the same text ends; before that it never ends, even with the buffer
   * exhausted.
   */
  lemma StreamEofAgreesWhenFinished(s: Scan, finished: bool)
    requires s.Valid()
    ensures StreamEof(s, finished) <==> finished && s.current >= Utf8Size(s.buffer)
    ensures finished ==> (StreamEof(s, finished) <==> IsEof(s))
    ensures !finished ==> !StreamEof(s, finished)
  {
    IsEofIsByteTest(s);
  }

  class StreamingLexContext {
    var buffer: string
    /** The char index matching the byte index `current` (model only). */
    var index: nat
    var current: nat
    var finished: bool
    var position: Position

    function State(): Scan
      reads this
    {
      Scan(buffer, index, current, position)
    }

    ghost predicate Valid()
      reads this
    {
      State().Valid()
    }

    /** `StreamingLexContext::new` (and `Default`): empty, not finished. */
    constructor ()
      ensures Valid() && State() == Start([]) && !finished
    {
      buffer := [];
      index := 0;
      current := 0;
      finished := false;
      position := StartPosition();
    }

    /** `From<String>` and `From<&str>`: the whole input, already finished. */
    constructor FromStr(input: string)
      ensures Valid() && State() == Start(input) && finished
    {
      buffer := input;
      index := 0;
      current := 0;
      finished := true;
      position := StartPosition();
    }

    /** `push_char`: one more char at the end; more input may follow. */
    method PushChar(ch: char)
      requires Valid()
      modifies this
      ensures Valid() && !finished
      ensures State() == old(State()).(buffer := old(buffer) + [ch])
    {
      ExtendKeepsValid(State(), [ch]);
      buffer := buffer + [ch];
      finished := false;
    }

    /** `push_str`: more text at the end; more input may follow. */
    method PushStr(text: string)
      requires Valid()
      modifies this
      ensures Valid() && !finished
      ensures State() == old(State()).(buffer := old(buffer) + text)
    {
      ExtendKeepsValid(State(), text);
      buffer := buffer + text;
      finished := false;
    }

    /** `mark_finished`: no more input will arrive. */
    method MarkFinished()
      requires Valid()
      modifies this
      ensures Valid() && finished && State() == old(State())
    {
      finished := true;
    }

    /** `peek`: the char at the byte index, if the buffer holds one. */
    function Peek(): (c: Option<char>)
      reads this
      requires Valid()
      ensures c == Scanning.Peek(State())
    {
      IsEofIsByteTest(State());
      if index >= |buffer| then None else Some(buffer[index])
    }

    /** `advance`: as the cursor's, with the offset set from the byte index. */
    method Advance() returns (c: Option<char>)
      requires Valid()
      modifies this
      ensures Valid() && finished == old(finished)
      ensures (c, State()) == Scanning.Advance(old(State()))
    {
      c := Peek();
      if c.None? {
        return;
      }
      var ch := c.value;
      PositionAfterSnoc(buffer, index);
      current := current + Utf8Len(ch);
      index := index + 1;
      if ch == '\n' {
        position := Position(position.line + 1, 1, position.offset);
      } else {
        position := Position(position.line, position.column + 1, position.offset);
      }
      position := position.(offset := current);
    }

    /** `position`. */
    function CurrentPosition(): (p: Position)
      reads this
      requires Valid()
      ensures p == PositionAfter(buffer[..index])
    {
      position
    }

    /** `is_eof`: finished, and the byte index at the end of the buffer. */
    function IsEof(): (eof: bool)
      reads this
      requires Valid()
      ensures eof <==> finished && current >= Utf8Size(buffer)
      ensures eof <==> StreamEof(State(), finished)
    {
      StreamEofAgreesWhenFinished(State(), finished);
      finished && index >= |buffer|
    }

    /** `consume_while(pred)`: the loop of `peek`/`advance`, then the slice passed over. */
    method ConsumeWhile(pred: char -> bool) returns (slice: TextSlice)
      requires Valid()
      modifies this
      ensures Valid() && finished == old(finished)
      ensures (slice, State()) == Scanning.ConsumeWhile(old(State()), pred)
    {
      var start := index;
      while true
        invariant Valid() && old(index) == start <= index && buffer == old(buffer)
        invariant finished == old(finished)
        invariant ConsumeWhileEnd(old(State()), pred) == ConsumeWhileEnd(State(), pred)
        decreases |buffer| - index
      {
        var c := Peek();
        if c.None? || !pred(c.value) {
          break;
        }
        var _ := Advance();
      }
      slice := TextSlice(buffer, start, index);
    }

    /** `checkpoint`: the byte index and the position. */
    function Checkpoint(): (m: Mark)
      reads this
      requires Valid()
      ensures MarkValidFor(buffer, m) && m == CheckpointOf(State())
    {
      Mark(index, current, position)
    }

    /** `restore`: byte index and position come back from the mark. */
    method Restore(m: Mark)
      requires Valid() && MarkValidFor(buffer, m)
      modifies this
      ensures Valid() && finished == old(finished)
      ensures State() == Scanning.Restore(old(State()), m)
    {
      index := m.index;
      current := m.current;
      position := m.position;
    }

    /** `offset`: the byte index. */
    function Offset(): (n: nat)
      reads this
      requires Valid()
      ensures n == position.offset && n == Utf8Size(buffer[..index])
    {
      PositionAfterCounts(buffer[..index]);
      current
    }
  }
}
