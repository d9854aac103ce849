/**
 * The state of a character cursor as a value, and every cursor operation
 * as a function of that value. The `Cursor` class and the lexing contexts
 * are proved against these functions; the concrete lexing rules are
 * specified with them.
 *
 * `index` counts chars and exists only in the model; `current` is the
 * source's byte index; `position` is the line/column/byte-offset triple.
 */
module Scanning {
  import opened Common
  import opened TextSlices

  /** How scanning one char moves a position. */
  function StepPosition(p: Position, c: char): Position
  {
    if c == '\n' then Position(p.line + 1, 1, p.offset + Utf8Len(c))
    else Position(p.line, p.column + 1, p.offset + Utf8Len(c))
  }

  /** The position reached by scanning `text` from the start of the input. */
  function PositionAfter(text: string): Position
  {
    if text == [] then StartPosition()
    else StepPosition(PositionAfter(text[..|text| - 1]), text[|text| - 1])
  }

  /** The number of line feeds in `text`. */
  function CountNewlines(text: string): nat
  {
    if text == [] then 0
    else CountNewlines(text[..|text| - 1]) + (if text[|text| - 1] == '\n' then 1 else 0)
  }

  /** The number of chars after the last line feed of `text` (all of them if there is none). */
  function CharsSinceNewline(text: string): nat
  {
    if text == [] then 0
    else if text[|text| - 1] == '\n' then 0
    else CharsSinceNewline(text[..|text| - 1]) + 1
  }

  /**
   * Position tracking is exact: the line is one more than the line feeds
   * scanned, the column one more than the chars since the last of them,
   * and the offset is the UTF-8 size of the scanned text.
   */
  lemma {:induction false} PositionAfterCounts(text: string)
    ensures PositionAfter(text).line == 1 + CountNewlines(text)
    ensures PositionAfter(text).column == 1 + CharsSinceNewline(text)
    ensures PositionAfter(text).offset == Utf8Size(text)
    decreases |text|
  {
    if text != [] {
      PositionAfterCounts(text[..|text| - 1]);
    }
  }

  /** Scanning one more char extends the position of the prefix by one step. */
  lemma PositionAfterSnoc(buffer: string, i: nat)
    requires i < |buffer|
    ensures PositionAfter(buffer[..i + 1]) == StepPosition(PositionAfter(buffer[..i]), buffer[i])
  {
    assert buffer[..i + 1][..i] == buffer[..i];
  }

  datatype Scan = Scan(buffer: string, index: nat, current: nat, position: Position)
  {
    /**
     * The cursor invariant: the index is within the buffer, the position
     * is the one reached by scanning the chars before it, and the byte
     * index equals the position's offset.
     */
    ghost predicate Valid()
    {
      index <= |buffer| && position == PositionAfter(buffer[..index]) && current == position.offset
    }
  }

  /** A saved cursor state: char index, byte index and position. */
  datatype Mark = Mark(index: nat, current: nat, position: Position)

  /** A mark that some valid cursor over `buffer` can produce. */
  ghost predicate MarkValidFor(buffer: string, m: Mark)
  {
    Scan(buffer, m.index, m.current, m.position).Valid()
  }

  /** `Cursor::new`: index 0 and `Position::new()`. */
  function Start(input: string): (s: Scan)
    ensures s.Valid() && s.buffer == input
    ensures s.index == 0 && s.current == 0 && s.position == Position(1, 1, 0)
  {
    Scan(input, 0, 0, StartPosition())
  }

  /** `is_eof`, judged on the char index. */
  predicate IsEof(s: Scan)
  {
    s.index >= |s.buffer|
  }

  /** On a valid cursor the char test agrees with the source's byte test `current >= buffer.len()`. */
  lemma IsEofIsByteTest(s: Scan)
    requires s.Valid()
    ensures IsEof(s) <==> s.current >= Utf8Size(s.buffer)
  {
    PositionAfterCounts(s.buffer[..s.index]);
    assert s.buffer[..|s.buffer|] == s.buffer;
    if s.index < |s.buffer| {
      Utf8SizePrefixMonotone(s.buffer, s.index, |s.buffer|);
    }
  }

  /** `peek`: the char at the cursor, if any. */
  function Peek(s: Scan): (c: Option<char>)
    ensures c.Some? <==> s.index < |s.buffer|
    ensures c.Some? ==> c.value == s.buffer[s.index]
  {
    if s.index < |s.buffer| then Some(s.buffer[s.index]) else None
  }

  /**
   * `advance`: nothing at the end of input; otherwise the char at the
   * cursor, with the index moved by one char and the byte index and
   * offset by its UTF-8 length, on a new line after a line feed.
   */
  function Advance(s: Scan): (r: (Option<char>, Scan))
    ensures IsEof(s) ==> r == (None, s)
    ensures !IsEof(s) ==> r.0 == Some(s.buffer[s.index])
    ensures !IsEof(s) ==> r.1.buffer == s.buffer && r.1.index == s.index + 1
    ensures !IsEof(s) ==> r.1.current == s.current + Utf8Len(s.buffer[s.index])
    ensures !IsEof(s) && s.buffer[s.index] == '\n' ==>
      r.1.position == Position(s.position.line + 1, 1, s.position.offset + 1)
    ensures !IsEof(s) && s.buffer[s.index] != '\n' ==>
      r.1.position == Position(s.position.line, s.position.column + 1,
                               s.position.offset + Utf8Len(s.buffer[s.index]))
    ensures s.Valid() ==> r.1.Valid()
  {
    if IsEof(s) then (None, s)
    else
      var c := s.buffer[s.index];
      PositionAfterSnoc(s.buffer, s.index);
      (Some(c), Scan(s.buffer, s.index + 1, s.current + Utf8Len(c), StepPosition(s.position, c)))
  }

  /** Advancing at the end of input, any number of times, changes nothing. */
  lemma {:induction false} AdvanceAtEofRepeated(s: Scan, times: nat)
    requires IsEof(s)
    ensures AdvanceRepeat(s, times) == s
    decreases times
  {
    if times > 0 {
      AdvanceAtEofRepeated(Advance(s).1, times - 1);
    }
  }

  /** The state after calling `advance` `times` times, ignoring the results. */
  function AdvanceRepeat(s: Scan, times: nat): (r: Scan)
    ensures r.buffer == s.buffer && s.index <= r.index
    ensures s.index <= |s.buffer| ==> r.index == s.index + (if times <= |s.buffer| - s.index then times else |s.buffer| - s.index)
    ensures s.Valid() ==> r.Valid()
    decreases times
  {
    if times == 0 then s else AdvanceRepeat(Advance(s).1, times - 1)
  }

  /** `advance_by(n)`: advance up to `n` times, stopping at the end of input; the count of chars passed. */
  function AdvanceBy(s: Scan, n: nat): (r: (nat, Scan))
    ensures r.1.buffer == s.buffer
    ensures s.index <= |s.buffer| ==>
      r.0 == (if n <= |s.buffer| - s.index then n else |s.buffer| - s.index)
    ensures s.index <= |s.buffer| ==> r.1.index == s.index + r.0
    ensures s.Valid() ==> r.1.Valid()
    decreases n
  {
    if n == 0 then (0, s)
    else
      var (c, next) := Advance(s);
      if c.None? then (0, next)
      else
        var (k, after) := AdvanceBy(next, n - 1);
        (k + 1, after)
  }
  /** One step of `advance_by`: at the end nothing more moves; otherwise one char, then the rest. */
  lemma AdvanceByStep(s: Scan, n: nat)
    requires n > 0
    ensures Advance(s).0.None? ==> AdvanceBy(s, n).0 == 0 && AdvanceBy(s, n).1 == Advance(s).1
    ensures Advance(s).0.Some? ==>
      AdvanceBy(s, n).0 == AdvanceBy(Advance(s).1, n - 1).0 + 1
      && AdvanceBy(s, n).1 == AdvanceBy(Advance(s).1, n - 1).1
  {
  }


  /** The state `consume_while(p)` stops in: after the longest run of chars satisfying `p`. */
  function ConsumeWhileEnd(s: Scan, p: char -> bool): (r: Scan)
    ensures r.buffer == s.buffer
    ensures s.index <= |s.buffer| ==> s.index <= r.index <= |s.buffer|
    ensures s.index <= |s.buffer| ==> forall i :: s.index <= i < r.index ==> p(s.buffer[i])
    ensures s.index <= |s.buffer| ==> r.index == |s.buffer| || !p(s.buffer[r.index])
    ensures s.index >= |s.buffer| ==> r == s
    ensures s.Valid() ==> r.Valid()
    decreases |s.buffer| - s.index
  {
    match Peek(s)
    case None => s
    case Some(c) => if p(c) then ConsumeWhileEnd(Advance(s).1, p) else s
  }

  /** `consume_while(p)`: the slice `[start, new current)` and the state after it. */
  function ConsumeWhile(s: Scan, p: char -> bool): (r: (TextSlice, Scan))
    requires s.index <= |s.buffer|
    ensures r.0.Valid() && r.0.buffer == s.buffer
    ensures r.0.start == s.index && r.0.end == r.1.index
    ensures forall i :: 0 <= i < |r.0.Text()| ==> p(r.0.Text()[i])
    ensures r.1.index == |s.buffer| || !p(s.buffer[r.1.index])
  {
    var end := ConsumeWhileEnd(s, p);
    (TextSlice(s.buffer, s.index, end.index), end)
  }

  /** `peek_slice(n)`: the next `n` chars, or the rest of the input; the cursor does not move. */
  function PeekSlice(s: Scan, n: nat): (r: TextSlice)
    requires s.index <= |s.buffer|
    ensures r.Valid() && r.buffer == s.buffer && r.start == s.index
    ensures |r.Text()| == (if n <= |s.buffer| - s.index then n else |s.buffer| - s.index)
  {
    if IsEof(s) then TextSlice(s.buffer, s.index, s.index)
    else if s.index + n <= |s.buffer| then TextSlice(s.buffer, s.index, s.index + n)
    else TextSlice(s.buffer, s.index, |s.buffer|)
  }

  /** `remaining`: the text from the cursor to the end. */
  function Remaining(s: Scan): (r: TextSlice)
    requires s.index <= |s.buffer|
    ensures r.Valid() && r.Text() == s.buffer[s.index..]
  {
    TextSlice(s.buffer, s.index, |s.buffer|)
  }

  /** `reset`: back to the start of the same input. */
  function Reset(s: Scan): (r: Scan)
    ensures r.Valid() && r.buffer == s.buffer && r.index == 0 && r.position == StartPosition()
  {
    Start(s.buffer)
  }

  /** `checkpoint`: the index and position. */
  function CheckpointOf(s: Scan): (m: Mark)
    ensures s.Valid() ==> MarkValidFor(s.buffer, m)
  {
    Mark(s.index, s.current, s.position)
  }

  /** `restore`: index and position overwritten from the mark. */
  function Restore(s: Scan, m: Mark): (r: Scan)
    ensures r.buffer == s.buffer
    ensures MarkValidFor(s.buffer, m) ==> r.Valid()
  {
    Scan(s.buffer, m.index, m.current, m.position)
  }

  /** Restoring a checkpoint of the same buffer, after any moves, gives back the state it was taken in. */
  lemma RestoreCheckpoint(s: Scan, moved: Scan)
    requires moved.buffer == s.buffer
    ensures Restore(moved, CheckpointOf(s)) == s
  {
  }

  /** The byte index never decreases as a valid cursor moves forward in the same buffer. */
  lemma CurrentMonotone(s: Scan, t: Scan)
    requires s.Valid() && t.Valid() && s.buffer == t.buffer && s.index <= t.index
    ensures s.current <= t.current
    ensures s.index < t.index ==> s.current < t.current
    ensures s.current == t.current ==> s == t
  {
    PositionAfterCounts(s.buffer[..s.index]);
    PositionAfterCounts(s.buffer[..t.index]);
    if s.index < t.index {
      Utf8SizePrefixMonotone(s.buffer, s.index, t.index);
    }
  }

  /** `t` is over the same buffer as `s`, and valid whenever `s` is. */
  ghost predicate SameBufferValid(s: Scan, t: Scan)
  {
    t.buffer == s.buffer && (s.Valid() ==> t.Valid())
  }

  /** The valid state at char index `j` of `buffer`. */
  function ScanAt(buffer: string, j: nat): (s: Scan)
    requires j <= |buffer|
    ensures s.Valid() && s.buffer == buffer && s.index == j
  {
    var p := PositionAfter(buffer[..j]);
    Scan(buffer, j, p.offset, p)
  }

  /** A valid state is determined by its buffer and char index. */
  lemma ValidIsScanAt(s: Scan)
    requires s.Valid()
    ensures s == ScanAt(s.buffer, s.index)
  {
  }

  /** The index where the longest run of chars satisfying `p` from `i` ends. */
  function RunEnd(buffer: string, i: nat, p: char -> bool): (j: nat)
    requires i <= |buffer|
    ensures i <= j <= |buffer|
    ensures forall k :: i <= k < j ==> p(buffer[k])
    ensures j == |buffer| || !p(buffer[j])
    decreases |buffer| - i
  {
    if i < |buffer| && p(buffer[i]) then RunEnd(buffer, i + 1, p) else i
  }

  /** `consume_while(p)` stops where the run ends. */
  lemma ConsumeWhileEndsRun(s: Scan, p: char -> bool)
    requires s.index <= |s.buffer|
    ensures ConsumeWhile(s, p).1.index == RunEnd(s.buffer, s.index, p)
  {
  }

  /** Two valid states over the same buffer at the same char index are equal. */
  lemma SameIndexSameScan(s: Scan, t: Scan)
    requires s.Valid() && t.Valid() && s.buffer == t.buffer && s.index == t.index
    ensures s == t
  {
  }
}
