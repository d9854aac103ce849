/**
 * `TextSlice`: a view `[start, end)` into a shared text buffer. The source
 * measures `start` and `end` in bytes; the model measures them in chars and
 * derives the byte length from the UTF-8 size of the chars before each end.
 */
module TextSlices {
  import opened Common

  datatype TextSlice = TextSlice(buffer: string, start: nat, end: nat)
  {
    /** The bounds `TextSlice::new` asserts. */
    ghost predicate Valid()
    {
      start <= end <= |buffer|
    }

    /** `Deref`: the viewed text. */
    function Text(): (t: string)
      requires Valid()
      ensures |t| == end - start
      ensures forall i :: 0 <= i < |t| ==> t[i] == buffer[start + i]
    {
      buffer[start..end]
    }

    /** `len`: the byte distance between the two ends. */
    function Len(): (n: nat)
      requires Valid()
      ensures n == Utf8Size(Text())
      ensures end - start <= n <= 4 * (end - start)
    {
      assert buffer[..end] == buffer[..start] + buffer[start..end];
      Utf8SizeAppend(buffer[..start], buffer[start..end]);
      Utf8SizeBounds(buffer[start..end]);
      Utf8Size(buffer[..end]) - Utf8Size(buffer[..start])
    }

    /** `is_empty`: a zero byte length. */
    predicate IsEmpty()
      requires Valid()
    {
      Len() == 0
    }

    /** `TextSlice == &str`: content equality. */
    predicate EqualsStr(other: string)
      requires Valid()
    {
      Text() == other
    }
  }

  /** `TextSlice::new(buffer, start, end)`. */
  function New(buffer: string, start: nat, end: nat): (r: TextSlice)
    requires start <= end <= |buffer|
    ensures r.Valid() && r.buffer == buffer
    ensures |r.Text()| == end - start && r.Text() == buffer[start..end]
  {
    TextSlice(buffer, start, end)
  }

  /** `TextSlice::from_arc`: the whole buffer. */
  function FromWhole(buffer: string): (r: TextSlice)
    ensures r.Valid() && r.Text() == buffer
    ensures r.Len() == Utf8Size(buffer)
  {
    assert buffer[0..|buffer|] == buffer;
    TextSlice(buffer, 0, |buffer|)
  }

  /** `&str == TextSlice`: content equality seen from the other side. */
  predicate StrEquals(other: string, slice: TextSlice)
    requires slice.Valid()
  {
    other == slice.Text()
  }

  /**
   * `TextSlice == TextSlice`: same bounds, same buffer and same content.
   * The source asks for the very same shared buffer (pointer identity);
   * the model can only ask for an equal one.
   */
  predicate SameSlice(a: TextSlice, b: TextSlice)
    requires a.Valid() && b.Valid()
  {
    a.start == b.start && a.end == b.end && a.buffer == b.buffer && a.Text() == b.Text()
  }

  /** A slice is empty exactly when its two ends meet. */
  lemma EmptyIffNoChars(s: TextSlice)
    requires s.Valid()
    ensures s.IsEmpty() <==> s.start == s.end
    ensures s.IsEmpty() <==> s.Text() == []
  {
  }

  /** Comparing with a string gives the same answer from either side. */
  lemma EqualsStrSymmetric(s: TextSlice, other: string)
    requires s.Valid()
    ensures s.EqualsStr(other) <==> StrEquals(other, s)
    ensures s.EqualsStr(other) ==> |other| == s.end - s.start
  {
  }

  /** Slice equality is value identity of the three fields, so it is an equivalence. */
  lemma SameSliceIsIdentity(a: TextSlice, b: TextSlice)
    requires a.Valid() && b.Valid()
    ensures SameSlice(a, b) <==> a == b
    ensures SameSlice(a, b) ==> a.EqualsStr(b.Text())
  {
  }
}
