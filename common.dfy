/**
 * Values shared by the lexer and parser frameworks: optional results,
 * source positions, checkpoints, the streaming signal exchanged between a
 * producer and a consumer, and the character facts the rules consult.
 */
module Common {

  datatype Option<+T> = None | Some(value: T)

  /** The chars of `text` from index `i` up to, not including, index `j`. */
  function Between(text: string, i: nat, j: nat): string
    requires i <= j <= |text|
  {
    text[i..j]
  }

  /** Two adjacent stretches of a text make the stretch that covers both. */
  lemma BetweenSplit(text: string, i: nat, j: nat, k: nat)
    requires i <= j <= k <= |text|
    ensures Between(text, i, j) + Between(text, j, k) == Between(text, i, k)
  {
    assert text[i..k] == text[i..j] + text[j..k];
  }

  /** A char followed by the stretch after it is the stretch from that char. */
  lemma BetweenCons(text: string, i: nat, k: nat)
    requires i < k <= |text|
    ensures [text[i]] + Between(text, i + 1, k) == Between(text, i, k)
  {
    assert text[i..k] == [text[i]] + text[i + 1..k];
  }

  /** A place in the source: 1-based line and column, 0-based byte offset. */
  datatype Position = Position(line: nat, column: nat, offset: nat)

  /** `Position::new()`, which is also `Position::default()`. */
  function StartPosition(): Position
  {
    Position(1, 1, 0)
  }

  /** A saved index (a token index for parsers, a byte offset for streaming lexers) and position. */
  datatype Checkpoint = Checkpoint(index: nat, position: Position)

  /**
   * The messages a producer (a lexer) and a consumer (a parser) exchange
   * in the streaming pipeline.
   */
  datatype Signal<Tok, Node> =
    | RequestToken(count: nat)
    | SupplyToken(token: Tok)
    | Produced(nodes: seq<Node>)
    | NeedToken(count: nat)
    | Finished(nodes: seq<Node>)
    | Blocked(reason: string)
    | EndOfInput
    | Abort(reason: string)

  /** `char::len_utf8`: the number of bytes UTF-8 needs for the code point. */
  function Utf8Len(c: char): (n: nat)
    ensures 1 <= n <= 4
    ensures n == 1 <==> c as int < 0x80
  {
    if c as int < 0x80 then 1
    else if c as int < 0x800 then 2
    else if c as int < 0x1_0000 then 3
    else 4
  }

  /** The UTF-8 byte length of a whole string: `str::len`. */
  function Utf8Size(s: string): nat
  {
    if s == [] then 0 else Utf8Size(s[..|s| - 1]) + Utf8Len(s[|s| - 1])
  }

  /** Items collected before a run that may not have finished: the run's own items come after them. */
  function Prepend<T, S>(items: seq<T>, rest: Option<(seq<T>, S)>): (r: Option<(seq<T>, S)>)
    ensures r.Some? <==> rest.Some?
    ensures r.Some? ==> r.value.0 == items + rest.value.0 && r.value.1 == rest.value.1
    ensures items == [] ==> r == rest
  {
    match rest
    case None => None
    case Some((more, t)) => assert items == [] ==> items + more == more; Some((items + more, t))
  }

  /** Prefixing in two steps is prefixing the concatenation. */
  lemma PrependTwice<T, S>(items: seq<T>, x: T, rest: Option<(seq<T>, S)>)
    ensures Prepend(items, Prepend([x], rest)) == Prepend(items + [x], rest)
  {
    if rest.Some? {
      assert items + ([x] + rest.value.0) == (items + [x]) + rest.value.0;
    }
  }

  lemma {:induction false} Utf8SizeAppend(a: string, b: string)
    ensures Utf8Size(a + b) == Utf8Size(a) + Utf8Size(b)
    decreases |b|
  {
    if b != [] {
      assert (a + b)[..|a + b| - 1] == a + b[..|b| - 1];
      Utf8SizeAppend(a, b[..|b| - 1]);
    } else {
      assert a + b == a;
    }
  }

  /** At least one byte per char, and no bytes only for the empty string. */
  lemma {:induction false} Utf8SizeBounds(s: string)
    ensures |s| <= Utf8Size(s) <= 4 * |s|
    ensures Utf8Size(s) == 0 <==> s == []
    decreases |s|
  {
    if s != [] {
      Utf8SizeBounds(s[..|s| - 1]);
    }
  }

  /** The byte length of a prefix grows strictly with the prefix. */
  lemma Utf8SizePrefixMonotone(s: string, i: nat, j: nat)
    requires i < j <= |s|
    ensures Utf8Size(s[..i]) < Utf8Size(s[..j])
  {
    assert s[..j] == s[..i] + s[i..j];
    Utf8SizeAppend(s[..i], s[i..j]);
    Utf8SizeBounds(s[i..j]);
  }

  /** `char::is_ascii_digit`. */
  predicate IsAsciiDigit(c: char)
  {
    '0' <= c <= '9'
  }

  /** `char::is_whitespace`: the code points with the Unicode White_Space property. */
  predicate IsWhitespace(c: char)
  {
    var n := c as int;
    (0x09 <= n <= 0x0D) || n == 0x20 || n == 0x85 || n == 0xA0 || n == 0x1680
    || (0x2000 <= n <= 0x200A) || n == 0x2028 || n == 0x2029 || n == 0x202F
    || n == 0x205F || n == 0x3000
  }

  /** `str::trim().is_empty()`: every char is whitespace. */
  predicate IsBlank(s: string)
  {
    forall i :: 0 <= i < |s| ==> IsWhitespace(s[i])
  }

  /** `str::trim_start`. */
  function TrimStart(s: string): string
  {
    if s != [] && IsWhitespace(s[0]) then TrimStart(s[1..]) else s
  }

  /** `str::trim_end`. */
  function TrimEnd(s: string): string
  {
    if s != [] && IsWhitespace(s[|s| - 1]) then TrimEnd(s[..|s| - 1]) else s
  }

  /** `str::trim`. */
  function Trim(s: string): string
  {
    TrimEnd(TrimStart(s))
  }

  /** `trim_start` drops a blank prefix and keeps the rest, which starts with no whitespace. */
  lemma {:induction false} TrimStartShape(s: string)
    ensures var r := TrimStart(s);
      |r| <= |s| && r == s[|s| - |r|..] && (r == [] || !IsWhitespace(r[0])) && IsBlank(s[..|s| - |r|])
  {
    if s != [] && IsWhitespace(s[0]) {
      TrimStartShape(s[1..]);
      var r := TrimStart(s);
      var k := |s| - |r|;
      assert s[1..][..k - 1] == s[1..k];
      assert forall i :: 1 <= i < k ==> s[..k][i] == s[1..k][i - 1];
    }
  }

  /** `trim_end` drops a blank suffix and keeps the rest, which ends with no whitespace. */
  lemma {:induction false} TrimEndShape(s: string)
    ensures var r := TrimEnd(s);
      |r| <= |s| && r == s[..|r|] && (r == [] || !IsWhitespace(r[|r| - 1])) && IsBlank(s[|r|..])
  {
    if s != [] && IsWhitespace(s[|s| - 1]) {
      TrimEndShape(s[..|s| - 1]);
      var r := TrimEnd(s);
      assert s[..|s| - 1][|r|..] == s[|r|..|s| - 1];
      assert forall i :: 0 <= i < |s| - 1 - |r| ==> s[|r|..][i] == s[|r|..|s| - 1][i];
    }
  }

  /** A trimmed string is blank-free at both ends, and empty exactly when the string was blank. */
  lemma TrimShape(s: string)
    ensures var r := Trim(s);
      (r == [] <==> IsBlank(s)) && (r == [] || (!IsWhitespace(r[0]) && !IsWhitespace(r[|r| - 1])))
  {
    TrimStartShape(s);
    TrimEndShape(TrimStart(s));
    TrimEmptyIffBlank(s);
  }

  /** A string trims to nothing exactly when it is blank. */
  lemma TrimEmptyIffBlank(s: string)
    ensures Trim(s) == [] <==> IsBlank(s)
  {
    var t := TrimStart(s);
    TrimStartShape(s);
    TrimEndShape(t);
    var k := |s| - |t|;
    if Trim(s) == [] {
      assert t[0..] == t;
      forall i | 0 <= i < k ensures IsWhitespace(s[i]) {
        assert s[i] == s[..k][i];
      }
    }
  }
}
