/**
 * The JSON-style lexer built on the framework: strings with a few escapes,
 * numbers with optional sign, fraction and exponent, the keywords `true`,
 * `false` and `null`, the six punctuation chars, whitespace, and end of
 * input. It only approximates the JSON grammar of RFC 8259: `\u`, `\b`,
 * `\f` and `\/` are not decoded and leading zeros are accepted.
 *
 * Each rule is a function from the cursor state to the token and the state
 * it leaves (`Match...`) and a method that runs on a lexing context
 * (`Try...`), proved equal to the function.
 */
module JsonLexing {
  import opened Common
  import opened TextSlices
  import opened Scanning
  import opened Priorities
  import opened RuleEngine
  import opened LexContexts
  import opened Lexers

  datatype JsonToken =
    | String(value: string, position: Position)
    | Number(value: string, position: Position)
    | Boolean(truth: bool, position: Position)
    | Null(position: Position)
    | LeftBrace(position: Position)
    | RightBrace(position: Position)
    | LeftBracket(position: Position)
    | RightBracket(position: Position)
    | Comma(position: Position)
    | Colon(position: Position)
    | Whitespace(value: string, position: Position)
    | Eof(position: Position)

  datatype JsonRule = StringRule | NumberRule | KeywordRule | PunctuationRule | WhitespaceRule | EofRule

  function Priority(rule: JsonRule): int
  {
    match rule
    case StringRule => 15
    case NumberRule => 14
    case KeywordRule => 13
    case PunctuationRule => 5
    case WhitespaceRule => 1
    case EofRule => -1
  }

  /** `json_rules()`, in registration order. */
  const JsonRules: seq<JsonRule> := [StringRule, NumberRule, KeywordRule, PunctuationRule, WhitespaceRule, EofRule]

  /** `json_rules()` registers the rules by descending priority, so `Lexer::new` keeps their order. */
  lemma JsonRulesInPriorityOrder()
    ensures SortByPriority(JsonRules, (r: JsonRule) => Priority(r)) == JsonRules
  {
    SortKeepsSorted(JsonRules, (r: JsonRule) => Priority(r));
  }

  // ---------------------------------------------------------------------
  // Strings

  /** What an escaped char stands for: five are decoded, any other is kept with its backslash. */
  function Unescape(ch: char): (r: string)
    ensures ch in "ntr\\\"" ==> |r| == 1
    ensures ch !in "ntr\\\"" ==> r == ['\\', ch]
  {
    match ch
    case 'n' => "\n"
    case 't' => "\t"
    case 'r' => "\r"
    case '\\' => "\\"
    case '"' => "\""
    case _ => ['\\', ch]
  }

  /**
   * The loop of `StringRule` from char index `i`, `escape` telling whether
   * the previous char was an unescaped backslash: the decoded rest of the
   * string and the index just after its closing quote, or `None` when the
   * input ends first.
   */
  function StringBody(buffer: string, i: nat, escape: bool): (r: Option<(string, nat)>)
    requires i <= |buffer|
    ensures r.Some? ==> i < r.value.1 <= |buffer| && buffer[r.value.1 - 1] == '"'
    decreases |buffer| - i
  {
    if i == |buffer| then None
    else if buffer[i] == '"' && !escape then Some(([], i + 1))
    else if buffer[i] == '\\' && !escape then StringBody(buffer, i + 1, true)
    else Then(Decoded(buffer[i], escape), StringBody(buffer, i + 1, false))
  }

  /** What the loop appends for a char that neither closes the string nor starts an escape. */
  function Decoded(ch: char, escape: bool): string
  {
    if escape then Unescape(ch) else [ch]
  }

  /** One turn of the loop of `StringRule` at a char that does not close the string. */
  lemma StringBodyStep(buffer: string, i: nat, escape: bool)
    requires i < |buffer| && !(buffer[i] == '"' && !escape)
    ensures buffer[i] == '\\' && !escape ==> StringBody(buffer, i, escape) == StringBody(buffer, i + 1, true)
    ensures !(buffer[i] == '\\' && !escape) ==>
      StringBody(buffer, i, escape) == Then(Decoded(buffer[i], escape), StringBody(buffer, i + 1, false))
  {
  }

  /** Text decoded so far, before the rest of a run that may not finish. */
  function Then(value: string, rest: Option<(string, nat)>): (r: Option<(string, nat)>)
    ensures r.Some? <==> rest.Some?
    ensures r.Some? ==> r.value == (value + rest.value.0, rest.value.1)
  {
    match rest
    case None => None
    case Some((more, j)) => Some((value + more, j))
  }

  lemma ThenEmpty(rest: Option<(string, nat)>)
    ensures Then([], rest) == rest
  {
    if rest.Some? {
      assert [] + rest.value.0 == rest.value.0;
    }
  }

  /** A closing quote at `i` ends the run with the text decoded so far. */
  lemma ThenClosed(value: string, buffer: string, i: nat)
    requires i < |buffer| && buffer[i] == '"'
    ensures Then(value, StringBody(buffer, i, false)).Some?
    ensures Then(value, StringBody(buffer, i, false)).value.0 == value
    ensures Then(value, StringBody(buffer, i, false)).value.1 == i + 1
  {
    assert value + [] == value;
  }

  lemma ThenThen(value: string, piece: string, rest: Option<(string, nat)>)
    ensures Then(value, Then(piece, rest)) == Then(value + piece, rest)
  {
    if rest.Some? {
      assert value + (piece + rest.value.0) == (value + piece) + rest.value.0;
    }
  }

  /**
   * `StringRule`: an opening quote, then the body up to an unescaped
   * closing quote. The value excludes the quotes and the token is placed at
   * the opening quote. An unterminated string fails with the cursor at the
   * end of the input (the engine restores it).
   */
  function MatchString(s: Scan): (r: Attempt<JsonToken, Scan>)
    requires s.index <= |s.buffer|
    ensures SameBufferValid(s, r.after) && s.index <= r.after.index
    ensures r.output.Some? <==> (s.index < |s.buffer| && s.buffer[s.index] == '"' && StringBody(s.buffer, s.index + 1, false).Some?)
    ensures s.index < |s.buffer| && s.buffer[s.index] != '"' ==> r == Attempt(None, s)
    ensures r.output.Some? ==>
      var body := StringBody(s.buffer, s.index + 1, false).value;
      r.output.value == String(body.0, s.position) && r.after.index == body.1
      && s.index + 2 <= body.1 && s.buffer[body.1 - 1] == '"'
  {
    if Peek(s) != Some('"') then Attempt(None, s)
    else
      match StringBody(s.buffer, s.index + 1, false)
      case None => Attempt(None, ScanAt(s.buffer, |s.buffer|))
      case Some((value, j)) => Attempt(Some(String(value, s.position)), ScanAt(s.buffer, j))
  }

  /** The escape a writer of JSON text puts for one char. */
  function EscapeChar(c: char): (r: string)
    ensures |r| >= 1
  {
    match c
    case '\n' => "\\n"
    case '\t' => "\\t"
    case '\r' => "\\r"
    case '\\' => "\\\\"
    case '"' => "\\\""
    case _ => [c]
  }

  function Escape(v: string): (r: string)
    ensures |r| >= |v|
  {
    if v == [] then [] else EscapeChar(v[0]) + Escape(v[1..])
  }

  /** The string literal for `v`. */
  function Quote(v: string): (r: string)
    ensures |r| == |Escape(v)| + 2 && r[0] == '"'
  {
    "\"" + Escape(v) + "\""
  }

  /** `text` is found in `buffer` at index `i`. */
  ghost predicate FoundAt(buffer: string, i: nat, text: string)
    decreases text
  {
    if text == [] then i <= |buffer|
    else i < |buffer| && buffer[i] == text[0] && FoundAt(buffer, i + 1, text[1..])
  }

  lemma {:induction false} FoundAtSplit(buffer: string, i: nat, first: string, rest: string)
    requires FoundAt(buffer, i, first + rest)
    ensures FoundAt(buffer, i, first) && FoundAt(buffer, i + |first|, rest)
    decreases first
  {
    if first == [] {
      assert first + rest == rest;
    } else {
      assert (first + rest)[1..] == first[1..] + rest;
      FoundAtSplit(buffer, i + 1, first[1..], rest);
    }
  }

  /** Any text is found where it was put. */
  lemma {:induction false} FoundWherePut(before: string, text: string, after: string)
    ensures FoundAt(before + text + after, |before|, text)
    decreases text
  {
    if text != [] {
      assert (before + text + after)[|before|] == text[0];
      assert before + text + after == (before + [text[0]]) + text[1..] + after;
      FoundWherePut(before + [text[0]], text[1..], after);
    }
  }

  /** One escaped char at `i` decodes to itself and leaves the rest of the body to the loop. */
  lemma OneEscapeDecodes(c: char, buffer: string, i: nat)
    requires FoundAt(buffer, i, EscapeChar(c))
    ensures i + |EscapeChar(c)| <= |buffer|
    ensures StringBody(buffer, i, false) == Then([c], StringBody(buffer, i + |EscapeChar(c)|, false))
  {
    var e := EscapeChar(c);
    if |e| == 2 {
      assert FoundAt(buffer, i + 1, e[1..]);
      assert buffer[i + 1] == e[1];
      assert StringBody(buffer, i, false) == StringBody(buffer, i + 1, true);
    }
  }

  /** The body of an escaped string decodes to the string, up to its closing quote. */
  lemma {:induction false} EscapedBodyDecodes(v: string, buffer: string, i: nat)
    requires FoundAt(buffer, i, Escape(v) + "\"")
    ensures i + |Escape(v)| < |buffer|
    ensures StringBody(buffer, i, false).Some?
    ensures StringBody(buffer, i, false).value.0 == v
    ensures StringBody(buffer, i, false).value.1 == i + |Escape(v)| + 1
    decreases |v|
  {
    if v == [] {
      assert (Escape(v) + "\"")[0] == '"';
    } else {
      var e := EscapeChar(v[0]);
      var tail := Escape(v[1..]);
      assert Escape(v) + "\"" == e + (tail + "\"");
      FoundAtSplit(buffer, i, e, tail + "\"");
      EscapedBodyDecodes(v[1..], buffer, i + |e|);
      OneEscapeDecodes(v[0], buffer, i);
      assert [v[0]] + v[1..] == v;
    }
  }

  /** Round trip: lexing the literal of any string gives back that string and consumes the literal. */
  lemma StringRoundTrip(v: string, rest: string)
    ensures var r := MatchString(Start(Quote(v) + rest));
      r.output == Some(String(v, StartPosition())) && r.after.index == |Quote(v)|
  {
    var buffer := Quote(v) + rest;
    assert buffer == "\"" + (Escape(v) + "\"") + rest;
    FoundWherePut("\"", Escape(v) + "\"", rest);
    EscapedBodyDecodes(v, buffer, 1);
    assert buffer[0] == '"';
    var r := MatchString(Start(buffer));
    assert r.output.Some?;
    assert r.output.value == String(v, StartPosition());
  }

  /** Without a quote ahead the string never closes. */
  lemma {:induction false} UnterminatedString(buffer: string, i: nat, escape: bool)
    requires i <= |buffer| && forall k :: i <= k < |buffer| ==> buffer[k] != '"'
    ensures StringBody(buffer, i, escape).None?
    decreases |buffer| - i
  {
    if i < |buffer| {
      UnterminatedString(buffer, i + 1, buffer[i] == '\\' && !escape);
    }
  }

  /** An escape other than the five decoded ones (`\u`, `\/`, `\b`, `\f`, ...) is kept with its backslash. */
  lemma UnknownEscapeKept(buffer: string, i: nat)
    requires i + 1 < |buffer| && buffer[i] == '\\' && buffer[i + 1] !in "ntr\\\""
    ensures StringBody(buffer, i, false) == Then(['\\', buffer[i + 1]], StringBody(buffer, i + 2, false))
  {
    assert StringBody(buffer, i, false) == StringBody(buffer, i + 1, true);
  }

  // ---------------------------------------------------------------------
  // Numbers

  /**
   * Where the sign and integer part end: an optional '-', then a run of
   * digits that must not be empty; `None` when there is no digit.
   */
  function IntegerEnd(buffer: string, i: nat): (r: Option<nat>)
    requires i <= |buffer|
    ensures r.Some? <==> (i < |buffer| && (IsAsciiDigit(buffer[i])
      || (buffer[i] == '-' && i + 1 < |buffer| && IsAsciiDigit(buffer[i + 1]))))
    ensures r.Some? ==> i < r.value <= |buffer| && IsAsciiDigit(buffer[r.value - 1])
    ensures r.Some? ==> forall k :: i <= k < r.value ==> NumberChar(buffer[k])
  {
    if i < |buffer| && buffer[i] == '-' then
      if i + 1 < |buffer| && IsAsciiDigit(buffer[i + 1]) then Some(RunEnd(buffer, i + 1, IsAsciiDigit)) else None
    else if i < |buffer| && IsAsciiDigit(buffer[i]) then Some(RunEnd(buffer, i, IsAsciiDigit))
    else None
  }

  /** The chars a number token may hold. */
  predicate NumberChar(c: char)
  {
    IsAsciiDigit(c) || c in "-+.eE"
  }

  /** Where the fraction ends: '.' and its digits are read only when a digit follows the '.'. */
  function FractionEnd(buffer: string, i: nat): (j: nat)
    requires i <= |buffer|
    ensures i <= j <= |buffer|
    ensures j != i <==> (i + 1 < |buffer| && buffer[i] == '.' && IsAsciiDigit(buffer[i + 1]))
    ensures j != i ==> IsAsciiDigit(buffer[j - 1]) && forall k :: i <= k < j ==> NumberChar(buffer[k])
  {
    if i + 1 < |buffer| && buffer[i] == '.' && IsAsciiDigit(buffer[i + 1]) then RunEnd(buffer, i + 1, IsAsciiDigit)
    else i
  }

  /** 'e' or 'E'. */
  predicate IsExponentMark(c: char)
  {
    c == 'e' || c == 'E'
  }

  /** Past the sign of an exponent, if there is one at `k`. */
  function SignEnd(buffer: string, k: nat): (j: nat)
    requires k <= |buffer|
    ensures j == (if k < |buffer| && buffer[k] in "+-" then k + 1 else k)
  {
    if k < |buffer| && (buffer[k] == '+' || buffer[k] == '-') then k + 1 else k
  }

  /**
   * Where the exponent ends, as intended: the mark, an optional sign and at
   * least one digit; without digits nothing of it is consumed.
   */
  function ExponentEnd(buffer: string, w: nat): (j: nat)
    requires w <= |buffer|
    ensures w <= j <= |buffer|
    ensures j != w ==> IsAsciiDigit(buffer[j - 1]) && forall k :: w <= k < j ==> NumberChar(buffer[k])
  {
    if w < |buffer| && IsExponentMark(buffer[w]) then
      var k := SignEnd(buffer, w + 1);
      var d := RunEnd(buffer, k, IsAsciiDigit);
      if d == k then w else d
    else w
  }

  /** The integer part and fraction: where the mantissa ends. */
  function MantissaEnd(buffer: string, i: nat): (r: Option<nat>)
    requires i <= |buffer|
    ensures r.Some? <==> IntegerEnd(buffer, i).Some?
    ensures r.Some? ==> i < r.value <= |buffer| && IsAsciiDigit(buffer[r.value - 1])
    ensures r.Some? ==> forall k :: i <= k < r.value ==> NumberChar(buffer[k])
  {
    match IntegerEnd(buffer, i)
    case None => None
    case Some(e) => Some(FractionEnd(buffer, e))
  }

  /** Where a number starting at `i` ends, if one does. */
  function NumberEnd(buffer: string, i: nat): (r: Option<nat>)
    requires i <= |buffer|
    ensures r.Some? <==> IntegerEnd(buffer, i).Some?
    ensures r.Some? ==> i < r.value <= |buffer| && IsAsciiDigit(buffer[r.value - 1])
    ensures r.Some? ==> forall k :: i <= k < r.value ==> NumberChar(buffer[k])
  {
    match MantissaEnd(buffer, i)
    case None => None
    case Some(w) => Some(ExponentEnd(buffer, w))
  }

  /**
   * `NumberRule` as intended: the token's value is the text consumed, an
   * optional '-', digits, a fraction and an exponent each only when
   * complete.
   */
  function MatchNumber(s: Scan): (r: Attempt<JsonToken, Scan>)
    requires s.index <= |s.buffer|
    ensures SameBufferValid(s, r.after) && s.index <= r.after.index <= |s.buffer|
    ensures r.output.None? ==> r.after == s
    ensures r.output.Some? <==> NumberEnd(s.buffer, s.index).Some?
    ensures r.output.Some? ==> (r.after.index == NumberEnd(s.buffer, s.index).value
      && r.output.value == Number(Between(s.buffer, s.index, r.after.index), s.position))
  {
    match NumberEnd(s.buffer, s.index)
    case None => Attempt(None, s)
    case Some(x) => Attempt(Some(Number(s.buffer[s.index..x], s.position)), ScanAt(s.buffer, x))
  }

  /**
   * A number token is never empty, starts with '-' or a digit, holds only
   * digits and "-+.eE", and ends in a digit.
   */
  lemma NumberTokenShape(s: Scan)
    requires s.index <= |s.buffer|
    ensures var r := MatchNumber(s);
      r.output.Some? ==> var v := r.output.value.value;
        v != [] && (v[0] == '-' || IsAsciiDigit(v[0])) && IsAsciiDigit(v[|v| - 1])
        && forall k :: 0 <= k < |v| ==> NumberChar(v[k])
  {
    var e := NumberEnd(s.buffer, s.index);
    if e.Some? {
      assert IntegerEnd(s.buffer, s.index).Some?;
      NumberSliceShape(s.buffer, s.index, e.value);
      assert MatchNumber(s).output.value.value == s.buffer[s.index..e.value];
    }
  }

  /** The text of a number found from `i` to `x`, read off the buffer. */
  lemma NumberSliceShape(buffer: string, i: nat, x: nat)
    requires i < x <= |buffer|
    requires buffer[i] == '-' || IsAsciiDigit(buffer[i])
    requires IsAsciiDigit(buffer[x - 1]) && forall k :: i <= k < x ==> NumberChar(buffer[k])
    ensures var v := buffer[i..x];
      v != [] && (v[0] == '-' || IsAsciiDigit(v[0])) && IsAsciiDigit(v[|v| - 1])
      && forall k :: 0 <= k < |v| ==> NumberChar(v[k])
  {
    var v := buffer[i..x];
    assert v[0] == buffer[i] && v[|v| - 1] == buffer[x - 1];
    forall k | 0 <= k < |v|
      ensures NumberChar(v[k])
    {
      assert v[k] == buffer[i + k];
    }
  }

  /**
   * The exponent of the code as written: the mark and an optional sign are
   * appended to the value; without digits the cursor goes back before the
   * mark but only the last char appended is popped.
   */
  function ExponentAsWritten(buffer: string, w: nat, value: string): (r: (string, nat))
    requires w <= |buffer|
    ensures w <= r.1 <= |buffer|
  {
    if w < |buffer| && IsExponentMark(buffer[w]) then
      var k := SignEnd(buffer, w + 1);
      var read := value + buffer[w..k];
      var d := RunEnd(buffer, k, IsAsciiDigit);
      if d == k then (read[..|read| - 1], w) else (read + buffer[k..d], d)
    else (value, w)
  }

  /** The three outcomes of `ExponentAsWritten`, one field at a time. */
  lemma ExponentAsWrittenCases(buffer: string, w: nat, value: string)
    requires w <= |buffer|
    ensures !(w < |buffer| && IsExponentMark(buffer[w])) ==>
      ExponentAsWritten(buffer, w, value).0 == value && ExponentAsWritten(buffer, w, value).1 == w
    ensures w < |buffer| && IsExponentMark(buffer[w]) ==>
      var k := SignEnd(buffer, w + 1);
      var d := RunEnd(buffer, k, IsAsciiDigit);
      var read := value + buffer[w..k];
      (d == k ==> ExponentAsWritten(buffer, w, value).0 == read[..|read| - 1] && ExponentAsWritten(buffer, w, value).1 == w)
      && (d != k ==> ExponentAsWritten(buffer, w, value).0 == read + buffer[k..d] && ExponentAsWritten(buffer, w, value).1 == d)
  {
  }

  /** `NumberRule` as written. */
  function MatchNumberAsWritten(s: Scan): (r: Attempt<JsonToken, Scan>)
    requires s.index <= |s.buffer|
    ensures SameBufferValid(s, r.after) && s.index <= r.after.index
    ensures r.output.None? ==> r.after == s
  {
    match MantissaEnd(s.buffer, s.index)
    case None => Attempt(None, s)
    case Some(w) =>
      var (value, x) := ExponentAsWritten(s.buffer, w, s.buffer[s.index..w]);
      Attempt(Some(Number(value, s.position)), ScanAt(s.buffer, x))
  }

  /** An exponent mark and sign at `w` with no digit after them. */
  predicate DanglingSignedMark(buffer: string, w: nat)
  {
    w + 1 < |buffer| && IsExponentMark(buffer[w]) && buffer[w + 1] in "+-"
    && (w + 2 == |buffer| || !IsAsciiDigit(buffer[w + 2]))
  }

  lemma ExponentAgrees(buffer: string, w: nat, value: string)
    requires w <= |buffer|
    ensures ExponentAsWritten(buffer, w, value).1 == ExponentEnd(buffer, w)
    ensures ExponentAsWritten(buffer, w, value).0
      == value + buffer[w..ExponentEnd(buffer, w)] + (if DanglingSignedMark(buffer, w) then [buffer[w]] else [])
  {
    if w < |buffer| && IsExponentMark(buffer[w]) {
      var k := SignEnd(buffer, w + 1);
      var read := value + buffer[w..k];
      var d := RunEnd(buffer, k, IsAsciiDigit);
      if d == k {
        if k == w + 1 {
          assert read[..|read| - 1] == value;
        } else {
          assert read[..|read| - 1] == value + [buffer[w]];
        }
      } else {
        assert buffer[w..k] + buffer[k..d] == buffer[w..d];
      }
    }
  }

  /**
   * The code as written consumes the same text as the intended rule; the
   * token differs only when an exponent mark and a sign have no digit after
   * them: the value then keeps the mark, which the cursor has not consumed.
   */
  lemma NumberAsWrittenKeepsMark(s: Scan)
    requires s.index <= |s.buffer|
    ensures MatchNumberAsWritten(s).after == MatchNumber(s).after
    ensures MatchNumberAsWritten(s).output.Some? <==> MatchNumber(s).output.Some?
    ensures MatchNumber(s).output.Some? ==>
      var w := MantissaEnd(s.buffer, s.index).value;
      MatchNumberAsWritten(s).output.value.value
        == MatchNumber(s).output.value.value + (if DanglingSignedMark(s.buffer, w) then [s.buffer[w]] else [])
  {
    if MantissaEnd(s.buffer, s.index).Some? {
      var w := MantissaEnd(s.buffer, s.index).value;
      ExponentAgrees(s.buffer, w, s.buffer[s.index..w]);
      assert s.buffer[s.index..w] + s.buffer[w..ExponentEnd(s.buffer, w)] == s.buffer[s.index..ExponentEnd(s.buffer, w)];
    }
  }

  /** The input "1e+": the cursor stops after "1", yet the token's value is "1e", which ends in no digit. */
  lemma SignedExponentWithoutDigits()
    ensures MatchNumberAsWritten(Start("1e+")).output == Some(Number("1e", StartPosition()))
    ensures MatchNumberAsWritten(Start("1e+")).after.index == 1
    ensures MatchNumber(Start("1e+")).output == Some(Number("1", StartPosition()))
  {
    var b := "1e+";
    assert RunEnd(b, 1, IsAsciiDigit) == 1;
    assert RunEnd(b, 0, IsAsciiDigit) == 1;
    assert IntegerEnd(b, 0) == Some(1);
    assert FractionEnd(b, 1) == 1;
    assert MantissaEnd(b, 0) == Some(1);
    assert RunEnd(b, 3, IsAsciiDigit) == 3;
    assert ExponentEnd(b, 1) == 1;
    assert DanglingSignedMark(b, 1);
    assert NumberEnd(b, 0) == Some(1);
    assert b[0..1] == "1";
    assert MatchNumber(Start(b)).output == Some(Number("1", StartPosition()));
    NumberAsWrittenKeepsMark(Start(b));
    assert "1" + [b[1]] == "1e";
  }

  // ---------------------------------------------------------------------
  // Keywords, punctuation, whitespace, end of input

  predicate StartsWith(text: string, prefix: string)
  {
    |prefix| <= |text| && text[..|prefix|] == prefix
  }

  /** The keyword token the rest of the input starts with, tried in the order `true`, `false`, `null`. */
  function KeywordAhead(rest: string, position: Position): (t: Option<JsonToken>)
    ensures t.None? <==> (!StartsWith(rest, "true") && !StartsWith(rest, "false") && !StartsWith(rest, "null"))
    ensures t.Some? ==> ((t.value.Boolean? || t.value.Null?) && t.value.position == position
      && StartsWith(rest, KeywordText(t.value)))
  {
    if StartsWith(rest, "true") then Some(Boolean(true, position))
    else if StartsWith(rest, "false") then Some(Boolean(false, position))
    else if StartsWith(rest, "null") then Some(Null(position))
    else None
  }

  /**
   * `KeywordRule`: `true`, `false` or `null` as a prefix of the rest of
   * the input, consumed, with no check of what follows.
   */
  function MatchKeyword(s: Scan): (r: Attempt<JsonToken, Scan>)
    requires s.index <= |s.buffer|
    ensures SameBufferValid(s, r.after) && s.index <= r.after.index <= |s.buffer|
    ensures r.output == KeywordAhead(s.buffer[s.index..], s.position)
    ensures r.output.None? ==> r.after == s
    ensures r.output.Some? ==> (r.after.index == s.index + |KeywordText(r.output.value)|
      && Between(s.buffer, s.index, r.after.index) == KeywordText(r.output.value))
  {
    match KeywordAhead(Remaining(s).Text(), s.position)
    case None => Attempt(None, s)
    case Some(t) =>
      var after := AdvanceRepeat(s, |KeywordText(t)|);
      assert s.buffer[s.index..after.index] == s.buffer[s.index..][..|KeywordText(t)|];
      Attempt(Some(t), after)
  }

  /** The text of a keyword token. */
  function KeywordText(t: JsonToken): string
  {
    match t
    case Boolean(truth, _) => if truth then "true" else "false"
    case _ => "null"
  }

  /**
   * No word boundary is checked: a keyword followed by anything at all,
   * as in "nullable" or "true1", is lexed as that keyword.
   */
  lemma KeywordWithoutBoundary(t: JsonToken, rest: string)
    requires (t.Boolean? || t.Null?) && t.position == StartPosition()
    ensures MatchKeyword(Start(KeywordText(t) + rest)).output == Some(t)
    ensures MatchKeyword(Start(KeywordText(t) + rest)).after.index == |KeywordText(t)|
  {
    var k := KeywordText(t);
    var text := k + rest;
    assert text[0..] == text;
    assert text[..|k|] == k;
    assert text[0] == k[0];
    if t.Boolean? && !t.truth {
      assert !StartsWith(text, "true") by { assert text[0] != 't'; }
    } else if t.Null? {
      assert !StartsWith(text, "true") by { assert text[0] != 't'; }
      assert !StartsWith(text, "false") by { assert text[0] != 'f'; }
    }
  }

  /** The token for a punctuation char. */
  function PunctuationFor(c: char, position: Position): (t: Option<JsonToken>)
    ensures t.Some? <==> c in "{}[],:"
  {
    match c
    case '{' => Some(LeftBrace(position))
    case '}' => Some(RightBrace(position))
    case '[' => Some(LeftBracket(position))
    case ']' => Some(RightBracket(position))
    case ',' => Some(Comma(position))
    case ':' => Some(Colon(position))
    case _ => None
  }

  /** The six chars map to six different tokens. */
  lemma PunctuationOneToOne(c: char, d: char, p: Position)
    requires PunctuationFor(c, p).Some? && PunctuationFor(c, p) == PunctuationFor(d, p)
    ensures c == d
  {
  }

  /** `PunctuationRule`: one of `{ } [ ] , :`, consumed. */
  function MatchPunctuation(s: Scan): (r: Attempt<JsonToken, Scan>)
    ensures SameBufferValid(s, r.after)
    ensures r.output.Some? <==> (s.index < |s.buffer| && s.buffer[s.index] in "{}[],:")
    ensures r.output.None? ==> r.after == s
    ensures r.output.Some? ==> (r.output == PunctuationFor(s.buffer[s.index], s.position)
      && r.after == Advance(s).1 && r.after.index == s.index + 1)
  {
    match Peek(s)
    case None => Attempt(None, s)
    case Some(c) =>
      match PunctuationFor(c, s.position)
      case None => Attempt(None, s)
      case Some(t) => Attempt(Some(t), Advance(s).1)
  }

  /** `WhitespaceRule`: the longest run of whitespace, line feeds included, if not empty. */
  function MatchWhitespace(s: Scan): (r: Attempt<JsonToken, Scan>)
    requires s.index <= |s.buffer|
    ensures SameBufferValid(s, r.after) && s.index <= r.after.index <= |s.buffer|
    ensures r.output.Some? <==> (s.index < |s.buffer| && IsWhitespace(s.buffer[s.index]))
    ensures r.output.None? ==> r.after == s
    ensures r.output.Some? ==> (r.after.index == RunEnd(s.buffer, s.index, IsWhitespace)
      && r.output.value == Whitespace(Between(s.buffer, s.index, r.after.index), s.position))
  {
    var j := RunEnd(s.buffer, s.index, IsWhitespace);
    if j == s.index then Attempt(None, s)
    else Attempt(Some(Whitespace(s.buffer[s.index..j], s.position)), ScanAt(s.buffer, j))
  }

  /** `EofRule`: a token at the end of input, consuming nothing. */
  function MatchEof(s: Scan): (r: Attempt<JsonToken, Scan>)
    ensures r.after == s
    ensures r.output.Some? <==> IsEof(s)
    ensures r.output.Some? ==> r.output.value == Eof(s.position)
  {
    if IsEof(s) then Attempt(Some(Eof(s.position)), s) else Attempt(None, s)
  }

  /**
   * `try_match` of each rule, with the number rule as intended. A state
   * beyond its buffer never arises from a context; the guard only makes
   * the function total.
   */
  function MatchRule(rule: JsonRule, s: Scan): (r: Attempt<JsonToken, Scan>)
    ensures SameBufferValid(s, r.after) && s.index <= r.after.index
  {
    if s.index > |s.buffer| then Attempt(None, s)
    else
      match rule
      case StringRule => MatchString(s)
      case NumberRule => MatchNumberAsWritten(s)
      case KeywordRule => MatchKeyword(s)
      case PunctuationRule => MatchPunctuation(s)
      case WhitespaceRule => MatchWhitespace(s)
      case EofRule => MatchEof(s)
  }

  /** The rule set as the engine sees it; every rule keeps the default `quick_check`. */
  function JsonGrammar(): (g: LexRules<JsonRule, JsonToken>)
    ensures forall r: JsonRule, h: Option<char> :: g.quickCheck(r, h).None?
  {
    Rules((r: JsonRule, s: Scan) => MatchRule(r, s),
          (r: JsonRule) => Priority(r),
          (r: JsonRule, h: Option<char>) => DefaultQuickCheck(r, h))
  }

  lemma JsonRulesConfined(rules: seq<JsonRule>)
    ensures Confined(JsonGrammar(), rules)
  {
  }

  /** Only `EofRule` produces `Eof`, and only at the end of input. */
  lemma EofOnlyAtEnd(rule: JsonRule, s: Scan)
    requires !IsEof(s)
    ensures MatchRule(rule, s).output.Some? ==> !MatchRule(rule, s).output.value.Eof?
  {
  }

  /**
   * Collected by the engine's `tokenize`, the JSON tokens never include
   * `Eof`: the iterator stops at the end of input before any rule is tried.
   */
  lemma TokenizeHasNoEof(rules: seq<JsonRule>, s: Scan)
    requires s.Valid()
    ensures Confined(JsonGrammar(), rules)
    ensures NoneBad(TokenizeSpec(JsonGrammar(), rules, s).0, (t: JsonToken) => t.Eof?)
  {
    JsonRulesConfined(rules);
    forall i, t: Scan | 0 <= i < |rules| && t.Valid() && !IsEof(t)
      ensures NotBad(JsonGrammar().attempt(rules[i], t).output, (t: JsonToken) => t.Eof?)
    {
      EofOnlyAtEnd(rules[i], t);
    }
    TokenizeAvoids(JsonGrammar(), rules, s, (t: JsonToken) => t.Eof?);
  }

  // ---------------------------------------------------------------------
  // The rules on a lexing context

  method TryString(ctx: DefaultContext) returns (token: Option<JsonToken>)
    requires ctx.Valid()
    modifies ctx.cursor
    ensures ctx.Valid() && Attempt(token, ctx.State()) == MatchString(old(ctx.State()))
  {
    ghost var s := ctx.State();
    if ctx.Peek() != Some('"') {
      return None;
    }
    ghost var b := s.buffer;
    ghost var whole := StringBody(b, s.index + 1, false);
    var position := ctx.CurrentPosition();
    var _ := StepChar(ctx);
    var value := "";
    var escape := false;
    ThenEmpty(whole);
    while true
      invariant ctx.Valid() && ctx.State().buffer == b && s.index < ctx.State().index <= |b|
      invariant whole == Then(value, StringBody(b, ctx.State().index, escape))
      decreases |b| - ctx.State().index
    {
      ghost var i := ctx.State().index;
      var c := ctx.Peek();
      if c.None? {
        // unterminated string
        assert whole.None?;
        ValidIsScanAt(ctx.State());
        return None;
      }
      var ch := c.value;
      if ch == '"' && !escape {
        var _ := StepChar(ctx);
        ThenClosed(value, b, i);
        SameIndexSameScan(MatchString(s).after, ctx.State());
        return Some(String(value, position));
      }
      value, escape := StringTurn(ctx, value, escape);
    }
  }

  /**
   * One turn of the loop of `StringRule` at a char that does not close the
   * string: start an escape, or append the char (decoded when escaped).
   */
  method StringTurn(ctx: DefaultContext, value: string, escape: bool) returns (nextValue: string, nextEscape: bool)
    requires ctx.Valid() && ctx.State().index < |ctx.State().buffer|
    requires !(ctx.State().buffer[ctx.State().index] == '"' && !escape)
    modifies ctx.cursor
    ensures ctx.Valid() && ctx.State().buffer == old(ctx.State()).buffer
    ensures ctx.State().index == old(ctx.State()).index + 1
    ensures Then(nextValue, StringBody(ctx.State().buffer, ctx.State().index, nextEscape))
      == Then(value, StringBody(old(ctx.State()).buffer, old(ctx.State()).index, escape))
  {
    ghost var b := ctx.State().buffer;
    ghost var i := ctx.State().index;
    StringBodyStep(b, i, escape);
    var ch := StepChar(ctx);
    if ch == '\\' && !escape {
      return value, true;
    }
    var piece := Decoded(ch, escape);
    ThenThen(value, piece, StringBody(b, i + 1, false));
    return value + piece, false;
  }

  /** `NumberRule` on a context, as written. */
  method TryNumber(ctx: DefaultContext) returns (token: Option<JsonToken>)
    requires ctx.Valid()
    modifies ctx.cursor
    ensures ctx.Valid() && Attempt(token, ctx.State()) == MatchNumberAsWritten(old(ctx.State()))
  {
    ghost var s := ctx.State();
    var position := ctx.CurrentPosition();
    var checkpoint := ctx.Checkpoint();
    var first := ctx.Peek();
    if first.None? {
      return None;
    }
    var value := "";
    if first.value == '-' {
      value := "-";
      var _ := StepChar(ctx);
    } else if !IsAsciiDigit(first.value) {
      return None;
    }
    assert value == s.buffer[s.index..ctx.State().index];
    var next := ctx.Peek();
    if next.None? || !IsAsciiDigit(next.value) {
      // only after a '-': restoring the checkpoint undoes it
      RestoreCheckpoint(s, ctx.State());
      ctx.Restore(checkpoint);
      return None;
    }
    ghost var d := ctx.State().index;
    var integer := ConsumeRun(ctx, IsAsciiDigit);
    ghost var e := ctx.State().index;
    BetweenSplit(s.buffer, s.index, d, e);
    value := value + integer;
    assert IntegerEnd(s.buffer, s.index) == Some(e);
    value := TryFraction(ctx, value);
    ghost var w := ctx.State().index;
    BetweenSplit(s.buffer, s.index, e, w);
    assert value == s.buffer[s.index..w];
    assert MantissaEnd(s.buffer, s.index) == Some(w);
    value := TryExponent(ctx, value);
    ValidIsScanAt(ctx.State());
    assert value == ExponentAsWritten(s.buffer, w, s.buffer[s.index..w]).0;
    assert ctx.State().index == ExponentAsWritten(s.buffer, w, s.buffer[s.index..w]).1;
    token := Some(Number(value, position));
  }

  /** The optional fraction of `NumberRule`. */
  method TryFraction(ctx: DefaultContext, before: string) returns (value: string)
    requires ctx.Valid()
    modifies ctx.cursor
    ensures ctx.Valid() && ctx.State().buffer == old(ctx.State()).buffer
    ensures ctx.State().index == FractionEnd(old(ctx.State()).buffer, old(ctx.State()).index)
    ensures value == before + ctx.State().buffer[old(ctx.State()).index..ctx.State().index]
  {
    ghost var u := ctx.State();
    value := before;
    if ctx.Peek() == Some('.') {
      var ahead := ctx.cursor.PeekSlice(2).Text();
      if |ahead| == 2 && IsAsciiDigit(ahead[1]) {
        assert ahead[1] == u.buffer[u.index + 1];
        value := value + ".";
        var _ := StepChar(ctx);
        var decimal := ConsumeRun(ctx, IsAsciiDigit);
        value := value + decimal;
        assert "." + decimal == u.buffer[u.index..ctx.State().index];
      } else {
        assert !(u.index + 1 < |u.buffer| && IsAsciiDigit(u.buffer[u.index + 1]));
      }
    }
  }

  /** The optional exponent of `NumberRule`, with the pop of the code as written. */
  method TryExponent(ctx: DefaultContext, before: string) returns (value: string)
    requires ctx.Valid()
    modifies ctx.cursor
    ensures ctx.Valid() && ctx.State().buffer == old(ctx.State()).buffer
    ensures value == ExponentAsWritten(old(ctx.State()).buffer, old(ctx.State()).index, before).0
    ensures ctx.State().index == ExponentAsWritten(old(ctx.State()).buffer, old(ctx.State()).index, before).1
  {
    ghost var w := ctx.State();
    ExponentAsWrittenCases(w.buffer, w.index, before);
    value := before;
    var mark := ctx.Peek();
    if mark == Some('e') || mark == Some('E') {
      var expCheckpoint := ctx.Checkpoint();
      value := TryMarkAndSign(ctx, value);
      var exp := ConsumeRun(ctx, IsAsciiDigit);
      if exp == [] {
        RestoreCheckpoint(w, ctx.State());
        ctx.Restore(expCheckpoint);
        value := value[..|value| - 1];
      } else {
        value := value + exp;
      }
    }
  }

  /** The exponent mark and its optional sign, appended to the value. */
  method TryMarkAndSign(ctx: DefaultContext, before: string) returns (value: string)
    requires ctx.Valid() && ctx.State().index < |ctx.State().buffer|
    modifies ctx.cursor
    ensures ctx.Valid() && ctx.State().buffer == old(ctx.State()).buffer
    ensures ctx.State().index == SignEnd(old(ctx.State()).buffer, old(ctx.State()).index + 1)
    ensures value == before + ctx.State().buffer[old(ctx.State()).index..ctx.State().index]
  {
    ghost var w := ctx.State();
    var e := StepChar(ctx);
    value := before + [e];
    var sign := ctx.Peek();
    if sign == Some('+') || sign == Some('-') {
      var c := StepChar(ctx);
      value := value + [c];
      assert [e] + [c] == w.buffer[w.index..w.index + 2];
    }
  }

  method TryKeyword(ctx: DefaultContext) returns (token: Option<JsonToken>)
    requires ctx.Valid()
    modifies ctx.cursor
    ensures ctx.Valid() && Attempt(token, ctx.State()) == MatchKeyword(old(ctx.State()))
  {
    var position := ctx.CurrentPosition();
    var remaining := ctx.cursor.Remaining().Text();
    if StartsWith(remaining, "true") {
      token := Some(Boolean(true, position));
      AdvanceTimes(ctx, |KeywordText(token.value)|);
    } else if StartsWith(remaining, "false") {
      token := Some(Boolean(false, position));
      AdvanceTimes(ctx, |KeywordText(token.value)|);
    } else if StartsWith(remaining, "null") {
      token := Some(Null(position));
      AdvanceTimes(ctx, |KeywordText(token.value)|);
    } else {
      token := None;
    }
  }

  method TryPunctuation(ctx: DefaultContext) returns (token: Option<JsonToken>)
    requires ctx.Valid()
    modifies ctx.cursor
    ensures ctx.Valid() && Attempt(token, ctx.State()) == MatchPunctuation(old(ctx.State()))
  {
    var c := ctx.Peek();
    if c.None? {
      return None;
    }
    var position := ctx.CurrentPosition();
    token := PunctuationFor(c.value, position);
    if token.None? {
      return;
    }
    var _ := ctx.Advance();
  }

  method TryWhitespace(ctx: DefaultContext) returns (token: Option<JsonToken>)
    requires ctx.Valid()
    modifies ctx.cursor
    ensures ctx.Valid() && Attempt(token, ctx.State()) == MatchWhitespace(old(ctx.State()))
  {
    ghost var s := ctx.State();
    var position := ctx.CurrentPosition();
    var value := ctx.ConsumeWhile(IsWhitespace);
    ConsumeWhileEndsRun(s, IsWhitespace);
    EmptyIffNoChars(value);
    ValidIsScanAt(ctx.State());
    if value.IsEmpty() {
      SameIndexSameScan(s, ctx.State());
      token := None;
    } else {
      token := Some(Whitespace(value.Text(), position));
    }
  }

  method TryEof(ctx: DefaultContext) returns (token: Option<JsonToken>)
    requires ctx.Valid()
    modifies ctx.cursor
    ensures ctx.Valid() && Attempt(token, ctx.State()) == MatchEof(old(ctx.State()))
  {
    if ctx.IsEof() {
      token := Some(Eof(ctx.CurrentPosition()));
    } else {
      token := None;
    }
  }
}
