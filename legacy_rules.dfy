/**
 * The rules of the older lexer: whitespace, newline, identifier, number,
 * operator and end of input, with their `SimpleToken`s. Each rule is a
 * function from the cursor state it starts in to the token it returns and
 * the state it leaves (`Match...`), and a method that does the same on a
 * lexing context step by step (`Try...`), proved equal to the function.
 *
 * The older lexer's own cursor and context are not part of this model; the
 * rules run on the framework's cursor, whose `peek_str` is `peek_slice`.
 * Unicode `is_alphabetic`/`is_alphanumeric` are parameters (`CharClasses`).
 */
module LegacyRules {
  import opened Common
  import opened TextSlices
  import opened Scanning
  import opened Priorities
  import opened RuleEngine
  import opened LexContexts

  datatype SimpleToken =
    | Whitespace(value: string, position: Position)
    | Newline(position: Position)
    | Ident(value: string, position: Position)
    | Number(value: string, position: Position)
    | Operator(value: string, position: Position)
    | Eof(position: Position)

  /** Text made only of spaces (vacuously true of the empty text). */
  predicate AllSpaces(text: string)
  {
    forall i :: 0 <= i < |text| ==> text[i] == ' '
  }

  function SpacesOnly(text: string): (b: bool)
    ensures b <==> AllSpaces(text)
  {
    if text == [] then true else text[0] == ' ' && SpacesOnly(text[1..])
  }

  /** `LexToken::is_indent`: a whitespace token that starts with a tab or is all spaces. */
  function IsIndent(t: SimpleToken): (b: bool)
    ensures b <==> t.Whitespace? && ((|t.value| > 0 && t.value[0] == '\t') || AllSpaces(t.value))
  {
    match t
    case Whitespace(value, _) => (|value| > 0 && value[0] == '\t') || SpacesOnly(value)
    case _ => false
  }

  /** The Unicode classes the identifier rule consults. */
  datatype CharClasses = CharClasses(alphabetic: char -> bool, alphanumeric: char -> bool)

  datatype SimpleRule =
    | WhitespaceRule
    | NewlineRule
    | IdentRule(classes: CharClasses)
    | NumberRule
    | OperatorRule(operators: seq<string>)
    | EofRule

  function Priority(r: SimpleRule): int
  {
    match r
    case WhitespaceRule => 1
    case NewlineRule => 2
    case IdentRule(_) => 10
    case NumberRule => 10
    case OperatorRule(_) => 5
    case EofRule => -1
  }

  /** `OperatorRule::default()`. */
  const DefaultOperators: seq<string> := [
    "==", "!=", "<=", ">=", "&&", "||", "+", "-", "*", "/", "%", "=", "<", ">", "!", "(",
    ")", "{", "}", "[", "]", ".", ",", ";", ":"]

  /** `default_rules()`, in registration order. */
  function DefaultRules(classes: CharClasses): (rules: seq<SimpleRule>)
    ensures |rules| == 6 && rules[5] == EofRule
  {
    [NewlineRule, WhitespaceRule, IdentRule(classes), NumberRule, OperatorRule(DefaultOperators), EofRule]
  }

  /** Whitespace other than a line feed. */
  predicate IsInlineSpace(c: char)
  {
    IsWhitespace(c) && c != '\n'
  }

  predicate IsIdentStart(classes: CharClasses, c: char)
  {
    classes.alphabetic(c) || c == '_'
  }

  predicate IsIdentContinue(classes: CharClasses, c: char)
  {
    classes.alphanumeric(c) || c == '_'
  }

  /** Two ends of the same maximal run are the same index. */
  lemma RunEndUnique(buffer: string, i: nat, a: nat, b: nat, p: char -> bool)
    requires i <= a <= |buffer| && i <= b <= |buffer|
    requires forall j :: i <= j < a ==> p(buffer[j])
    requires forall j :: i <= j < b ==> p(buffer[j])
    requires a == |buffer| || !p(buffer[a])
    requires b == |buffer| || !p(buffer[b])
    ensures a == b
  {
  }

  /** `WhitespaceRule`: the longest run of whitespace other than line feeds, if not empty. */
  function MatchWhitespace(s: Scan): (r: Attempt<SimpleToken, Scan>)
    requires s.index <= |s.buffer|
    ensures SameBufferValid(s, r.after)
    ensures r.output.Some? <==> s.index < |s.buffer| && IsInlineSpace(s.buffer[s.index])
    ensures r.output.None? ==> r.after == s
    ensures r.output.Some? ==>
      s.index < r.after.index <= |s.buffer|
      && r.output.value == Whitespace(Between(s.buffer, s.index, r.after.index), s.position)
      && (forall i :: s.index <= i < r.after.index ==> IsInlineSpace(s.buffer[i]))
      && (r.after.index == |s.buffer| || !IsInlineSpace(s.buffer[r.after.index]))
  {
    var (value, t) := ConsumeWhile(s, IsInlineSpace);
    EmptyIffNoChars(value);
    if value.IsEmpty() then Attempt(None, t)
    else Attempt(Some(Whitespace(value.Text(), s.position)), t)
  }

  /** `NewlineRule`: exactly one line feed. */
  function MatchNewline(s: Scan): (r: Attempt<SimpleToken, Scan>)
    ensures SameBufferValid(s, r.after)
    ensures r.output.Some? <==> s.index < |s.buffer| && s.buffer[s.index] == '\n'
    ensures r.output.None? ==> r.after == s
    ensures r.output.Some? ==>
      r.output.value == Newline(s.position) && r.after == Advance(s).1 && r.after.index == s.index + 1
  {
    if Peek(s) == Some('\n') then Attempt(Some(Newline(s.position)), Advance(s).1)
    else Attempt(None, s)
  }

  /** `IdentRule`: a start char, then the longest run of continuing chars; the value is the text passed over. */
  function MatchIdent(classes: CharClasses, s: Scan): (r: Attempt<SimpleToken, Scan>)
    requires s.index <= |s.buffer|
    ensures SameBufferValid(s, r.after)
    ensures r.output.Some? <==> s.index < |s.buffer| && IsIdentStart(classes, s.buffer[s.index])
    ensures r.output.None? ==> r.after == s
    ensures r.output.Some? ==>
      s.index < r.after.index <= |s.buffer|
      && r.output.value == Ident(Between(s.buffer, s.index, r.after.index), s.position)
      && (forall i :: s.index < i < r.after.index ==> IsIdentContinue(classes, s.buffer[i]))
      && (r.after.index == |s.buffer| || !IsIdentContinue(classes, s.buffer[r.after.index]))
  {
    match Peek(s)
    case None => Attempt(None, s)
    case Some(first) =>
      if IsIdentStart(classes, first) then
        var t := Advance(s).1;
        var (rest, u) := ConsumeWhile(t, c => IsIdentContinue(classes, c));
        BetweenCons(s.buffer, s.index, u.index);
        Attempt(Some(Ident([first] + rest.Text(), s.position)), u)
      else Attempt(None, s)
  }

  /** The end of the run of ASCII digits starting at `i`. */
  function DigitsEnd(buffer: string, i: nat): (k: nat)
    requires i <= |buffer|
    ensures i <= k <= |buffer|
    ensures forall j :: i <= j < k ==> IsAsciiDigit(buffer[j])
    ensures k == |buffer| || !IsAsciiDigit(buffer[k])
    decreases |buffer| - i
  {
    if i < |buffer| && IsAsciiDigit(buffer[i]) then DigitsEnd(buffer, i + 1) else i
  }

  /** A '.' at `k` followed by a digit. */
  predicate FractionAt(buffer: string, k: nat)
  {
    k + 1 < |buffer| && buffer[k] == '.' && IsAsciiDigit(buffer[k + 1])
  }

  /** Where a number whose integer digits end at `k` ends: after the fraction if one follows. */
  function NumberEndAfter(buffer: string, k: nat): (e: nat)
    requires k <= |buffer|
    ensures k <= e <= |buffer|
    ensures FractionAt(buffer, k) ==> e == DigitsEnd(buffer, k + 1)
    ensures !FractionAt(buffer, k) ==> e == k
  {
    if FractionAt(buffer, k) then DigitsEnd(buffer, k + 1) else k
  }

  /** The digits from `t` on: the slice's end is the end of the run. */
  lemma DigitRun(t: Scan)
    requires t.index <= |t.buffer|
    ensures ConsumeWhile(t, IsAsciiDigit).1.index == DigitsEnd(t.buffer, t.index)
    ensures ConsumeWhile(t, IsAsciiDigit).0.Text() == t.buffer[t.index..DigitsEnd(t.buffer, t.index)]
  {
    var u := ConsumeWhile(t, IsAsciiDigit).1;
    RunEndUnique(t.buffer, t.index, u.index, DigitsEnd(t.buffer, t.index), IsAsciiDigit);
  }

  /**
   * `NumberRule`: a digit and the rest of its run, then a '.' and a second
   * run only when a digit follows the '.'; the value is the text passed over.
   */
  function MatchNumber(s: Scan): (r: Attempt<SimpleToken, Scan>)
    requires s.index <= |s.buffer|
    ensures SameBufferValid(s, r.after)
    ensures r.output.Some? <==> s.index < |s.buffer| && IsAsciiDigit(s.buffer[s.index])
    ensures r.output.None? ==> r.after == s
    ensures r.output.Some? ==>
      r.after.index == NumberEndAfter(s.buffer, DigitsEnd(s.buffer, s.index))
      && s.index < r.after.index <= |s.buffer|
      && r.output.value == Number(Between(s.buffer, s.index, r.after.index), s.position)
  {
    var first := Peek(s);
    if first.None? || !IsAsciiDigit(first.value) then Attempt(None, s)
    else
      var digits := IntegerDigits(s);
      NumberFraction(s, digits.0, digits.1)
  }

  /** The first digit, taken by `advance`, and the rest of its run, taken by `consume_while`. */
  function IntegerDigits(s: Scan): (r: (string, Scan))
    requires s.index < |s.buffer| && IsAsciiDigit(s.buffer[s.index])
    ensures SameBufferValid(s, r.1)
    ensures r.1.index == DigitsEnd(s.buffer, s.index) && s.index < r.1.index
    ensures r.0 == Between(s.buffer, s.index, r.1.index)
  {
    var t := Advance(s).1;
    var (rest, u) := ConsumeWhile(t, IsAsciiDigit);
    DigitRun(t);
    BetweenCons(s.buffer, s.index, u.index);
    ([s.buffer[s.index]] + rest.Text(), u)
  }

  /** The '.', taken by `advance`, and the run of digits after it, taken by `consume_while`. */
  function FractionDigits(u: Scan): (r: (string, Scan))
    requires FractionAt(u.buffer, u.index)
    ensures SameBufferValid(u, r.1)
    ensures r.1.index == DigitsEnd(u.buffer, u.index + 1)
    ensures r.0 == Between(u.buffer, u.index, r.1.index)
  {
    var v := Advance(u).1;
    var (decimal, w) := ConsumeWhile(v, IsAsciiDigit);
    DigitRun(v);
    BetweenCons(u.buffer, u.index, w.index);
    (['.'] + decimal.Text(), w)
  }

  /** The peeked text is the next `n` chars, or the rest of the input. */
  lemma PeekedText(s: Scan, n: nat)
    requires s.index <= |s.buffer|
    ensures PeekSlice(s, n).Text()
      == s.buffer[s.index..s.index + (if n <= |s.buffer| - s.index then n else |s.buffer| - s.index)]
  {
  }

  /** The rule's test for a fraction: a '.' next and a digit as the second of the two peeked chars. */
  lemma FractionTest(u: Scan)
    requires u.index <= |u.buffer|
    ensures var ahead := PeekSlice(u, 2).Text();
      (Peek(u) == Some('.') && |ahead| == 2 && IsAsciiDigit(ahead[1])) <==> FractionAt(u.buffer, u.index)
  {
    PeekedText(u, 2);
  }

  /** The part of `NumberRule` after the integer digits `value`, with the cursor at `u`. */
  function NumberFraction(s: Scan, value: string, u: Scan): (r: Attempt<SimpleToken, Scan>)
    requires u.buffer == s.buffer && s.index < u.index <= |s.buffer|
    requires value == Between(s.buffer, s.index, u.index)
    ensures SameBufferValid(u, r.after) && r.output.Some?
    ensures r.after.index == NumberEndAfter(s.buffer, u.index)
    ensures s.index < r.after.index <= |s.buffer|
    ensures r.output.value == Number(Between(s.buffer, s.index, r.after.index), s.position)
  {
    var ahead := PeekSlice(u, 2).Text();
    FractionTest(u);
    if Peek(u) == Some('.') && |ahead| == 2 && IsAsciiDigit(ahead[1]) then
      var (fraction, w) := FractionDigits(u);
      BetweenSplit(s.buffer, s.index, u.index, w.index);
      Attempt(Some(Number(value + fraction, s.position)), w)
    else
      Attempt(Some(Number(value, s.position)), u)
  }

  /** How an operator's length is measured: `op.len()` counts bytes; the corrected rule counts chars. */
  datatype Measure = Bytes | Chars

  function Width(unit: Measure, op: string): nat
  {
    match unit
    case Bytes => Utf8Size(op)
    case Chars => |op|
  }

  /** The sort key `Reverse(op.len())` sorts by. */
  function WidthKey(unit: Measure): string -> int
  {
    (op: string) => Width(unit, op) as int
  }

  /** What the operator rule compares `op` with: `peek_str(op.len())`, which counts chars. */
  function PeekedFor(s: Scan, op: string, unit: Measure): string
    requires s.index <= |s.buffer|
  {
    PeekSlice(s, Width(unit, op)).Text()
  }

  /** The operators longest first by their width, stably. */
  function LongestFirst(operators: seq<string>, unit: Measure): (sorted: seq<string>)
    ensures |sorted| == |operators|
  {
    SortByPriority(operators, WidthKey(unit))
  }

  /** The first of `sorted[j..]` whose peeked text equals it, consumed by as many calls of `advance` as its width. */
  function MatchOperatorFrom(sorted: seq<string>, j: nat, s: Scan, unit: Measure): (r: Attempt<SimpleToken, Scan>)
    requires j <= |sorted| && s.index <= |s.buffer|
    ensures SameBufferValid(s, r.after) && s.index <= r.after.index
    ensures r.output.None? ==> r.after == s
    ensures r.output.Some? ==> r.output.value.Operator? && r.output.value.position == s.position
    decreases |sorted| - j
  {
    if j == |sorted| then Attempt(None, s)
    else if PeekedFor(s, sorted[j], unit) == sorted[j] then
      Attempt(Some(Operator(sorted[j], s.position)), AdvanceRepeat(s, Width(unit, sorted[j])))
    else
      MatchOperatorFrom(sorted, j + 1, s, unit)
  }

  /** A successful answer is the first operator from `j` on whose peeked text equals it. */
  lemma {:induction false} OperatorFromWinner(sorted: seq<string>, j: nat, s: Scan, unit: Measure) returns (m: nat)
    requires j <= |sorted| && s.index <= |s.buffer|
    requires MatchOperatorFrom(sorted, j, s, unit).output.Some?
    ensures j <= m < |sorted| && PeekedFor(s, sorted[m], unit) == sorted[m]
    ensures MatchOperatorFrom(sorted, j, s, unit) == Attempt(Some(Operator(sorted[m], s.position)), AdvanceRepeat(s, Width(unit, sorted[m])))
    ensures forall n :: j <= n < m ==> PeekedFor(s, sorted[n], unit) != sorted[n]
    decreases |sorted| - j
  {
    if PeekedFor(s, sorted[j], unit) == sorted[j] {
      m := j;
    } else {
      m := OperatorFromWinner(sorted, j + 1, s, unit);
    }
  }

  /** No answer exactly when no operator from `j` on has a peeked text equal to it. */
  lemma {:induction false} OperatorFromNoneIff(sorted: seq<string>, j: nat, s: Scan, unit: Measure)
    requires j <= |sorted| && s.index <= |s.buffer|
    ensures MatchOperatorFrom(sorted, j, s, unit).output.None?
      <==> forall n :: j <= n < |sorted| ==> PeekedFor(s, sorted[n], unit) != sorted[n]
    decreases |sorted| - j
  {
    if j < |sorted| {
      if PeekedFor(s, sorted[j], unit) != sorted[j] {
        OperatorFromNoneIff(sorted, j + 1, s, unit);
        assert (forall n :: j <= n < |sorted| ==> PeekedFor(s, sorted[n], unit) != sorted[n])
          <==> (forall n :: j + 1 <= n < |sorted| ==> PeekedFor(s, sorted[n], unit) != sorted[n]);
      } else {
        assert MatchOperatorFrom(sorted, j, s, unit).output.Some?;
        assert !(j <= j < |sorted| ==> PeekedFor(s, sorted[j], unit) != sorted[j]);
      }
    }
  }

  /** `OperatorRule`, as written: operators sorted by byte length, each compared with that many chars. */
  function MatchOperator(operators: seq<string>, s: Scan): (r: Attempt<SimpleToken, Scan>)
    requires s.index <= |s.buffer|
    ensures SameBufferValid(s, r.after) && s.index <= r.after.index
    ensures r.output.None? ==> r.after == s
  {
    MatchOperatorFrom(LongestFirst(operators, Bytes), 0, s, Bytes)
  }

  /** The operator rule measuring operators in chars throughout. */
  function MatchOperatorChars(operators: seq<string>, s: Scan): (r: Attempt<SimpleToken, Scan>)
    requires s.index <= |s.buffer|
    ensures SameBufferValid(s, r.after) && s.index <= r.after.index
    ensures r.output.None? ==> r.after == s
  {
    MatchOperatorFrom(LongestFirst(operators, Chars), 0, s, Chars)
  }

  /** `op` is the input at the cursor. */
  predicate AtCursor(s: Scan, op: string)
  {
    s.index + |op| <= |s.buffer| && s.buffer[s.index..s.index + |op|] == op
  }

  /**
   * As written, the text peeked for an operator equals it exactly when the
   * operator is at the cursor and either its byte length is its char count
   * or nothing follows it.
   */
  lemma PeekedByBytesIff(s: Scan, op: string)
    requires s.index <= |s.buffer|
    ensures PeekedFor(s, op, Bytes) == op
      <==> AtCursor(s, op) && (Utf8Size(op) == |op| || s.index + |op| == |s.buffer|)
  {
    Utf8SizeBounds(op);
    PeekedIffWidth(s, op, Utf8Size(op));
  }

  /** Peeking `n` chars, at least as many as `op` has, gives back `op` exactly when it is at the cursor and `n` chars are not available past it. */
  lemma PeekedIffWidth(s: Scan, op: string, n: nat)
    requires s.index <= |s.buffer| && |op| <= n
    ensures PeekSlice(s, n).Text() == op <==> AtCursor(s, op) && (n == |op| || s.index + |op| == |s.buffer|)
  {
    PeekedText(s, n);
  }

  /** Measured in chars, the text peeked for an operator equals it exactly when it is at the cursor. */
  lemma PeekedByCharsIff(s: Scan, op: string)
    requires s.index <= |s.buffer|
    ensures PeekedFor(s, op, Chars) == op <==> AtCursor(s, op)
  {
  }

  /**
   * Longest first: the rule fails only when no registered operator matches;
   * otherwise it returns a registered operator that matches, consumed by
   * as many advances as its width, and no strictly wider registered operator matches.
   */
  lemma OperatorLongestFirst(operators: seq<string>, s: Scan, unit: Measure)
    requires s.index <= |s.buffer|
    ensures var r := MatchOperatorFrom(LongestFirst(operators, unit), 0, s, unit);
      (r.output.None? <==> forall op :: op in operators ==> PeekedFor(s, op, unit) != op)
      && (r.output.Some? ==>
            r.output.value.value in operators
            && PeekedFor(s, r.output.value.value, unit) == r.output.value.value
            && r.after == AdvanceRepeat(s, Width(unit, r.output.value.value))
            && forall op :: op in operators && Width(unit, op) > Width(unit, r.output.value.value) ==> PeekedFor(s, op, unit) != op)
  {
    var sorted := LongestFirst(operators, unit);
    var r := MatchOperatorFrom(sorted, 0, s, unit);
    SameOperators(operators, unit);
    OperatorFromNoneIff(sorted, 0, s, unit);
    if r.output.Some? {
      var m := OperatorFromWinner(sorted, 0, s, unit);
      SortIsDescending(operators, WidthKey(unit));
      NoWiderBeforeWinner(sorted, m, s, unit);
      forall op | op in operators && Width(unit, op) > Width(unit, sorted[m])
        ensures PeekedFor(s, op, unit) != op
      {
        var n :| 0 <= n < |sorted| && sorted[n] == op;
      }
    } else {
      forall op | op in operators ensures PeekedFor(s, op, unit) != op {
        var n :| 0 <= n < |sorted| && sorted[n] == op;
      }
    }
  }

  /** In a list sorted widest first, no operator wider than the first match matches. */
  lemma NoWiderBeforeWinner(sorted: seq<string>, m: nat, s: Scan, unit: Measure)
    requires m < |sorted| && s.index <= |s.buffer| && SortedDescending(sorted, WidthKey(unit))
    requires forall n :: 0 <= n < m ==> PeekedFor(s, sorted[n], unit) != sorted[n]
    ensures forall n :: 0 <= n < |sorted| && Width(unit, sorted[n]) > Width(unit, sorted[m]) ==> PeekedFor(s, sorted[n], unit) != sorted[n]
  {
    forall n | 0 <= n < |sorted| && Width(unit, sorted[n]) > Width(unit, sorted[m])
      ensures n < m
    {
      assert WidthKey(unit)(sorted[n]) > WidthKey(unit)(sorted[m]);
    }
  }

  /** Sorting the operators neither adds nor drops one. */
  lemma SameOperators(operators: seq<string>, unit: Measure)
    ensures forall op :: op in operators <==> op in LongestFirst(operators, unit)
  {
    SortIsPermutation(operators, WidthKey(unit));
    forall op ensures op in operators <==> op in LongestFirst(operators, unit) {
      assert op in operators <==> op in multiset(operators);
      assert op in LongestFirst(operators, unit) <==> op in multiset(LongestFirst(operators, unit));
    }
  }

  /**
   * Measured in chars, the rule is longest match: it fails exactly when no
   * registered operator is at the cursor, and otherwise consumes exactly a
   * registered operator at the cursor, with no longer one there.
   */
  lemma OperatorCharsLongestMatch(operators: seq<string>, s: Scan)
    requires s.index <= |s.buffer|
    ensures var r := MatchOperatorChars(operators, s);
      (r.output.None? <==> forall op :: op in operators ==> !AtCursor(s, op))
      && (r.output.Some? ==>
            var op := r.output.value.value;
            op in operators && AtCursor(s, op)
            && r.after.index == s.index + |op| && r.after.buffer[s.index..r.after.index] == op
            && forall other :: other in operators && |other| > |op| ==> !AtCursor(s, other))
  {
    OperatorLongestFirst(operators, s, Chars);
    forall op ensures PeekedFor(s, op, Chars) == op <==> AtCursor(s, op) {
      PeekedByCharsIff(s, op);
    }
  }

  /** Every char of `op` is ASCII. */
  predicate IsAscii(op: string)
  {
    forall i :: 0 <= i < |op| ==> op[i] as int < 0x80
  }

  lemma {:induction false} AsciiByteWidth(op: string)
    requires IsAscii(op)
    ensures Utf8Size(op) == |op|
    decreases |op|
  {
    if op != [] {
      AsciiByteWidth(op[..|op| - 1]);
    }
  }

  lemma {:induction false} SameWidthsSameMatch(sorted: seq<string>, j: nat, s: Scan)
    requires j <= |sorted| && s.index <= |s.buffer|
    requires forall n :: 0 <= n < |sorted| ==> Width(Bytes, sorted[n]) == Width(Chars, sorted[n])
    ensures MatchOperatorFrom(sorted, j, s, Bytes) == MatchOperatorFrom(sorted, j, s, Chars)
    decreases |sorted| - j
  {
    if j < |sorted| {
      SameWidthsSameMatch(sorted, j + 1, s);
    }
  }

  /** On ASCII operators, which is every default operator, both ways of measuring agree. */
  lemma AsciiOperatorsAgree(operators: seq<string>, s: Scan)
    requires s.index <= |s.buffer| && forall op :: op in operators ==> IsAscii(op)
    ensures MatchOperator(operators, s) == MatchOperatorChars(operators, s)
  {
    forall i | 0 <= i < |operators| ensures Width(Bytes, operators[i]) == Width(Chars, operators[i]) {
      AsciiByteWidth(operators[i]);
    }
    SortSameKeys(operators, WidthKey(Bytes), WidthKey(Chars));
    var sorted := LongestFirst(operators, Bytes);
    SortIsPermutation(operators, WidthKey(Bytes));
    forall n | 0 <= n < |sorted| ensures Width(Bytes, sorted[n]) == Width(Chars, sorted[n]) {
      assert sorted[n] in multiset(operators);
      AsciiByteWidth(sorted[n]);
    }
    SameWidthsSameMatch(sorted, 0, s);
  }

  lemma DefaultOperatorsAscii()
    ensures forall op :: op in DefaultOperators ==> IsAscii(op)
  {
  }

  /** The not-equal sign, U+2260: one char, three bytes in UTF-8. */
  const NotEqualSign: char := 0x2260 as char

  /**
   * As written, an operator whose byte length exceeds its char count is
   * missed whenever anything follows it: the not-equal sign before "1".
   */
  lemma NonAsciiOperatorMissed()
    ensures MatchOperator([[NotEqualSign]], Start([NotEqualSign, '1'])).output.None?
    ensures MatchOperatorChars([[NotEqualSign]], Start([NotEqualSign, '1'])).output
      == Some(Operator([NotEqualSign], StartPosition()))
  {
    var op := [NotEqualSign];
    var s := Start([NotEqualSign, '1']);
    assert Utf8Size(op) == 3 by {
      assert op[..0] == [];
    }
    PeekedByBytesIff(s, op);
    OperatorLongestFirst([op], s, Bytes);
    OperatorCharsLongestMatch([op], s);
    assert AtCursor(s, op);
  }

  /** `EofRule`: a token at the end of input, consuming nothing. */
  function MatchEof(s: Scan): (r: Attempt<SimpleToken, Scan>)
    ensures r.after == s
    ensures r.output.Some? <==> IsEof(s)
    ensures r.output.Some? ==> r.output.value == Eof(s.position)
  {
    if IsEof(s) then Attempt(Some(Eof(s.position)), s) else Attempt(None, s)
  }

  /**
   * `try_match` of each rule. A state beyond its buffer never arises from
   * a context; the guard only makes the function total.
   */
  function MatchRule(rule: SimpleRule, s: Scan): (r: Attempt<SimpleToken, Scan>)
    ensures SameBufferValid(s, r.after) && s.index <= r.after.index
    ensures r.output.None? ==> r.after == s
  {
    if s.index > |s.buffer| then Attempt(None, s)
    else
      match rule
      case WhitespaceRule => MatchWhitespace(s)
      case NewlineRule => MatchNewline(s)
      case IdentRule(classes) => MatchIdent(classes, s)
      case NumberRule => MatchNumber(s)
      case OperatorRule(operators) => MatchOperator(operators, s)
      case EofRule => MatchEof(s)
  }

  /** The rule set as the engines see it; these rules keep the default `quick_check`. */
  function SimpleGrammar(): (g: Rules<SimpleRule, Scan, Option<char>, SimpleToken>)
    ensures forall r: SimpleRule, h: Option<char> :: g.quickCheck(r, h).None?
  {
    Rules((r: SimpleRule, s: Scan) => MatchRule(r, s),
          (r: SimpleRule) => Priority(r),
          (r: SimpleRule, h: Option<char>) => DefaultQuickCheck(r, h))
  }

  /** The state-machine side of `try_match`: each rule runs on a lexing context. */
  method TryWhitespace(ctx: DefaultContext) returns (token: Option<SimpleToken>)
    requires ctx.Valid()
    modifies ctx.cursor
    ensures ctx.Valid() && Attempt(token, ctx.State()) == MatchWhitespace(old(ctx.State()))
  {
    var position := ctx.CurrentPosition();
    var value := ctx.ConsumeWhile(IsInlineSpace);
    EmptyIffNoChars(value);
    if value.IsEmpty() {
      token := None;
    } else {
      token := Some(Whitespace(value.Text(), position));
    }
  }

  method TryNewline(ctx: DefaultContext) returns (token: Option<SimpleToken>)
    requires ctx.Valid()
    modifies ctx.cursor
    ensures ctx.Valid() && Attempt(token, ctx.State()) == MatchNewline(old(ctx.State()))
  {
    if ctx.Peek() == Some('\n') {
      var position := ctx.CurrentPosition();
      var _ := ctx.Advance();
      token := Some(Newline(position));
    } else {
      token := None;
    }
  }

  method TryIdent(classes: CharClasses, ctx: DefaultContext) returns (token: Option<SimpleToken>)
    requires ctx.Valid()
    modifies ctx.cursor
    ensures ctx.Valid() && Attempt(token, ctx.State()) == MatchIdent(classes, old(ctx.State()))
  {
    var position := ctx.CurrentPosition();
    var first := ctx.Peek();
    if first.None? {
      return None;
    }
    if IsIdentStart(classes, first.value) {
      var _ := ctx.Advance();
      var rest := ctx.ConsumeWhile(c => IsIdentContinue(classes, c));
      token := Some(Ident([first.value] + rest.Text(), position));
    } else {
      token := None;
    }
  }

  method TryNumber(ctx: DefaultContext) returns (token: Option<SimpleToken>)
    requires ctx.Valid()
    modifies ctx.cursor
    ensures ctx.Valid() && Attempt(token, ctx.State()) == MatchNumber(old(ctx.State()))
  {
    var s := ctx.State();
    var position := ctx.CurrentPosition();
    var first := ctx.Peek();
    if first.None? {
      return None;
    }
    if !IsAsciiDigit(first.value) {
      return None;
    }
    var value := [first.value];
    var _ := ctx.Advance();
    var rest := ctx.ConsumeWhile(IsAsciiDigit);
    value := value + rest.Text();
    assert (value, ctx.State()) == IntegerDigits(s);
    token := TryNumberFraction(ctx, s, value, position);
  }

  /** The rest of `NumberRule::try_match`, once the integer digits `value` are taken. */
  method TryNumberFraction(ctx: DefaultContext, s: Scan, value: string, position: Position) returns (token: Option<SimpleToken>)
    requires ctx.Valid() && ctx.State().buffer == s.buffer && s.index < ctx.State().index
    requires value == Between(s.buffer, s.index, ctx.State().index) && position == s.position
    modifies ctx.cursor
    ensures ctx.Valid() && Attempt(token, ctx.State()) == NumberFraction(s, value, old(ctx.State()))
  {
    ghost var u := ctx.State();
    var text := value;
    var ahead := ctx.cursor.PeekSlice(2).Text();
    if ctx.Peek() == Some('.') && |ahead| == 2 && IsAsciiDigit(ahead[1]) {
      text := text + ['.'];
      var _ := ctx.Advance();
      var decimal := ctx.ConsumeWhile(IsAsciiDigit);
      assert (['.'] + decimal.Text(), ctx.State()) == FractionDigits(u);
      text := text + decimal.Text();
      assert text == value + (['.'] + decimal.Text());
    }
    token := Some(Number(text, position));
  }

  method TryOperator(operators: seq<string>, ctx: DefaultContext) returns (token: Option<SimpleToken>)
    requires ctx.Valid()
    modifies ctx.cursor
    ensures ctx.Valid() && Attempt(token, ctx.State()) == MatchOperator(operators, old(ctx.State()))
  {
    var sorted := LongestFirst(operators, Bytes);
    ghost var s := ctx.State();
    var j := 0;
    while j < |sorted|
      invariant j <= |sorted| && ctx.Valid() && ctx.State() == s
      invariant MatchOperatorFrom(sorted, 0, s, Bytes) == MatchOperatorFrom(sorted, j, s, Bytes)
    {
      var op := sorted[j];
      var peeked := ctx.cursor.PeekSlice(Width(Bytes, op));
      if peeked.Text() == op {
        var position := ctx.CurrentPosition();
        AdvanceTimes(ctx, Width(Bytes, op));
        return Some(Operator(op, position));
      }
      j := j + 1;
    }
    token := None;
  }

  method TryEof(ctx: DefaultContext) returns (token: Option<SimpleToken>)
    requires ctx.Valid()
    modifies ctx.cursor
    ensures ctx.Valid() && Attempt(token, ctx.State()) == MatchEof(old(ctx.State()))
  {
    if ctx.IsEof() {
      token := Some(Eof(ctx.CurrentPosition()));
    } else {
      token := None;
    }
  }

  /** `try_match`, dispatched on the rule. */
  method TryMatch(rule: SimpleRule, ctx: DefaultContext) returns (token: Option<SimpleToken>)
    requires ctx.Valid()
    modifies ctx.cursor
    ensures ctx.Valid() && Attempt(token, ctx.State()) == MatchRule(rule, old(ctx.State()))
  {
    match rule
    case WhitespaceRule => token := TryWhitespace(ctx);
    case NewlineRule => token := TryNewline(ctx);
    case IdentRule(classes) => token := TryIdent(classes, ctx);
    case NumberRule => token := TryNumber(ctx);
    case OperatorRule(operators) => token := TryOperator(operators, ctx);
    case EofRule => token := TryEof(ctx);
  }
}
