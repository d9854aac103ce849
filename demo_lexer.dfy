/**
 * The calculator lexer of the pipeline demo: numbers (digits, then an
 * optional '.' and more digits), the six operator and parenthesis chars,
 * runs of whitespace, and end of input.
 *
 * A number token keeps its literal text: the `f64` the demo parses it into
 * is not modelled. Every literal the rule reads (digits, optionally a '.'
 * and digits) is one Rust's `f64` parser accepts, so the rule never fails
 * once it has seen a digit.
 *
 * Each rule is a function from the cursor state to the token and the
 * state it leaves (`Match...`) and a method on a lexing context (`Try...`)
 * proved equal to it.
 */
module DemoLexing {
  import opened Common
  import opened Scanning
  import opened RuleEngine
  import opened LexContexts
  import opened Lexers

  datatype CalcToken =
    | Number(literal: string, position: Position)
    | Plus(position: Position)
    | Minus(position: Position)
    | Multiply(position: Position)
    | Divide(position: Position)
    | LeftParen(position: Position)
    | RightParen(position: Position)
    | Whitespace(position: Position)
    | Eof(position: Position)

  datatype CalcRule = NumberRule | OperatorRule | WhitespaceRule | EofRule

  function Priority(rule: CalcRule): int
  {
    match rule
    case NumberRule => 10
    case OperatorRule => 0
    case WhitespaceRule => -1
    case EofRule => -10
  }

  /** `build_lexer_rules()`, in registration order. */
  const CalcRules: seq<CalcRule> := [NumberRule, OperatorRule, WhitespaceRule, EofRule]

  // ---------------------------------------------------------------------
  // Numbers

  /**
   * Where a number starting at `i` ends: a digit, more digits, and when a
   * '.' follows them, the '.' and the digits after it (possibly none).
   */
  function NumberEnd(buffer: string, i: nat): (r: Option<nat>)
    requires i <= |buffer|
    ensures r.Some? <==> i < |buffer| && IsAsciiDigit(buffer[i])
    ensures r.Some? ==> i < r.value <= |buffer|
  {
    if i < |buffer| && IsAsciiDigit(buffer[i]) then
      var e := RunEnd(buffer, i, IsAsciiDigit);
      if e < |buffer| && buffer[e] == '.' then Some(RunEnd(buffer, e + 1, IsAsciiDigit)) else Some(e)
    else None
  }

  /** `NumberRule`: the literal text read, at the position where it starts. */
  function MatchNumber(s: Scan): (r: Attempt<CalcToken, Scan>)
    requires s.index <= |s.buffer|
    ensures SameBufferValid(s, r.after) && s.index <= r.after.index <= |s.buffer|
    ensures r.output.None? ==> r.after == s
    ensures r.output.Some? <==> NumberEnd(s.buffer, s.index).Some?
    ensures r.output.Some? ==> (r.after.index == NumberEnd(s.buffer, s.index).value
      && r.output.value == Number(Between(s.buffer, s.index, r.after.index), s.position))
  {
    match NumberEnd(s.buffer, s.index)
    case None => Attempt(None, s)
    case Some(j) => Attempt(Some(Number(s.buffer[s.index..j], s.position)), ScanAt(s.buffer, j))
  }

  /** Digits, with at most one '.' after the first of them. */
  predicate NumberLiteral(v: string)
  {
    v != [] && IsAsciiDigit(v[0])
    && (forall k :: 0 <= k < |v| ==> IsAsciiDigit(v[k]) || v[k] == '.')
    && (forall k, l :: 0 <= k < l < |v| && v[k] == '.' ==> v[l] != '.')
  }

  /**
   * A number token is a digit, more digits, at most one '.' and digits;
   * and it is the longest such text: no digit follows it, and no '.'
   * follows unless it already holds one.
   */
  lemma NumberTokenShape(s: Scan)
    requires s.index <= |s.buffer|
    ensures var r := MatchNumber(s);
      r.output.Some? ==> var v := r.output.value.literal; var j := r.after.index;
        NumberLiteral(v)
        && !(j < |s.buffer| && IsAsciiDigit(s.buffer[j]))
        && ('.' !in v ==> !(j < |s.buffer| && s.buffer[j] == '.'))
  {
    if NumberEnd(s.buffer, s.index).Some? {
      var b, i := s.buffer, s.index;
      var e := RunEnd(b, i, IsAsciiDigit);
      var j := NumberEnd(b, i).value;
      var v := b[i..j];
      assert MatchNumber(s).output.value.literal == v;
      forall k | 0 <= k < |v|
        ensures v[k] == b[i + k] && (IsAsciiDigit(v[k]) || v[k] == '.')
        ensures v[k] == '.' ==> i + k == e
      {
      }
    }
  }

  /** A trailing '.' is kept: "1." is read whole as one number. */
  lemma TrailingDotKept()
    ensures MatchNumber(Start("1.")).output == Some(Number("1.", StartPosition()))
  {
    var b := "1.";
    assert IsAsciiDigit(b[0]) && !IsAsciiDigit(b[1]);
    assert RunEnd(b, 2, IsAsciiDigit) == 2;
    assert RunEnd(b, 1, IsAsciiDigit) == 1;
    assert RunEnd(b, 0, IsAsciiDigit) == 1;
    assert NumberEnd(b, 0) == Some(2);
    assert b[0..2] == b;
  }

  // ---------------------------------------------------------------------
  // Operators, whitespace and the end of input

  /** The token for an operator or parenthesis char. */
  function OperatorFor(c: char, position: Position): (t: Option<CalcToken>)
    ensures t.Some? <==> c in "+-*/()"
  {
    match c
    case '+' => Some(Plus(position))
    case '-' => Some(Minus(position))
    case '*' => Some(Multiply(position))
    case '/' => Some(Divide(position))
    case '(' => Some(LeftParen(position))
    case ')' => Some(RightParen(position))
    case _ => None
  }

  /** The six chars map to six different tokens. */
  lemma OperatorOneToOne(c: char, d: char, p: Position)
    requires OperatorFor(c, p).Some? && OperatorFor(c, p) == OperatorFor(d, p)
    ensures c == d
  {
  }

  /** `OperatorRule`: one operator or parenthesis char, consumed. */
  function MatchOperator(s: Scan): (r: Attempt<CalcToken, Scan>)
    ensures SameBufferValid(s, r.after)
    ensures r.output.Some? <==> (s.index < |s.buffer| && s.buffer[s.index] in "+-*/()")
    ensures r.output.None? ==> r.after == s
    ensures r.output.Some? ==> (r.output == OperatorFor(s.buffer[s.index], s.position)
      && r.after == Advance(s).1 && r.after.index == s.index + 1)
  {
    match Peek(s)
    case None => Attempt(None, s)
    case Some(c) =>
      match OperatorFor(c, s.position)
      case None => Attempt(None, s)
      case Some(t) => Attempt(Some(t), Advance(s).1)
  }

  /**
   * `OperatorRule::quick_check`: no verdict at the end of input, `Some(true)`
   * on the six chars, `Some(false)` on any other.
   */
  function OperatorQuickCheck(first: Option<char>): (verdict: Option<bool>)
    ensures verdict.None? <==> first.None?
    ensures verdict == Some(true) <==> first.Some? && first.value in "+-*/()"
  {
    if first.None? then None else Some(first.value in "+-*/()")
  }

  /** `WhitespaceRule`: a run of whitespace, consumed whole; the token keeps only where it started. */
  function MatchWhitespace(s: Scan): (r: Attempt<CalcToken, Scan>)
    requires s.index <= |s.buffer|
    ensures SameBufferValid(s, r.after) && s.index <= r.after.index <= |s.buffer|
    ensures r.output.Some? <==> (s.index < |s.buffer| && IsWhitespace(s.buffer[s.index]))
    ensures r.output.None? ==> r.after == s
    ensures r.output.Some? ==> (r.after.index == RunEnd(s.buffer, s.index, IsWhitespace)
      && r.output.value == Whitespace(s.position))
  {
    var j := RunEnd(s.buffer, s.index, IsWhitespace);
    if j == s.index then Attempt(None, s)
    else Attempt(Some(Whitespace(s.position)), ScanAt(s.buffer, j))
  }

  /** `EofRule`: a token at the end of input, consuming nothing. */
  function MatchEof(s: Scan): (r: Attempt<CalcToken, Scan>)
    ensures r.after == s
    ensures r.output.Some? <==> IsEof(s)
    ensures r.output.Some? ==> r.output.value == Eof(s.position)
  {
    if IsEof(s) then Attempt(Some(Eof(s.position)), s) else Attempt(None, s)
  }

  /**
   * `try_match` of each rule. A state beyond its buffer never arises from
   * a context; the guard only makes the function total.
   */
  function MatchRule(rule: CalcRule, s: Scan): (r: Attempt<CalcToken, Scan>)
    ensures SameBufferValid(s, r.after) && s.index <= r.after.index
  {
    if s.index > |s.buffer| then Attempt(None, s)
    else
      match rule
      case NumberRule => MatchNumber(s)
      case OperatorRule => MatchOperator(s)
      case WhitespaceRule => MatchWhitespace(s)
      case EofRule => MatchEof(s)
  }

  /** `quick_check` of each rule: only `OperatorRule` overrides the default. */
  function QuickCheck(rule: CalcRule, first: Option<char>): (verdict: Option<bool>)
    ensures rule != OperatorRule ==> verdict.None?
  {
    if rule == OperatorRule then OperatorQuickCheck(first) else DefaultQuickCheck(rule, first)
  }

  /** The rule set as the engine sees it. */
  function CalcGrammar(): (g: LexRules<CalcRule, CalcToken>)
  {
    Rules((r: CalcRule, s: Scan) => MatchRule(r, s),
          (r: CalcRule) => Priority(r),
          (r: CalcRule, h: Option<char>) => QuickCheck(r, h))
  }

  lemma CalcRulesConfined(rules: seq<CalcRule>)
    ensures Confined(CalcGrammar(), rules)
  {
  }

  /** The operator rule's quick check answers `Some(false)` only where the rule fails. */
  lemma CalcQuickChecksSound(rules: seq<CalcRule>)
    ensures QuickChecksSound(CalcGrammar(), rules)
  {
    forall s: Scan | s.Valid()
      ensures QuickCheckSoundAt(CalcGrammar(), rules, Peek(s), s)
    {
      forall i | 0 <= i < |rules| && Skipped(CalcGrammar(), rules[i], Peek(s))
        ensures CalcGrammar().attempt(rules[i], s).output.None?
      {
        assert rules[i] == OperatorRule;
        assert Peek(s).Some? && Peek(s).value !in "+-*/()";
      }
    }
  }

  /** Only `EofRule` produces `Eof`, and only at the end of input. */
  lemma EofOnlyAtEnd(rule: CalcRule, s: Scan)
    requires !IsEof(s)
    ensures MatchRule(rule, s).output.Some? ==> !MatchRule(rule, s).output.value.Eof?
  {
  }

  /**
   * Collected by the engine's `tokenize`, the calculator tokens never
   * include `Eof`: the iterator stops at the end of input before any rule
   * is tried.
   */
  lemma TokenizeHasNoEof(rules: seq<CalcRule>, s: Scan)
    requires s.Valid()
    ensures Confined(CalcGrammar(), rules)
    ensures NoneBad(TokenizeSpec(CalcGrammar(), rules, s).0, (t: CalcToken) => t.Eof?)
  {
    CalcRulesConfined(rules);
    forall i, t: Scan | 0 <= i < |rules| && t.Valid() && !IsEof(t)
      ensures NotBad(CalcGrammar().attempt(rules[i], t).output, (t: CalcToken) => t.Eof?)
    {
      EofOnlyAtEnd(rules[i], t);
    }
    TokenizeAvoids(CalcGrammar(), rules, s, (t: CalcToken) => t.Eof?);
  }

  // ---------------------------------------------------------------------
  // The rules on a lexing context

  method TryNumber(ctx: DefaultContext) returns (token: Option<CalcToken>)
    requires ctx.Valid()
    modifies ctx.cursor
    ensures ctx.Valid() && Attempt(token, ctx.State()) == MatchNumber(old(ctx.State()))
  {
    ghost var s := ctx.State();
    var position := ctx.CurrentPosition();
    var first := ctx.Peek();
    if first.None? || !IsAsciiDigit(first.value) {
      return None;
    }
    var c := StepChar(ctx);
    var digits := ConsumeRun(ctx, IsAsciiDigit);
    var literal := [c] + digits;
    ghost var e := ctx.State().index;
    assert digits == Between(s.buffer, s.index + 1, e);
    BetweenCons(s.buffer, s.index, e);
    assert e == RunEnd(s.buffer, s.index, IsAsciiDigit);
    literal := TryFraction(ctx, literal);
    ghost var t := ctx.State();
    BetweenSplit(s.buffer, s.index, e, t.index);
    assert literal == Between(s.buffer, s.index, t.index);
    assert t.index == NumberEnd(s.buffer, s.index).value;
    ValidIsScanAt(t);
    token := Some(Number(literal, position));
  }

  /** The optional '.' and digits of `NumberRule`, appended to the literal. */
  method TryFraction(ctx: DefaultContext, before: string) returns (literal: string)
    requires ctx.Valid()
    modifies ctx.cursor
    ensures ctx.Valid() && ctx.State().buffer == old(ctx.State()).buffer
    ensures var (b, e) := (old(ctx.State()).buffer, old(ctx.State()).index);
      ctx.State().index == (if e < |b| && b[e] == '.' then RunEnd(b, e + 1, IsAsciiDigit) else e)
    ensures literal == before + ctx.State().buffer[old(ctx.State()).index..ctx.State().index]
  {
    ghost var u := ctx.State();
    literal := before;
    if ctx.Peek() == Some('.') {
      var dot := StepChar(ctx);
      var fraction := ConsumeRun(ctx, IsAsciiDigit);
      literal := literal + [dot] + fraction;
      assert [dot] + fraction == u.buffer[u.index..ctx.State().index];
    }
  }

  method TryOperator(ctx: DefaultContext) returns (token: Option<CalcToken>)
    requires ctx.Valid()
    modifies ctx.cursor
    ensures ctx.Valid() && Attempt(token, ctx.State()) == MatchOperator(old(ctx.State()))
  {
    var c := ctx.Peek();
    if c.None? {
      return None;
    }
    var position := ctx.CurrentPosition();
    token := OperatorFor(c.value, position);
    if token.None? {
      return;
    }
    var _ := ctx.Advance();
  }

  method TryWhitespace(ctx: DefaultContext) returns (token: Option<CalcToken>)
    requires ctx.Valid()
    modifies ctx.cursor
    ensures ctx.Valid() && Attempt(token, ctx.State()) == MatchWhitespace(old(ctx.State()))
  {
    var c := ctx.Peek();
    if c.None? || !IsWhitespace(c.value) {
      return None;
    }
    var position := ctx.CurrentPosition();
    var _ := ConsumeRun(ctx, IsWhitespace);
    ValidIsScanAt(ctx.State());
    token := Some(Whitespace(position));
  }

  method TryEof(ctx: DefaultContext) returns (token: Option<CalcToken>)
    requires ctx.Valid()
    modifies ctx.cursor
    ensures ctx.Valid() && Attempt(token, ctx.State()) == MatchEof(old(ctx.State()))
  {
    if ctx.IsEof() {
      token := Some(Eof(ctx.CurrentPosition()));
    } else {
      token := None;
    }
  }
}
