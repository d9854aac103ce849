/**
 * The Markdown renderer's lexing rules. Structural characters become
 * their own tokens: up to six `#`, up to three backticks, up to two `*`
 * or `_`, one `-`, one bracket or parenthesis, one line feed. Everything
 * between them is a `Text` token holding the longest run of other
 * characters. `Eof` is a rule too, though the engine never tries a rule
 * at the end of input.
 */
module MarkdownLexing {
  import opened Common
  import opened Scanning
  import opened Priorities
  import opened RuleEngine
  import opened LexContexts
  import opened Lexers

  datatype MarkdownToken =
    | Hash(count: nat, position: Position)
    | Newline(position: Position)
    | Text(content: string, position: Position)
    | Dash(position: Position)
    | Asterisk(position: Position)
    | Backtick(count: nat, position: Position)
    | Star(count: nat, position: Position)
    | Underscore(count: nat, position: Position)
    | LeftBracket(position: Position)
    | RightBracket(position: Position)
    | LeftParen(position: Position)
    | RightParen(position: Position)
    | Eof(position: Position)

  datatype MarkdownRule =
    HashRule | BacktickRule | NewlineRule | StarRule | UnderscoreRule | DashRule | BracketRules | TextRule | EofRule

  /** `build_lexer_rules`, in the order listed there. */
  const MarkdownRules: seq<MarkdownRule> :=
    [HashRule, BacktickRule, NewlineRule, StarRule, UnderscoreRule, DashRule, BracketRules, TextRule, EofRule]

  /** `priority` of each rule. */
  function Priority(rule: MarkdownRule): int
  {
    match rule
    case HashRule => 50
    case BacktickRule => 45
    case NewlineRule => 40
    case StarRule => 30
    case UnderscoreRule => 30
    case DashRule => 35
    case BracketRules => 35
    case TextRule => 1
    case EofRule => -10
  }

  /** The characters that end a text run and start a token of their own. */
  predicate IsSpecial(c: char)
  {
    c in "#\n`*_-[]()"
  }

  predicate IsPlain(c: char)
  {
    !IsSpecial(c)
  }

  /** `n` copies of `c`. */
  function Repeat(c: char, n: nat): (r: string)
    ensures |r| == n
    ensures forall k :: 0 <= k < n ==> r[k] == c
  {
    if n == 0 then [] else [c] + Repeat(c, n - 1)
  }

  /** The source text a token stands for. */
  function Lexeme(t: MarkdownToken): string
  {
    match t
    case Hash(count, _) => Repeat('#', count)
    case Newline(_) => "\n"
    case Text(content, _) => content
    case Dash(_) => "-"
    case Asterisk(_) => "*"
    case Backtick(count, _) => Repeat('`', count)
    case Star(count, _) => Repeat('*', count)
    case Underscore(count, _) => Repeat('_', count)
    case LeftBracket(_) => "["
    case RightBracket(_) => "]"
    case LeftParen(_) => "("
    case RightParen(_) => ")"
    case Eof(_) => ""
  }

  function Lexemes(tokens: seq<MarkdownToken>): string
  {
    if tokens == [] then [] else Lexeme(tokens[0]) + Lexemes(tokens[1..])
  }

  /** Where a run of at most `cap` copies of `c` from `i` ends. */
  function CappedRunEnd(buffer: string, i: nat, c: char, cap: nat): (j: nat)
    requires i <= |buffer|
    ensures i <= j <= |buffer| && j - i <= cap
    ensures Between(buffer, i, j) == Repeat(c, j - i)
    ensures j - i == cap || j == |buffer| || buffer[j] != c
    decreases cap
  {
    if cap > 0 && i < |buffer| && buffer[i] == c then
      var j := CappedRunEnd(buffer, i + 1, c, cap - 1);
      assert buffer[i..j] == [c] + buffer[i + 1..j];
      j
    else i
  }

  /** A run of `n` copies of `c` from `i` that stops at the cap, the end or another char ends where the capped run does. */
  lemma {:induction false} CappedRunEndAt(buffer: string, i: nat, c: char, cap: nat, n: nat)
    requires i + n <= |buffer| && n <= cap
    requires forall k :: i <= k < i + n ==> buffer[k] == c
    requires n == cap || i + n == |buffer| || buffer[i + n] != c
    ensures CappedRunEnd(buffer, i, c, cap) == i + n
    decreases n
  {
    CappedRunEndStep(buffer, i, c, cap);
    if n > 0 {
      CappedRunEndAt(buffer, i + 1, c, cap - 1, n - 1);
    }
  }

  /** One step of the capped run. */
  lemma CappedRunEndStep(buffer: string, i: nat, c: char, cap: nat)
    requires i <= |buffer|
    ensures cap > 0 && i < |buffer| && buffer[i] == c ==> CappedRunEnd(buffer, i, c, cap) == CappedRunEnd(buffer, i + 1, c, cap - 1)
    ensures !(cap > 0 && i < |buffer| && buffer[i] == c) ==> CappedRunEnd(buffer, i, c, cap) == i
  {
  }

  /**
   * The counting loop of `HashRule`, `BacktickRule`, `StarRule` and
   * `UnderscoreRule`: `count` copies of `c` consumed, at most `cap`, and a
   * token only when there was at least one.
   */
  function MatchCounted(s: Scan, c: char, cap: nat, token: nat -> MarkdownToken): (r: Attempt<MarkdownToken, Scan>)
    requires s.index <= |s.buffer|
    ensures r.output.Some? <==> cap > 0 && Peek(s) == Some(c)
    ensures r.output.None? ==> r.after == s
    ensures r.output.Some? ==> (s.index < r.after.index <= |s.buffer| && r.after.index - s.index <= cap
      && r.after == ScanAt(s.buffer, r.after.index) && r.output.value == token(r.after.index - s.index)
      && Between(s.buffer, s.index, r.after.index) == Repeat(c, r.after.index - s.index)
      && (r.after.index - s.index == cap || r.after.index == |s.buffer| || s.buffer[r.after.index] != c))
  {
    var j := CappedRunEnd(s.buffer, s.index, c, cap);
    if j == s.index then Attempt(None, s)
    else Attempt(Some(token(j - s.index)), ScanAt(s.buffer, j))
  }

  /** A rule that consumes one char `c` into `token`. */
  function MatchOne(s: Scan, c: char, token: MarkdownToken): (r: Attempt<MarkdownToken, Scan>)
    requires s.index <= |s.buffer|
    ensures r.output.Some? <==> Peek(s) == Some(c)
    ensures r.output.None? ==> r.after == s
    ensures r.output.Some? ==> r.output.value == token && r.after == ScanAt(s.buffer, s.index + 1)
  {
    if Peek(s) == Some(c) then Attempt(Some(token), ScanAt(s.buffer, s.index + 1)) else Attempt(None, s)
  }

  /** `BracketRules`: one of `[`, `]`, `(`, `)`. */
  function MatchBracket(s: Scan): (r: Attempt<MarkdownToken, Scan>)
    requires s.index <= |s.buffer|
    ensures r.output.Some? <==> Peek(s).Some? && Peek(s).value in "[]()"
    ensures r.output.None? ==> r.after == s
    ensures r.output.Some? ==> r.after == ScanAt(s.buffer, s.index + 1)
  {
    var p := s.position;
    match Peek(s)
    case None => Attempt(None, s)
    case Some(c) =>
      if c == '[' then Attempt(Some(LeftBracket(p)), ScanAt(s.buffer, s.index + 1))
      else if c == ']' then Attempt(Some(RightBracket(p)), ScanAt(s.buffer, s.index + 1))
      else if c == '(' then Attempt(Some(LeftParen(p)), ScanAt(s.buffer, s.index + 1))
      else if c == ')' then Attempt(Some(RightParen(p)), ScanAt(s.buffer, s.index + 1))
      else Attempt(None, s)
  }

  /** `TextRule`: fails on a special char; otherwise the longest run of plain chars. */
  function MatchText(s: Scan): (r: Attempt<MarkdownToken, Scan>)
    requires s.index <= |s.buffer|
    ensures r.output.Some? <==> Peek(s).Some? && IsPlain(Peek(s).value)
    ensures r.output.None? ==> r.after == s
    ensures r.output.Some? ==> (r.after == ScanAt(s.buffer, RunEnd(s.buffer, s.index, IsPlain))
      && r.output.value == Text(Between(s.buffer, s.index, r.after.index), s.position))
  {
    match Peek(s)
    case None => Attempt(None, s)
    case Some(c) =>
      if IsSpecial(c) then Attempt(None, s)
      else
        var j := RunEnd(s.buffer, s.index, IsPlain);
        Attempt(Some(Text(s.buffer[s.index..j], s.position)), ScanAt(s.buffer, j))
  }

  /** `EofRule`: a token at the end of input, consuming nothing. */
  function MatchEof(s: Scan): (r: Attempt<MarkdownToken, Scan>)
    ensures r.after == s
    ensures r.output.Some? <==> IsEof(s)
  {
    if IsEof(s) then Attempt(Some(Eof(s.position)), s) else Attempt(None, s)
  }

  /**
   * `try_match` of each rule. A state beyond its buffer never arises from
   * a context; the guard only makes the function total.
   */
  function MatchRule(rule: MarkdownRule, s: Scan): (r: Attempt<MarkdownToken, Scan>)
    ensures SameBufferValid(s, r.after) && s.index <= r.after.index
    ensures r.output.None? ==> r.after == s
  {
    if s.index > |s.buffer| then Attempt(None, s)
    else
      var p := s.position;
      match rule
      case HashRule => MatchCounted(s, '#', 6, (n: nat) => Hash(n, p))
      case BacktickRule => MatchCounted(s, '`', 3, (n: nat) => Backtick(n, p))
      case NewlineRule => MatchOne(s, '\n', Newline(p))
      case StarRule => MatchCounted(s, '*', 2, (n: nat) => Star(n, p))
      case UnderscoreRule => MatchCounted(s, '_', 2, (n: nat) => Underscore(n, p))
      case DashRule => MatchOne(s, '-', Dash(p))
      case BracketRules => MatchBracket(s)
      case TextRule => MatchText(s)
      case EofRule => MatchEof(s)
  }

  /** `quick_check`: the single-char rules test their char, `BracketRules` its four, and the others give no verdict. */
  function QuickCheck(rule: MarkdownRule, first: Option<char>): (verdict: Option<bool>)
  {
    match rule
    case HashRule => Some(first == Some('#'))
    case BacktickRule => Some(first == Some('`'))
    case NewlineRule => Some(first == Some('\n'))
    case StarRule => Some(first == Some('*'))
    case UnderscoreRule => Some(first == Some('_'))
    case DashRule => Some(first == Some('-'))
    case BracketRules => if first.None? then None else Some(first.value in "[]()")
    case TextRule => DefaultQuickCheck(rule, first)
    case EofRule => DefaultQuickCheck(rule, first)
  }

  function MarkdownGrammar(): LexRules<MarkdownRule, MarkdownToken>
  {
    Rules((r: MarkdownRule, s: Scan) => MatchRule(r, s),
          (r: MarkdownRule) => Priority(r),
          (r: MarkdownRule, h: Option<char>) => QuickCheck(r, h))
  }

  lemma MarkdownRulesConfined(rules: seq<MarkdownRule>)
    ensures Confined(MarkdownGrammar(), rules)
  {
  }

  /** Each quick check answers `Some(false)` only where its rule fails. */
  lemma MarkdownQuickChecksSound(rules: seq<MarkdownRule>)
    ensures QuickChecksSound(MarkdownGrammar(), rules)
  {
  }

  /** The sorted tail from `Text` on. */
  lemma SortedFromText()
    ensures SortByPriority(MarkdownRules[7..], MarkdownGrammar().priority) == [TextRule, EofRule]
  {
    var key := MarkdownGrammar().priority;
    var rs := MarkdownRules;
    assert rs[7..] == [TextRule, EofRule] && rs[7..][1..] == [EofRule] && [EofRule][1..] == [];
    assert SortByPriority([EofRule], key) == [EofRule];
  }

  /** The sorted tail from `-` on. */
  lemma SortedFromDash()
    ensures SortByPriority(MarkdownRules[5..], MarkdownGrammar().priority) == [DashRule, BracketRules, TextRule, EofRule]
  {
    var key := MarkdownGrammar().priority;
    var rs := MarkdownRules;
    SortedFromText();
    assert rs[6..][1..] == rs[7..] && rs[6..][0] == BracketRules;
    assert SortByPriority(rs[6..], key) == [BracketRules, TextRule, EofRule];
    assert rs[5..][1..] == rs[6..] && rs[5..][0] == DashRule;
  }

  /** The sorted tail from `_` on: `_` sinks below `-` and the brackets. */
  lemma SortedFromUnderscore()
    ensures SortByPriority(MarkdownRules[4..], MarkdownGrammar().priority)
      == [DashRule, BracketRules, UnderscoreRule, TextRule, EofRule]
  {
    var key := MarkdownGrammar().priority;
    var rs := MarkdownRules;
    SortedFromDash();
    assert rs[4..][1..] == rs[5..] && rs[4..][0] == UnderscoreRule;
    assert Insert(UnderscoreRule, [TextRule, EofRule], key) == [UnderscoreRule, TextRule, EofRule];
    assert [BracketRules, TextRule, EofRule][1..] == [TextRule, EofRule];
    assert Insert(UnderscoreRule, [BracketRules, TextRule, EofRule], key) == [BracketRules, UnderscoreRule, TextRule, EofRule];
    assert [DashRule, BracketRules, TextRule, EofRule][1..] == [BracketRules, TextRule, EofRule];
  }

  /** The sorted tail from `*` on: `*` sinks below `-` and the brackets, and stays before `_`. */
  lemma SortedFromStar()
    ensures SortByPriority(MarkdownRules[3..], MarkdownGrammar().priority)
      == [DashRule, BracketRules, StarRule, UnderscoreRule, TextRule, EofRule]
  {
    var key := MarkdownGrammar().priority;
    var rs := MarkdownRules;
    SortedFromUnderscore();
    assert rs[3..][1..] == rs[4..] && rs[3..][0] == StarRule;
    assert Insert(StarRule, [UnderscoreRule, TextRule, EofRule], key) == [StarRule, UnderscoreRule, TextRule, EofRule];
    assert [BracketRules, UnderscoreRule, TextRule, EofRule][1..] == [UnderscoreRule, TextRule, EofRule];
    assert Insert(StarRule, [BracketRules, UnderscoreRule, TextRule, EofRule], key)
      == [BracketRules, StarRule, UnderscoreRule, TextRule, EofRule];
    assert [DashRule, BracketRules, UnderscoreRule, TextRule, EofRule][1..] == [BracketRules, UnderscoreRule, TextRule, EofRule];
  }

  /** The sorted tail from the line feed on. */
  lemma SortedFromNewline()
    ensures SortByPriority(MarkdownRules[2..], MarkdownGrammar().priority)
      == [NewlineRule, DashRule, BracketRules, StarRule, UnderscoreRule, TextRule, EofRule]
  {
    var rs := MarkdownRules;
    SortedFromStar();
    assert rs[2..][1..] == rs[3..] && rs[2..][0] == NewlineRule;
  }

  /** A head whose key is at least that of the sorted tail's first stays in front. */
  lemma SortKeepsHead(rules: seq<MarkdownRule>, key: MarkdownRule -> int)
    requires rules != [] && SortByPriority(rules[1..], key) != []
    requires key(SortByPriority(rules[1..], key)[0]) <= key(rules[0])
    ensures SortByPriority(rules, key) == [rules[0]] + SortByPriority(rules[1..], key)
  {
  }

  lemma PrependHash()
    ensures [HashRule] + [BacktickRule, NewlineRule, DashRule, BracketRules, StarRule, UnderscoreRule, TextRule, EofRule]
      == [HashRule, BacktickRule, NewlineRule, DashRule, BracketRules, StarRule, UnderscoreRule, TextRule, EofRule]
  {
  }

  /** The sorted tail from the backticks on. */
  lemma SortedFromBacktick()
    ensures SortByPriority(MarkdownRules[1..], MarkdownGrammar().priority)
      == [BacktickRule, NewlineRule, DashRule, BracketRules, StarRule, UnderscoreRule, TextRule, EofRule]
  {
    var key := MarkdownGrammar().priority;
    var rs := MarkdownRules;
    SortedFromNewline();
    assert rs[1..][1..] == rs[2..] && rs[1..][0] == BacktickRule;
    assert key(NewlineRule) == 40 && key(BacktickRule) == 45;
    SortKeepsHead(rs[1..], key);
    PrependBacktick();
  }

  lemma PrependBacktick()
    ensures [BacktickRule] + [NewlineRule, DashRule, BracketRules, StarRule, UnderscoreRule, TextRule, EofRule]
      == [BacktickRule, NewlineRule, DashRule, BracketRules, StarRule, UnderscoreRule, TextRule, EofRule]
  {
  }

  /**
   * The engine tries the rules in this order: `#`, backticks, line feed,
   * `-` before brackets, `*` before `_`, then text, then `Eof`; rules of
   * equal priority keep the order they were listed in.
   */
  lemma SortedOrder()
    ensures SortByPriority(MarkdownRules, MarkdownGrammar().priority)
      == [HashRule, BacktickRule, NewlineRule, DashRule, BracketRules, StarRule, UnderscoreRule, TextRule, EofRule]
  {
    var key := MarkdownGrammar().priority;
    var rs := MarkdownRules;
    SortedFromBacktick();
    assert key(BacktickRule) == 45 && key(HashRule) == 50;
    SortKeepsHead(rs, key);
    PrependHash();
  }

  /**
   * The counting rules, one lemma each: `#` runs give at most six per
   * token, backticks at most three, `*` and `_` at most two; the count is
   * the number of chars consumed, and a shorter count means the run ended.
   */
  lemma HashCount(s: Scan)
    requires s.Valid()
    ensures var r := MatchRule(HashRule, s);
      var n := r.after.index - s.index;
      r.output.Some? ==> r.output.value == Hash(n, s.position) && 1 <= n <= 6 && (n == 6 || r.after.index == |s.buffer| || s.buffer[r.after.index] != '#')
  {
  }

  lemma BacktickCount(s: Scan)
    requires s.Valid()
    ensures var r := MatchRule(BacktickRule, s);
      var n := r.after.index - s.index;
      r.output.Some? ==> r.output.value == Backtick(n, s.position) && 1 <= n <= 3 && (n == 3 || r.after.index == |s.buffer| || s.buffer[r.after.index] != '`')
  {
  }

  lemma StarCount(s: Scan)
    requires s.Valid()
    ensures var r := MatchRule(StarRule, s);
      var n := r.after.index - s.index;
      r.output.Some? ==> r.output.value == Star(n, s.position) && 1 <= n <= 2 && (n == 2 || r.after.index == |s.buffer| || s.buffer[r.after.index] != '*')
  {
  }

  lemma UnderscoreCount(s: Scan)
    requires s.Valid()
    ensures var r := MatchRule(UnderscoreRule, s);
      var n := r.after.index - s.index;
      r.output.Some? ==> r.output.value == Underscore(n, s.position) && 1 <= n <= 2 && (n == 2 || r.after.index == |s.buffer| || s.buffer[r.after.index] != '_')
  {
  }

  /** The line feed, `-` and bracket rules consume one char. */
  lemma SingleCount(rule: MarkdownRule, s: Scan)
    requires s.Valid() && rule in {DashRule, BracketRules, NewlineRule}
    ensures var r := MatchRule(rule, s);
      r.output.Some? ==> r.after.index - s.index == 1
  {
  }

  /** Text tokens hold the longest run of plain chars, never an empty one. */
  lemma TextIsMaximalRun(s: Scan)
    requires s.Valid()
    ensures var r := MatchRule(TextRule, s);
      r.output.Some? ==> var t := r.output.value;
        t.Text? && t.content != [] && (forall k :: 0 <= k < |t.content| ==> IsPlain(t.content[k]))
        && (r.after.index == |s.buffer| || IsSpecial(s.buffer[r.after.index]))
  {
  }

  /** `MatchedLexeme` for the counting rules. */
  lemma CountedLexeme(rule: MarkdownRule, s: Scan)
    requires s.Valid() && rule in {HashRule, BacktickRule, StarRule, UnderscoreRule}
    ensures var r := MatchRule(rule, s);
      r.output.Some? ==> s.index < r.after.index && Lexeme(r.output.value) == s.buffer[s.index..r.after.index]
  {
  }

  /** `MatchedLexeme` for the one-char rules. */
  lemma SingleLexeme(rule: MarkdownRule, s: Scan)
    requires s.Valid() && !IsEof(s) && rule in {NewlineRule, DashRule, BracketRules}
    ensures var r := MatchRule(rule, s);
      r.output.Some? ==> s.index < r.after.index && Lexeme(r.output.value) == s.buffer[s.index..r.after.index]
  {
    assert s.buffer[s.index..s.index + 1] == [s.buffer[s.index]];
  }

  /** A token matched away from the end stands for exactly the chars its rule consumed, at least one. */
  lemma MatchedLexeme(rule: MarkdownRule, s: Scan)
    requires s.Valid() && !IsEof(s)
    ensures var r := MatchRule(rule, s);
      r.output.Some? ==> s.index < r.after.index && Lexeme(r.output.value) == s.buffer[s.index..r.after.index]
  {
    if rule in {HashRule, BacktickRule, StarRule, UnderscoreRule} {
      CountedLexeme(rule, s);
    } else if rule in {NewlineRule, DashRule, BracketRules} {
      SingleLexeme(rule, s);
    }
  }

  /** Some rule of the set is not skipped for the next char and matches. */
  ghost predicate SomeRuleApplies(s: Scan)
  {
    exists i :: 0 <= i < |MarkdownRules| && !Skipped(MarkdownGrammar(), MarkdownRules[i], Peek(s))
      && MatchRule(MarkdownRules[i], s).output.Some?
  }

  /** Away from the end some rule always matches: every char is special, with its own rule, or plain. */
  lemma SomeRuleMatches(s: Scan)
    requires s.Valid() && !IsEof(s)
    ensures SomeRuleApplies(s)
  {
    var c := s.buffer[s.index];
    if c in "#`\n" {
      CountingRulesMatch(s);
    } else if c in "*_-" {
      EmphasisRulesMatch(s);
    } else {
      OtherRulesMatch(s);
    }
  }

  lemma CountingRulesMatch(s: Scan)
    requires s.Valid() && !IsEof(s) && s.buffer[s.index] in "#`\n"
    ensures SomeRuleApplies(s)
  {
    if s.buffer[s.index] == '#' {
      assert !Skipped(MarkdownGrammar(), MarkdownRules[0], Peek(s)) && MatchRule(MarkdownRules[0], s).output.Some?;
    } else if s.buffer[s.index] == '`' {
      assert !Skipped(MarkdownGrammar(), MarkdownRules[1], Peek(s)) && MatchRule(MarkdownRules[1], s).output.Some?;
    } else {
      assert !Skipped(MarkdownGrammar(), MarkdownRules[2], Peek(s)) && MatchRule(MarkdownRules[2], s).output.Some?;
    }
  }

  lemma EmphasisRulesMatch(s: Scan)
    requires s.Valid() && !IsEof(s) && s.buffer[s.index] in "*_-"
    ensures SomeRuleApplies(s)
  {
    if s.buffer[s.index] == '*' {
      assert !Skipped(MarkdownGrammar(), MarkdownRules[3], Peek(s)) && MatchRule(MarkdownRules[3], s).output.Some?;
    } else if s.buffer[s.index] == '_' {
      assert !Skipped(MarkdownGrammar(), MarkdownRules[4], Peek(s)) && MatchRule(MarkdownRules[4], s).output.Some?;
    } else {
      assert !Skipped(MarkdownGrammar(), MarkdownRules[5], Peek(s)) && MatchRule(MarkdownRules[5], s).output.Some?;
    }
  }

  lemma OtherRulesMatch(s: Scan)
    requires s.Valid() && !IsEof(s) && !(s.buffer[s.index] in "#`\n*_-")
    ensures SomeRuleApplies(s)
  {
    if s.buffer[s.index] in "[]()" {
      assert !Skipped(MarkdownGrammar(), MarkdownRules[6], Peek(s)) && MatchRule(MarkdownRules[6], s).output.Some?;
    } else {
      assert !Skipped(MarkdownGrammar(), MarkdownRules[7], Peek(s)) && MatchRule(MarkdownRules[7], s).output.Some?;
    }
  }

  /**
   * With every Markdown rule in the set, `next` yields a token wherever
   * input remains, and that token's lexeme is exactly the text consumed.
   */
  lemma MarkdownNextLexeme(rules: seq<MarkdownRule>, s: Scan)
    requires s.Valid() && !IsEof(s)
    requires forall r: MarkdownRule :: r in rules
    ensures var a := NextSpec(MarkdownGrammar(), rules, s);
      a.output.Some? && s.index < a.after.index <= |s.buffer| && Lexeme(a.output.value) == s.buffer[s.index..a.after.index]
  {
    var g := MarkdownGrammar();
    SomeRuleMatches(s);
    var i :| 0 <= i < |MarkdownRules| && !Skipped(g, MarkdownRules[i], Peek(s)) && MatchRule(MarkdownRules[i], s).output.Some?;
    assert MarkdownRules[i] in rules;
    var j :| 0 <= j < |rules| && rules[j] == MarkdownRules[i];
    assert Wins(g, rules, j, Peek(s), s);
    FirstMatchNoneIff(g, rules, 0, Peek(s), s);
    var w := FirstMatchWinner(g, rules, 0, Peek(s), s);
    MatchedLexeme(rules[w], s);
    CurrentMonotone(s, MatchRule(rules[w], s).after);
  }

  /**
   * Markdown lexing loses nothing: it runs to the end of input, and the
   * lexemes of the tokens, joined, are the text that was left.
   */
  lemma {:induction false} MarkdownTokenizeLossless(rules: seq<MarkdownRule>, s: Scan)
    requires s.Valid()
    requires forall r: MarkdownRule :: r in rules
    ensures Confined(MarkdownGrammar(), rules)
    ensures var (tokens, t) := TokenizeSpec(MarkdownGrammar(), rules, s);
      IsEof(t) && Lexemes(tokens) == s.buffer[s.index..]
    decreases |s.buffer| - s.index
  {
    var g := MarkdownGrammar();
    MarkdownRulesConfined(rules);
    TokenizeStep(g, rules, s);
    if !IsEof(s) {
      MarkdownNextLexeme(rules, s);
      var a := NextSpec(g, rules, s);
      MarkdownTokenizeLossless(rules, a.after);
      LexemesCons(a.output.value, TokenizeSpec(g, rules, a.after).0, s.buffer, s.index, a.after.index);
    }
  }

  /** A token standing for `buffer[i..j]` before tokens spelling `buffer[j..]` spells `buffer[i..]`. */
  lemma LexemesCons(t: MarkdownToken, rest: seq<MarkdownToken>, buffer: string, i: nat, j: nat)
    requires i <= j <= |buffer|
    requires Lexeme(t) == buffer[i..j] && Lexemes(rest) == buffer[j..]
    ensures Lexemes([t] + rest) == buffer[i..]
  {
    assert ([t] + rest)[1..] == rest;
    assert buffer[i..] == buffer[i..j] + buffer[j..];
  }

  /** A lexer built from `build_lexer_rules` turns any input into tokens whose lexemes spell it out. */
  lemma MarkdownLexesWholeInput(input: string)
    ensures Confined(MarkdownGrammar(), SortByPriority(MarkdownRules, MarkdownGrammar().priority))
    ensures Lexemes(TokenizeSpec(MarkdownGrammar(), SortByPriority(MarkdownRules, MarkdownGrammar().priority), Start(input)).0) == input
  {
    SortedOrder();
    EveryRuleInPriorityOrder();
    MarkdownTokenizeLossless(PriorityOrder, Start(input));
  }

  /** The rules in the order the lexer tries them. */
  const PriorityOrder: seq<MarkdownRule> :=
    [HashRule, BacktickRule, NewlineRule, DashRule, BracketRules, StarRule, UnderscoreRule, TextRule, EofRule]

  lemma EveryRuleInPriorityOrder()
    ensures forall r: MarkdownRule :: r in PriorityOrder
  {
    forall r: MarkdownRule
      ensures r in PriorityOrder
    {
      var k := match r
        case HashRule => 0 case BacktickRule => 1 case NewlineRule => 2
        case DashRule => 3 case BracketRules => 4 case StarRule => 5
        case UnderscoreRule => 6 case TextRule => 7 case EofRule => 8;
      assert PriorityOrder[k] == r;
    }
  }

  // ---------------------------------------------------------------------
  // The rules on a lexing context

  /** The counting loop: consume `c` while it is next and fewer than `cap` were taken. */
  method CountRun(ctx: DefaultContext, c: char, cap: nat) returns (count: nat)
    requires ctx.Valid()
    modifies ctx.cursor
    ensures ctx.Valid() && ctx.State().buffer == old(ctx.State()).buffer
    ensures ctx.State().index == CappedRunEnd(old(ctx.State()).buffer, old(ctx.State()).index, c, cap)
    ensures count == ctx.State().index - old(ctx.State()).index
  {
    ghost var s := ctx.State();
    count := 0;
    while count < cap && ctx.Peek() == Some(c)
      invariant ctx.Valid() && ctx.State().buffer == s.buffer && count <= cap
      invariant ctx.State().index == s.index + count
      invariant forall k :: s.index <= k < s.index + count ==> s.buffer[k] == c
      decreases cap - count
    {
      var _ := StepChar(ctx);
      count := count + 1;
    }
    CappedRunEndAt(s.buffer, s.index, c, cap, count);
  }

  /** A counting rule on a context: a token when at least one `c` was consumed. */
  method TryCounted(ctx: DefaultContext, c: char, cap: nat, token: nat -> MarkdownToken) returns (r: Option<MarkdownToken>)
    requires ctx.Valid()
    modifies ctx.cursor
    ensures ctx.Valid() && Attempt(r, ctx.State()) == MatchCounted(old(ctx.State()), c, cap, token)
  {
    ghost var s := ctx.State();
    var count := CountRun(ctx, c, cap);
    ValidIsScanAt(ctx.State());
    ValidIsScanAt(s);
    r := if count > 0 then Some(token(count)) else None;
  }

  /** `try_match` of each rule on a context. */
  method TryRule(ctx: DefaultContext, rule: MarkdownRule) returns (r: Option<MarkdownToken>)
    requires ctx.Valid()
    modifies ctx.cursor
    ensures ctx.Valid() && Attempt(r, ctx.State()) == MatchRule(rule, old(ctx.State()))
  {
    ghost var s := ctx.State();
    var p := ctx.CurrentPosition();
    var first := ctx.Peek();
    match rule {
      case HashRule =>
        r := TryCounted(ctx, '#', 6, (n: nat) => Hash(n, p));
      case BacktickRule =>
        r := TryCounted(ctx, '`', 3, (n: nat) => Backtick(n, p));
      case StarRule =>
        r := TryCounted(ctx, '*', 2, (n: nat) => Star(n, p));
      case UnderscoreRule =>
        r := TryCounted(ctx, '_', 2, (n: nat) => Underscore(n, p));
      case NewlineRule =>
        r := TryOne(ctx, '\n', Newline(p));
      case DashRule =>
        r := TryOne(ctx, '-', Dash(p));
      case BracketRules =>
        if first.None? || first.value !in "[]()" {
          return None;
        }
        var _ := ctx.Advance();
        ValidIsScanAt(ctx.State());
        var c := first.value;
        r := Some(if c == '[' then LeftBracket(p) else if c == ']' then RightBracket(p)
                  else if c == '(' then LeftParen(p) else RightParen(p));
      case TextRule =>
        if first.None? || IsSpecial(first.value) {
          return None;
        }
        var text := ConsumeRun(ctx, IsPlain);
        ValidIsScanAt(ctx.State());
        r := Some(Text(text, p));
      case EofRule =>
        if ctx.IsEof() {
          IsEofIsByteTest(s);
          r := Some(Eof(p));
        } else {
          IsEofIsByteTest(s);
          r := None;
        }
    }
  }

  /** A rule that consumes one char `c` into `token`, on a context. */
  method TryOne(ctx: DefaultContext, c: char, token: MarkdownToken) returns (r: Option<MarkdownToken>)
    requires ctx.Valid()
    modifies ctx.cursor
    ensures ctx.Valid() && Attempt(r, ctx.State()) == MatchOne(old(ctx.State()), c, token)
  {
    if ctx.Peek() != Some(c) {
      return None;
    }
    var _ := ctx.Advance();
    ValidIsScanAt(ctx.State());
    r := Some(token);
  }
}
