/**
 * The Markdown renderer's block rules over the token stream: headings,
 * fenced code blocks, lists, paragraphs, and raw text as the fallback.
 * Each rule reads tokens until its block ends and records whether the
 * block's syntax was closed (`Complete`) or input ran out first
 * (`Incomplete`). The parser's context holds no positions, so every node
 * carries the default position.
 */
module MarkdownParsing {
  import opened Common
  import opened Priorities
  import opened RuleEngine
  import opened ParseContexts
  import opened Parsers
  import opened MarkdownAst
  import Lex = MarkdownLexing

  type Token = Lex.MarkdownToken

  // ---------------------------------------------------------------------
  // Token classes

  /** A text token holding only whitespace. */
  predicate IsBlankText(t: Token)
  {
    t.Text? && IsBlank(t.content)
  }

  /** A list marker: `-`, or a single `*`. */
  predicate IsListMarker(t: Token)
  {
    t.Dash? || (t.Star? && t.count == 1)
  }

  /** A code fence: three backticks. */
  predicate IsFence(t: Token)
  {
    t.Backtick? && t.count == 3
  }

  /** A token that starts a block of its own: a heading, a fence or a list marker. */
  predicate IsBlockStart(t: Token)
  {
    t.Hash? || IsFence(t) || IsListMarker(t)
  }

  predicate EndsLine(t: Token)
  {
    t.Newline? || t.Eof?
  }

  predicate EndsCode(t: Token)
  {
    IsFence(t) || t.Eof?
  }

  predicate EndsInput(t: Token)
  {
    t.Eof?
  }

  /** Skip one blank text token at `i`, if there is one there. */
  function SkipBlankText(toks: seq<Token>, i: nat): (j: nat)
    requires i <= |toks|
    ensures j <= |toks|
    ensures j == (if i < |toks| && IsBlankText(toks[i]) then i + 1 else i)
  {
    if i < |toks| && IsBlankText(toks[i]) then i + 1 else i
  }

  // ---------------------------------------------------------------------
  // Reference definitions

  /** The first index from `i` on whose token satisfies `stop`, or the end. */
  function FirstAt(toks: seq<Token>, i: nat, stop: Token -> bool): (j: nat)
    requires i <= |toks|
    ensures i <= j <= |toks|
    ensures j < |toks| ==> stop(toks[j])
    ensures forall k :: i <= k < j ==> !stop(toks[k])
    decreases |toks| - i
  {
    if i == |toks| || stop(toks[i]) then i else FirstAt(toks, i + 1, stop)
  }

  /** The text tokens of `ts`, in order, as inline text. */
  function TextsOf(ts: seq<Token>): (r: seq<Inline>)
    ensures forall k :: 0 <= k < |r| ==> r[k].Text?
  {
    if ts == [] then []
    else (if ts[0].Text? then [Inline.Text(ts[0].content)] else []) + TextsOf(ts[1..])
  }

  /** The text of `ts` with each line feed written as `"\n"`; other tokens stand for nothing. */
  function PlainText(ts: seq<Token>): string
  {
    if ts == [] then []
    else (if ts[0].Text? then ts[0].content else (if ts[0].Newline? then "\n" else "")) + PlainText(ts[1..])
  }

  /** What one token adds to a paragraph. */
  function ParaText(t: Token): (r: seq<Inline>)
  {
    if t.Text? then [Inline.Text(t.content)] else if t.Newline? then [Inline.Text("\n")] else []
  }

  /** The text tokens of `ts` and its line feeds, as inline text. */
  function ParaTexts(ts: seq<Token>): (r: seq<Inline>)
    ensures forall k :: 0 <= k < |r| ==> r[k].Text?
  {
    if ts == [] then []
    else ParaText(ts[0]) + ParaTexts(ts[1..])
  }

  lemma SliceHead(toks: seq<Token>, i: nat, j: nat)
    requires i < j <= |toks|
    ensures toks[i..j][0] == toks[i] && toks[i..j][1..] == toks[i + 1..j]
  {
  }

  // ---------------------------------------------------------------------
  // HeadingRule

  /** The heading's content loop: text tokens up to a line feed, which it consumes, or `Eof`, which it does not. */
  function HeadingBody(toks: seq<Token>, i: nat, content: seq<Inline>): (r: (seq<Inline>, nat, bool))
    requires i <= |toks|
    ensures i <= r.1 <= |toks|
    decreases |toks| - i
  {
    if i == |toks| then (content, i, false)
    else match toks[i]
      case Newline(_) => (content, i + 1, true)
      case Text(t, _) => HeadingBody(toks, i + 1, content + [Inline.Text(t)])
      case Eof(_) => (content, i, false)
      case _ => HeadingBody(toks, i + 1, content)
  }

  /**
   * The heading's content is the text of its line, up to the first line
   * feed or `Eof`; it is complete exactly when that line feed is there,
   * and then the line feed is consumed too.
   */
  lemma {:induction false} HeadingBodyReadsLine(toks: seq<Token>, i: nat, content: seq<Inline>)
    requires i <= |toks|
    ensures var j := FirstAt(toks, i, EndsLine);
      var newline := j < |toks| && toks[j].Newline?;
      HeadingBody(toks, i, content) == (content + TextsOf(toks[i..j]), if newline then j + 1 else j, newline)
    decreases |toks| - i
  {
    var j := FirstAt(toks, i, EndsLine);
    if i == |toks| || EndsLine(toks[i]) {
      assert j == i && toks[i..j] == [] && content + [] == content;
    } else {
      var step := if toks[i].Text? then [Inline.Text(toks[i].content)] else [];
      assert content + [] == content;
      assert HeadingBody(toks, i, content) == HeadingBody(toks, i + 1, content + step);
      HeadingBodyReadsLine(toks, i + 1, content + step);
      SliceHead(toks, i, j);
      assert TextsOf(toks[i..j]) == step + TextsOf(toks[i + 1..j]);
      assert content + step + TextsOf(toks[i + 1..j]) == content + (step + TextsOf(toks[i + 1..j]));
    }
  }

  /**
   * `HeadingRule::try_parse`: a `#` run, an optional blank text token,
   * then the content loop. The level is the run's count. Anything but a
   * `#` run leaves the cursor where it was.
   */
  function HeadingAttempt(s: Toks<Token>): (a: Attempt<MarkdownNode, Toks<Token>>)
    requires s.Valid()
    ensures Follows(s, a.after)
    ensures a.output.Some? <==> s.current < |s.tokens| && s.tokens[s.current].Hash?
    ensures a.output.None? ==> a.after == s
    ensures a.output.Some? ==> (s.current < a.after.current && a.output.value.Heading?
      && a.output.value.level == s.tokens[s.current].count && a.output.value.position == StartPosition())
  {
    if s.current == |s.tokens| || !s.tokens[s.current].Hash? then Attempt(None, s)
    else
      var level := s.tokens[s.current].count;
      var (content, end, newline) := HeadingBody(s.tokens, SkipBlankText(s.tokens, s.current + 1), []);
      Attempt(Some(Heading(level, content, StartPosition(), if newline then Complete else Incomplete)), s.(current := end))
  }

  /** A heading holds the texts of the rest of its line, and is complete exactly when a line feed ends that line. */
  lemma HeadingContent(s: Toks<Token>)
    requires s.Valid() && s.current < |s.tokens| && s.tokens[s.current].Hash?
    ensures var a := HeadingAttempt(s);
      var b := SkipBlankText(s.tokens, s.current + 1);
      var j := FirstAt(s.tokens, b, EndsLine);
      a.output.value.content == TextsOf(s.tokens[b..j])
      && (a.output.value.state == Complete <==> j < |s.tokens| && s.tokens[j].Newline?)
      && a.after.current == (if a.output.value.state == Complete then j + 1 else j)
  {
    HeadingBodyReadsLine(s.tokens, SkipBlankText(s.tokens, s.current + 1), []);
  }

  // ---------------------------------------------------------------------
  // CodeBlockRule

  /** The code loop: text verbatim and line feeds as `"\n"`, up to a closing fence, which it consumes, or `Eof`. */
  function CodeBody(toks: seq<Token>, i: nat, code: string): (r: (string, nat, bool))
    requires i <= |toks|
    ensures i <= r.1 <= |toks|
    decreases |toks| - i
  {
    if i == |toks| then (code, i, false)
    else match toks[i]
      case Backtick(count, _) => if count == 3 then (code, i + 1, true) else CodeBody(toks, i + 1, code)
      case Text(t, _) => CodeBody(toks, i + 1, code + t)
      case Newline(_) => CodeBody(toks, i + 1, code + "\n")
      case Eof(_) => (code, i, false)
      case _ => CodeBody(toks, i + 1, code)
  }

  /** The code is the plain text up to the closing fence or `Eof`; the block is closed exactly when the fence is there. */
  lemma {:induction false} CodeBodyReadsToFence(toks: seq<Token>, i: nat, code: string)
    requires i <= |toks|
    ensures var j := FirstAt(toks, i, EndsCode);
      var found := j < |toks| && IsFence(toks[j]);
      CodeBody(toks, i, code) == (code + PlainText(toks[i..j]), if found then j + 1 else j, found)
    decreases |toks| - i
  {
    var j := FirstAt(toks, i, EndsCode);
    if i == |toks| || EndsCode(toks[i]) {
      assert j == i && toks[i..j] == [] && code + [] == code;
    } else {
      var step := if toks[i].Text? then toks[i].content else (if toks[i].Newline? then "\n" else "");
      assert code + [] == code;
      assert CodeBody(toks, i, code) == CodeBody(toks, i + 1, code + step);
      CodeBodyReadsToFence(toks, i + 1, code + step);
      SliceHead(toks, i, j);
      assert PlainText(toks[i..j]) == step + PlainText(toks[i + 1..j]);
      assert code + step + PlainText(toks[i + 1..j]) == code + (step + PlainText(toks[i + 1..j]));
    }
  }

  /** The language named after a fence: the text trimmed, or none when it is blank. */
  function LanguageOf(info: string): (language: Option<string>)
  {
    if IsBlank(info) then None else Some(Trim(info))
  }

  /** The fence's language: the text right after it, trimmed, unless it is blank; and where the line feed must be. */
  function FenceInfo(toks: seq<Token>, i: nat): (r: (Option<string>, nat))
    requires i <= |toks|
    ensures r.1 == (if i < |toks| && toks[i].Text? then i + 1 else i)
  {
    if i < |toks| && toks[i].Text? then
      (LanguageOf(toks[i].content), i + 1)
    else (None, i)
  }

  /**
   * `CodeBlockRule::try_parse`: a fence, an optional language, a line
   * feed that must be there, then the code loop. Without the fence or the
   * line feed the cursor goes back where it was.
   */
  function CodeBlockAttempt(s: Toks<Token>): (a: Attempt<MarkdownNode, Toks<Token>>)
    requires s.Valid()
    ensures Follows(s, a.after)
    ensures a.output.None? ==> a.after == s
    ensures a.output.Some? <==> (s.current < |s.tokens| && IsFence(s.tokens[s.current])
      && var j := FenceInfo(s.tokens, s.current + 1).1; j < |s.tokens| && s.tokens[j].Newline?)
    ensures a.output.Some? ==> (s.current < a.after.current && a.output.value.CodeBlock?
      && a.output.value.language == FenceInfo(s.tokens, s.current + 1).0 && a.output.value.position == StartPosition())
  {
    if s.current == |s.tokens| || !IsFence(s.tokens[s.current]) then Attempt(None, s)
    else
      var info := FenceInfo(s.tokens, s.current + 1);
      if info.1 == |s.tokens| || !s.tokens[info.1].Newline? then Attempt(None, s)
      else CodeBlockFrom(s, info.0, info.1 + 1)
  }

  /** The code block whose code starts at `b`, after the fence line. */
  function CodeBlockFrom(s: Toks<Token>, language: Option<string>, b: nat): (a: Attempt<MarkdownNode, Toks<Token>>)
    requires s.Valid() && s.current < b <= |s.tokens|
    ensures Follows(s, a.after) && s.current < a.after.current
    ensures a.output.Some? && a.output.value.CodeBlock?
    ensures a.output.value.language == language && a.output.value.position == StartPosition()
  {
    var (code, end, found) := CodeBody(s.tokens, b, "");
    Attempt(Some(CodeBlock(language, code, StartPosition(), if found then Complete else Incomplete)), s.(current := end))
  }

  /** A language, when there is one, is non-empty and neither starts nor ends with whitespace; there is none exactly when no text or only blank text follows the fence. */
  lemma FenceLanguage(toks: seq<Token>, i: nat)
    requires i <= |toks|
    ensures var language := FenceInfo(toks, i).0;
      (language.None? <==> !(i < |toks| && toks[i].Text?) || IsBlank(toks[i].content))
      && (language.Some? ==> (language.value != [] && !IsWhitespace(language.value[0])
        && !IsWhitespace(language.value[|language.value| - 1])))
  {
    if i < |toks| && toks[i].Text? {
      TrimShape(toks[i].content);
    }
  }

  /** The code after the fence line, and whether a closing fence ends it. */
  lemma CodeBlockFromContent(s: Toks<Token>, language: Option<string>, b: nat)
    requires s.Valid() && s.current < b <= |s.tokens|
    ensures var a := CodeBlockFrom(s, language, b);
      var j := FirstAt(s.tokens, b, EndsCode);
      a.output.value.code == PlainText(s.tokens[b..j])
      && (a.output.value.state == Complete <==> j < |s.tokens| && IsFence(s.tokens[j]))
      && a.after.current == (if a.output.value.state == Complete then j + 1 else j)
  {
    var j := FirstAt(s.tokens, b, EndsCode);
    CodeBodyReadsToFence(s.tokens, b, "");
    assert "" + PlainText(s.tokens[b..j]) == PlainText(s.tokens[b..j]);
  }

  lemma CodeBlockAttemptIsFrom(s: Toks<Token>)
    requires s.Valid() && CodeBlockAttempt(s).output.Some?
    ensures var info := FenceInfo(s.tokens, s.current + 1);
      s.current < info.1 + 1 <= |s.tokens| && CodeBlockAttempt(s) == CodeBlockFrom(s, info.0, info.1 + 1)
  {
  }

  /** A code block holds the plain text after the fence line, and is complete exactly when a closing fence ends it. */
  lemma CodeBlockContent(s: Toks<Token>)
    requires s.Valid() && CodeBlockAttempt(s).output.Some?
    ensures var a := CodeBlockAttempt(s);
      var b := FenceInfo(s.tokens, s.current + 1).1 + 1;
      var j := FirstAt(s.tokens, b, EndsCode);
      a.output.value.code == PlainText(s.tokens[b..j])
      && (a.output.value.state == Complete <==> j < |s.tokens| && IsFence(s.tokens[j]))
      && a.after.current == (if a.output.value.state == Complete then j + 1 else j)
  {
    CodeBlockAttemptIsFrom(s);
    var info := FenceInfo(s.tokens, s.current + 1);
    CodeBlockFromContent(s, info.0, info.1 + 1);
  }

  // ---------------------------------------------------------------------
  // ListRule

  /** `items.push(mem::take(&mut current_item))` when the item has anything in it. */
  function Flush(items: seq<seq<Inline>>, item: seq<Inline>): (r: seq<seq<Inline>>)
  {
    if item == [] then items else items + [item]
  }

  /**
   * The list loop. Text goes into the current item; a line feed closes
   * the item and goes on only when a list marker follows (skipping it and
   * one blank text token); `Eof` or the end of the tokens closes the last
   * item. The flag records whether a line feed was consumed.
   */
  function ListLoop(toks: seq<Token>, i: nat, item: seq<Inline>, items: seq<seq<Inline>>, newline: bool): (r: (seq<seq<Inline>>, nat, bool))
    requires i <= |toks|
    ensures i <= r.1 <= |toks|
    decreases |toks| - i
  {
    if i == |toks| || toks[i].Eof? then (Flush(items, item), i, newline)
    else if toks[i].Newline? then
      var flushed := Flush(items, item);
      if i + 1 < |toks| && IsListMarker(toks[i + 1]) then
        ListLoop(toks, SkipBlankText(toks, i + 2), [], flushed, true)
      else (flushed, i + 1, true)
    else if toks[i].Text? then ListLoop(toks, i + 1, item + [Inline.Text(toks[i].content)], items, newline)
    else ListLoop(toks, i + 1, item, items, newline)
  }

  /** Items are never empty and hold only text. */
  predicate WellFormedItems(items: seq<seq<Inline>>)
  {
    forall k :: 0 <= k < |items| ==> items[k] != [] && forall m :: 0 <= m < |items[k]| ==> items[k][m].Text?
  }

  /**
   * The list loop keeps its items well formed, stops at the end, at `Eof`
   * or after a line feed that no marker follows, and reports a line feed
   * exactly when it consumed one.
   */
  lemma {:induction false} ListLoopShape(toks: seq<Token>, i: nat, item: seq<Inline>, items: seq<seq<Inline>>, newline: bool)
    requires i <= |toks|
    requires WellFormedItems(items) && forall m :: 0 <= m < |item| ==> item[m].Text?
    ensures var (out, end, nl) := ListLoop(toks, i, item, items, newline);
      WellFormedItems(out) && |items| <= |out|
      && (end == |toks| || toks[end].Eof? || (i < end && toks[end - 1].Newline? && !IsListMarker(toks[end])))
      && (nl <==> newline || exists k :: i <= k < end && toks[k].Newline?)
    decreases |toks| - i
  {
    if i == |toks| || toks[i].Eof? {
      FlushKeepsShape(items, item);
    } else if toks[i].Newline? {
      ListNewline(toks, i, item, items, newline);
    } else if toks[i].Text? {
      ListText(toks, i, item, items, newline);
    } else {
      ListSkip(toks, i, item, items, newline);
    }
  }

  /** Closing the current item keeps the items well formed. */
  lemma FlushKeepsShape(items: seq<seq<Inline>>, item: seq<Inline>)
    requires WellFormedItems(items) && forall m :: 0 <= m < |item| ==> item[m].Text?
    ensures WellFormedItems(Flush(items, item)) && |items| <= |Flush(items, item)|
  {
    if item != [] {
      var r := items + [item];
      assert forall k :: 0 <= k < |items| ==> r[k] == items[k];
      assert r[|items|] == item;
    }
  }

  /** `ListLoopShape` at a line feed. */
  lemma {:induction false} ListNewline(toks: seq<Token>, i: nat, item: seq<Inline>, items: seq<seq<Inline>>, newline: bool)
    requires i < |toks| && toks[i].Newline?
    requires WellFormedItems(items) && forall m :: 0 <= m < |item| ==> item[m].Text?
    ensures var (out, end, nl) := ListLoop(toks, i, item, items, newline);
      WellFormedItems(out) && |items| <= |out|
      && (end == |toks| || toks[end].Eof? || (i < end && toks[end - 1].Newline? && !IsListMarker(toks[end])))
      && (nl <==> newline || exists k :: i <= k < end && toks[k].Newline?)
    decreases |toks| - i, 0
  {
    var flushed := Flush(items, item);
    FlushKeepsShape(items, item);
    if i + 1 < |toks| && IsListMarker(toks[i + 1]) {
      var j := SkipBlankText(toks, i + 2);
      assert ListLoop(toks, i, item, items, newline) == ListLoop(toks, j, [], flushed, true);
      ListLoopShape(toks, j, [], flushed, true);
      assert i < ListLoop(toks, j, [], flushed, true).1;
    } else {
      assert ListLoop(toks, i, item, items, newline) == (flushed, i + 1, true);
    }
  }

  /** `ListLoopShape` at a text token. */
  lemma {:induction false} ListText(toks: seq<Token>, i: nat, item: seq<Inline>, items: seq<seq<Inline>>, newline: bool)
    requires i < |toks| && toks[i].Text?
    requires WellFormedItems(items) && forall m :: 0 <= m < |item| ==> item[m].Text?
    ensures var (out, end, nl) := ListLoop(toks, i, item, items, newline);
      WellFormedItems(out) && |items| <= |out|
      && (end == |toks| || toks[end].Eof? || (i < end && toks[end - 1].Newline? && !IsListMarker(toks[end])))
      && (nl <==> newline || exists k :: i <= k < end && toks[k].Newline?)
    decreases |toks| - i, 0
  {
    var item' := item + [Inline.Text(toks[i].content)];
    assert forall m :: 0 <= m < |item'| ==> item'[m].Text?;
    assert ListLoop(toks, i, item, items, newline) == ListLoop(toks, i + 1, item', items, newline);
    ListLoopShape(toks, i + 1, item', items, newline);
    var end := ListLoop(toks, i + 1, item', items, newline).1;
    if exists k :: i <= k < end && toks[k].Newline? {
      var k :| i <= k < end && toks[k].Newline?;
      assert k != i;
    }
  }

  /** `ListLoopShape` for a token the list loop passes over. */
  lemma {:induction false} ListSkip(toks: seq<Token>, i: nat, item: seq<Inline>, items: seq<seq<Inline>>, newline: bool)
    requires i < |toks| && !toks[i].Newline? && !toks[i].Text? && !toks[i].Eof?
    requires WellFormedItems(items) && forall m :: 0 <= m < |item| ==> item[m].Text?
    ensures var (out, end, nl) := ListLoop(toks, i, item, items, newline);
      WellFormedItems(out) && |items| <= |out|
      && (end == |toks| || toks[end].Eof? || (i < end && toks[end - 1].Newline? && !IsListMarker(toks[end])))
      && (nl <==> newline || exists k :: i <= k < end && toks[k].Newline?)
    decreases |toks| - i, 0
  {
    ListLoopShape(toks, i + 1, item, items, newline);
    var end := ListLoop(toks, i + 1, item, items, newline).1;
    if exists k :: i <= k < end && toks[k].Newline? {
      var k :| i <= k < end && toks[k].Newline?;
      assert k != i;
    }
  }

  /**
   * `ListRule::try_parse`: a marker, an optional blank text token, then
   * the list loop. Without a marker, or with no item collected, the cursor
   * goes back where it was.
   */
  function ListAttempt(s: Toks<Token>): (a: Attempt<MarkdownNode, Toks<Token>>)
    requires s.Valid()
    ensures Follows(s, a.after)
    ensures a.output.None? ==> a.after == s
    ensures a.output.Some? ==> (s.current < |s.tokens| && IsListMarker(s.tokens[s.current])
      && s.current < a.after.current && a.output.value.List? && a.output.value.position == StartPosition())
  {
    if s.current == |s.tokens| || !IsListMarker(s.tokens[s.current]) then Attempt(None, s)
    else
      var (items, end, newline) := ListLoop(s.tokens, SkipBlankText(s.tokens, s.current + 1), [], [], false);
      if items == [] then Attempt(None, s)
      else Attempt(Some(List(items, StartPosition(), if newline then Complete else Incomplete)), s.(current := end))
  }

  /** A parsed list has at least one item, every item non-empty text, and is complete exactly when it consumed a line feed. */
  lemma ListItems(s: Toks<Token>)
    requires s.Valid() && ListAttempt(s).output.Some?
    ensures var node := ListAttempt(s).output.value;
      var end := ListAttempt(s).after.current;
      node.items != [] && WellFormedItems(node.items)
      && (node.state == Complete <==> exists k :: s.current < k < end && s.tokens[k].Newline?)
  {
    var b := SkipBlankText(s.tokens, s.current + 1);
    ListLoopShape(s.tokens, b, [], [], false);
    var end := ListAttempt(s).after.current;
    if exists k :: s.current < k < end && s.tokens[k].Newline? {
      var k :| s.current < k < end && s.tokens[k].Newline?;
      assert b <= k;
    }
  }

  // ---------------------------------------------------------------------
  // ParagraphRule

  /** The leading loop of `ParagraphRule`: skip blank text tokens; a line feed or anything else stops it. */
  function SkipBlankTexts(toks: seq<Token>, i: nat): (j: nat)
    requires i <= |toks|
    ensures i <= j <= |toks|
    ensures j == |toks| || !IsBlankText(toks[j])
    ensures forall k :: i <= k < j ==> IsBlankText(toks[k])
    decreases |toks| - i
  {
    if i < |toks| && IsBlankText(toks[i]) then SkipBlankTexts(toks, i + 1) else i
  }

  /** Where a paragraph refuses to start: the end, `Eof`, a heading or a fence. */
  predicate RefusesParagraph(toks: seq<Token>, j: nat)
    requires j <= |toks|
  {
    j == |toks| || toks[j].Eof? || toks[j].Hash? || IsFence(toks[j])
  }

  /**
   * The paragraph loop. A line feed followed by another, by the end, or by
   * the start of another block ends the paragraph as complete (the line
   * feed consumed); any other line feed becomes a `"\n"` inline. Text is
   * collected, `Eof` stops, other tokens are passed over.
   */
  function ParaLoop(toks: seq<Token>, i: nat, content: seq<Inline>): (r: (seq<Inline>, nat, bool))
    requires i <= |toks|
    ensures i <= r.1 <= |toks|
    ensures r.0 != content ==> i < r.1
    ensures r.2 ==> i < r.1
    decreases |toks| - i
  {
    if i == |toks| then (content, i, false)
    else match toks[i]
      case Newline(_) =>
        if i + 1 == |toks| || toks[i + 1].Newline? || IsBlockStart(toks[i + 1]) then (content, i + 1, true)
        else ParaLoop(toks, i + 1, content + [Inline.Text("\n")])
      case Text(t, _) => ParaLoop(toks, i + 1, content + [Inline.Text(t)])
      case Eof(_) => (content, i, false)
      case _ => ParaLoop(toks, i + 1, content)
  }

  /** A line feed inside a paragraph: what follows it neither ends the paragraph nor starts a block. */
  predicate SoftBreakAt(toks: seq<Token>, k: nat)
    requires k < |toks|
  {
    toks[k].Newline? ==> k + 1 < |toks| && !toks[k + 1].Newline? && !IsBlockStart(toks[k + 1])
  }

  /** One step of the paragraph loop over a token that does not end it. */
  lemma ParaLoopStep(toks: seq<Token>, i: nat, content: seq<Inline>)
    requires i < |toks| && !toks[i].Eof?
    requires !(toks[i].Newline? && (i + 1 == |toks| || toks[i + 1].Newline? || IsBlockStart(toks[i + 1])))
    ensures ParaLoop(toks, i, content) == ParaLoop(toks, i + 1, content + ParaText(toks[i]))
  {
    if !toks[i].Text? && !toks[i].Newline? {
      assert content + [] == content;
    }
  }

  /** Where the paragraph loop stops: complete on a line feed before a blank line, the end or a block; otherwise at `Eof` or the end. */
  lemma {:induction false} ParaLoopEnds(toks: seq<Token>, i: nat, content: seq<Inline>)
    requires i <= |toks|
    ensures var (out, end, complete) := ParaLoop(toks, i, content);
      (complete ==> toks[end - 1].Newline? && (end == |toks| || toks[end].Newline? || IsBlockStart(toks[end])))
      && (!complete ==> end == |toks| || toks[end].Eof?)
    decreases |toks| - i
  {
    if i < |toks| && !toks[i].Eof? && !(toks[i].Newline? && (i + 1 == |toks| || toks[i + 1].Newline? || IsBlockStart(toks[i + 1]))) {
      ParaLoopStep(toks, i, content);
      ParaLoopEnds(toks, i + 1, content + ParaText(toks[i]));
    }
  }

  /** Before its closing line feed, the paragraph loop passes no `Eof` and only soft line feeds. */
  lemma {:induction false} ParaLoopSoft(toks: seq<Token>, i: nat, content: seq<Inline>)
    requires i <= |toks|
    ensures var (out, end, complete) := ParaLoop(toks, i, content);
      forall k :: i <= k < (if complete then end - 1 else end) ==> !toks[k].Eof? && SoftBreakAt(toks, k)
    decreases |toks| - i
  {
    if i < |toks| && !toks[i].Eof? && !(toks[i].Newline? && (i + 1 == |toks| || toks[i + 1].Newline? || IsBlockStart(toks[i + 1]))) {
      ParaLoopStep(toks, i, content);
      ParaLoopSoft(toks, i + 1, content + ParaText(toks[i]));
    }
  }

  /** Where the paragraph's text ends: before the closing line feed when there is one. */
  function ParaBodyEnd(toks: seq<Token>, i: nat, content: seq<Inline>): (body: nat)
    requires i <= |toks|
    ensures i <= body <= ParaLoop(toks, i, content).1
  {
    var r := ParaLoop(toks, i, content);
    if r.2 then r.1 - 1 else r.1
  }

  /** The paragraph's content is the texts and line feeds before its closing line feed. */
  lemma {:induction false} ParaLoopContent(toks: seq<Token>, i: nat, content: seq<Inline>)
    requires i <= |toks|
    ensures ParaLoop(toks, i, content).0 == content + ParaTexts(toks[i..ParaBodyEnd(toks, i, content)])
    decreases |toks| - i
  {
    if i == |toks| || toks[i].Eof? || (toks[i].Newline? && (i + 1 == |toks| || toks[i + 1].Newline? || IsBlockStart(toks[i + 1]))) {
      ParaLoopStops(toks, i, content);
    } else {
      var step := ParaText(toks[i]);
      ParaLoopStep(toks, i, content);
      ParaLoopContent(toks, i + 1, content + step);
      var body := ParaBodyEnd(toks, i + 1, content + step);
      assert body == ParaBodyEnd(toks, i, content);
      SliceHead(toks, i, body);
      assert ParaTexts(toks[i..body]) == step + ParaTexts(toks[i + 1..body]);
      assert content + step + ParaTexts(toks[i + 1..body]) == content + (step + ParaTexts(toks[i + 1..body]));
    }
  }

  /** Where the paragraph loop stops at once, it has read nothing. */
  lemma ParaLoopStops(toks: seq<Token>, i: nat, content: seq<Inline>)
    requires i <= |toks|
    requires i == |toks| || toks[i].Eof? || (toks[i].Newline? && (i + 1 == |toks| || toks[i + 1].Newline? || IsBlockStart(toks[i + 1])))
    ensures ParaLoop(toks, i, content).0 == content && ParaBodyEnd(toks, i, content) == i
  {
  }

  /**
   * What the paragraph loop reads: its body holds no `Eof` and only soft
   * line feeds, the content is the body's texts and line feeds, and it
   * ends either complete, on a line feed before a blank line, the end or
   * a block, or incomplete, at `Eof` or the end.
   */
  lemma ParaLoopShape(toks: seq<Token>, i: nat, content: seq<Inline>)
    requires i <= |toks|
    ensures var (out, end, complete) := ParaLoop(toks, i, content);
      var body := if complete then end - 1 else end;
      i <= body <= end && out == content + ParaTexts(toks[i..body])
      && (complete ==> toks[body].Newline? && (end == |toks| || toks[end].Newline? || IsBlockStart(toks[end])))
      && (!complete ==> end == |toks| || toks[end].Eof?)
      && (forall k :: i <= k < body ==> !toks[k].Eof? && SoftBreakAt(toks, k))
  {
    ParaLoopEnds(toks, i, content);
    ParaLoopSoft(toks, i, content);
    ParaLoopContent(toks, i, content);
    assert ParaTexts(toks[i..i]) == [] && content + [] == content;
  }

  /**
   * `ParagraphRule::try_parse`: skip blank text, refuse at the end, `Eof`,
   * a heading or a fence, then the paragraph loop. With no content the
   * cursor goes back where it was.
   */
  function ParagraphAttempt(s: Toks<Token>): (a: Attempt<MarkdownNode, Toks<Token>>)
    requires s.Valid()
    ensures Follows(s, a.after)
    ensures a.output.None? ==> a.after == s
    ensures a.output.Some? ==> (!RefusesParagraph(s.tokens, SkipBlankTexts(s.tokens, s.current))
      && s.current < a.after.current && a.output.value.Paragraph? && a.output.value.content != []
      && a.output.value.position == StartPosition())
  {
    var j := SkipBlankTexts(s.tokens, s.current);
    if RefusesParagraph(s.tokens, j) then Attempt(None, s)
    else
      var (content, end, newline) := ParaLoop(s.tokens, j, []);
      if content == [] then Attempt(None, s)
      else Attempt(Some(Paragraph(content, StartPosition(), if newline then Complete else Incomplete)), s.(current := end))
  }

  /** A paragraph holds only text inlines, and is complete exactly when it ended on a line feed before a blank line, the end or a block. */
  lemma ParagraphContent(s: Toks<Token>)
    requires s.Valid() && ParagraphAttempt(s).output.Some?
    ensures var a := ParagraphAttempt(s);
      var end := a.after.current;
      (forall m :: 0 <= m < |a.output.value.content| ==> a.output.value.content[m].Text?)
      && (a.output.value.state == Complete <==>
        (0 < end && s.tokens[end - 1].Newline? && (end == |s.tokens| || s.tokens[end].Newline? || IsBlockStart(s.tokens[end]))))
  {
    var j := SkipBlankTexts(s.tokens, s.current);
    ParaLoopShape(s.tokens, j, []);
  }

  // ---------------------------------------------------------------------
  // RawTextRule

  /** The raw text loop: text and line feeds up to `Eof`; other tokens are passed over. */
  function RawLoop(toks: seq<Token>, i: nat, text: string): (r: (string, nat))
    requires i <= |toks|
    ensures i <= r.1 <= |toks|
    decreases |toks| - i
  {
    if i == |toks| then (text, i)
    else match toks[i]
      case Text(t, _) => RawLoop(toks, i + 1, text + t)
      case Newline(_) => RawLoop(toks, i + 1, text + "\n")
      case Eof(_) => (text, i)
      case _ => RawLoop(toks, i + 1, text)
  }

  /** Raw text is the plain text of every token up to `Eof`. */
  lemma {:induction false} RawLoopReadsToEof(toks: seq<Token>, i: nat, text: string)
    requires i <= |toks|
    ensures var j := FirstAt(toks, i, EndsInput);
      RawLoop(toks, i, text) == (text + PlainText(toks[i..j]), j)
    decreases |toks| - i
  {
    var j := FirstAt(toks, i, EndsInput);
    if i == |toks| || EndsInput(toks[i]) {
      assert j == i && toks[i..j] == [] && text + [] == text;
    } else {
      var step := if toks[i].Text? then toks[i].content else (if toks[i].Newline? then "\n" else "");
      assert text + [] == text;
      assert RawLoop(toks, i, text) == RawLoop(toks, i + 1, text + step);
      RawLoopReadsToEof(toks, i + 1, text + step);
      SliceHead(toks, i, j);
      assert PlainText(toks[i..j]) == step + PlainText(toks[i + 1..j]);
      assert text + step + PlainText(toks[i + 1..j]) == text + (step + PlainText(toks[i + 1..j]));
    }
  }

  /**
   * `RawTextRule::try_parse`: the raw text loop, and a node unless the
   * text is blank. It never restores: a blank run is consumed all the
   * same, and the engine's own checkpoint undoes it.
   */
  function RawTextAttempt(s: Toks<Token>): (a: Attempt<MarkdownNode, Toks<Token>>)
    requires s.Valid()
    ensures Follows(s, a.after)
    ensures a.output.Some? ==> (s.current < a.after.current && a.output.value.RawText?
      && !IsBlank(a.output.value.text) && a.output.value.position == StartPosition())
  {
    var (text, end) := RawLoop(s.tokens, s.current, "");
    if IsBlank(text) then Attempt(None, s.(current := end))
    else
      assert text != [];
      Attempt(Some(RawText(text, StartPosition())), s.(current := end))
  }

  /** Raw text runs to the first `Eof`, holding the plain text of what it passed, and fails exactly when that is blank. */
  lemma RawTextContent(s: Toks<Token>)
    requires s.Valid()
    ensures var a := RawTextAttempt(s);
      var j := FirstAt(s.tokens, s.current, EndsInput);
      a.after.current == j
      && (a.output.None? <==> IsBlank(PlainText(s.tokens[s.current..j])))
      && (a.output.Some? ==> a.output.value.text == PlainText(s.tokens[s.current..j]))
  {
    var j := FirstAt(s.tokens, s.current, EndsInput);
    RawLoopReadsToEof(s.tokens, s.current, "");
    assert "" + PlainText(s.tokens[s.current..j]) == PlainText(s.tokens[s.current..j]);
  }

  // ---------------------------------------------------------------------
  // The rule set

  datatype BlockRule = HeadingRule | CodeBlockRule | ListRule | ParagraphRule | RawTextRule

  /** `build_parser_rules`, in the order listed there. */
  const BlockRules: seq<BlockRule> := [HeadingRule, CodeBlockRule, ListRule, ParagraphRule, RawTextRule]

  function Priority(rule: BlockRule): int
  {
    match rule
    case HeadingRule => 100
    case CodeBlockRule => 90
    case ListRule => 80
    case ParagraphRule => 10
    case RawTextRule => -100
  }

  /** `quick_check`: headings, code blocks and lists test the current token; paragraphs and raw text give no verdict. */
  function QuickCheck(rule: BlockRule, current: Option<Token>): Option<bool>
  {
    match rule
    case HeadingRule => Some(current.Some? && current.value.Hash?)
    case CodeBlockRule => Some(current.Some? && IsFence(current.value))
    case ListRule => Some(current.Some? && IsListMarker(current.value))
    case ParagraphRule => DefaultQuickCheck(rule, current)
    case RawTextRule => DefaultQuickCheck(rule, current)
  }

  /** `try_parse` of each rule. A state beyond its tokens never arises from a context; the guard only makes the function total. */
  function TryRule(rule: BlockRule, s: Toks<Token>): Attempt<MarkdownNode, Toks<Token>>
  {
    if !s.Valid() then Attempt(None, s)
    else
      match rule
      case HeadingRule => HeadingAttempt(s)
      case CodeBlockRule => CodeBlockAttempt(s)
      case ListRule => ListAttempt(s)
      case ParagraphRule => ParagraphAttempt(s)
      case RawTextRule => RawTextAttempt(s)
  }

  function BlockGrammar(): ParseRules<BlockRule, Token, MarkdownNode>
  {
    Rules((r: BlockRule, s: Toks<Token>) => TryRule(r, s),
          (r: BlockRule) => Priority(r),
          (r: BlockRule, t: Option<Token>) => QuickCheck(r, t))
  }

  /** Every block rule keeps to its tokens, moves only forward, and consumes a token whenever it succeeds. */
  lemma BlockRulesConfined(rules: seq<BlockRule>)
    ensures Confined(BlockGrammar(), rules) && Advancing(BlockGrammar(), rules)
  {
  }

  /** Each quick check answers `Some(false)` only where its rule fails. */
  lemma BlockQuickChecksSound(rules: seq<BlockRule>, s: Toks<Token>)
    requires s.Valid()
    ensures QuickCheckSoundAt(BlockGrammar(), rules, PeekTok(s), s)
  {
    forall i | 0 <= i < |rules| && Skipped(BlockGrammar(), rules[i], PeekTok(s))
      ensures BlockGrammar().attempt(rules[i], s).output.None?
    {
      if rules[i] == CodeBlockRule {
        assert !(s.current < |s.tokens| && IsFence(s.tokens[s.current]));
      }
    }
  }

  /** The rules are listed in priority order already, so sorting keeps that order. */
  lemma BlockRulesSorted()
    ensures SortByPriority(BlockRules, BlockGrammar().priority) == BlockRules
  {
    var key := BlockGrammar().priority;
    var rs := BlockRules;
    assert SortByPriority(rs[4..], key) == [RawTextRule] by {
      assert rs[4..] == [RawTextRule] && rs[4..][1..] == [];
    }
    assert SortByPriority(rs[3..], key) == rs[3..] by {
      assert rs[3..][1..] == rs[4..];
    }
    assert SortByPriority(rs[2..], key) == rs[2..] by {
      assert rs[2..][1..] == rs[3..];
      assert [rs[2]] + rs[3..] == rs[2..];
    }
    assert SortByPriority(rs[1..], key) == rs[1..] by {
      assert rs[1..][1..] == rs[2..];
      assert [rs[1]] + rs[2..] == rs[1..];
    }
    assert [rs[0]] + rs[1..] == rs;
  }

  /** At a `#` run, the next node is the heading. */
  lemma NextNodeAtHash(s: Toks<Token>)
    requires s.Valid() && s.current < |s.tokens| && s.tokens[s.current].Hash?
    ensures NextNodeSpec(BlockGrammar(), BlockRules, s) == HeadingAttempt(s)
  {
    var g := BlockGrammar();
    assert !Skipped(g, BlockRules[0], PeekTok(s));
    assert g.attempt(BlockRules[0], s) == HeadingAttempt(s);
  }

  /** At a fence followed by a line feed, the next node is the code block. */
  lemma NextNodeAtFence(s: Toks<Token>)
    requires s.Valid() && s.current + 1 < |s.tokens| && IsFence(s.tokens[s.current]) && s.tokens[s.current + 1].Newline?
    ensures NextNodeSpec(BlockGrammar(), BlockRules, s) == CodeBlockAttempt(s)
  {
    var g := BlockGrammar();
    var hint := PeekTok(s);
    assert Skipped(g, BlockRules[0], hint);
    assert !Skipped(g, BlockRules[1], hint);
    assert g.attempt(BlockRules[1], s) == CodeBlockAttempt(s);
    assert FirstMatchFrom(g, BlockRules, 1, hint, s) == CodeBlockAttempt(s);
  }

  /** `# Title` and a line feed: a complete level-one heading holding the text after the `#`, all three tokens consumed. */
  lemma HeadingExample(p0: Position, p1: Position, p2: Position)
    ensures var tokens := [Lex.Hash(1, p0), Lex.Text(" Title", p1), Lex.Newline(p2)];
      NextNodeSpec(BlockGrammar(), BlockRules, Toks(tokens, 0, true))
        == Attempt(Some(Heading(1, [Inline.Text(" Title")], StartPosition(), Complete)), Toks(tokens, 3, true))
  {
    var tokens := [Lex.Hash(1, p0), Lex.Text(" Title", p1), Lex.Newline(p2)];
    var s := Toks(tokens, 0, true);
    NextNodeAtHash(s);
    assert !IsBlank(" Title") by {
      assert !IsWhitespace(" Title"[1]);
    }
    assert SkipBlankText(tokens, 1) == 1;
    assert [] + [Inline.Text(" Title")] == [Inline.Text(" Title")];
    assert HeadingBody(tokens, 2, [Inline.Text(" Title")]) == ([Inline.Text(" Title")], 3, true);
    assert HeadingBody(tokens, 1, []) == ([Inline.Text(" Title")], 3, true);
  }

  /** A `#` with nothing after it yet: an incomplete heading with no content. */
  lemma UnfinishedHeadingExample(p0: Position)
    ensures var tokens := [Lex.Hash(2, p0)];
      NextNodeSpec(BlockGrammar(), BlockRules, Toks(tokens, 0, true))
        == Attempt(Some(Heading(2, [], StartPosition(), Incomplete)), Toks(tokens, 1, true))
  {
    NextNodeAtHash(Toks([Lex.Hash(2, p0)], 0, true));
  }

  // ---------------------------------------------------------------------
  // The rules on a token context

  /** `HeadingRule::try_parse` on a context. */
  method TryHeading(ctx: TokenContext<Token>) returns (r: Option<MarkdownNode>)
    requires ctx.Valid()
    modifies ctx
    ensures ctx.Valid() && Attempt(r, ctx.State()) == HeadingAttempt(old(ctx.State()))
  {
    var checkpoint := ctx.Checkpoint();
    var position := ctx.CurrentPosition();
    var first := ctx.Peek();
    if first.None? {
      return None;
    }
    if !first.value.Hash? {
      ctx.Restore(checkpoint);
      return None;
    }
    var level := first.value.count;
    var _ := ctx.Advance();
    var blank := ctx.Peek();
    if blank.Some? && IsBlankText(blank.value) {
      var _ := ctx.Advance();
    }
    var content, hasNewline := HeadingLoop(ctx);
    r := Some(Heading(level, content, position, if hasNewline then Complete else Incomplete));
  }

  /** The content loop of `HeadingRule::try_parse`. */
  method HeadingLoop(ctx: TokenContext<Token>) returns (content: seq<Inline>, hasNewline: bool)
    requires ctx.Valid()
    modifies ctx
    ensures ctx.Valid() && ctx.tokens == old(ctx.tokens) && ctx.finished == old(ctx.finished)
    ensures (content, ctx.current, hasNewline) == HeadingBody(ctx.tokens, old(ctx.current), [])
  {
    content := [];
    hasNewline := false;
    ghost var whole := HeadingBody(ctx.tokens, ctx.current, content);
    while ctx.Peek().Some?
      invariant ctx.Valid() && ctx.tokens == old(ctx.tokens) && ctx.finished == old(ctx.finished)
      invariant HeadingBody(ctx.tokens, ctx.current, content) == whole
      decreases |ctx.tokens| - ctx.current
    {
      var token := ctx.Peek().value;
      if token.Newline? {
        hasNewline := true;
        var _ := ctx.Advance();
        break;
      } else if token.Text? {
        content := content + [Inline.Text(token.content)];
        var _ := ctx.Advance();
      } else if token.Eof? {
        break;
      } else {
        var _ := ctx.Advance();
      }
    }
  }

  /** `CodeBlockRule::try_parse` on a context. */
  method TryCodeBlock(ctx: TokenContext<Token>) returns (r: Option<MarkdownNode>)
    requires ctx.Valid()
    modifies ctx
    ensures ctx.Valid() && Attempt(r, ctx.State()) == CodeBlockAttempt(old(ctx.State()))
  {
    var checkpoint := ctx.Checkpoint();
    var position := ctx.CurrentPosition();
    var first := ctx.Peek();
    if first.None? {
      return None;
    }
    if !IsFence(first.value) {
      ctx.Restore(checkpoint);
      return None;
    }
    var _ := ctx.Advance();
    var language: Option<string> := None;
    var info := ctx.Peek();
    if info.Some? && info.value.Text? {
      var _ := ctx.Advance();
      language := LanguageOf(info.value.content);
    }
    var newline := ctx.Peek();
    if !(newline.Some? && newline.value.Newline?) {
      ctx.Restore(checkpoint);
      return None;
    }
    var _ := ctx.Advance();
    ghost var start := ctx.current;
    var code, foundEnd := CodeLoop(ctx);
    r := Some(CodeBlock(language, code, position, if foundEnd then Complete else Incomplete));
    assert Attempt(r, ctx.State()) == CodeBlockFrom(old(ctx.State()), language, start);
  }

  /** `ListRule::try_parse` on a context. */
  method TryList(ctx: TokenContext<Token>) returns (r: Option<MarkdownNode>)
    requires ctx.Valid()
    modifies ctx
    ensures ctx.Valid() && Attempt(r, ctx.State()) == ListAttempt(old(ctx.State()))
  {
    var checkpoint := ctx.Checkpoint();
    var position := ctx.CurrentPosition();
    var first := ctx.Peek();
    if !(first.Some? && IsListMarker(first.value)) {
      ctx.Restore(checkpoint);
      return None;
    }
    var _ := ctx.Advance();
    var blank := ctx.Peek();
    if blank.Some? && IsBlankText(blank.value) {
      var _ := ctx.Advance();
    }
    var items, hasNewline := ListItemLoop(ctx);
    if items == [] {
      ctx.Restore(checkpoint);
      return None;
    }
    r := Some(List(items, position, if hasNewline then Complete else Incomplete));
  }

  /** `ParagraphRule::try_parse` on a context. */
  method TryParagraph(ctx: TokenContext<Token>) returns (r: Option<MarkdownNode>)
    requires ctx.Valid()
    modifies ctx
    ensures ctx.Valid() && Attempt(r, ctx.State()) == ParagraphAttempt(old(ctx.State()))
  {
    var checkpoint := ctx.Checkpoint();
    var position := ctx.CurrentPosition();
    while ctx.Peek().Some?
      invariant ctx.Valid() && ctx.tokens == old(ctx.tokens) && ctx.finished == old(ctx.finished)
      invariant old(ctx.current) <= ctx.current
      invariant SkipBlankTexts(ctx.tokens, ctx.current) == SkipBlankTexts(ctx.tokens, old(ctx.current))
      decreases |ctx.tokens| - ctx.current
    {
      if !IsBlankText(ctx.Peek().value) {
        break;
      }
      var _ := ctx.Advance();
    }
    var next := ctx.Peek();
    if next.None? || next.value.Eof? || next.value.Hash? || IsFence(next.value) {
      ctx.Restore(checkpoint);
      return None;
    }
    var content, hasNewline := ParagraphLoop(ctx);
    if content == [] {
      ctx.Restore(checkpoint);
      return None;
    }
    r := Some(Paragraph(content, position, if hasNewline then Complete else Incomplete));
  }

  /** `RawTextRule::try_parse` on a context: no checkpoint, the cursor stays where the loop left it. */
  method TryRawText(ctx: TokenContext<Token>) returns (r: Option<MarkdownNode>)
    requires ctx.Valid()
    modifies ctx
    ensures ctx.Valid() && Attempt(r, ctx.State()) == RawTextAttempt(old(ctx.State()))
  {
    var position := ctx.CurrentPosition();
    var text := RawTextLoop(ctx);
    if IsBlank(text) {
      return None;
    }
    r := Some(RawText(text, position));
  }

  /** The code loop of `CodeBlockRule::try_parse`. */
  method CodeLoop(ctx: TokenContext<Token>) returns (code: string, foundEnd: bool)
    requires ctx.Valid()
    modifies ctx
    ensures ctx.Valid() && ctx.tokens == old(ctx.tokens) && ctx.finished == old(ctx.finished)
    ensures (code, ctx.current, foundEnd) == CodeBody(ctx.tokens, old(ctx.current), "")
  {
    code := "";
    foundEnd := false;
    ghost var whole := CodeBody(ctx.tokens, ctx.current, code);
    while ctx.Peek().Some?
      invariant ctx.Valid() && ctx.tokens == old(ctx.tokens) && ctx.finished == old(ctx.finished)
      invariant CodeBody(ctx.tokens, ctx.current, code) == whole
      decreases |ctx.tokens| - ctx.current
    {
      var token := ctx.Peek().value;
      if IsFence(token) {
        var _ := ctx.Advance();
        foundEnd := true;
        break;
      } else if token.Text? {
        code := code + token.content;
        var _ := ctx.Advance();
      } else if token.Newline? {
        code := code + "\n";
        var _ := ctx.Advance();
      } else if token.Eof? {
        break;
      } else {
        var _ := ctx.Advance();
      }
    }
  }

  /**
   * The line-feed step of the list loop: consume the line feed, and when a
   * list marker follows, consume it and one blank text token after it.
   */
  method PassLineFeed(ctx: TokenContext<Token>) returns (more: bool)
    requires ctx.Valid() && ctx.current < |ctx.tokens|
    modifies ctx
    ensures ctx.Valid() && ctx.tokens == old(ctx.tokens) && ctx.finished == old(ctx.finished)
    ensures var i := old(ctx.current);
      more == (i + 1 < |ctx.tokens| && IsListMarker(ctx.tokens[i + 1]))
      && ctx.current == (if more then SkipBlankText(ctx.tokens, i + 2) else i + 1)
  {
    var _ := ctx.Advance();
    var next := ctx.Peek();
    more := next.Some? && IsListMarker(next.value);
    if more {
      var _ := ctx.Advance();
      var space := ctx.Peek();
      if space.Some? && IsBlankText(space.value) {
        var _ := ctx.Advance();
      }
    }
  }

  /** The item loop of `ListRule::try_parse`, with the last item flushed after it. */
  method ListItemLoop(ctx: TokenContext<Token>) returns (items: seq<seq<Inline>>, hasNewline: bool)
    requires ctx.Valid()
    modifies ctx
    ensures ctx.Valid() && ctx.tokens == old(ctx.tokens) && ctx.finished == old(ctx.finished)
    ensures (items, ctx.current, hasNewline) == ListLoop(ctx.tokens, old(ctx.current), [], [], false)
  {
    items := [];
    var item: seq<Inline> := [];
    hasNewline := false;
    ghost var whole := ListLoop(ctx.tokens, ctx.current, item, items, hasNewline);
    while ctx.Peek().Some?
      invariant ctx.Valid() && ctx.tokens == old(ctx.tokens) && ctx.finished == old(ctx.finished)
      invariant ListLoop(ctx.tokens, ctx.current, item, items, hasNewline) == whole
      decreases |ctx.tokens| - ctx.current
    {
      ghost var i := ctx.current;
      var token := ctx.Peek().value;
      if token.Newline? {
        ghost var before := ListLoop(ctx.tokens, i, item, items, hasNewline);
        hasNewline := true;
        items := Flush(items, item);
        item := [];
        var more := PassLineFeed(ctx);
        if !more {
          assert before == (items, i + 1, true);
          break;
        }
        assert before == ListLoop(ctx.tokens, ctx.current, [], items, true);
      } else if token.Text? {
        item := item + [Inline.Text(token.content)];
        var _ := ctx.Advance();
        assert ctx.current == i + 1;
      } else if token.Eof? {
        items := Flush(items, item);
        item := [];
        break;
      } else {
        var _ := ctx.Advance();
      }
    }
    items := Flush(items, item);
  }

  /** The content loop of `ParagraphRule::try_parse`. */
  method ParagraphLoop(ctx: TokenContext<Token>) returns (content: seq<Inline>, hasNewline: bool)
    requires ctx.Valid()
    modifies ctx
    ensures ctx.Valid() && ctx.tokens == old(ctx.tokens) && ctx.finished == old(ctx.finished)
    ensures (content, ctx.current, hasNewline) == ParaLoop(ctx.tokens, old(ctx.current), [])
  {
    content := [];
    hasNewline := false;
    ghost var whole := ParaLoop(ctx.tokens, ctx.current, content);
    while ctx.Peek().Some?
      invariant ctx.Valid() && ctx.tokens == old(ctx.tokens) && ctx.finished == old(ctx.finished)
      invariant ParaLoop(ctx.tokens, ctx.current, content) == whole
      decreases |ctx.tokens| - ctx.current
    {
      var token := ctx.Peek().value;
      if token.Newline? {
        var _ := ctx.Advance();
        var after := ctx.Peek();
        if after.None? || after.value.Newline? || IsBlockStart(after.value) {
          hasNewline := true;
          break;
        }
        content := content + [Inline.Text("\n")];
      } else if token.Text? {
        content := content + [Inline.Text(token.content)];
        var _ := ctx.Advance();
      } else if token.Eof? {
        break;
      } else {
        var _ := ctx.Advance();
      }
    }
  }

  /** The loop of `RawTextRule::try_parse`. */
  method RawTextLoop(ctx: TokenContext<Token>) returns (text: string)
    requires ctx.Valid()
    modifies ctx
    ensures ctx.Valid() && ctx.tokens == old(ctx.tokens) && ctx.finished == old(ctx.finished)
    ensures (text, ctx.current) == RawLoop(ctx.tokens, old(ctx.current), "")
  {
    text := "";
    ghost var whole := RawLoop(ctx.tokens, ctx.current, text);
    while ctx.Peek().Some?
      invariant ctx.Valid() && ctx.tokens == old(ctx.tokens) && ctx.finished == old(ctx.finished)
      invariant RawLoop(ctx.tokens, ctx.current, text) == whole
      decreases |ctx.tokens| - ctx.current
    {
      var token := ctx.Peek().value;
      if token.Text? {
        text := text + token.content;
        var _ := ctx.Advance();
      } else if token.Newline? {
        text := text + "\n";
        var _ := ctx.Advance();
      } else if token.Eof? {
        break;
      } else {
        var _ := ctx.Advance();
      }
    }
  }
}
