/**
 * The Markdown renderer: it lexes and parses an input with the Markdown
 * rules, keeps the nodes of the last parse, and turns nodes into render
 * items. A node whose syntax is closed becomes a structured item; a node
 * still being typed is shown as the raw text the user wrote, so the
 * display never jumps ahead of the input.
 */
module MarkdownRendering {
  import opened Common
  import Ast = MarkdownAst
  import Lex = MarkdownLexing
  import Md = MarkdownParsing
  import Lexers
  import Parsers
  import Pipelines
  import opened ParseContexts

  /** What the display layer is told to show for one piece of the document. */
  datatype RenderItem =
    | Heading(level: nat, text: string)
    | Paragraph(text: string)
    | List(entries: seq<string>)
    | CodeBlock(language: Option<string>, code: string)
    | RawText(text: string)

  datatype RenderResult = RenderResult(items: seq<RenderItem>)

  // ---------------------------------------------------------------------
  // Inline text

  /** The source form of one inline element: emphasis, code and links are written back with their markers. */
  function InlineText(inline: Ast.Inline): string
  {
    match inline
    case Text(s) => s
    case Bold(s) => "**" + s + "**"
    case Italic(s) => "*" + s + "*"
    case Code(s) => "`" + s + "`"
    case Link(text, url) => "[" + text + "](" + url + ")"
  }

  /** `inline_to_text`: the inline elements written out one after another. */
  function InlineToText(inlines: seq<Ast.Inline>): string
  {
    if inlines == [] then "" else InlineText(inlines[0]) + InlineToText(inlines[1..])
  }

  /** Writing out two runs of inline elements is writing out each in turn. */
  lemma {:induction false} InlineToTextAppend(a: seq<Ast.Inline>, b: seq<Ast.Inline>)
    ensures InlineToText(a + b) == InlineToText(a) + InlineToText(b)
    decreases |a|
  {
    if a == [] {
      assert a + b == b;
    } else {
      assert (a + b)[0] == a[0] && (a + b)[1..] == a[1..] + b;
      InlineToTextAppend(a[1..], b);
      assert InlineText(a[0]) + (InlineToText(a[1..]) + InlineToText(b))
        == InlineText(a[0]) + InlineToText(a[1..]) + InlineToText(b);
    }
  }

  /** Text inline elements are written out exactly as they hold their text. */
  lemma {:induction false} PlainInlines(inlines: seq<Ast.Inline>)
    requires forall k :: 0 <= k < |inlines| ==> inlines[k].Text?
    ensures |InlineToText(inlines)| == TextLength(inlines)
    decreases |inlines|
  {
    if inlines != [] {
      PlainInlines(inlines[1..]);
    }
  }

  /** The total length of the inline elements' texts. */
  function TextLength(inlines: seq<Ast.Inline>): nat
  {
    if inlines == [] then 0 else |inlines[0].text| + TextLength(inlines[1..])
  }

  /** A paragraph's inline elements write out to the plain text of the tokens they came from. */
  lemma {:induction false} ParaTextsRender(ts: seq<Md.Token>)
    ensures InlineToText(Md.ParaTexts(ts)) == Md.PlainText(ts)
    decreases |ts|
  {
    if ts != [] {
      ParaTextsRender(ts[1..]);
      InlineToTextAppend(Md.ParaText(ts[0]), Md.ParaTexts(ts[1..]));
      var head := Md.ParaText(ts[0]);
      if ts[0].Text? || ts[0].Newline? {
        assert InlineToText(head) == InlineText(head[0]) + InlineToText([]);
      }
    }
  }

  // ---------------------------------------------------------------------
  // Nodes to render items

  /** An unfinished list: one raw line `- item` per item. */
  function RawListLines(items: seq<seq<Ast.Inline>>): (r: seq<RenderItem>)
    ensures |r| == |items|
    ensures forall k :: 0 <= k < |r| ==> r[k] == RawText("- " + InlineToText(items[k]))
  {
    if items == [] then [] else [RawText("- " + InlineToText(items[0]))] + RawListLines(items[1..])
  }

  /** A finished list: each item's text. */
  function ItemTexts(items: seq<seq<Ast.Inline>>): (r: seq<string>)
    ensures |r| == |items|
    ensures forall k :: 0 <= k < |r| ==> r[k] == InlineToText(items[k])
  {
    if items == [] then [] else [InlineToText(items[0])] + ItemTexts(items[1..])
  }

  /** The fence line an unfinished code block is shown with. */
  function FencePrefix(language: Option<string>): string
  {
    if language.Some? then "```" + language.value + "\n" else "```\n"
  }

  /**
   * The items of one node in `get_render_result`. A complete block node
   * gives exactly one structured item; an incomplete one gives only raw
   * text, one line per item for a list; raw text stays raw text.
   */
  function RenderNode(node: Ast.MarkdownNode): (r: seq<RenderItem>)
    ensures Ast.NodeState(node) == Ast.Complete ==> |r| == 1 && !r[0].RawText?
    ensures Ast.NodeState(node) == Ast.Incomplete ==> forall k :: 0 <= k < |r| ==> r[k].RawText?
    ensures |r| == (if node.List? && node.state == Ast.Incomplete then |node.items| else 1)
  {
    match node
    case Heading(level, content, _, state) =>
      if state == Ast.Complete then [Heading(level, InlineToText(content))]
      else [RawText(Lex.Repeat('#', level) + " " + InlineToText(content))]
    case Paragraph(content, _, state) =>
      if state == Ast.Complete then [Paragraph(InlineToText(content))]
      else [RawText(InlineToText(content))]
    case List(items, _, state) =>
      if state == Ast.Complete then [List(ItemTexts(items))]
      else RawListLines(items)
    case CodeBlock(language, code, _, state) =>
      if state == Ast.Complete then [CodeBlock(language, code)]
      else [RawText(FencePrefix(language) + code)]
    case RawText(text, _) => [RawText(text)]
  }

  /** `get_render_result` as a value: the items of every node, in order. */
  function RenderAll(nodes: seq<Ast.MarkdownNode>): seq<RenderItem>
  {
    if nodes == [] then [] else RenderNode(nodes[0]) + RenderAll(nodes[1..])
  }

  /** Rendering two runs of nodes is rendering each in turn. */
  lemma {:induction false} RenderAllAppend(a: seq<Ast.MarkdownNode>, b: seq<Ast.MarkdownNode>)
    ensures RenderAll(a + b) == RenderAll(a) + RenderAll(b)
    decreases |a|
  {
    if a == [] {
      assert a + b == b;
    } else {
      assert (a + b)[0] == a[0] && (a + b)[1..] == a[1..] + b;
      RenderAllAppend(a[1..], b);
    }
  }

  /** Nodes that are all complete and no raw text render one structured item each, in order. */
  lemma {:induction false} CompleteNodesRenderStructured(nodes: seq<Ast.MarkdownNode>)
    requires forall k :: 0 <= k < |nodes| ==> Ast.NodeState(nodes[k]) == Ast.Complete
    ensures |RenderAll(nodes)| == |nodes|
    ensures forall k :: 0 <= k < |nodes| ==> RenderAll(nodes)[k] == RenderNode(nodes[k])[0] && !RenderAll(nodes)[k].RawText?
    decreases |nodes|
  {
    if nodes != [] {
      CompleteNodesRenderStructured(nodes[1..]);
      forall k | 0 <= k < |nodes|
        ensures RenderAll(nodes)[k] == RenderNode(nodes[k])[0]
      {
        if k > 0 {
          assert nodes[1..][k - 1] == nodes[k];
        }
      }
    }
  }

  /** Nodes that are all incomplete, raw text included, render only raw text. */
  lemma {:induction false} IncompleteNodesRenderRaw(nodes: seq<Ast.MarkdownNode>)
    requires forall k :: 0 <= k < |nodes| ==> Ast.NodeState(nodes[k]) == Ast.Incomplete
    ensures forall k :: 0 <= k < |RenderAll(nodes)| ==> RenderAll(nodes)[k].RawText?
    decreases |nodes|
  {
    if nodes != [] {
      assert forall m :: 0 <= m < |nodes| - 1 ==> nodes[1..][m] == nodes[m + 1];
      IncompleteNodesRenderRaw(nodes[1..]);
      var head := RenderNode(nodes[0]);
      var tail := RenderAll(nodes[1..]);
      assert RenderAll(nodes) == head + tail;
      assert forall k :: 0 <= k < |head| ==> head[k].RawText?;
    }
  }

  /** An unfinished heading is shown as the `#` markers, a space, and its text. */
  lemma IncompleteHeadingShowsMarkers(node: Ast.MarkdownNode)
    requires node.Heading? && node.state == Ast.Incomplete
    ensures var t := RenderNode(node)[0].text;
      |t| == node.level + 1 + |InlineToText(node.content)|
      && (forall k :: 0 <= k < node.level ==> t[k] == '#')
      && t[node.level] == ' ' && t[node.level + 1..] == InlineToText(node.content)
  {
    var t := RenderNode(node)[0].text;
    assert t == Lex.Repeat('#', node.level) + " " + InlineToText(node.content);
  }

  /** An unfinished code block is shown as its opening fence line followed by the code. */
  lemma IncompleteCodeShowsFence(node: Ast.MarkdownNode)
    requires node.CodeBlock? && node.state == Ast.Incomplete
    ensures var t := RenderNode(node)[0].text;
      t[..3] == "```" && t[|t| - |node.code|..] == node.code
      && t[3..|t| - |node.code|] == (if node.language.Some? then node.language.value + "\n" else "\n")
  {
    var t := RenderNode(node)[0].text;
    var tail := if node.language.Some? then node.language.value + "\n" else "\n";
    assert FencePrefix(node.language) == "```" + tail;
    assert t == "```" + tail + node.code;
  }

  /** A parsed paragraph shows the plain text of the tokens it read, up to its closing line feed. */
  lemma ParagraphRendersTokens(s: Toks<Md.Token>)
    requires s.Valid() && Md.ParagraphAttempt(s).output.Some?
    ensures var j := Md.SkipBlankTexts(s.tokens, s.current);
      var text := Md.PlainText(s.tokens[j..Md.ParaBodyEnd(s.tokens, j, [])]);
      var node := Md.ParagraphAttempt(s).output.value;
      RenderNode(node) == [if node.state == Ast.Complete then Paragraph(text) else RawText(text)]
  {
    var j := Md.SkipBlankTexts(s.tokens, s.current);
    Md.ParaLoopContent(s.tokens, j, []);
    var body := s.tokens[j..Md.ParaBodyEnd(s.tokens, j, [])];
    assert [] + Md.ParaTexts(body) == Md.ParaTexts(body);
    ParaTextsRender(body);
  }

  /** A parsed code block shows the plain text after its fence line: as code once closed, as raw text with the fence line before. */
  lemma CodeBlockRendersTokens(s: Toks<Md.Token>)
    requires s.Valid() && Md.CodeBlockAttempt(s).output.Some?
    ensures var b := Md.FenceInfo(s.tokens, s.current + 1).1 + 1;
      var code := Md.PlainText(s.tokens[b..Md.FirstAt(s.tokens, b, Md.EndsCode)]);
      var node := Md.CodeBlockAttempt(s).output.value;
      RenderNode(node) == [if node.state == Ast.Complete then CodeBlock(node.language, code)
                           else RawText(FencePrefix(node.language) + code)]
  {
    Md.CodeBlockContent(s);
  }

  /** The body of the loop in `get_render_result`: push the items of one node. */
  method PushNode(items: seq<RenderItem>, node: Ast.MarkdownNode) returns (pushed: seq<RenderItem>)
    ensures pushed == items + RenderNode(node)
  {
    match node {
      case Heading(level, content, _, state) =>
        if state == Ast.Complete {
          pushed := items + [Heading(level, InlineToText(content))];
        } else {
          pushed := items + [RawText(Lex.Repeat('#', level) + " " + InlineToText(content))];
        }
      case Paragraph(content, _, state) =>
        if state == Ast.Complete {
          pushed := items + [Paragraph(InlineToText(content))];
        } else {
          pushed := items + [RawText(InlineToText(content))];
        }
      case List(listItems, _, state) =>
        if state == Ast.Complete {
          pushed := items + [List(ItemTexts(listItems))];
        } else {
          pushed := PushRawListLines(items, listItems);
        }
      case CodeBlock(language, code, _, state) =>
        if state == Ast.Complete {
          pushed := items + [CodeBlock(language, code)];
        } else {
          pushed := items + [RawText(FencePrefix(language) + code)];
        }
      case RawText(text, _) =>
        pushed := items + [RawText(text)];
    }
  }

  /** The inner loop for an unfinished list: one raw line per item. */
  method PushRawListLines(items: seq<RenderItem>, listItems: seq<seq<Ast.Inline>>) returns (pushed: seq<RenderItem>)
    ensures pushed == items + RawListLines(listItems)
  {
    pushed := items;
    for j := 0 to |listItems|
      invariant |pushed| == |items| + j && pushed[..|items|] == items
      invariant forall k :: 0 <= k < j ==> pushed[|items| + k] == RawText("- " + InlineToText(listItems[k]))
    {
      ghost var before := pushed;
      pushed := pushed + [RawText("- " + InlineToText(listItems[j]))];
      assert forall k :: 0 <= k < |before| ==> pushed[k] == before[k];
    }
    assert pushed == items + RawListLines(listItems);
  }

  // ---------------------------------------------------------------------
  // The renderer

  /** `MarkdownRenderer::parse` as a value: lex with the Markdown rules, then parse the tokens with the block rules. */
  ghost function ParseSpec(input: string): seq<Ast.MarkdownNode>
  {
    Lex.MarkdownRulesConfined(Lex.MarkdownRules);
    Md.BlockRulesConfined(Md.BlockRules);
    Pipelines.BatchSpec(Lex.MarkdownGrammar(), Lex.MarkdownRules, Md.BlockGrammar(), Md.BlockRules, input)
  }

  class MarkdownRenderer {
    /** The nodes of the last parse, if there was one. */
    var cachedNodes: Option<seq<Ast.MarkdownNode>>

    /** `MarkdownRenderer::new` (and `Default`): nothing cached yet. */
    constructor ()
      ensures cachedNodes == None
    {
      cachedNodes := None;
    }

    /** `MarkdownRenderer::parse`: the nodes of `input`, also kept as the cached result. */
    method Parse(input: string) returns (nodes: seq<Ast.MarkdownNode>)
      modifies this
      ensures nodes == ParseSpec(input)
      ensures cachedNodes == Some(nodes)
    {
      Lex.MarkdownRulesConfined(Lex.MarkdownRules);
      Md.BlockRulesConfined(Md.BlockRules);
      nodes := Pipelines.BatchRun(input, Lex.MarkdownGrammar(), Lex.MarkdownRules, Md.BlockGrammar(), Md.BlockRules);
      cachedNodes := Some(nodes);
    }

    /** `MarkdownRenderer::get_render_result`: the render items of every node, in order. */
    method GetRenderResult(nodes: seq<Ast.MarkdownNode>) returns (result: RenderResult)
      ensures result.items == RenderAll(nodes)
    {
      var items: seq<RenderItem> := [];
      for i := 0 to |nodes|
        invariant items == RenderAll(nodes[..i])
      {
        items := PushNode(items, nodes[i]);
        RenderAllAppend(nodes[..i], [nodes[i]]);
        assert nodes[..i + 1] == nodes[..i] + [nodes[i]];
        assert RenderAll([nodes[i]]) == RenderNode(nodes[i]) + RenderAll([]);
      }
      assert nodes[..|nodes|] == nodes;
      result := RenderResult(items);
    }
  }
}
