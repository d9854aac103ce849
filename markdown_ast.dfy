/**
 * The Markdown renderer's syntax tree. Every block node except raw text
 * carries a content state: `Complete` once its syntax is closed,
 * `Incomplete` while the user is still typing it. Raw text is the
 * fallback for content no block rule took, and is always incomplete.
 */
module MarkdownAst {
  import opened Common

  datatype ContentState = Incomplete | Complete

  /** Inline elements of a block. */
  datatype Inline =
    | Text(text: string)
    | Bold(text: string)
    | Italic(text: string)
    | Code(text: string)
    | Link(text: string, url: string)

  datatype MarkdownNode =
    | Heading(level: nat, content: seq<Inline>, position: Position, state: ContentState)
    | Paragraph(content: seq<Inline>, position: Position, state: ContentState)
    | List(items: seq<seq<Inline>>, position: Position, state: ContentState)
    | CodeBlock(language: Option<string>, code: string, position: Position, state: ContentState)
    | RawText(text: string, position: Position)

  /** `AstNode::position`: every node has one, the one it was built with. */
  function NodePosition(node: MarkdownNode): (p: Option<Position>)
    ensures p.Some? && p.value == node.position
  {
    match node
    case Heading(_, _, position, _) => Some(position)
    case Paragraph(_, position, _) => Some(position)
    case List(_, position, _) => Some(position)
    case CodeBlock(_, _, position, _) => Some(position)
    case RawText(_, position) => Some(position)
  }

  /** `StatefulNode::state`: the stored state; raw text has none and is always incomplete. */
  function NodeState(node: MarkdownNode): (st: ContentState)
    ensures node.RawText? ==> st == Incomplete
    ensures !node.RawText? ==> st == node.state
  {
    match node
    case Heading(_, _, _, state) => state
    case Paragraph(_, _, state) => state
    case List(_, _, state) => state
    case CodeBlock(_, _, _, state) => state
    case RawText(_, _) => Incomplete
  }

  /**
   * `StatefulNode::set_state`: the node with its state replaced; raw text
   * ignores the request.
   */
  function SetState(node: MarkdownNode, st: ContentState): (r: MarkdownNode)
    ensures node.RawText? ==> r == node
    ensures !node.RawText? ==> r == node.(state := st)
  {
    match node
    case Heading(level, content, position, _) => Heading(level, content, position, st)
    case Paragraph(content, position, _) => Paragraph(content, position, st)
    case List(items, position, _) => List(items, position, st)
    case CodeBlock(language, code, position, _) => CodeBlock(language, code, position, st)
    case RawText(_, _) => node
  }

  /** `StatefulNode::transition`: this node type reacts to no trigger; it reports no change and stays as it is. */
  function Transition<Trigger>(node: MarkdownNode, trigger: Trigger): (r: (bool, MarkdownNode))
    ensures !r.0 && r.1 == node
  {
    (false, node)
  }

  /**
   * Setting a state and reading it back: a block node reports the state
   * it was given; raw text reports `Incomplete` whatever it was given.
   * The kind of node and its position never change.
   */
  lemma SetThenGet(node: MarkdownNode, st: ContentState)
    ensures NodeState(SetState(node, st)) == (if node.RawText? then Incomplete else st)
    ensures NodePosition(SetState(node, st)) == NodePosition(node)
    ensures SetState(node, st).RawText? == node.RawText?
  {
  }

  /** Setting a state twice is setting the second one; setting the state a node has changes nothing. */
  lemma SetStateLastWins(node: MarkdownNode, first: ContentState, second: ContentState)
    ensures SetState(SetState(node, first), second) == SetState(node, second)
    ensures SetState(node, NodeState(node)) == node
  {
  }
}
