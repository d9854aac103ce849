/**
 * The arithmetic Pratt configuration of the pipeline benchmark: numbers
 * and parenthesised groups as prefixes, `+`/`-` binding at (10, 11) and
 * `*`/`/` at (20, 21), and the rule that parses one expression with
 * floor 0.
 */
module PrattExample {
  import opened Common
  import opened RuleEngine
  import opened ParseContexts
  import opened Parsers
  import opened Pratt

  datatype Token = Number(n: int) | Plus | Minus | Star | Slash | LParen | RParen | Whitespace

  datatype Ast = Num(n: int) | Binary(left: Ast, op: char, right: Ast)

  /** `infix_op`: additive operators bind less tightly than multiplicative ones; both associate to the left. */
  function InfixPower(t: Token): (bp: Option<(nat, nat)>)
    ensures bp.Some? <==> t in {Plus, Minus, Star, Slash}
    ensures bp.Some? ==> bp.value.0 < bp.value.1
    ensures (t == Plus || t == Minus) ==> bp == Some((10, 11))
    ensures (t == Star || t == Slash) ==> bp == Some((20, 21))
  {
    match t
    case Plus => Some((10, 11))
    case Minus => Some((10, 11))
    case Star => Some((20, 21))
    case Slash => Some((20, 21))
    case _ => None
  }

  /** The operator char `parse_infix` records. */
  function OpChar(t: Token): char
  {
    match t
    case Plus => '+'
    case Minus => '-'
    case Star => '*'
    case Slash => '/'
    case _ => '?'
  }

  /** `parse_prefix`: a number is an atom, `(` opens a group closed by `)`, anything else fails. */
  function PrefixOf(t: Token): (p: Prefix<Token, Ast>)
    ensures p.Atom? <==> t.Number?
    ensures p.Group? <==> t == LParen
  {
    match t
    case Number(n) => Atom(Num(n))
    case LParen => Group((u: Token) => u == RParen)
    case _ => NoPrefix
  }

  /** `parse_infix`: the four operators parse their right operand and build a node; any other token fails. */
  function InfixOf(t: Token): (i: Infix<Ast>)
    ensures i.RightOperand? <==> InfixPower(t).Some?
  {
    match t
    case Plus | Minus | Star | Slash => RightOperand((l: Ast, r: Ast) => Some(Binary(l, OpChar(t), r)))
    case _ => InfixFails
  }

  function ExprConfig(): PrattConfig<Token, Ast>
  {
    PrattConfig(InfixPower, PrefixOf, InfixOf)
  }

  /** Every operator's `parse_infix` parses the right operand and always builds the node. */
  lemma OperatorBuilds(t: Token)
    requires InfixPower(t).Some?
    ensures ExprConfig().infix(t).RightOperand?
    ensures forall l, r :: ExprConfig().infix(t).build(l, r) == Some(Binary(l, OpChar(t), r))
  {
  }

  /** "1-2-3" groups to the left. */
  lemma SubtractionAssociatesLeft()
    ensures Parse(ExprConfig(), [Number(1), Minus, Number(2), Minus, Number(3)], 0, 0)
      == (Some(Binary(Binary(Num(1), '-', Num(2)), '-', Num(3))), 5)
  {
    OperatorBuilds(Minus);
    OperatorBuilds(Minus);
    ThreeOperands(ExprConfig(), Number(1), Minus, Number(2), Minus, Number(3));
  }

  /** "1+2*3" multiplies first. */
  lemma ProductBindsTighter()
    ensures Parse(ExprConfig(), [Number(1), Plus, Number(2), Star, Number(3)], 0, 0)
      == (Some(Binary(Num(1), '+', Binary(Num(2), '*', Num(3)))), 5)
  {
    OperatorBuilds(Plus);
    OperatorBuilds(Star);
    ThreeOperands(ExprConfig(), Number(1), Plus, Number(2), Star, Number(3));
  }

  /** "1*2+3" multiplies first too. */
  lemma ProductBeforeSum()
    ensures Parse(ExprConfig(), [Number(1), Star, Number(2), Plus, Number(3)], 0, 0)
      == (Some(Binary(Binary(Num(1), '*', Num(2)), '+', Num(3))), 5)
  {
    OperatorBuilds(Star);
    OperatorBuilds(Plus);
    ThreeOperands(ExprConfig(), Number(1), Star, Number(2), Plus, Number(3));
  }

  /** A parse failure consumes the token it failed on and no more: `")"` alone leaves the cursor after it. */
  lemma NoPrefixFails(t: Token, rest: seq<Token>)
    requires !t.Number? && t != LParen
    ensures Parse(ExprConfig(), [t] + rest, 0, 0) == (None, 1)
  {
  }

  /** A group with no closing parenthesis fails: "(1" leaves the cursor at the end. */
  lemma UnclosedGroupFails()
    ensures Parse(ExprConfig(), [LParen, Number(1)], 0, 0) == (None, 2)
  {
    var toks := [LParen, Number(1)];
    assert Operators(ExprConfig(), toks, 2, Num(1), 0) == (Some(Num(1)), 2);
    assert Parse(ExprConfig(), toks, 1, 0) == (Some(Num(1)), 2);
    assert PrefixPart(ExprConfig(), toks, 1, LParen) == (None, 2);
  }

  /** The expression rule: `parse_pratt(ctx, config, 0)`. */
  function ExprAttempt(s: Toks<Token>): (a: Attempt<Ast, Toks<Token>>)
    requires s.Valid()
    ensures Follows(s, a.after)
    ensures a.output.Some? ==> s.current < a.after.current
  {
    var r := Parse(ExprConfig(), s.tokens, s.current, 0);
    Attempt(r.0, s.(current := r.1))
  }

  /** `quick_check`: `Some(true)` exactly on a number or `(`, `Some(false)` otherwise, end of input included. */
  function ExprQuickCheck(t: Option<Token>): (verdict: Option<bool>)
    ensures verdict.Some?
    ensures verdict.value <==> t.Some? && (t.value.Number? || t.value == LParen)
  {
    Some(t.Some? && (t.value.Number? || t.value == LParen))
  }

  /** The quick check never rules out a parse that would succeed. */
  lemma ExprQuickCheckSound(s: Toks<Token>)
    requires s.Valid() && ExprQuickCheck(PeekTok(s)) == Some(false)
    ensures ExprAttempt(s).output.None?
  {
    if s.current < |s.tokens| {
      assert PrefixOf(s.tokens[s.current]).NoPrefix?;
      assert PrefixPart(ExprConfig(), s.tokens, s.current + 1, s.tokens[s.current]).0.None?;
    }
  }
}
