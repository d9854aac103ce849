/**
 * The Pratt configuration of the batch parser benchmark: numbers,
 * variables, calls with at most one argument and parenthesised groups as
 * prefixes, and the same four left-associative operators as the pipeline
 * benchmark.
 */
module BatchExample {
  import opened Common
  import Pratt

  datatype BenchToken = Number(n: int) | Identifier(name: string) | Plus | Minus | Star | Slash | LParen | RParen | Eof

  datatype BenchAst = Num(n: int) | Var(name: string) | Binary(left: BenchAst, op: char, right: BenchAst) | Call(callee: string, args: seq<BenchAst>)

  /** `infix_op`: additive (10, 11) and multiplicative (20, 21). */
  function InfixPower(t: BenchToken): (bp: Option<(nat, nat)>)
    ensures bp.Some? <==> t in {Plus, Minus, Star, Slash}
    ensures bp.Some? ==> bp.value.0 < bp.value.1
  {
    match t
    case Plus => Some((10, 11))
    case Minus => Some((10, 11))
    case Star => Some((20, 21))
    case Slash => Some((20, 21))
    case _ => None
  }

  /**
   * `parse_prefix`: a number is an atom; an identifier is a call when `(`
   * follows it, keeping the argument only when its parse succeeds, and a
   * variable otherwise; `(` opens a group; anything else fails.
   */
  function PrefixOf(t: BenchToken): (p: Pratt.Prefix<BenchToken, BenchAst>)
    ensures p.Atom? <==> t.Number?
    ensures p.Call? <==> t.Identifier?
    ensures p.Group? <==> t == LParen
  {
    match t
    case Number(n) => Pratt.Atom(Num(n))
    case Identifier(name) =>
      Pratt.Call((u: BenchToken) => u == LParen, (u: BenchToken) => u == RParen,
        (arg: Option<BenchAst>) => Call(name, if arg.Some? then [arg.value] else []), Var(name))
    case LParen => Pratt.Group((u: BenchToken) => u == RParen)
    case _ => Pratt.NoPrefix
  }

  /** `parse_infix`: the four operators parse their right operand and build a node; any other token fails. */
  function InfixOf(t: BenchToken): (i: Pratt.Infix<BenchAst>)
    ensures i.RightOperand? <==> InfixPower(t).Some?
  {
    match t
    case Plus => Pratt.RightOperand((l: BenchAst, r: BenchAst) => Some(Binary(l, '+', r)))
    case Minus => Pratt.RightOperand((l: BenchAst, r: BenchAst) => Some(Binary(l, '-', r)))
    case Star => Pratt.RightOperand((l: BenchAst, r: BenchAst) => Some(Binary(l, '*', r)))
    case Slash => Pratt.RightOperand((l: BenchAst, r: BenchAst) => Some(Binary(l, '/', r)))
    case _ => Pratt.InfixFails
  }

  function BenchConfig(): Pratt.PrattConfig<BenchToken, BenchAst>
  {
    Pratt.PrattConfig(InfixPower, PrefixOf, InfixOf)
  }

  /** `f(1)` is a call with the one argument, and consumes all four tokens. */
  lemma CallWithArgument(f: string)
    ensures Pratt.Parse(BenchConfig(), [Identifier(f), LParen, Number(1), RParen], 0, 0) == (Some(Call(f, [Num(1)])), 4)
  {
    var c := BenchConfig();
    var toks := [Identifier(f), LParen, Number(1), RParen];
    assert Pratt.StopsAt(c, toks, 3, 0);
    assert Pratt.Operators(c, toks, 3, Num(1), 0) == (Some(Num(1)), 3);
    assert Pratt.Parse(c, toks, 2, 0) == (Some(Num(1)), 3);
    assert Pratt.PrefixPart(c, toks, 1, Identifier(f)) == (Some(Call(f, [Num(1)])), 4);
  }

  /**
   * `f()` does not parse: the argument parse consumes the `)` as the
   * first token of an expression and fails, so no `)` is left to close
   * the call.
   */
  lemma EmptyCallFails(f: string)
    ensures Pratt.Parse(BenchConfig(), [Identifier(f), LParen, RParen], 0, 0) == (None, 3)
  {
    var c := BenchConfig();
    var toks := [Identifier(f), LParen, RParen];
    assert Pratt.Parse(c, toks, 2, 0) == (None, 3);
    assert Pratt.PrefixPart(c, toks, 1, Identifier(f)) == (None, 3);
  }

  /** A failed argument that leaves the `)` in place still gives a call, with no argument: `f(+)`. */
  lemma CallWithoutArgument(f: string)
    ensures Pratt.Parse(BenchConfig(), [Identifier(f), LParen, Plus, RParen], 0, 0) == (Some(Call(f, [])), 4)
  {
    Pratt.CallKeepsFailedArgument(BenchConfig(), Identifier(f), LParen, Plus, RParen);
  }

  /** An identifier with no `(` after it is a variable: `x + 1` adds the variable and the number. */
  lemma VariablePlusNumber(x: string)
    ensures Pratt.Parse(BenchConfig(), [Identifier(x), Plus, Number(1)], 0, 0) == (Some(Binary(Var(x), '+', Num(1))), 3)
  {
    var c := BenchConfig();
    var toks := [Identifier(x), Plus, Number(1)];
    assert Pratt.PrefixPart(c, toks, 1, Identifier(x)) == (Some(Var(x)), 1);
    assert Pratt.Operators(c, toks, 3, Num(1), 11) == (Some(Num(1)), 3);
    assert Pratt.Parse(c, toks, 2, 11) == (Some(Num(1)), 3);
    assert Pratt.InfixPart(c, toks, 2, Var(x), Plus, 11) == (Some(Binary(Var(x), '+', Num(1))), 3);
    assert Pratt.Operators(c, toks, 3, Binary(Var(x), '+', Num(1)), 0) == (Some(Binary(Var(x), '+', Num(1))), 3);
  }
}
