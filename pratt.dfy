/**
 * `parse_pratt`: binding-power (Pratt) expression parsing over a token
 * context. The first token is consumed unconditionally and handed to the
 * configuration's prefix parser; then, while the next token is an infix
 * operator whose left binding power reaches the floor `minBp`, the
 * operator is consumed and handed to the configuration's infix parser
 * with the operator's right binding power. Failure anywhere makes the
 * whole call fail, with no restore.
 *
 * A configuration is a value of `PrattConfig`. Its prefix parser, chosen
 * by the consumed token, rejects it, turns it into an atom, opens a group
 * (an expression with floor 0 and a closing token after it), applies a
 * unary operator to an operand parsed at its own binding power, or reads
 * a call whose argument is optional. Its infix parser, chosen by the
 * operator token, fails, applies a postfix operator, or parses the right
 * operand and builds a node; building may fail too. `prefix_op` is never
 * consulted by the loop, so it is not part of the configuration.
 */
module Pratt {
  import opened Common
  import opened ParseContexts

  /** What `parse_prefix` does with the consumed first token. */
  datatype Prefix<!Tok, !Ast> =
    | NoPrefix
    | Atom(node: Ast)
    | Group(close: Tok -> bool)
    | Unary(bp: nat, apply: Ast -> Option<Ast>)
    | Call(open: Tok -> bool, close: Tok -> bool, call: Option<Ast> -> Ast, alone: Ast)

  /** What `parse_infix` does with the consumed operator token and the left operand. */
  datatype Infix<!Ast> =
    | InfixFails
    | Postfix(apply: Ast -> Option<Ast>)
    | RightOperand(build: (Ast, Ast) -> Option<Ast>)

  datatype PrattConfig<!Tok, !Ast> = PrattConfig(
    infixOp: Tok -> Option<(nat, nat)>,
    prefix: Tok -> Prefix<Tok, Ast>,
    infix: Tok -> Infix<Ast>)

  /** Where the operator loop stops: the end, a token that is no infix operator, or one binding less than the floor. */
  predicate StopsAt<Tok, Ast>(c: PrattConfig<Tok, Ast>, toks: seq<Tok>, j: nat, minBp: nat)
    requires j <= |toks|
  {
    j == |toks| || c.infixOp(toks[j]).None? || c.infixOp(toks[j]).value.0 < minBp
  }

  /**
   * `parse_pratt(ctx, config, minBp)` with the cursor at `i`: the node and
   * the index the cursor is left at.
   */
  function Parse<Tok, Ast>(c: PrattConfig<Tok, Ast>, toks: seq<Tok>, i: nat, minBp: nat): (r: (Option<Ast>, nat))
    requires i <= |toks|
    ensures i <= r.1 <= |toks|
    ensures r.0.Some? ==> i < r.1 && StopsAt(c, toks, r.1, minBp)
    decreases |toks| - i, 2
  {
    if i == |toks| then (None, i)
    else
      var first := PrefixPart(c, toks, i + 1, toks[i]);
      if first.0.None? then (None, first.1)
      else Operators(c, toks, first.1, first.0.value, minBp)
  }

  /** `parse_prefix` of the consumed token `token`, with the cursor at `j`. */
  function PrefixPart<Tok, Ast>(c: PrattConfig<Tok, Ast>, toks: seq<Tok>, j: nat, token: Tok): (r: (Option<Ast>, nat))
    requires j <= |toks|
    ensures j <= r.1 <= |toks|
    ensures c.prefix(token).NoPrefix? || c.prefix(token).Atom? ==> r.1 == j && (r.0.Some? <==> c.prefix(token).Atom?)
    ensures c.prefix(token).Unary? && r.0.Some? ==> j < r.1
    ensures c.prefix(token).Group? && r.0.Some? ==> j + 2 <= r.1 && c.prefix(token).close(toks[r.1 - 1])
    ensures c.prefix(token).Call? && r.1 != j ==> c.prefix(token).open(toks[j])
    ensures c.prefix(token).Call? && r.0.Some? && r.1 != j ==> j + 2 <= r.1 && c.prefix(token).close(toks[r.1 - 1])
    decreases |toks| - j + 1, 0
  {
    match c.prefix(token)
    case NoPrefix => (None, j)
    case Atom(node) => (Some(node), j)
    case Group(close) =>
      var inner := Parse(c, toks, j, 0);
      if inner.0.Some? && inner.1 < |toks| && close(toks[inner.1]) then (inner.0, inner.1 + 1)
      else (None, inner.1)
    case Unary(bp, apply) =>
      var operand := Parse(c, toks, j, bp);
      if operand.0.None? then (None, operand.1) else (apply(operand.0.value), operand.1)
    case Call(open, close, call, alone) =>
      if j < |toks| && open(toks[j]) then
        var arg := Parse(c, toks, j + 1, 0);
        if arg.1 < |toks| && close(toks[arg.1]) then (Some(call(arg.0)), arg.1 + 1)
        else (None, arg.1)
      else (Some(alone), j)
  }

  /** `parse_infix` of the consumed operator `op` with right binding power `rbp`, the cursor at `j`. */
  function InfixPart<Tok, Ast>(c: PrattConfig<Tok, Ast>, toks: seq<Tok>, j: nat, left: Ast, op: Tok, rbp: nat): (r: (Option<Ast>, nat))
    requires j <= |toks|
    ensures j <= r.1 <= |toks|
    ensures c.infix(op).InfixFails? ==> r == (None, j)
    ensures c.infix(op).Postfix? ==> r.1 == j
    ensures c.infix(op).RightOperand? && r.0.Some? ==> j < r.1
    decreases |toks| - j + 1, 0
  {
    match c.infix(op)
    case InfixFails => (None, j)
    case Postfix(apply) => (apply(left), j)
    case RightOperand(build) =>
      var right := Parse(c, toks, j, rbp);
      if right.0.None? then (None, right.1) else (build(left, right.0.value), right.1)
  }

  /** The operator loop from index `j` with `left` parsed so far. */
  function Operators<Tok, Ast>(c: PrattConfig<Tok, Ast>, toks: seq<Tok>, j: nat, left: Ast, minBp: nat): (r: (Option<Ast>, nat))
    requires j <= |toks|
    ensures j <= r.1 <= |toks|
    ensures r.0.Some? ==> StopsAt(c, toks, r.1, minBp)
    decreases |toks| - j, 1
  {
    if StopsAt(c, toks, j, minBp) then (Some(left), j)
    else
      var next := InfixPart(c, toks, j + 1, left, toks[j], c.infixOp(toks[j]).value.1);
      if next.0.None? then (None, next.1)
      else Operators(c, toks, next.1, next.0.value, minBp)
  }

  /**
   * Binding powers decide the shape: in `a op1 b op2 d`, the second
   * operator takes `b` away from the first exactly when its left binding
   * power reaches the first operator's right binding power. With the
   * left power below the right one, an operator is left-associative.
   * Both operators parse a right operand and always build a node.
   */
  lemma ThreeOperands<Tok, Ast(!new)>(c: PrattConfig<Tok, Ast>, a: Tok, op1: Tok, b: Tok, op2: Tok, d: Tok)
    requires c.prefix(a).Atom? && c.prefix(b).Atom? && c.prefix(d).Atom?
    requires c.infixOp(op1).Some? && c.infixOp(op2).Some?
    requires c.infix(op1).RightOperand? && c.infix(op2).RightOperand?
    requires forall l, r :: c.infix(op1).build(l, r).Some?
    requires forall l, r :: c.infix(op2).build(l, r).Some?
    ensures var (x, y, z) := (c.prefix(a).node, c.prefix(b).node, c.prefix(d).node);
      var r := Parse(c, [a, op1, b, op2, d], 0, 0);
      r.1 == 5 && r.0.Some?
      && (c.infixOp(op2).value.0 < c.infixOp(op1).value.1 ==>
        r.0.value == c.infix(op2).build(c.infix(op1).build(x, y).value, z).value)
      && (c.infixOp(op2).value.0 >= c.infixOp(op1).value.1 ==>
        r.0.value == c.infix(op1).build(x, c.infix(op2).build(y, z).value).value)
  {
    var toks := [a, op1, b, op2, d];
    var (x, y, z) := (c.prefix(a).node, c.prefix(b).node, c.prefix(d).node);
    var (l1, r1) := c.infixOp(op1).value;
    var (l2, r2) := c.infixOp(op2).value;
    assert !StopsAt(c, toks, 1, 0) && !StopsAt(c, toks, 3, 0) && StopsAt(c, toks, 5, 0);
    assert Operators(c, toks, 5, z, r2) == (Some(z), 5);
    assert Parse(c, toks, 4, r2) == (Some(z), 5);
    if l2 < r1 {
      assert StopsAt(c, toks, 3, r1);
      assert Operators(c, toks, 3, y, r1) == (Some(y), 3);
      assert Parse(c, toks, 2, r1) == (Some(y), 3);
      var xy := c.infix(op1).build(x, y).value;
      assert InfixPart(c, toks, 2, x, op1, r1) == (Some(xy), 3);
      var xyz := c.infix(op2).build(xy, z).value;
      assert InfixPart(c, toks, 4, xy, op2, r2) == (Some(xyz), 5);
      assert Operators(c, toks, 5, xyz, 0) == (Some(xyz), 5);
      assert Operators(c, toks, 3, xy, 0) == (Some(xyz), 5);
      assert Operators(c, toks, 1, x, 0) == (Some(xyz), 5);
    } else {
      assert !StopsAt(c, toks, 3, r1) && StopsAt(c, toks, 5, r1);
      var yz := c.infix(op2).build(y, z).value;
      assert InfixPart(c, toks, 4, y, op2, r2) == (Some(yz), 5);
      assert Operators(c, toks, 5, yz, r1) == (Some(yz), 5);
      assert Operators(c, toks, 3, y, r1) == (Some(yz), 5);
      assert Parse(c, toks, 2, r1) == (Some(yz), 5);
      var xyz := c.infix(op1).build(x, yz).value;
      assert InfixPart(c, toks, 2, x, op1, r1) == (Some(xyz), 5);
      assert Operators(c, toks, 5, xyz, 0) == (Some(xyz), 5);
      assert Operators(c, toks, 1, x, 0) == (Some(xyz), 5);
    }
    assert Parse(c, toks, 0, 0) == Operators(c, toks, 1, x, 0);
  }

  /**
   * A unary prefix parses its operand at its own binding power: in
   * `u a op b` it applies to `a` alone when `op` binds less on the left
   * than the prefix's power, and to `a op b` otherwise.
   */
  lemma UnaryOperand<Tok, Ast(!new)>(c: PrattConfig<Tok, Ast>, u: Tok, a: Tok, op: Tok, b: Tok)
    requires c.prefix(u).Unary? && forall e :: c.prefix(u).apply(e).Some?
    requires c.prefix(a).Atom? && c.prefix(b).Atom?
    requires c.infixOp(op).Some? && c.infix(op).RightOperand?
    requires forall l, r :: c.infix(op).build(l, r).Some?
    ensures var (x, y) := (c.prefix(a).node, c.prefix(b).node);
      var r := Parse(c, [u, a, op, b], 0, 0);
      r.1 == 4 && r.0.Some?
      && (c.infixOp(op).value.0 < c.prefix(u).bp ==>
        r.0.value == c.infix(op).build(c.prefix(u).apply(x).value, y).value)
      && (c.infixOp(op).value.0 >= c.prefix(u).bp ==>
        r.0.value == c.prefix(u).apply(c.infix(op).build(x, y).value).value)
  {
    var toks := [u, a, op, b];
    var (x, y) := (c.prefix(a).node, c.prefix(b).node);
    var bp := c.prefix(u).bp;
    var (lp, rp) := c.infixOp(op).value;
    assert StopsAt(c, toks, 4, rp) && !StopsAt(c, toks, 2, 0);
    assert Operators(c, toks, 4, y, rp) == (Some(y), 4);
    assert Parse(c, toks, 3, rp) == (Some(y), 4);
    var prefixed: Ast;
    if lp < bp {
      assert StopsAt(c, toks, 2, bp);
      assert Operators(c, toks, 2, x, bp) == (Some(x), 2);
      assert Parse(c, toks, 1, bp) == (Some(x), 2);
      prefixed := c.prefix(u).apply(x).value;
      assert PrefixPart(c, toks, 1, u) == (Some(prefixed), 2);
      var whole := c.infix(op).build(prefixed, y).value;
      assert InfixPart(c, toks, 3, prefixed, op, rp) == (Some(whole), 4);
      assert Operators(c, toks, 4, whole, 0) == (Some(whole), 4);
      assert Operators(c, toks, 2, prefixed, 0) == (Some(whole), 4);
    } else {
      assert !StopsAt(c, toks, 2, bp);
      var xy := c.infix(op).build(x, y).value;
      assert InfixPart(c, toks, 3, x, op, rp) == (Some(xy), 4);
      assert Operators(c, toks, 4, xy, bp) == (Some(xy), 4);
      assert Operators(c, toks, 2, x, bp) == (Some(xy), 4);
      assert Parse(c, toks, 1, bp) == (Some(xy), 4);
      prefixed := c.prefix(u).apply(xy).value;
      assert PrefixPart(c, toks, 1, u) == (Some(prefixed), 4);
      assert Operators(c, toks, 4, prefixed, 0) == (Some(prefixed), 4);
    }
    assert Parse(c, toks, 0, 0) == Operators(c, toks, PrefixPart(c, toks, 1, u).1, prefixed, 0);
  }

  /**
   * A call's argument is optional: in `f ( t )` where `t` starts no
   * expression, the failed argument parse consumes `t`, and the call is
   * still built, with no argument.
   */
  lemma CallKeepsFailedArgument<Tok, Ast>(c: PrattConfig<Tok, Ast>, f: Tok, o: Tok, t: Tok, cl: Tok)
    requires c.prefix(f).Call? && c.prefix(f).open(o) && c.prefix(f).close(cl)
    requires c.prefix(t).NoPrefix? && c.infixOp(cl).None?
    ensures Parse(c, [f, o, t, cl], 0, 0) == (Some(c.prefix(f).call(None)), 4)
  {
    var toks := [f, o, t, cl];
    assert PrefixPart(c, toks, 3, t) == (None, 3);
    assert Parse(c, toks, 2, 0) == (None, 3);
    assert PrefixPart(c, toks, 1, f) == (Some(c.prefix(f).call(None)), 4);
  }

  /** Without the opening token after it, a call prefix is the plain atom and consumes nothing more. */
  lemma CallAlone<Tok, Ast>(c: PrattConfig<Tok, Ast>, f: Tok, rest: seq<Tok>)
    requires c.prefix(f).Call?
    requires rest == [] || (!c.prefix(f).open(rest[0]) && c.infixOp(rest[0]).None?)
    ensures Parse(c, [f] + rest, 0, 0) == (Some(c.prefix(f).alone), 1)
  {
    var toks := [f] + rest;
    assert toks[0] == f && (rest != [] ==> toks[1] == rest[0]);
    assert PrefixPart(c, toks, 1, f) == (Some(c.prefix(f).alone), 1);
  }

  /**
   * `parse_pratt` over a token context: the same node as `Parse` and the
   * cursor left where `Parse` says. The tokens and the end-of-input flag
   * are untouched.
   */
  method ParsePratt<Tok, Ast>(ctx: TokenContext<Tok>, c: PrattConfig<Tok, Ast>, minBp: nat) returns (r: Option<Ast>)
    requires ctx.Valid()
    modifies ctx
    ensures ctx.Valid() && ctx.tokens == old(ctx.tokens) && ctx.finished == old(ctx.finished)
    ensures r == Parse(c, ctx.tokens, old(ctx.current), minBp).0
    ensures ctx.current == Parse(c, ctx.tokens, old(ctx.current), minBp).1
    decreases |ctx.tokens| - ctx.current, 2
  {
    var first := ctx.Peek();
    if first.None? {
      return None;
    }
    var _ := ctx.Advance();
    var left := ParsePrefix(ctx, c, first.value);
    if left.None? {
      return None;
    }
    r := OperatorLoop(ctx, c, left.value, minBp);
  }

  /** The configuration's `parse_prefix`, handed the recursion. */
  method ParsePrefix<Tok, Ast>(ctx: TokenContext<Tok>, c: PrattConfig<Tok, Ast>, token: Tok) returns (r: Option<Ast>)
    requires ctx.Valid()
    modifies ctx
    ensures ctx.Valid() && ctx.tokens == old(ctx.tokens) && ctx.finished == old(ctx.finished)
    ensures r == PrefixPart(c, ctx.tokens, old(ctx.current), token).0
    ensures ctx.current == PrefixPart(c, ctx.tokens, old(ctx.current), token).1
    decreases |ctx.tokens| - ctx.current + 1, 0
  {
    match c.prefix(token) {
      case NoPrefix =>
        r := None;
      case Atom(node) =>
        r := Some(node);
      case Group(close) =>
        var inner := ParsePratt(ctx, c, 0);
        if inner.None? {
          return None;
        }
        var closing := ctx.Peek();
        if closing.None? || !close(closing.value) {
          return None;
        }
        var _ := ctx.Advance();
        r := inner;
      case Unary(bp, apply) =>
        var operand := ParsePratt(ctx, c, bp);
        if operand.None? {
          return None;
        }
        r := apply(operand.value);
      case Call(open, close, call, alone) =>
        var next := ctx.Peek();
        if next.None? || !open(next.value) {
          return Some(alone);
        }
        var _ := ctx.Advance();
        var arg := ParsePratt(ctx, c, 0);
        var closing := ctx.Peek();
        if closing.None? || !close(closing.value) {
          return None;
        }
        var _ := ctx.Advance();
        r := Some(call(arg));
    }
  }

  /** The configuration's `parse_infix`, handed the consumed operator, its right binding power and the recursion. */
  method ParseInfix<Tok, Ast>(ctx: TokenContext<Tok>, c: PrattConfig<Tok, Ast>, left: Ast, op: Tok, rbp: nat) returns (r: Option<Ast>)
    requires ctx.Valid()
    modifies ctx
    ensures ctx.Valid() && ctx.tokens == old(ctx.tokens) && ctx.finished == old(ctx.finished)
    ensures r == InfixPart(c, ctx.tokens, old(ctx.current), left, op, rbp).0
    ensures ctx.current == InfixPart(c, ctx.tokens, old(ctx.current), left, op, rbp).1
    decreases |ctx.tokens| - ctx.current + 1, 0
  {
    match c.infix(op) {
      case InfixFails =>
        r := None;
      case Postfix(apply) =>
        r := apply(left);
      case RightOperand(build) =>
        var right := ParsePratt(ctx, c, rbp);
        if right.None? {
          return None;
        }
        r := build(left, right.value);
    }
  }

  /** The loop of `parse_pratt`: consume operators binding at least `minBp`, each handed to `parse_infix`. */
  method OperatorLoop<Tok, Ast>(ctx: TokenContext<Tok>, c: PrattConfig<Tok, Ast>, left: Ast, minBp: nat) returns (r: Option<Ast>)
    requires ctx.Valid()
    modifies ctx
    ensures ctx.Valid() && ctx.tokens == old(ctx.tokens) && ctx.finished == old(ctx.finished)
    ensures r == Operators(c, ctx.tokens, old(ctx.current), left, minBp).0
    ensures ctx.current == Operators(c, ctx.tokens, old(ctx.current), left, minBp).1
    decreases |ctx.tokens| - ctx.current, 1
  {
    ghost var whole := Operators(c, ctx.tokens, ctx.current, left, minBp);
    var acc := left;
    while true
      invariant ctx.Valid() && ctx.tokens == old(ctx.tokens) && ctx.finished == old(ctx.finished) && old(ctx.current) <= ctx.current
      invariant whole == Operators(c, ctx.tokens, ctx.current, acc, minBp)
      decreases |ctx.tokens| - ctx.current
    {
      var next := ctx.Peek();
      if next.None? {
        break;
      }
      var power := c.infixOp(next.value);
      if power.None? || power.value.0 < minBp {
        break;
      }
      var op := ctx.Advance();
      var built := ParseInfix(ctx, c, acc, op.value, power.value.1);
      if built.None? {
        return None;
      }
      acc := built.value;
    }
    r := Some(acc);
  }
}
