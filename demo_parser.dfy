/**
 * The pipeline demo's expression parser: precedence climbing over the
 * calculator tokens. `parse_primary` reads a number or a parenthesised
 * expression; `parse_expression` then folds in every operator whose
 * precedence reaches the floor, parsing its right operand with the
 * operator's precedence plus one as the new floor, so operators of equal
 * precedence group to the left. `ExpressionRule` parses one expression
 * from the cursor and restores the checkpoint when that fails.
 */
module DemoParsing {
  import opened Common
  import opened Priorities
  import opened RuleEngine
  import opened ParseContexts
  import opened Parsers
  import opened Pratt
  import opened DemoLexing

  /** The number keeps its literal text; the source converts it to a float, which is not modelled. */
  datatype Expr =
    | Number(literal: string, position: Position)
    | Binary(op: BinaryOp, left: Expr, right: Expr, position: Position)

  datatype BinaryOp = Add | Subtract | Multiply | Divide

  /** `BinaryOp::precedence`: additive operators bind less tightly than multiplicative ones. */
  function Precedence(op: BinaryOp): (p: nat)
    ensures op == Add || op == Subtract ==> p == 10
    ensures op == BinaryOp.Multiply || op == BinaryOp.Divide ==> p == 20
  {
    match op
    case Add => 10
    case Subtract => 10
    case Multiply => 20
    case Divide => 20
  }

  /** `binary_op_from_token`: the four operator tokens, and nothing else, are binary operators. */
  function OpOf(t: CalcToken): (op: Option<BinaryOp>)
    ensures op.Some? <==> t.Plus? || t.Minus? || t.Multiply? || t.Divide?
    ensures t.Plus? ==> op == Some(Add)
    ensures t.Minus? ==> op == Some(Subtract)
    ensures t.Multiply? ==> op == Some(BinaryOp.Multiply)
    ensures t.Divide? ==> op == Some(BinaryOp.Divide)
  {
    match t
    case Plus(_) => Some(Add)
    case Minus(_) => Some(Subtract)
    case Multiply(_) => Some(BinaryOp.Multiply)
    case Divide(_) => Some(BinaryOp.Divide)
    case _ => None
  }

  /** Where the operator loop stops: the end, a token that is no operator, or one below the floor. */
  predicate Halts(toks: seq<CalcToken>, j: nat, minPrec: int)
    requires j <= |toks|
  {
    j == |toks| || OpOf(toks[j]).None? || Precedence(OpOf(toks[j]).value) < minPrec
  }

  /**
   * `parse_primary` with the cursor at `i`: the expression and the index
   * the cursor is left at. A token that starts no expression is not
   * consumed; a parenthesised expression needs its `)`.
   */
  function Primary(toks: seq<CalcToken>, i: nat): (r: (Option<Expr>, nat))
    requires i <= |toks|
    ensures i <= r.1 <= |toks|
    ensures r.0.Some? ==> i < r.1
    decreases |toks| - i, 0
  {
    if i == |toks| then (None, i)
    else
      match toks[i]
      case Number(literal, position) => (Some(Expr.Number(literal, position)), i + 1)
      case LeftParen(_) =>
        var inner := Expression(toks, i + 1, 0);
        if inner.0.Some? && inner.1 < |toks| && toks[inner.1].RightParen? then (inner.0, inner.1 + 1)
        else (None, inner.1)
      case _ => (None, i)
  }

  /** `parse_expression(ctx, minPrec)` with the cursor at `i`. */
  function Expression(toks: seq<CalcToken>, i: nat, minPrec: int): (r: (Option<Expr>, nat))
    requires i <= |toks|
    ensures i <= r.1 <= |toks|
    ensures r.0.Some? ==> i < r.1 && Halts(toks, r.1, minPrec)
    decreases |toks| - i, 1
  {
    var left := Primary(toks, i);
    if left.0.None? then (None, left.1)
    else Climb(toks, left.1, left.0.value, minPrec)
  }

  /**
   * The loop of `parse_expression` from index `j` with `left` parsed so
   * far. The node built takes the position of its left operand, which
   * every expression has, so the fallbacks after it are never used.
   */
  function Climb(toks: seq<CalcToken>, j: nat, left: Expr, minPrec: int): (r: (Option<Expr>, nat))
    requires j <= |toks|
    ensures j <= r.1 <= |toks|
    ensures r.0.Some? ==> Halts(toks, r.1, minPrec)
    decreases |toks| - j, 0
  {
    if Halts(toks, j, minPrec) then (Some(left), j)
    else
      var op := OpOf(toks[j]).value;
      var right := Expression(toks, j + 1, Precedence(op) + 1);
      if right.0.None? then (None, right.1)
      else Climb(toks, right.1, Binary(op, left, right.0.value, left.position), minPrec)
  }

  // ---------------------------------------------------------------------
  // The same parser as a binding-power table

  /** Each operator binds at its precedence on the left and one more on the right. */
  function InfixPower(t: CalcToken): (bp: Option<(nat, nat)>)
    ensures bp.Some? <==> OpOf(t).Some?
    ensures bp.Some? ==> bp.value == (Precedence(OpOf(t).value), Precedence(OpOf(t).value) + 1)
  {
    match OpOf(t)
    case None => None
    case Some(op) => Some((Precedence(op), Precedence(op) + 1))
  }

  /** Numbers are atoms and `(` opens a group closed by `)`. */
  function PrefixOf(t: CalcToken): (p: Prefix<CalcToken, Expr>)
    ensures p.Atom? <==> t.Number?
    ensures p.Atom? ==> p.node == Expr.Number(t.literal, t.position)
    ensures p.Group? <==> t.LeftParen?
  {
    match t
    case Number(literal, position) => Atom(Expr.Number(literal, position))
    case LeftParen(_) => Group((u: CalcToken) => u.RightParen?)
    case _ => NoPrefix
  }

  /** The node of an operator: it takes the left operand's position. */
  function Build(left: Expr, op: BinaryOp, right: Expr): (e: Expr)
    ensures e.Binary? && e.op == op && e.left == left && e.right == right
    ensures e.position == left.position
  {
    Binary(op, left, right, left.position)
  }

  /** An operator parses its right operand and always builds its node; no other token gets this far. */
  function InfixOf(t: CalcToken): Infix<Expr>
  {
    match OpOf(t)
    case Some(op) => RightOperand((left: Expr, right: Expr) => Some(Build(left, op, right)))
    case None => InfixFails
  }

  function CalcConfig(): PrattConfig<CalcToken, Expr>
  {
    PrattConfig(InfixPower, PrefixOf, InfixOf)
  }

  /**
   * Precedence climbing is binding-power parsing with powers
   * (precedence, precedence + 1): both give the same expression, and on
   * success leave the cursor at the same place. They differ only in where
   * a failure leaves it, since `parse_pratt` consumes the first token
   * unconditionally and `parse_primary` does not.
   */
  lemma {:induction false} ExpressionIsPratt(toks: seq<CalcToken>, i: nat, minPrec: nat)
    requires i <= |toks|
    ensures Expression(toks, i, minPrec).0 == Pratt.Parse(CalcConfig(), toks, i, minPrec).0
    ensures Expression(toks, i, minPrec).0.Some? ==> Expression(toks, i, minPrec).1 == Pratt.Parse(CalcConfig(), toks, i, minPrec).1
    decreases |toks| - i, 1
  {
    if i < |toks| {
      PrimaryIsPrefix(toks, i);
      var left := Primary(toks, i);
      if left.0.Some? {
        ClimbIsOperators(toks, left.1, left.0.value, minPrec);
      }
    }
  }

  lemma {:induction false} PrimaryIsPrefix(toks: seq<CalcToken>, i: nat)
    requires i < |toks|
    ensures Primary(toks, i).0 == PrefixPart(CalcConfig(), toks, i + 1, toks[i]).0
    ensures Primary(toks, i).0.Some? ==> Primary(toks, i).1 == PrefixPart(CalcConfig(), toks, i + 1, toks[i]).1
    decreases |toks| - i, 0
  {
    if toks[i].LeftParen? {
      ExpressionIsPratt(toks, i + 1, 0);
      var close := (u: CalcToken) => u.RightParen?;
      assert CalcConfig().prefix(toks[i]) == Group(close);
      var inner := Expression(toks, i + 1, 0);
      if inner.0.Some? && inner.1 < |toks| {
        assert close(toks[inner.1]) == toks[inner.1].RightParen?;
      }
    }
  }

  lemma {:induction false} ClimbIsOperators(toks: seq<CalcToken>, j: nat, left: Expr, minPrec: nat)
    requires j <= |toks|
    ensures Climb(toks, j, left, minPrec).0 == Operators(CalcConfig(), toks, j, left, minPrec).0
    ensures Climb(toks, j, left, minPrec).0.Some? ==> Climb(toks, j, left, minPrec).1 == Operators(CalcConfig(), toks, j, left, minPrec).1
    decreases |toks| - j, 0
  {
    assert Halts(toks, j, minPrec) == StopsAt(CalcConfig(), toks, j, minPrec);
    if !Halts(toks, j, minPrec) {
      var op := OpOf(toks[j]).value;
      assert CalcConfig().infixOp(toks[j]).value.1 == Precedence(op) + 1;
      ExpressionIsPratt(toks, j + 1, Precedence(op) + 1);
      var right := Expression(toks, j + 1, Precedence(op) + 1);
      if right.0.Some? {
        assert InfixPart(CalcConfig(), toks, j + 1, left, toks[j], Precedence(op) + 1)
          == (Some(Binary(op, left, right.0.value, left.position)), right.1);
        ClimbIsOperators(toks, right.1, Binary(op, left, right.0.value, left.position), minPrec);
      }
    }
  }

  /**
   * In `x op1 y op2 z` the second operator takes `y` from the first
   * exactly when its precedence is higher: equal precedence groups to the
   * left. Every node carries the position of its leftmost number.
   */
  lemma ThreeOperands(x: CalcToken, t1: CalcToken, y: CalcToken, t2: CalcToken, z: CalcToken)
    requires x.Number? && y.Number? && z.Number? && OpOf(t1).Some? && OpOf(t2).Some?
    ensures var (op1, op2) := (OpOf(t1).value, OpOf(t2).value);
      var (nx, ny, nz) := (Expr.Number(x.literal, x.position), Expr.Number(y.literal, y.position), Expr.Number(z.literal, z.position));
      var r := Expression([x, t1, y, t2, z], 0, 0);
      r.1 == 5 && r.0.Some?
      && (Precedence(op2) <= Precedence(op1) ==> r.0.value == Binary(op2, Binary(op1, nx, ny, x.position), nz, x.position))
      && (Precedence(op2) > Precedence(op1) ==> r.0.value == Binary(op1, nx, Binary(op2, ny, nz, y.position), x.position))
  {
    var c := CalcConfig();
    ExpressionIsPratt([x, t1, y, t2, z], 0, 0);
    assert c.infix(t1).RightOperand? && c.infix(t2).RightOperand?;
    assert forall l, r :: c.infix(t1).build(l, r) == Some(Build(l, OpOf(t1).value, r));
    assert forall l, r :: c.infix(t2).build(l, r) == Some(Build(l, OpOf(t2).value, r));
    Pratt.ThreeOperands(c, x, t1, y, t2, z);
  }

  /** "1-2-3" groups to the left. */
  lemma SubtractionAssociatesLeft(p1: Position, p2: Position, p3: Position, q1: Position, q2: Position)
    ensures Expression([CalcToken.Number("1", p1), Minus(q1), CalcToken.Number("2", p2), Minus(q2), CalcToken.Number("3", p3)], 0, 0)
      == (Some(Binary(Subtract, Binary(Subtract, Expr.Number("1", p1), Expr.Number("2", p2), p1), Expr.Number("3", p3), p1)), 5)
  {
    ThreeOperands(CalcToken.Number("1", p1), Minus(q1), CalcToken.Number("2", p2), Minus(q2), CalcToken.Number("3", p3));
  }

  /** "1+2*3" multiplies first. */
  lemma ProductBindsTighter(p1: Position, p2: Position, p3: Position, q1: Position, q2: Position)
    ensures Expression([CalcToken.Number("1", p1), Plus(q1), CalcToken.Number("2", p2), CalcToken.Multiply(q2), CalcToken.Number("3", p3)], 0, 0)
      == (Some(Binary(Add, Expr.Number("1", p1), Binary(BinaryOp.Multiply, Expr.Number("2", p2), Expr.Number("3", p3), p2), p1)), 5)
  {
    ThreeOperands(CalcToken.Number("1", p1), Plus(q1), CalcToken.Number("2", p2), CalcToken.Multiply(q2), CalcToken.Number("3", p3));
  }

  /** The index of the first token from `i` on that is not `(`. */
  function LeadingIndex(toks: seq<CalcToken>, i: nat): (k: nat)
    requires i <= |toks|
    ensures i <= k <= |toks|
    ensures forall m :: i <= m < k ==> toks[m].LeftParen?
    ensures k < |toks| ==> !toks[k].LeftParen?
    decreases |toks| - i
  {
    if i < |toks| && toks[i].LeftParen? then LeadingIndex(toks, i + 1) else i
  }

  /**
   * An expression parsed from `i` starts, after any opening parentheses,
   * with a number, and carries that number's position.
   */
  lemma {:induction false} ExpressionLeads(toks: seq<CalcToken>, i: nat, minPrec: int)
    requires i <= |toks|
    ensures var (e, _) := Expression(toks, i, minPrec);
      e.Some? ==> var k := LeadingIndex(toks, i); k < |toks| && toks[k].Number? && e.value.position == toks[k].position
    decreases |toks| - i, 1
  {
    var left := Primary(toks, i);
    if left.0.Some? {
      PrimaryLeads(toks, i);
      ClimbKeepsPosition(toks, left.1, left.0.value, minPrec);
    }
  }

  lemma {:induction false} PrimaryLeads(toks: seq<CalcToken>, i: nat)
    requires i <= |toks|
    ensures var (e, _) := Primary(toks, i);
      e.Some? ==> var k := LeadingIndex(toks, i); k < |toks| && toks[k].Number? && e.value.position == toks[k].position
    decreases |toks| - i, 0
  {
    if i < |toks| && toks[i].LeftParen? {
      ExpressionLeads(toks, i + 1, 0);
    }
  }

  /** The operator loop keeps the position of the expression it started from. */
  lemma {:induction false} ClimbKeepsPosition(toks: seq<CalcToken>, j: nat, left: Expr, minPrec: int)
    requires j <= |toks|
    ensures Climb(toks, j, left, minPrec).0.Some? ==> Climb(toks, j, left, minPrec).0.value.position == left.position
    decreases |toks| - j
  {
    if !Halts(toks, j, minPrec) {
      var op := OpOf(toks[j]).value;
      var right := Expression(toks, j + 1, Precedence(op) + 1);
      if right.0.Some? {
        ClimbKeepsPosition(toks, right.1, Binary(op, left, right.0.value, left.position), minPrec);
      }
    }
  }

  // ---------------------------------------------------------------------
  // The rule

  /** `ExpressionRule::try_parse`: one expression, or none with the cursor restored. */
  function ExprAttempt(s: Toks<CalcToken>): (a: Attempt<Expr, Toks<CalcToken>>)
    requires s.Valid()
    ensures Follows(s, a.after)
    ensures a.output.None? ==> a.after == s
    ensures a.output.Some? ==> s.current < a.after.current && a.output == Expression(s.tokens, s.current, 0).0
  {
    var r := Expression(s.tokens, s.current, 0);
    if r.0.Some? then Attempt(r.0, s.(current := r.1)) else Attempt(None, s)
  }

  datatype ExprRule = ExpressionRule

  /** `ExpressionRule::priority`. */
  function ExprPriority(rule: ExprRule): (p: int)
    ensures p == 100
  {
    100
  }

  /** `build_parser_rules`: the expression rule alone, with the default quick check. */
  function ExprGrammar(): ParseRules<ExprRule, CalcToken, Expr>
  {
    Rules((r: ExprRule, s: Toks<CalcToken>) => if s.Valid() then ExprAttempt(s) else Attempt(None, s),
          (r: ExprRule) => ExprPriority(r),
          (r: ExprRule, h: Option<CalcToken>) => DefaultQuickCheck(r, h))
  }

  const ExprRules: seq<ExprRule> := [ExpressionRule]

  lemma ExprRulesConfined(rules: seq<ExprRule>)
    ensures Confined(ExprGrammar(), rules) && Advancing(ExprGrammar(), rules)
  {
  }

  /** With its one rule, the parser's `next_node` is the expression rule's attempt. */
  lemma NextNodeIsExprAttempt(s: Toks<CalcToken>)
    requires s.Valid()
    ensures SortByPriority(ExprRules, ExprGrammar().priority) == ExprRules
    ensures NextNodeSpec(ExprGrammar(), ExprRules, s) == ExprAttempt(s)
  {
    assert SortByPriority(ExprRules[1..], ExprGrammar().priority) == [];
  }

  /** With only `3` pushed, the drain takes `3` as a whole expression. */
  lemma DrainAfterFirstNumber(p3: Position)
    ensures var one := [CalcToken.Number("3", p3)];
      DrainSpec(ExprGrammar(), ExprRules, Toks(one, 0, false), 2) == Some(([Expr.Number("3", p3)], Toks(one, 1, false)))
  {
    var one := [CalcToken.Number("3", p3)];
    NextNodeIsExprAttempt(Toks(one, 0, false));
    NextNodeIsExprAttempt(Toks(one, 1, false));
    assert Primary(one, 0) == (Some(Expr.Number("3", p3)), 1);
    assert Climb(one, 1, Expr.Number("3", p3), 0) == (Some(Expr.Number("3", p3)), 1);
    assert Expression(one, 0, 0) == (Some(Expr.Number("3", p3)), 1);
    assert ExprAttempt(Toks(one, 0, false)) == Attempt(Some(Expr.Number("3", p3)), Toks(one, 1, false));
    assert ExprAttempt(Toks(one, 1, false)) == Attempt(None, Toks(one, 1, false));
    assert DrainSpec(ExprGrammar(), ExprRules, Toks(one, 1, false), 1) == Some(([], Toks(one, 1, false)));
    assert DrainSpec(ExprGrammar(), ExprRules, Toks(one, 0, false), 2)
      == Prepend([Expr.Number("3", p3)], DrainSpec(ExprGrammar(), ExprRules, Toks(one, 1, false), 1));
    assert [Expr.Number("3", p3)] + [] == [Expr.Number("3", p3)];
  }

  /** At an operator no expression starts, so the drain gives nothing and stays put. */
  lemma DrainStuckAtOperator(toks: seq<CalcToken>, i: nat, finished: bool)
    requires i < |toks| && OpOf(toks[i]).Some?
    ensures DrainSpec(ExprGrammar(), ExprRules, Toks(toks, i, finished), 2) == Some(([], Toks(toks, i, finished)))
  {
    NextNodeIsExprAttempt(Toks(toks, i, finished));
    assert Primary(toks, i) == (None, i);
  }

  /** Parsed in one batch, "3+4" is the sum. */
  lemma BatchParsesSum(p3: Position, pp: Position, p4: Position)
    ensures var three := [CalcToken.Number("3", p3), Plus(pp), CalcToken.Number("4", p4)];
      Confined(ExprGrammar(), ExprRules)
      && ParseSpec(ExprGrammar(), ExprRules, Toks(three, 0, true)).0 == [Binary(Add, Expr.Number("3", p3), Expr.Number("4", p4), p3)]
  {
    var three := [CalcToken.Number("3", p3), Plus(pp), CalcToken.Number("4", p4)];
    ExprRulesConfined(ExprRules);
    NextNodeIsExprAttempt(Toks(three, 0, true));
    var sum := Binary(Add, Expr.Number("3", p3), Expr.Number("4", p4), p3);
    assert Primary(three, 0) == (Some(Expr.Number("3", p3)), 1);
    assert Primary(three, 2) == (Some(Expr.Number("4", p4)), 3);
    assert Climb(three, 3, Expr.Number("4", p4), 11) == (Some(Expr.Number("4", p4)), 3);
    assert Expression(three, 2, 11) == (Some(Expr.Number("4", p4)), 3);
    assert Climb(three, 3, sum, 0) == (Some(sum), 3);
    assert Climb(three, 1, Expr.Number("3", p3), 0) == (Some(sum), 3);
    assert Expression(three, 0, 0) == (Some(sum), 3);
    assert ExprAttempt(Toks(three, 0, true)) == Attempt(Some(sum), Toks(three, 3, true));
    assert ParseSpec(ExprGrammar(), ExprRules, Toks(three, 3, true)).0 == [];
  }

  /**
   * Fed to the parser one token at a time, "3+4" gives only the node of
   * `3`: the drain after each push parses whatever is complete, so `3` is
   * taken on its own before `+` arrives, and then no expression can start
   * at `+`, not even once the input is finished. Parsed in one batch, the
   * same tokens give the sum.
   */
  lemma StreamingTakesFirstOperandAlone(p3: Position, pp: Position, p4: Position)
    ensures var (n3, plus, n4) := (CalcToken.Number("3", p3), Plus(pp), CalcToken.Number("4", p4));
      var (g, rules) := (ExprGrammar(), SortByPriority(ExprRules, ExprGrammar().priority));
      Confined(g, rules)
      && DrainSpec(g, rules, Toks([n3], 0, false), 2) == Some(([Expr.Number("3", p3)], Toks([n3], 1, false)))
      && DrainSpec(g, rules, Toks([n3, plus], 1, false), 2) == Some(([], Toks([n3, plus], 1, false)))
      && DrainSpec(g, rules, Toks([n3, plus, n4], 1, false), 2) == Some(([], Toks([n3, plus, n4], 1, false)))
      && DrainSpec(g, rules, Toks([n3, plus, n4], 1, true), 2) == Some(([], Toks([n3, plus, n4], 1, true)))
      && ParseSpec(g, rules, Toks([n3, plus, n4], 0, true)).0 == [Binary(Add, Expr.Number("3", p3), Expr.Number("4", p4), p3)]
  {
    var (n3, plus, n4) := (CalcToken.Number("3", p3), Plus(pp), CalcToken.Number("4", p4));
    NextNodeIsExprAttempt(Toks([n3], 0, false));
    DrainAfterFirstNumber(p3);
    DrainStuckAtOperator([n3, plus], 1, false);
    DrainStuckAtOperator([n3, plus, n4], 1, false);
    DrainStuckAtOperator([n3, plus, n4], 1, true);
    BatchParsesSum(p3, pp, p4);
  }

  // ---------------------------------------------------------------------
  // On a token context

  /** `parse_expression` on a context: the expression and the cursor of `Expression`. */
  method ParseExpression(ctx: TokenContext<CalcToken>, minPrec: int) returns (r: Option<Expr>)
    requires ctx.Valid()
    modifies ctx
    ensures ctx.Valid() && ctx.tokens == old(ctx.tokens) && ctx.finished == old(ctx.finished)
    ensures (r, ctx.current) == Expression(ctx.tokens, old(ctx.current), minPrec)
    decreases |ctx.tokens| - ctx.current, 1
  {
    var left := ParsePrimary(ctx);
    if left.None? {
      return None;
    }
    r := ClimbLoop(ctx, left.value, minPrec);
  }

  /** `parse_primary` on a context. */
  method ParsePrimary(ctx: TokenContext<CalcToken>) returns (r: Option<Expr>)
    requires ctx.Valid()
    modifies ctx
    ensures ctx.Valid() && ctx.tokens == old(ctx.tokens) && ctx.finished == old(ctx.finished)
    ensures (r, ctx.current) == Primary(ctx.tokens, old(ctx.current))
    decreases |ctx.tokens| - ctx.current, 0
  {
    var first := ctx.Peek();
    if first.None? {
      return None;
    }
    match first.value {
      case Number(literal, position) =>
        var _ := ctx.Advance();
        r := Some(Expr.Number(literal, position));
      case LeftParen(_) =>
        var _ := ctx.Advance();
        var inner := ParseExpression(ctx, 0);
        if inner.None? {
          return None;
        }
        var closing := ctx.Peek();
        if closing.None? || !closing.value.RightParen? {
          return None;
        }
        var _ := ctx.Advance();
        r := inner;
      case _ =>
        r := None;
    }
  }

  /** The loop of `parse_expression`: fold in operators reaching `minPrec`, each with its right operand. */
  method ClimbLoop(ctx: TokenContext<CalcToken>, left: Expr, minPrec: int) returns (r: Option<Expr>)
    requires ctx.Valid()
    modifies ctx
    ensures ctx.Valid() && ctx.tokens == old(ctx.tokens) && ctx.finished == old(ctx.finished)
    ensures (r, ctx.current) == Climb(ctx.tokens, old(ctx.current), left, minPrec)
    decreases |ctx.tokens| - ctx.current, 0
  {
    ghost var whole := Climb(ctx.tokens, ctx.current, left, minPrec);
    var acc := left;
    while true
      invariant ctx.Valid() && ctx.tokens == old(ctx.tokens) && ctx.finished == old(ctx.finished) && old(ctx.current) <= ctx.current
      invariant whole == Climb(ctx.tokens, ctx.current, acc, minPrec)
      decreases |ctx.tokens| - ctx.current
    {
      var next := ctx.Peek();
      if next.None? {
        break;
      }
      var op := OpOf(next.value);
      if op.None? || Precedence(op.value) < minPrec {
        break;
      }
      var _ := ctx.Advance();
      var right := ParseExpression(ctx, Precedence(op.value) + 1);
      if right.None? {
        return None;
      }
      acc := Binary(op.value, acc, right.value, acc.position);
    }
    r := Some(acc);
  }

  /** `ExpressionRule::try_parse` on a context: checkpoint, parse, restore on failure. */
  method TryExpression(ctx: TokenContext<CalcToken>) returns (r: Option<Expr>)
    requires ctx.Valid()
    modifies ctx
    ensures ctx.Valid() && Attempt(r, ctx.State()) == ExprAttempt(old(ctx.State()))
  {
    var checkpoint := ctx.Checkpoint();
    r := ParseExpression(ctx, 0);
    if r.None? {
      ctx.Restore(checkpoint);
    }
  }
}
