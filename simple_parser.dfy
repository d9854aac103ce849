/**
 * The parser framework's minimal example: tokens for numbers, `+`, `-`
 * and end of input; a number rule (priority 10) and a binary rule
 * (priority 15) that reads exactly `number op number` for the one
 * operator it was configured with. Neither rule restores the context
 * when it fails part-way: the engine's checkpoint around each attempt
 * does.
 */
module SimpleParsing {
  import opened Common
  import opened Priorities
  import opened RuleEngine
  import opened ParseContexts
  import opened Parsers

  datatype SimpleToken =
    | Number(value: int, position: Position)
    | Plus(position: Position)
    | Minus(position: Position)
    | Eof(position: Position)

  datatype Op = Add | Subtract

  datatype SimpleExpr =
    | Number(value: int, position: Position)
    | Binary(op: Op, left: SimpleExpr, right: SimpleExpr, position: Position)

  /** The rule set: `BinaryRule` carries the operator token it accepts and the operator it builds. */
  datatype SimpleRule = NumberRule | BinaryRule(opToken: SimpleToken, op: Op)

  /** `NumberRule::try_parse`: a number token becomes a number node. */
  function NumberAttempt(s: Toks<SimpleToken>): (a: Attempt<SimpleExpr, Toks<SimpleToken>>)
    requires s.Valid()
    ensures Follows(s, a.after)
    ensures a.output.Some? <==> s.current < |s.tokens| && s.tokens[s.current].Number?
    ensures a.output.Some? ==> (a.after.current == s.current + 1
      && a.output.value == SimpleExpr.Number(s.tokens[s.current].value, s.tokens[s.current].position))
    ensures a.output.None? ==> a.after == s
  {
    if s.current < |s.tokens| && s.tokens[s.current].Number? then
      var t := s.tokens[s.current];
      Attempt(Some(SimpleExpr.Number(t.value, t.position)), s.(current := s.current + 1))
    else Attempt(None, s)
  }

  /** The operator token seen is the kind the rule was configured with. */
  predicate SameOperator(configured: SimpleToken, seen: SimpleToken)
  {
    (configured.Plus? && seen.Plus?) || (configured.Minus? && seen.Minus?)
  }

  /** Where `BinaryRule` succeeds: a number, the configured operator, a number. */
  predicate BinaryAt(opToken: SimpleToken, s: Toks<SimpleToken>)
    requires s.Valid()
  {
    s.current + 2 < |s.tokens| && s.tokens[s.current].Number?
    && SameOperator(opToken, s.tokens[s.current + 1]) && s.tokens[s.current + 2].Number?
  }

  /**
   * `BinaryRule::try_parse`: the left number, the operator, the right
   * number, each consumed as it is read; a failure leaves the cursor
   * after whatever was consumed before it. The node takes the operator's
   * position.
   */
  function BinaryAttempt(opToken: SimpleToken, op: Op, s: Toks<SimpleToken>): (a: Attempt<SimpleExpr, Toks<SimpleToken>>)
    requires s.Valid()
    ensures Follows(s, a.after)
    ensures a.output.Some? <==> BinaryAt(opToken, s)
    ensures a.output.Some? ==> (a.after.current == s.current + 3
      && a.output.value == Binary(op,
        SimpleExpr.Number(s.tokens[s.current].value, s.tokens[s.current].position),
        SimpleExpr.Number(s.tokens[s.current + 2].value, s.tokens[s.current + 2].position),
        s.tokens[s.current + 1].position))
    ensures a.after.current <= s.current + 3
  {
    var c := s.current;
    if c == |s.tokens| || !s.tokens[c].Number? then Attempt(None, s)
    else if c + 1 == |s.tokens| then Attempt(None, s.(current := c + 1))
    else
      var operator := s.tokens[c + 1];
      if !(operator.Plus? || operator.Minus?) || !SameOperator(opToken, operator) then Attempt(None, s.(current := c + 1))
      else if c + 2 == |s.tokens| || !s.tokens[c + 2].Number? then Attempt(None, s.(current := c + 2))
      else
        var (left, right) := (s.tokens[c], s.tokens[c + 2]);
        Attempt(Some(Binary(op, SimpleExpr.Number(left.value, left.position), SimpleExpr.Number(right.value, right.position), operator.position)),
                s.(current := c + 3))
  }

  /** `priority` of each rule: the binary rule is tried before the number rule. */
  function Priority(rule: SimpleRule): (p: int)
    ensures rule.NumberRule? ==> p == 10
    ensures rule.BinaryRule? ==> p == 15
  {
    match rule
    case NumberRule => 10
    case BinaryRule(_, _) => 15
  }

  /** `quick_check` of both rules: no verdict at the end of input, else whether the token is a number. */
  function QuickCheck(rule: SimpleRule, current: Option<SimpleToken>): (verdict: Option<bool>)
    ensures verdict.None? <==> current.None?
    ensures verdict == Some(true) <==> current.Some? && current.value.Number?
  {
    if current.None? then None else Some(current.value.Number?)
  }

  /** `try_parse` of each rule. A state beyond its tokens never arises from a context; the guard only makes the function total. */
  function TryRule(rule: SimpleRule, s: Toks<SimpleToken>): (a: Attempt<SimpleExpr, Toks<SimpleToken>>)
  {
    if !s.Valid() then Attempt(None, s)
    else
      match rule
      case NumberRule => NumberAttempt(s)
      case BinaryRule(opToken, op) => BinaryAttempt(opToken, op, s)
  }

  function SimpleGrammar(): ParseRules<SimpleRule, SimpleToken, SimpleExpr>
  {
    Rules((r: SimpleRule, s: Toks<SimpleToken>) => TryRule(r, s),
          (r: SimpleRule) => Priority(r),
          (r: SimpleRule, t: Option<SimpleToken>) => QuickCheck(r, t))
  }

  lemma SimpleRulesConfined(rules: seq<SimpleRule>)
    ensures Confined(SimpleGrammar(), rules) && Advancing(SimpleGrammar(), rules)
  {
  }

  /** Both quick checks answer `Some(false)` only where their rule fails. */
  lemma SimpleQuickChecksSound(rules: seq<SimpleRule>, s: Toks<SimpleToken>)
    requires s.Valid()
    ensures QuickCheckSoundAt(SimpleGrammar(), rules, PeekTok(s), s)
  {
    forall i | 0 <= i < |rules| && Skipped(SimpleGrammar(), rules[i], PeekTok(s))
      ensures SimpleGrammar().attempt(rules[i], s).output.None?
    {
      assert PeekTok(s).Some? && !s.tokens[s.current].Number?;
    }
  }

  /** Whatever order they are listed in, the binary rule is tried first. */
  lemma BinaryRuleFirst(opToken: SimpleToken, op: Op)
    ensures SortByPriority([BinaryRule(opToken, op), NumberRule], SimpleGrammar().priority) == [BinaryRule(opToken, op), NumberRule]
    ensures SortByPriority([NumberRule, BinaryRule(opToken, op)], SimpleGrammar().priority) == [BinaryRule(opToken, op), NumberRule]
  {
    var key := SimpleGrammar().priority;
    assert SortByPriority([NumberRule], key) == [NumberRule] by {
      assert [NumberRule][1..] == [];
    }
    assert SortByPriority([BinaryRule(opToken, op)], key) == [BinaryRule(opToken, op)] by {
      assert [BinaryRule(opToken, op)][1..] == [];
    }
    assert [BinaryRule(opToken, op), NumberRule][1..] == [NumberRule];
    assert [NumberRule, BinaryRule(opToken, op)][1..] == [BinaryRule(opToken, op)];
  }

  /**
   * `next_node` with a binary rule and the number rule: the whole
   * `number op number` when it is there; otherwise the first number on
   * its own, from the checkpoint the engine restored after the binary
   * rule consumed part of the input and failed; otherwise nothing, with
   * the cursor unmoved.
   */
  lemma NextNodeBinaryOrNumber(opToken: SimpleToken, op: Op, s: Toks<SimpleToken>)
    requires s.Valid()
    ensures var a := NextNodeSpec(SimpleGrammar(), [BinaryRule(opToken, op), NumberRule], s);
      (BinaryAt(opToken, s) ==> a == BinaryAttempt(opToken, op, s))
      && (!BinaryAt(opToken, s) ==> a == NumberAttempt(s))
  {
    var rules := [BinaryRule(opToken, op), NumberRule];
    var hint := PeekTok(s);
    if hint.Some? && !hint.value.Number? {
      assert Skipped(SimpleGrammar(), rules[0], hint) && Skipped(SimpleGrammar(), rules[1], hint);
      assert FirstMatchFrom(SimpleGrammar(), rules, 2, hint, s) == Attempt(None, s);
      assert FirstMatchFrom(SimpleGrammar(), rules, 1, hint, s) == Attempt(None, s);
      assert !BinaryAt(opToken, s) && NumberAttempt(s) == Attempt(None, s);
    } else {
      var g := SimpleGrammar();
      assert !Skipped(g, rules[0], hint) && !Skipped(g, rules[1], hint);
      assert g.attempt(rules[0], s) == BinaryAttempt(opToken, op, s);
      assert g.attempt(rules[1], s) == NumberAttempt(s);
      assert FirstMatchFrom(g, rules, 2, hint, s) == Attempt(None, s);
      assert FirstMatchFrom(g, rules, 1, hint, s) == NumberAttempt(s);
    }
  }

  /** Example 2: with the `+` rule, "3 + 4" is one addition, at the position of `+`. */
  lemma AdditionExample()
    ensures var tokens := [SimpleToken.Number(3, Position(1, 1, 0)), Plus(Position(1, 3, 2)), SimpleToken.Number(4, Position(1, 5, 4))];
      var rules := SortByPriority([BinaryRule(Plus(StartPosition()), Add), NumberRule], SimpleGrammar().priority);
      NextNodeSpec(SimpleGrammar(), rules, Toks(tokens, 0, true))
        == Attempt(Some(Binary(Add, SimpleExpr.Number(3, Position(1, 1, 0)), SimpleExpr.Number(4, Position(1, 5, 4)), Position(1, 3, 2))), Toks(tokens, 3, true))
  {
    var tokens := [SimpleToken.Number(3, Position(1, 1, 0)), Plus(Position(1, 3, 2)), SimpleToken.Number(4, Position(1, 5, 4))];
    BinaryRuleFirst(Plus(StartPosition()), Add);
    NextNodeBinaryOrNumber(Plus(StartPosition()), Add, Toks(tokens, 0, true));
    assert BinaryAt(Plus(StartPosition()), Toks(tokens, 0, true));
  }

  /** With the `+` rule, "10 - 3" is not a sum: only `10` is parsed, and the cursor stops at `-`. */
  lemma OtherOperatorLeavesNumber()
    ensures var tokens := [SimpleToken.Number(10, Position(1, 1, 0)), Minus(Position(1, 4, 3)), SimpleToken.Number(3, Position(1, 6, 5))];
      var rules := SortByPriority([BinaryRule(Plus(StartPosition()), Add), NumberRule], SimpleGrammar().priority);
      NextNodeSpec(SimpleGrammar(), rules, Toks(tokens, 0, true))
        == Attempt(Some(SimpleExpr.Number(10, Position(1, 1, 0))), Toks(tokens, 1, true))
  {
    var tokens := [SimpleToken.Number(10, Position(1, 1, 0)), Minus(Position(1, 4, 3)), SimpleToken.Number(3, Position(1, 6, 5))];
    BinaryRuleFirst(Plus(StartPosition()), Add);
    NextNodeBinaryOrNumber(Plus(StartPosition()), Add, Toks(tokens, 0, true));
    assert !BinaryAt(Plus(StartPosition()), Toks(tokens, 0, true));
  }

  // ---------------------------------------------------------------------
  // The rules on a token context

  /** `NumberRule::try_parse` on a context. */
  method TryNumber(ctx: TokenContext<SimpleToken>) returns (r: Option<SimpleExpr>)
    requires ctx.Valid()
    modifies ctx
    ensures ctx.Valid() && Attempt(r, ctx.State()) == NumberAttempt(old(ctx.State()))
  {
    var token := ctx.Peek();
    if token.None? || !token.value.Number? {
      return None;
    }
    var _ := ctx.Advance();
    r := Some(SimpleExpr.Number(token.value.value, token.value.position));
  }

  /** `BinaryRule::try_parse` on a context. */
  method TryBinary(opToken: SimpleToken, op: Op, ctx: TokenContext<SimpleToken>) returns (r: Option<SimpleExpr>)
    requires ctx.Valid()
    modifies ctx
    ensures ctx.Valid() && Attempt(r, ctx.State()) == BinaryAttempt(opToken, op, old(ctx.State()))
  {
    var leftToken := ctx.Peek();
    if leftToken.None? || !leftToken.value.Number? {
      return None;
    }
    var _ := ctx.Advance();
    var left := SimpleExpr.Number(leftToken.value.value, leftToken.value.position);
    var operator := ctx.Peek();
    if operator.None? || !(operator.value.Plus? || operator.value.Minus?) {
      return None;
    }
    if !SameOperator(opToken, operator.value) {
      return None;
    }
    var _ := ctx.Advance();
    var rightToken := ctx.Peek();
    if rightToken.None? || !rightToken.value.Number? {
      return None;
    }
    var _ := ctx.Advance();
    var right := SimpleExpr.Number(rightToken.value.value, rightToken.value.position);
    r := Some(Binary(op, left, right, operator.value.position));
  }
}
