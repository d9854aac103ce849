/**
 * The pipeline that joins a lexer to a parser.
 *
 * The batch pipeline tokenizes the whole input, then parses every token.
 *
 * The streaming pipeline is a controller loop between a token producer (a
 * lexer) and a token consumer (a parser), both seen only through their
 * signal interfaces: the consumer is asked for its next signal; produced
 * nodes are collected; a request for tokens is passed to the producer,
 * whose answer is relayed back (a token), turned into the end of the run
 * (end of input, or no answer), or into an abort sent to both sides
 * (blocked or abort). A finished signal ends the run with its nodes, a
 * blocked or abort signal from the consumer aborts both sides, and the
 * loop ends when the consumer has nothing more to say.
 *
 * Producer and consumer are values whose operations are functions of
 * their state, so a run is a function of the two initial states. A
 * consumer that keeps answering forever makes the source loop forever,
 * so the run is allowed a number of steps (`fuel`), and `None` says the
 * run needed more.
 */
module Pipelines {
  import opened Common
  import opened RuleEngine
  import opened Priorities
  import opened Scanning
  import opened ParseContexts
  import Lexers
  import Parsers

  // ---------------------------------------------------------------------
  // Batch pipeline
  // ---------------------------------------------------------------------

  /** Stage 1 of `BatchPipeline::run`: the tokens of `input`, with the rules sorted as `Lexer::from_str` sorts them. */
  ghost function BatchTokens<LR, Tok>(lg: Lexers.LexRules<LR, Tok>, lrules: seq<LR>, input: string): seq<Tok>
    requires Lexers.Confined(lg, lrules)
  {
    Lexers.SortKeepsConfined(lg, lrules);
    Lexers.TokenizeSpec(lg, SortByPriority(lrules, lg.priority), Start(input)).0
  }

  /** Stage 2: parse `tokens` from a fresh context, with the rules sorted as `Parser::from_tokens` sorts them. */
  ghost function BatchParse<PR, Tok(!new), Ast>(pg: Parsers.ParseRules<PR, Tok, Ast>, prules: seq<PR>, tokens: seq<Tok>): (seq<Ast>, Toks<Tok>)
    requires Parsers.Confined(pg, prules)
  {
    Parsers.SortKeepsConfined(pg, prules);
    Parsers.ParseSpec(pg, SortByPriority(prules, pg.priority), Toks(tokens, 0, true))
  }

  /** `BatchPipeline::run`: the nodes of parsing every token of `input`. */
  ghost function BatchSpec<LR, PR, Tok(!new), Ast>(lg: Lexers.LexRules<LR, Tok>, lrules: seq<LR>,
                                                   pg: Parsers.ParseRules<PR, Tok, Ast>, prules: seq<PR>, input: string): seq<Ast>
    requires Lexers.Confined(lg, lrules) && Parsers.Confined(pg, prules)
  {
    BatchParse(pg, prules, BatchTokens(lg, lrules, input)).0
  }

  /** `BatchPipeline::run`. */
  method BatchRun<LR, PR, Tok(!new), Ast>(input: string, lg: Lexers.LexRules<LR, Tok>, lrules: seq<LR>,
                                          pg: Parsers.ParseRules<PR, Tok, Ast>, prules: seq<PR>) returns (nodes: seq<Ast>)
    requires Lexers.Confined(lg, lrules) && Parsers.Confined(pg, prules)
    ensures nodes == BatchSpec(lg, lrules, pg, prules, input)
  {
    var lexer := new Lexers.Lexer.FromStr(input, lg, lrules);
    var tokens := lexer.Tokenize();
    var parser := new Parsers.Parser.FromTokens(tokens, pg, prules);
    nodes := parser.Parse();
  }

  /**
   * `BatchPipeline::run_with_lexer`: tokenize with the lexer as it stands,
   * then parse the tokens from a fresh context.
   */
  method RunWithLexer<LR, PR, Tok(!new), Ast>(lexer: Lexers.Lexer<LR, Tok>, pg: Parsers.ParseRules<PR, Tok, Ast>, prules: seq<PR>)
    returns (nodes: seq<Ast>)
    requires lexer.Valid() && Parsers.Confined(pg, prules)
    modifies lexer.context.cursor
    ensures lexer.Valid()
    ensures nodes == BatchParse(pg, prules, Lexers.TokenizeSpec(lexer.grammar, lexer.rules, old(lexer.State())).0).0
  {
    var tokens := lexer.Tokenize();
    var parser := new Parsers.Parser.FromTokens(tokens, pg, prules);
    nodes := parser.Parse();
  }

  /** Handing `run_with_lexer` a lexer fresh from `Lexer::from_str` is `run`. */
  method RunWithFreshLexerIsRun<LR, PR, Tok(!new), Ast>(input: string, lg: Lexers.LexRules<LR, Tok>, lrules: seq<LR>,
                                                        pg: Parsers.ParseRules<PR, Tok, Ast>, prules: seq<PR>) returns (nodes: seq<Ast>)
    requires Lexers.Confined(lg, lrules) && Parsers.Confined(pg, prules)
    ensures nodes == BatchSpec(lg, lrules, pg, prules, input)
  {
    var lexer := new Lexers.Lexer.FromStr(input, lg, lrules);
    nodes := RunWithLexer(lexer, pg, prules);
  }

  /**
   * When every parser rule consumes a token whenever it succeeds and some
   * rule succeeds wherever tokens remain, the batch pipeline parses every
   * token of the input.
   */
  lemma BatchParsesEveryToken<LR, PR, Tok(!new), Ast>(lg: Lexers.LexRules<LR, Tok>, lrules: seq<LR>,
                                                      pg: Parsers.ParseRules<PR, Tok, Ast>, prules: seq<PR>, input: string)
    requires Lexers.Confined(lg, lrules) && Parsers.Confined(pg, prules)
    requires Parsers.Advancing(pg, SortByPriority(prules, pg.priority))
    requires forall s: Toks<Tok> :: s.Valid() && s.current < |s.tokens| ==>
      Parsers.NextNodeSpec(pg, SortByPriority(prules, pg.priority), s).output.Some?
    ensures BatchParse(pg, prules, BatchTokens(lg, lrules, input)).1.current == |BatchTokens(lg, lrules, input)|
  {
    Parsers.SortKeepsConfined(pg, prules);
    Parsers.ParseConsumesAll(pg, SortByPriority(prules, pg.priority), Toks(BatchTokens(lg, lrules, input), 0, true));
  }

  // ---------------------------------------------------------------------
  // Streaming pipeline
  // ---------------------------------------------------------------------

  /** A token producer: `Outbound::next_signal` and `Inbound::handle_signal` over its state. */
  datatype Producer<!LS, !Tok, !Node> = Producer(
    next: LS -> (Option<Signal<Tok, Node>>, LS),
    handle: (LS, Signal<Tok, Node>) -> LS)

  /** A token consumer: its signals, `handle_signal`, and `TokenConsumer::finish`. */
  datatype Consumer<!PS, !Tok, !Node> = Consumer(
    next: PS -> (Option<Signal<Tok, Node>>, PS),
    handle: (PS, Signal<Tok, Node>) -> PS,
    finish: PS -> (seq<Node>, PS))

  /**
   * The state of a run: both sides, the nodes collected, and (for the
   * proofs) every signal sent to the consumer and to the producer.
   */
  datatype RunState<LS, PS, Tok, Node> = RunState(
    lexer: LS,
    parser: PS,
    results: seq<Node>,
    toParser: seq<Signal<Tok, Node>>,
    toLexer: seq<Signal<Tok, Node>>)

  function Begin<LS, PS, Tok, Node>(lexer: LS, parser: PS): RunState<LS, PS, Tok, Node>
  {
    RunState(lexer, parser, [], [], [])
  }

  /** End of input: tell the consumer, then collect what `finish` drains. */
  function EndBoth<LS, PS, Tok, Node>(c: Consumer<PS, Tok, Node>, r: RunState<LS, PS, Tok, Node>): RunState<LS, PS, Tok, Node>
  {
    var (nodes, ps) := c.finish(c.handle(r.parser, EndOfInput));
    r.(parser := ps, results := r.results + nodes, toParser := r.toParser + [EndOfInput])
  }

  /** An abort with `reason`, sent to the consumer and then to the producer. */
  function AbortBoth<LS, PS, Tok, Node>(p: Producer<LS, Tok, Node>, c: Consumer<PS, Tok, Node>, r: RunState<LS, PS, Tok, Node>, reason: string): RunState<LS, PS, Tok, Node>
  {
    r.(parser := c.handle(r.parser, Abort(reason)), lexer := p.handle(r.lexer, Abort(reason)),
       toParser := r.toParser + [Abort(reason)], toLexer := r.toLexer + [Abort(reason)])
  }

  /** A `NeedToken(n)` from the consumer: request tokens and act on the producer's answer; `true` ends the run. */
  function Supply<LS, PS, Tok, Node>(p: Producer<LS, Tok, Node>, c: Consumer<PS, Tok, Node>, r: RunState<LS, PS, Tok, Node>, n: nat): (RunState<LS, PS, Tok, Node>, bool)
  {
    var (answer, ls) := p.next(p.handle(r.lexer, RequestToken(n)));
    var r1 := r.(lexer := ls, toLexer := r.toLexer + [RequestToken(n)]);
    if answer.None? then (EndBoth(c, r1), true)
    else match answer.value
      case SupplyToken(t) => (r1.(parser := c.handle(r1.parser, SupplyToken(t)), toParser := r1.toParser + [SupplyToken(t)]), false)
      case EndOfInput => (EndBoth(c, r1), true)
      case Blocked(reason) => (AbortBoth(p, c, r1, reason), true)
      case Abort(reason) => (AbortBoth(p, c, r1, reason), true)
      case _ => (r1, false)
  }

  /** One iteration of `StreamingPipeline::run`'s loop; `true` ends the run. */
  function Step<LS, PS, Tok, Node>(p: Producer<LS, Tok, Node>, c: Consumer<PS, Tok, Node>, r: RunState<LS, PS, Tok, Node>): (RunState<LS, PS, Tok, Node>, bool)
  {
    var (signal, ps) := c.next(r.parser);
    var r0 := r.(parser := ps);
    if signal.None? then (r0, true)
    else match signal.value
      case Produced(nodes) => (r0.(results := r0.results + nodes), false)
      case NeedToken(n) => Supply(p, c, r0, n)
      case Finished(nodes) => (r0.(results := r0.results + nodes), true)
      case Blocked(reason) => (AbortBoth(p, c, r0, reason), true)
      case Abort(reason) => (AbortBoth(p, c, r0, reason), true)
      case _ => (r0, false)
  }

  /** `StreamingPipeline::run` from `r`, allowed `fuel` iterations after the first. */
  function RunSpec<LS, PS, Tok, Node>(p: Producer<LS, Tok, Node>, c: Consumer<PS, Tok, Node>, r: RunState<LS, PS, Tok, Node>, fuel: nat): Option<RunState<LS, PS, Tok, Node>>
    decreases fuel
  {
    var (r1, stop) := Step(p, c, r);
    if stop then Some(r1)
    else if fuel == 0 then None
    else RunSpec(p, c, r1, fuel - 1)
  }

  /** Collected nodes are only ever appended to. */
  lemma StepExtendsResults<LS, PS, Tok, Node>(p: Producer<LS, Tok, Node>, c: Consumer<PS, Tok, Node>, r: RunState<LS, PS, Tok, Node>)
    ensures r.results <= Step(p, c, r).0.results
  {
  }

  /** A run never takes back a node it collected. */
  lemma {:induction false} RunExtendsResults<LS, PS, Tok, Node>(p: Producer<LS, Tok, Node>, c: Consumer<PS, Tok, Node>,
                                                                r: RunState<LS, PS, Tok, Node>, fuel: nat)
    requires RunSpec(p, c, r, fuel).Some?
    ensures r.results <= RunSpec(p, c, r, fuel).value.results
    decreases fuel
  {
    StepExtendsResults(p, c, r);
    var (r1, stop) := Step(p, c, r);
    if !stop {
      RunExtendsResults(p, c, r1, fuel - 1);
    }
  }

  /** More fuel changes nothing about a run that ended. */
  lemma {:induction false} RunFuelMonotone<LS, PS, Tok, Node>(p: Producer<LS, Tok, Node>, c: Consumer<PS, Tok, Node>,
                                                              r: RunState<LS, PS, Tok, Node>, fuel: nat, more: nat)
    requires RunSpec(p, c, r, fuel).Some?
    ensures RunSpec(p, c, r, fuel + more) == RunSpec(p, c, r, fuel)
    decreases fuel
  {
    var (r1, stop) := Step(p, c, r);
    if !stop {
      RunFuelMonotone(p, c, r1, fuel - 1, more);
    }
  }

  /** Mid-run, the consumer has only been sent tokens and the producer only requests. */
  predicate Quiet<LS, PS, Tok, Node>(r: RunState<LS, PS, Tok, Node>)
  {
    (forall k :: 0 <= k < |r.toParser| ==> r.toParser[k].SupplyToken?)
    && (forall k :: 0 <= k < |r.toLexer| ==> r.toLexer[k].RequestToken?)
  }

  /** The reason of the abort that ends `msgs`, if it ends with one. */
  function AbortedWith<Tok, Node>(msgs: seq<Signal<Tok, Node>>): (reason: Option<string>)
    ensures reason.Some? <==> |msgs| > 0 && msgs[|msgs| - 1].Abort?
  {
    if |msgs| > 0 && msgs[|msgs| - 1].Abort? then Some(msgs[|msgs| - 1].reason) else None
  }

  /**
   * How a run ends: every signal to the consumer but the last is a token,
   * and the last is a token, the end of input or an abort; every signal to
   * the producer but the last is a token request, and the last a request
   * or an abort; and an abort goes to both sides with the same reason, or
   * to neither.
   */
  predicate Closed<LS, PS, Tok, Node>(r: RunState<LS, PS, Tok, Node>)
  {
    (forall k :: 0 <= k < |r.toParser| - 1 ==> r.toParser[k].SupplyToken?)
    && (|r.toParser| > 0 ==> var last := r.toParser[|r.toParser| - 1]; last.SupplyToken? || last.EndOfInput? || last.Abort?)
    && (forall k :: 0 <= k < |r.toLexer| - 1 ==> r.toLexer[k].RequestToken?)
    && (|r.toLexer| > 0 ==> var last := r.toLexer[|r.toLexer| - 1]; last.RequestToken? || last.Abort?)
    && AbortedWith(r.toParser) == AbortedWith(r.toLexer)
  }

  lemma StepRouting<LS, PS, Tok, Node>(p: Producer<LS, Tok, Node>, c: Consumer<PS, Tok, Node>, r: RunState<LS, PS, Tok, Node>)
    requires Quiet(r)
    ensures var (r1, stop) := Step(p, c, r);
      (!stop ==> Quiet(r1)) && (stop ==> Closed(r1))
  {
  }

  /**
   * The routing of a whole run: the consumer hears tokens and then at
   * most one end of input or abort, the producer hears token requests and
   * then at most one abort, and an abort reaches both with the same
   * reason.
   */
  lemma {:induction false} RunRouting<LS, PS, Tok, Node>(p: Producer<LS, Tok, Node>, c: Consumer<PS, Tok, Node>,
                                                         r: RunState<LS, PS, Tok, Node>, fuel: nat)
    requires Quiet(r) && RunSpec(p, c, r, fuel).Some?
    ensures Closed(RunSpec(p, c, r, fuel).value)
    decreases fuel
  {
    StepRouting(p, c, r);
    var (r1, stop) := Step(p, c, r);
    if !stop {
      RunRouting(p, c, r1, fuel - 1);
    }
  }

  /** The tokens among `msgs`, in order. */
  function SuppliedTokens<Tok, Node>(msgs: seq<Signal<Tok, Node>>): (tokens: seq<Tok>)
    ensures |tokens| <= |msgs|
  {
    if msgs == [] then []
    else SuppliedTokens(msgs[..|msgs| - 1]) + (if msgs[|msgs| - 1].SupplyToken? then [msgs[|msgs| - 1].token] else [])
  }

  lemma SuppliedTokensSnoc<Tok, Node>(msgs: seq<Signal<Tok, Node>>, m: Signal<Tok, Node>)
    ensures SuppliedTokens(msgs + [m]) == SuppliedTokens(msgs) + (if m.SupplyToken? then [m.token] else [])
  {
    assert (msgs + [m])[..|msgs|] == msgs;
  }

  /** A lexer as a producer: its signals are `SignalSpec`, and no signal changes it. */
  function LexerProducer<R, Tok, Node>(g: Lexers.LexRules<R, Tok>, rules: seq<R>): Producer<Scan, Tok, Node>
  {
    Producer((s: Scan) => Lexers.SignalSpec<R, Tok, Node>(g, rules, s), (s: Scan, m: Signal<Tok, Node>) => s)
  }

  /** The tokens relayed so far followed by those the lexer has still to give make up `whole`. */
  ghost predicate Relays<R, PS, Tok, Node>(g: Lexers.LexRules<R, Tok>, rules: seq<R>, r: RunState<Scan, PS, Tok, Node>, whole: seq<Tok>)
  {
    Lexers.Confined(g, rules) && r.lexer.Valid()
    && SuppliedTokens(r.toParser) + Lexers.TokenizeSpec(g, rules, r.lexer).0 == whole
  }

  lemma StepRelays<R, PS, Tok, Node>(g: Lexers.LexRules<R, Tok>, rules: seq<R>, c: Consumer<PS, Tok, Node>,
                                     r: RunState<Scan, PS, Tok, Node>, whole: seq<Tok>)
    requires Relays(g, rules, r, whole)
    ensures var r1 := Step(LexerProducer(g, rules), c, r).0;
      Relays(g, rules, r1, whole)
      && (r1.toParser == r.toParser + [EndOfInput] ==> Lexers.TokenizeSpec(g, rules, r1.lexer).0 == [])
  {
    var p := LexerProducer<R, Tok, Node>(g, rules);
    var (signal, ps) := c.next(r.parser);
    if signal.Some? && signal.value.NeedToken? {
      assert Step(p, c, r).0 == Supply(p, c, r.(parser := ps), signal.value.count).0;
      SupplyRelays(g, rules, c, r.(parser := ps), signal.value.count, whole);
    } else {
      StepWithoutSupply(p, c, r);
    }
  }

  /** A step on which the consumer asks for no token leaves the producer alone and relays no token or end of input. */
  lemma StepWithoutSupply<LS, PS, Tok, Node>(p: Producer<LS, Tok, Node>, c: Consumer<PS, Tok, Node>, r: RunState<LS, PS, Tok, Node>)
    requires !(c.next(r.parser).0.Some? && c.next(r.parser).0.value.NeedToken?)
    ensures var r1 := Step(p, c, r).0;
      SuppliedTokens(r1.toParser) == SuppliedTokens(r.toParser) && r1.toParser != r.toParser + [EndOfInput]
      && (r1.lexer == r.lexer || r1.toParser == r.toParser + [Abort(c.next(r.parser).0.value.reason)])
  {
    var (signal, ps) := c.next(r.parser);
    var r1 := Step(p, c, r).0;
    if signal.Some? && (signal.value.Blocked? || signal.value.Abort?) {
      assert r1.toParser == r.toParser + [Abort(signal.value.reason)];
      SuppliedTokensSnoc(r.toParser, Abort(signal.value.reason));
      assert (r.toParser + [Abort(signal.value.reason)])[|r.toParser|] != (r.toParser + [EndOfInput])[|r.toParser|];
    } else {
      assert r1.toParser == r.toParser && r1.lexer == r.lexer;
    }
  }

  lemma SupplyRelays<R, PS, Tok, Node>(g: Lexers.LexRules<R, Tok>, rules: seq<R>, c: Consumer<PS, Tok, Node>,
                                       r: RunState<Scan, PS, Tok, Node>, n: nat, whole: seq<Tok>)
    requires Relays(g, rules, r, whole)
    ensures var r1 := Supply(LexerProducer(g, rules), c, r, n).0;
      Relays(g, rules, r1, whole)
      && (r1.toParser == r.toParser + [EndOfInput] ==> Lexers.TokenizeSpec(g, rules, r1.lexer).0 == [])
  {
    var p := LexerProducer<R, Tok, Node>(g, rules);
    var s := r.lexer;
    TokenizeAfterSignal<R, Tok, Node>(g, rules, s);
    assert p.handle(s, RequestToken(n)) == s;
    var (answer, s1) := Lexers.SignalSpec<R, Tok, Node>(g, rules, s);
    assert p.next(s) == (answer, s1);
    SupplyEffect(p, c, r, n);
    if answer.Some? && answer.value.SupplyToken? {
      RelayOneMore(r.toParser, answer.value, Lexers.TokenizeSpec(g, rules, s).0, Lexers.TokenizeSpec(g, rules, s1).0, whole);
    } else {
      RelayEnd<Tok, Node>(r.toParser, whole);
    }
  }

  /** Relaying the next token moves it from the tokens still to come to those supplied. */
  lemma RelayOneMore<Tok, Node>(msgs: seq<Signal<Tok, Node>>, m: Signal<Tok, Node>, rest: seq<Tok>, rest1: seq<Tok>, whole: seq<Tok>)
    requires m.SupplyToken? && SuppliedTokens(msgs) + rest == whole && rest == [m.token] + rest1
    ensures SuppliedTokens(msgs + [m]) + rest1 == whole
  {
    SuppliedTokensSnoc(msgs, m);
    assert (SuppliedTokens(msgs) + [m.token]) + rest1 == SuppliedTokens(msgs) + ([m.token] + rest1);
  }

  /** The end of input relays no token. */
  lemma RelayEnd<Tok, Node>(msgs: seq<Signal<Tok, Node>>, whole: seq<Tok>)
    requires SuppliedTokens(msgs) == whole
    ensures SuppliedTokens(msgs + [EndOfInput]) + [] == whole
  {
    SuppliedTokensSnoc(msgs, EndOfInput);
  }

  /** Where a token request leaves the producer and what it sends the consumer, by the producer's answer. */
  lemma SupplyEffect<LS, PS, Tok, Node>(p: Producer<LS, Tok, Node>, c: Consumer<PS, Tok, Node>, r: RunState<LS, PS, Tok, Node>, n: nat)
    ensures var (answer, ls) := p.next(p.handle(r.lexer, RequestToken(n)));
      var r1 := Supply(p, c, r, n).0;
      (answer.None? || answer.value.EndOfInput? ==> r1.lexer == ls && r1.toParser == r.toParser + [EndOfInput])
      && (answer.Some? && answer.value.SupplyToken? ==> r1.lexer == ls && r1.toParser == r.toParser + [answer.value])
  {
  }

  /** What one signal of a lexer takes off the tokens `tokenize` would still give. */
  lemma TokenizeAfterSignal<R, Tok, Node>(g: Lexers.LexRules<R, Tok>, rules: seq<R>, s: Scan)
    requires Lexers.Confined(g, rules) && s.Valid()
    ensures var (answer, s1) := Lexers.SignalSpec<R, Tok, Node>(g, rules, s);
      s1.Valid() && (answer.None? || answer.value.SupplyToken? || answer.value.EndOfInput?)
      && (answer.Some? && answer.value.SupplyToken? ==>
            Lexers.TokenizeSpec(g, rules, s).0 == [answer.value.token] + Lexers.TokenizeSpec(g, rules, s1).0)
      && (!(answer.Some? && answer.value.SupplyToken?) ==> s1 == s && Lexers.TokenizeSpec(g, rules, s1).0 == [])
  {
    Lexers.SignalCases<R, Tok, Node>(g, rules, s);
    Lexers.NextProgress(g, rules, s);
  }

  /**
   * With a lexer as producer, the consumer receives the lexer's tokens in
   * order and no others; once the run ends on the end of input it has
   * received every token `tokenize` would have given.
   */
  lemma LexerRunRelaysTokens<R, PS, Tok, Node>(g: Lexers.LexRules<R, Tok>, rules: seq<R>, c: Consumer<PS, Tok, Node>,
                                               r: RunState<Scan, PS, Tok, Node>, fuel: nat)
    requires Lexers.Confined(g, rules) && r.lexer.Valid() && Quiet(r)
    requires RunSpec(LexerProducer(g, rules), c, r, fuel).Some?
    ensures var f := RunSpec(LexerProducer(g, rules), c, r, fuel).value;
      var whole := SuppliedTokens(r.toParser) + Lexers.TokenizeSpec(g, rules, r.lexer).0;
      SuppliedTokens(f.toParser) <= whole
      && (|f.toParser| > 0 && f.toParser[|f.toParser| - 1] == EndOfInput ==> SuppliedTokens(f.toParser) == whole)
  {
    RunRelays(g, rules, c, r, fuel, SuppliedTokens(r.toParser) + Lexers.TokenizeSpec(g, rules, r.lexer).0);
  }

  /** A run that starts relaying `whole` relays a prefix of it, and all of it when it ends on the end of input. */
  lemma {:induction false} RunRelays<R, PS, Tok, Node>(g: Lexers.LexRules<R, Tok>, rules: seq<R>, c: Consumer<PS, Tok, Node>,
                                                       r: RunState<Scan, PS, Tok, Node>, fuel: nat, whole: seq<Tok>)
    requires Relays(g, rules, r, whole) && Quiet(r)
    requires RunSpec(LexerProducer(g, rules), c, r, fuel).Some?
    ensures var f := RunSpec(LexerProducer(g, rules), c, r, fuel).value;
      SuppliedTokens(f.toParser) <= whole
      && (|f.toParser| > 0 && f.toParser[|f.toParser| - 1] == EndOfInput ==> SuppliedTokens(f.toParser) == whole)
    decreases fuel
  {
    var p := LexerProducer<R, Tok, Node>(g, rules);
    StepRelays(g, rules, c, r, whole);
    StepRouting(p, c, r);
    var (r1, stop) := Step(p, c, r);
    if stop {
      StepEndsWith(p, c, r);
      RelaysPrefix(g, rules, r1, whole);
    } else {
      RunRelays(g, rules, c, r1, fuel - 1, whole);
    }
  }

  /** The tokens relayed so far are a prefix of what is relayed in all. */
  lemma RelaysPrefix<R, PS, Tok, Node>(g: Lexers.LexRules<R, Tok>, rules: seq<R>, r: RunState<Scan, PS, Tok, Node>, whole: seq<Tok>)
    requires Relays(g, rules, r, whole)
    ensures SuppliedTokens(r.toParser) <= whole
  {
    assert whole[..|SuppliedTokens(r.toParser)|] == SuppliedTokens(r.toParser);
  }

  /** A final step that leaves the end of input last added exactly that one signal to the consumer's log. */
  lemma StepEndsWith<LS, PS, Tok, Node>(p: Producer<LS, Tok, Node>, c: Consumer<PS, Tok, Node>, r: RunState<LS, PS, Tok, Node>)
    requires Quiet(r)
    ensures var r1 := Step(p, c, r).0;
      |r1.toParser| > 0 && r1.toParser[|r1.toParser| - 1] == EndOfInput ==> r1.toParser == r.toParser + [EndOfInput]
  {
  }

  /**
   * `StreamingPipeline::run`, allowed `fuel` iterations after the first:
   * `done` tells whether the loop ended by itself, and then `results` are
   * the nodes the run collects.
   */
  method Run<LS, PS, Tok, Node>(p: Producer<LS, Tok, Node>, c: Consumer<PS, Tok, Node>, lexer: LS, parser: PS, fuel: nat)
    returns (results: seq<Node>, done: bool)
    ensures done ==> (RunSpec(p, c, Begin(lexer, parser), fuel).Some?
                      && results == RunSpec(p, c, Begin(lexer, parser), fuel).value.results)
    ensures !done ==> RunSpec(p, c, Begin(lexer, parser), fuel).None?
  {
    var ls, ps := lexer, parser;
    results := [];
    var toParser: seq<Signal<Tok, Node>> := [];
    var toLexer: seq<Signal<Tok, Node>> := [];
    ghost var whole := RunSpec(p, c, Begin(lexer, parser), fuel);
    var left := fuel;
    while true
      invariant whole == RunSpec(p, c, RunState(ls, ps, results, toParser, toLexer), left)
      decreases left
    {
      ghost var r := RunState(ls, ps, results, toParser, toLexer);
      var stop;
      ls, ps, results, toParser, toLexer, stop := Iteration(p, c, ls, ps, results, toParser, toLexer);
      assert (RunState(ls, ps, results, toParser, toLexer), stop) == Step(p, c, r);
      if stop {
        return results, true;
      }
      if left == 0 {
        return results, false;
      }
      left := left - 1;
    }
  }

  /** The body of the loop of `StreamingPipeline::run`. */
  method Iteration<LS, PS, Tok, Node>(p: Producer<LS, Tok, Node>, c: Consumer<PS, Tok, Node>, ls: LS, ps: PS, results: seq<Node>,
                                      toParser: seq<Signal<Tok, Node>>, toLexer: seq<Signal<Tok, Node>>)
    returns (ls': LS, ps': PS, results': seq<Node>, toParser': seq<Signal<Tok, Node>>, toLexer': seq<Signal<Tok, Node>>, stop: bool)
    ensures (RunState(ls', ps', results', toParser', toLexer'), stop) == Step(p, c, RunState(ls, ps, results, toParser, toLexer))
  {
    ls', results', toParser', toLexer' := ls, results, toParser, toLexer;
    var (signal, ps1) := c.next(ps);
    ps' := ps1;
    if signal.None? {
      return ls', ps', results', toParser', toLexer', true;
    }
    match signal.value {
      case Produced(nodes) =>
        results' := results' + nodes;
        stop := false;
      case NeedToken(n) =>
        ls' := p.handle(ls', RequestToken(n));
        toLexer' := toLexer' + [RequestToken(n)];
        var (answer, ls1) := p.next(ls');
        ls' := ls1;
        if answer.None? {
          ps', results', toParser' := EndInput(c, ps', results', toParser');
          stop := true;
        } else {
          match answer.value {
            case SupplyToken(t) =>
              ps' := c.handle(ps', SupplyToken(t));
              toParser' := toParser' + [SupplyToken(t)];
              stop := false;
            case EndOfInput =>
              ps', results', toParser' := EndInput(c, ps', results', toParser');
              stop := true;
            case Blocked(reason) =>
              ls', ps', toParser', toLexer' := AbortSides(p, c, ls', ps', toParser', toLexer', reason);
              stop := true;
            case Abort(reason) =>
              ls', ps', toParser', toLexer' := AbortSides(p, c, ls', ps', toParser', toLexer', reason);
              stop := true;
            case _ =>
              stop := false;
          }
        }
      case Finished(nodes) =>
        results' := results' + nodes;
        stop := true;
      case Blocked(reason) =>
        ls', ps', toParser', toLexer' := AbortSides(p, c, ls', ps', toParser', toLexer', reason);
        stop := true;
      case Abort(reason) =>
        ls', ps', toParser', toLexer' := AbortSides(p, c, ls', ps', toParser', toLexer', reason);
        stop := true;
      case _ =>
        stop := false;
    }
  }

  /** End of input to the consumer, then `finish`. */
  method EndInput<PS, Tok, Node>(c: Consumer<PS, Tok, Node>, ps: PS, results: seq<Node>, toParser: seq<Signal<Tok, Node>>)
    returns (ps': PS, results': seq<Node>, toParser': seq<Signal<Tok, Node>>)
    ensures var (nodes, after) := c.finish(c.handle(ps, EndOfInput));
      ps' == after && results' == results + nodes && toParser' == toParser + [EndOfInput]
  {
    ps' := c.handle(ps, EndOfInput);
    var (nodes, ps1) := c.finish(ps');
    ps' := ps1;
    results' := results + nodes;
    toParser' := toParser + [EndOfInput];
  }

  /** An abort to the consumer, then to the producer. */
  method AbortSides<LS, PS, Tok, Node>(p: Producer<LS, Tok, Node>, c: Consumer<PS, Tok, Node>, ls: LS, ps: PS,
                                       toParser: seq<Signal<Tok, Node>>, toLexer: seq<Signal<Tok, Node>>, reason: string)
    returns (ls': LS, ps': PS, toParser': seq<Signal<Tok, Node>>, toLexer': seq<Signal<Tok, Node>>)
    ensures ps' == c.handle(ps, Abort(reason)) && ls' == p.handle(ls, Abort(reason))
    ensures toParser' == toParser + [Abort(reason)] && toLexer' == toLexer + [Abort(reason)]
  {
    ps' := c.handle(ps, Abort(reason));
    ls' := p.handle(ls, Abort(reason));
    toParser' := toParser + [Abort(reason)];
    toLexer' := toLexer + [Abort(reason)];
  }
}
