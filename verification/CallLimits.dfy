/** Programs that show where the call check goes wrong under the default limits, and where an exception of the operand
    stack leaves its traces. */
module CallLimits {
  import opened ConstValues
  import opened Arithmetic
  import opened Syntax
  import opened Bytecode
  import opened CodeShape
  import opened FrameSemantics
  import opened ReachableFunctions
  import opened Reference
  import opened LikeValues
  import opened Agreement
  import opened EvaluatorTheorems
  import opened EvaluatorLimits
  import opened ConstEvaluators
  import opened ConstantResolution
  import opened CompileTimeCalls
  import opened CallSoundness
  import opened UnfaithfulArguments
  import opened OperatorRuns

  const DEFAULTS: Config := Config(1024, 4096, 512, 1_000_000, 256)

  // ----- 1 + (1 + (1 + ...)) -----

  function Deep(n: nat): Expression {
    if n == 0 then Literally(1) else BinaryExpression(Literally(1), Plus, Deep(n - 1), NoMode)
  }

  lemma {:induction false} DeepIsFine(src: Source, names: set<string>, n: nat)
    ensures ValueExpression(src, Deep(n)) && Resolves(src, names, Deep(n))
    decreases n
  {
    assert names + {} == names;
    if n > 0 { DeepIsFine(src, names, n - 1); }
  }

  /** Nested n deep, it needs n operands more than one. */
  lemma {:induction false} DeepEvaluates(at: Place, sc: Scope, n: nat, height: nat, win: seq<ConstValue>, fuel: nat)
    requires WellFormedSource(at.src) && height <= at.cfg.maxStackSize
    requires ValueExpression(at.src, Deep(n)) && Resolves(at.src, sc.slots.Keys, Deep(n))
    requires fuel > at.cfg.maxStackSize - height
    ensures Evaluate(at, sc, Deep(n), height, win, fuel) == Halts(Limit(StackSize)) <==> height + n >= at.cfg.maxStackSize
    decreases n
  {
    hide WellFormedSource, ApplyBinary;
    DeepIsFine(at.src, sc.slots.Keys, n);
    if n > 0 {
      DeepIsFine(at.src, sc.slots.Keys, n - 1);
      assert Deep(n) == BinaryExpression(Literally(1), Plus, Deep(n - 1), NoMode);
      assert sc.slots.Keys + {} == sc.slots.Keys;
      if height < at.cfg.maxStackSize { DeepEvaluates(at, sc, n - 1, height + 1, win, fuel - 1); }
    }
  }

  /** It raises exactly when it is nested as deep as the stack. */
  lemma DeepRaisesIff(cfg: Config, src: Source, n: nat)
    requires WellFormedSource(src) && cfg.maxIterations > cfg.maxStackSize
    ensures ValueExpression(src, Deep(n))
    ensures Observe(RunDriver(cfg, src, Deep(n))).Raised? <==> n >= cfg.maxStackSize
  {
    hide WellFormedSource, Evaluate, Deep, ValueExpression, Resolves;
    DeepIsFine(src, NO_LOCALS.slots.Keys, n);
    DeepEvaluates(Start(cfg, src), NO_LOCALS, n, 0, InitialLocals(cfg), cfg.maxIterations);
  }

  /** An initialiser that overflows in the least fixed point. */
  lemma AnInitialiserOverflows(cfg: Config)
    requires cfg.maxIterations > cfg.maxStackSize
    ensures var inits := map["c" := Deep(cfg.maxStackSize)];
      AllPlain(inits) && LeastFixedPoint(cfg, inits, map[]) && SomeOverflows(cfg, inits, map[])
  {
    hide Deep, RunDriver, ValueExpression;
    var inits := map["c" := Deep(cfg.maxStackSize)];
    DeepIsFine(ConstantResolution.Known(map[]), {}, cfg.maxStackSize);
    DeepRaisesIff(cfg, ConstantResolution.Known(map[]), cfg.maxStackSize);
    AttemptIsRun(cfg, map[], Deep(cfg.maxStackSize));
    assert inits["c"] == Deep(cfg.maxStackSize);
    assert Advance(cfg, inits, map[]) == map[];
  }

  // ----- f(x) with require(deep), called on 1 -----

  function DeepRequire(cfg: Config): FunctionSymbol {
    FunctionSymbol("f", true, false, false, ["x"], [], [Contract(true, Present(Deep(cfg.maxStackSize)), NoBlock)])
  }

  lemma DeepRequireIsFine(cfg: Config)
    ensures Checkable(map[], DeepRequire(cfg), [Literally(1)])
  {
    hide Deep;
    forall m: Constants ensures ValueExpression(Source(m, map[]), Deep(cfg.maxStackSize)) {
      DeepIsFine(Source(m, map[]), {}, cfg.maxStackSize);
    }
    var args := [Literally(1)];
    assert forall e :: e in args ==> e == Literally(1);
  }

  lemma DeepIsJudged(cfg: Config)
    requires cfg.maxIterations > cfg.maxStackSize >= 1 && Checkable(map[], DeepRequire(cfg), [])
    ensures Bound(map[], ["x"], [MakeInt(1)]) == map["x" := MakeInt(1)]
    ensures JudgeContracts(cfg, Source(map[], map[]), DeepRequire(cfg), [MakeInt(1)]) == Raises
  {
    hide Deep, RunDriver, ValueExpression;
    assert Bound(map[], ["x"][..0], [MakeInt(1)][..0]) == map[];
    var bound := Source(map["x" := MakeInt(1)], map[]);
    DeepRaisesIff(cfg, bound, cfg.maxStackSize);
    assert JudgeRequires(cfg, bound, DeepRequire(cfg).contracts, 0) == Raises;
  }

  /** The clause raises, and the parameter stays bound. */
  lemma ARequireLeavesItsTrace(cfg: Config)
    requires cfg.maxIterations > cfg.maxStackSize >= 1
    ensures Checkable(map[], DeepRequire(cfg), [Literally(1)])
    ensures var src := Source(map[], map[]);
      Judge(cfg, src, DeepRequire(cfg), [Literally(1)]) == Raises &&
      ConstantsAfter(cfg, src, DeepRequire(cfg), [Literally(1)]) == map["x" := MakeInt(1)]
  {
    hide Deep, RunDriver, ValueExpression, JudgeContracts, Bound;
    var src, sym, args := Source(map[], map[]), DeepRequire(cfg), [Literally(1)];
    DeepRequireIsFine(cfg);
    OneIsOne(cfg, src);
    assert args[..0] == [] && sym.contracts[0] in sym.contracts && sym.contracts[0].isRequire;
    assert ValuesOf(cfg, src, args) == Known([] + [MakeInt(1)]);
    assert [] + [MakeInt(1)] == [MakeInt(1)];
    DeepIsJudged(cfg);
  }

  lemma OneIsOne(cfg: Config, src: Source)
    requires WellFormedSource(src) && cfg.maxIterations > cfg.maxStackSize >= 1
    ensures ValueExpression(src, Literally(1)) && RunDriver(cfg, src, Literally(1)) == Value(MakeInt(1))
  {
    hide WellFormedSource;
  }

  // ----- f(p) with p not zero, called on a literal -----

  const NON_ZERO: FunctionSymbol := FunctionSymbol("f", true, false, false, ["p"], [true], [])

  /** The call passes 0, and nothing else is reported of it. */
  lemma AZeroIsReported(cfg: Config, n: int64)
    requires Suffices(cfg)
    ensures CheckableWithin(NO_PROGRAM, {}, NON_ZERO, [Literally(n)]) && Restrict(NO_PROGRAM, {}) == NO_PROGRAM
    ensures Judge(cfg, NO_PROGRAM, NON_ZERO, [Literally(n)]) == if n == 0 then PassesZero(0) else Silent
  {
    hide RunDriver, JudgeContracts, RunCallDriver, Materialize, ValuesOf;
    var args := [Literally(n)];
    WholeIsAPart(NO_PROGRAM, {});
    assert forall e :: e in args ==> e == Literally(n);
    LiteralIsKnown(cfg, NO_PROGRAM, n);
    assert true in NON_ZERO.nonZero;
  }

  lemma LiteralIsKnown(cfg: Config, src: Source, n: int64)
    requires WellFormedSource(src) && Suffices(cfg)
    ensures forall e :: e in [Literally(n)] ==> ValueExpression(src, e)
    ensures var r := ValuesOf(cfg, src, [Literally(n)]);
      r.Known? && |r.values| == 1 && r.values[0].Integer? && r.values[0].intVal == n
  {
    hide RunDriver, WellFormedSource, Materialize;
    var args := [Literally(n)];
    LiteralRuns(cfg, src, Number(n));
    PushedAs(Number(n));
    assert args[..0] == [];
  }

  // ----- f(x) { if (x + x > 255) { throw E; } }, called on (u8)200 -----

  const X: Expression := Identifier("x")
  const ABOVE: Expression := BinaryExpression(BinaryExpression(X, Plus, X, NoMode), Greater, Literally(255), NoMode)
  const IF_ABOVE: Statement := IfStatement(ABOVE, THROW_E, NoBlock)
  const TWICE: ConstFunction := ConstFunction(["x"], Statements(IF_ABOVE, EmptyBlock))
  const TWICE_SOURCE: Source := Source(map[], map["f" := TWICE])
  const U8_200: Expression := CastExpression(8, false, Literally(200))
  const BYTE: ConstValue := Integer(200, 8, false)
  const X_ONLY: Scope := Scope(map["x" := 0], 1)

  lemma TwiceParts(src: Source, names: set<string>)
    requires "x" in names
    ensures ValueExpression(src, ABOVE) && Resolves(src, names, ABOVE) && Declares(ABOVE) == {}
    ensures WellFormed(src, IF_ABOVE) && ResolvesStatement(src, names, IF_ABOVE) && DeclaresStatement(IF_ABOVE) == {}
    ensures WellFormedBlock(src, THROW_E) && ResolvesBlock(src, names, THROW_E)
    ensures WellFormedBlock(src, EmptyBlock) && ResolvesBlock(src, names, EmptyBlock)
    ensures forall n :: StatementCallsReach(src, n, IF_ABOVE)
  {
    assert names + {} == names;
    var sum := BinaryExpression(X, Plus, X, NoMode);
    assert ValueExpression(src, X) && Resolves(src, names, X) && Declares(X) == {};
    assert ValueExpression(src, sum) && Resolves(src, names, sum) && Declares(sum) == {};
    assert THROW_E.head == ThrowStatement("E") && THROW_E.tail == EmptyBlock;
    assert DeclaresBlock(THROW_E) == {} && DeclaresBlock(EmptyBlock) == {};
    forall n ensures StatementCallsReach(src, n, IF_ABOVE) {
      assert CallsReach(src, n, X) && CallsReach(src, n, sum) && CallsReach(src, n, ABOVE);
      assert BlockCallsReach(src, n, EmptyBlock) && BlockCallsReach(src, n, THROW_E);
    }
  }

  lemma TwiceIsFine()
    ensures Compiles(TWICE_SOURCE, TWICE) && WellFormedSource(TWICE_SOURCE) && WindowsSurvive(TWICE_SOURCE)
    ensures ScopeOfParameters(["x"]) == X_ONLY && FinalScope(TWICE) == X_ONLY && NameSet(["x"]) == {"x"}
  {
    hide WellFormed, ResolvesStatement, StatementCallsReach, ScopeAfterStatement;
    assert NameSet(["x"]) == {"x"};
    TwiceParts(TWICE_SOURCE, {"x"});
    assert TWICE.body.head == IF_ABOVE && TWICE.body.tail == EmptyBlock;
    assert ["x"][..0] == [];
    IfKeepsScope();
    assert BlockCallsReach(TWICE_SOURCE, 1, EmptyBlock);
    assert BlockCallsReach(TWICE_SOURCE, 1, TWICE.body);
    assert {"x"} + {} == {"x"};
  }

  lemma IfKeepsScope()
    ensures ScopeAfterStatement(X_ONLY, IF_ABOVE) == X_ONLY
  {
    var sum := BinaryExpression(X, Plus, X, NoMode);
    assert ScopeAfter(X_ONLY, sum) == X_ONLY && ScopeAfter(X_ONLY, ABOVE) == X_ONLY;
    assert ScopeAfterBlock(X_ONLY, THROW_E) == X_ONLY;
  }

  lemma SumWraps(n: int64, w: Width, s: bool)
    requires -0x1_0000_0000 <= n <= 0x1_0000_0000
    ensures ApplyBinary(Plus, NoMode, Integer(n, w, s), Integer(n, w, s)) == Push(Integer(WrapToWidth(n + n, w, s), w, s))
  {
    hide WrapToWidth, LimitsFor, AddOverflows64;
  }

  lemma Sums()
    ensures ApplyBinary(Plus, NoMode, BYTE, BYTE) == Push(Integer(144, 8, false))
    ensures ApplyBinary(Plus, NoMode, MakeInt(200), MakeInt(200)) == Push(MakeInt(400))
  {
    hide ApplyBinary;
    SumWraps(200, 8, false);
    SumWraps(200, 32, true);
    assert Pow2(8) == 256;
    Pow2Fits(31);
    WrapOfSmall(400, 32, true);
  }

  lemma AboveMeans(env: Env, time: nat)
    requires WellFormedSource(TWICE_SOURCE) && env == map["x" := BYTE]
    ensures ValueExpression(TWICE_SOURCE, ABOVE) && Resolves(TWICE_SOURCE, {"x"}, ABOVE)
    ensures Eval(TWICE_SOURCE, {"x"}, env, ABOVE, time) == Got(Bool(false))
  {
    hide WellFormedSource, FitInt, Pow2, ApplyBinary;
    var src, names := TWICE_SOURCE, {"x"};
    TwiceParts(src, names);
    assert names + {} == names;
    Sums();
    Compares(144, 8, false);
    assert Eval(src, names, env, X, time) == Got(BYTE);
    assert Eval(src, names, env, BinaryExpression(X, Plus, X, NoMode), time) == Got(Integer(144, 8, false));
  }

  /** 200 + 200 is 144 in eight bits, so the call returns. */
  lemma TwiceMeans(time: nat)
    requires WellFormedSource(TWICE_SOURCE) && Compiles(TWICE_SOURCE, TWICE)
    ensures Invoke(TWICE_SOURCE, "f", [BYTE], time) == Got(ZERO)
  {
    hide WellFormedSource, Eval, ValueExpression, Resolves;
    var src, names := TWICE_SOURCE, {"x"};
    var env: Env := map["x" := BYTE];
    TwiceIsFine();
    TwiceParts(src, names);
    assert Bind(["x"][..0], [BYTE][..0]) == map[];
    assert Bind(["x"], [BYTE]) == env;
    AboveMeans(env, time);
    assert Exec(src, names, env, IF_ABOVE, time) == Goes(env);
    assert TWICE.body.head == IF_ABOVE && TWICE.body.tail == EmptyBlock;
    assert ExecBlock(src, names + DeclaresStatement(IF_ABOVE), env, EmptyBlock, time) == Goes(env);
  }

  lemma Compares(n: int64, w: Width, s: bool)
    ensures ApplyBinary(Greater, NoMode, Integer(n, w, s), PushedInt(255)) == Push(Bool(n > 255))
  {
  }

  /** Pushed without its width it is 200 in 32 bits, so the machine throws. */
  lemma TwiceRuns()
    requires WellFormedSource(TWICE_SOURCE) && Compiles(TWICE_SOURCE, TWICE)
    ensures RunCallDriver(DEFAULTS, TWICE_SOURCE, "f", [BYTE]) == Value(Thrown("E"))
  {
    hide WellFormedSource, FitInt, Pow2, ApplyBinary, Zeros, RunCallDriver, WindowAfterCall, InitialLocals;
    var src, win, fuel := TWICE_SOURCE, InitialLocals(DEFAULTS), DEFAULTS.maxIterations - 2;
    TwiceIsFine();
    CallDriverIs(DEFAULTS, src, "f", [BYTE], win);
    assert Pushed([BYTE]) == [MakeInt(200)];
    var inside := Place(DEFAULTS, src, |win|, 1);
    assert [MakeInt(200)] + Zeros(0) == [MakeInt(200)];
    TwiceBody(inside, fuel);
    assert ExecuteBody(inside, TWICE, 0, [MakeInt(200)], fuel) == Halts(Value(Thrown("E")));
    assert Call(Start(DEFAULTS, src), "f", [MakeInt(200)], 0, win, fuel) == Halts(Value(Thrown("E")));
  }

  lemma TwiceCondition(at: Place, fuel: nat)
    requires at.src == TWICE_SOURCE && at.cfg.maxStackSize >= 3 && fuel > 10 && WellFormedSource(at.src)
    ensures X_ONLY.slots.Keys == {"x"} && ValueExpression(at.src, ABOVE) && Resolves(at.src, X_ONLY.slots.Keys, ABOVE)
    ensures Evaluate(at, X_ONLY, ABOVE, 0, [MakeInt(200)], fuel) == Yields(Bool(true), [MakeInt(200)], fuel - 5)
  {
    hide WellFormedSource, FitInt, Pow2, ApplyBinary;
    var win, sum := [MakeInt(200)], BinaryExpression(X, Plus, X, NoMode);
    assert X_ONLY.slots.Keys == {"x"};
    TwiceParts(at.src, {"x"});
    Sums();
    Compares(400, 32, true);
    assert {"x"} + {} == {"x"};
    assert Evaluate(at, X_ONLY, X, 0, win, fuel) == Yields(MakeInt(200), win, fuel - 1);
    assert Evaluate(at, X_ONLY, X, 1, win, fuel - 1) == Yields(MakeInt(200), win, fuel - 2);
    assert Evaluate(at, X_ONLY, sum, 0, win, fuel) == Yields(MakeInt(400), win, fuel - 3);
    assert Evaluate(at, X_ONLY, Literally(255), 1, win, fuel - 3) == Yields(PushedInt(255), win, fuel - 4);
  }

  lemma TwiceBody(at: Place, fuel: nat)
    requires at.src == TWICE_SOURCE && at.cfg.maxStackSize >= 3 && fuel > 10 && WellFormedSource(at.src)
    ensures WellFormedBlock(at.src, TWICE.body) && ResolvesBlock(at.src, X_ONLY.slots.Keys, TWICE.body)
    ensures ExecuteBlock(at, X_ONLY, TWICE.body, 0, [MakeInt(200)], fuel) == StatementHalts(Value(Thrown("E")))
  {
    hide WellFormedSource, Evaluate, ValueExpression, Resolves;
    var win := [MakeInt(200)];
    TwiceIsFine();
    TwiceCondition(at, fuel);
    TwiceParts(at.src, {"x"});
    assert THROW_E.head == ThrowStatement("E");
    assert ExecuteBlock(at, X_ONLY, THROW_E, 0, win, fuel - 6) == StatementHalts(Value(Thrown("E")));
    assert ScopeAfter(X_ONLY, ABOVE) == X_ONLY by { KeepsX(); }
    assert Execute(at, X_ONLY, IF_ABOVE, 0, win, fuel) == StatementHalts(Value(Thrown("E")));
    assert TWICE.body.head == IF_ABOVE && TWICE.body.tail == EmptyBlock;
  }

  lemma KeepsX()
    ensures ScopeAfter(X_ONLY, ABOVE) == X_ONLY
  {
    assert ScopeAfter(X_ONLY, BinaryExpression(X, Plus, X, NoMode)) == X_ONLY;
  }

  const TWICE_SYMBOL: FunctionSymbol := FunctionSymbol("f", true, true, true, ["x"], [], [])

  /** The call means 0, and the check reports that it always throws. */
  lemma AByteIsReportedWrongly()
    ensures CheckableWithin(TWICE_SOURCE, {"f"}, TWICE_SYMBOL, [U8_200]) && Restrict(TWICE_SOURCE, {"f"}) == TWICE_SOURCE
    ensures WindowsSurvive(TWICE_SOURCE)
    ensures Judge(DEFAULTS, TWICE_SOURCE, TWICE_SYMBOL, [U8_200]) == AlwaysThrows("E")
    ensures CallMeans(TWICE_SOURCE, "f", [U8_200], Got(ZERO)) && !IsHint("f", AsArguments([U8_200]))
    ensures !Faithful(BYTE)
  {
    hide RunCallDriver, RunDriver, Invoke, Means, Eval, Evaluable, WindowsSurvive, Compiles, Restrict, BlockCalls, Calls;
    var src, args := TWICE_SOURCE, [U8_200];
    TwiceIsFine();
    TwiceRuns();
    TwiceMeans(0);
    TwiceIsCheckable();
    ByteRuns();
    assert args[..0] == [];
    assert ValuesOf(DEFAULTS, src, args) == Known([] + [BYTE]);
    assert [] + [BYTE] == [BYTE];
    CallOfTwice();
  }

  lemma ByteRuns()
    requires WellFormedSource(TWICE_SOURCE)
    ensures ValueExpression(TWICE_SOURCE, U8_200) && RunDriver(DEFAULTS, TWICE_SOURCE, U8_200) == Value(BYTE)
    ensures Resolves(TWICE_SOURCE, {}, U8_200) && Eval(TWICE_SOURCE, {}, NOTHING, U8_200, 0) == Got(BYTE)
  {
    hide WellFormedSource;
    var at, win := Start(DEFAULTS, TWICE_SOURCE), InitialLocals(DEFAULTS);
    assert NO_LOCALS.slots.Keys == {};
    assert ValueExpression(TWICE_SOURCE, Literally(200)) && Resolves(TWICE_SOURCE, {}, Literally(200));
    assert Evaluate(at, NO_LOCALS, Literally(200), 0, win, 1_000_000) == Yields(MakeInt(200), win, 999_999);
    assert Eval(TWICE_SOURCE, {}, NOTHING, Literally(200), 0) == Got(MakeInt(200));
  }

  lemma CallOfTwice()
    requires WellFormedSource(TWICE_SOURCE) && Compiles(TWICE_SOURCE, TWICE)
    ensures CallMeans(TWICE_SOURCE, "f", [U8_200], Got(ZERO))
  {
    hide WellFormedSource, Invoke, Compiles;
    ByteRuns();
    TwiceMeans(0);
    var args := AsArguments([U8_200]);
    assert args == MoreArguments(U8_200, NoArguments) by { assert [U8_200][1..] == []; }
    var none: set<string> := {};
    assert none + Declares(U8_200) == none;
    assert ValueArguments(TWICE_SOURCE, NoArguments) && ResolvesArguments(TWICE_SOURCE, {}, NoArguments);
    assert EvalArguments(TWICE_SOURCE, {}, NOTHING, NoArguments, 0) == GotAll([]);
    assert EvalArguments(TWICE_SOURCE, {}, NOTHING, args, 0) == GotAll([BYTE] + []);
    assert [BYTE] + [] == [BYTE];
    CallOf(TWICE_SOURCE, "f", args, [BYTE], 0, 0, Got(ZERO));
  }

  lemma TwiceIsCheckable()
    ensures CheckableWithin(TWICE_SOURCE, {"f"}, TWICE_SYMBOL, [U8_200]) && Restrict(TWICE_SOURCE, {"f"}) == TWICE_SOURCE
  {
    hide WellFormed, ResolvesStatement;
    WholeIsAPart(TWICE_SOURCE, {"f"});
    TwiceCallsNothing();
    forall m: Constants ensures WellFormedSource(Source(m, TWICE_SOURCE.functions)) {
      TwiceParts(Source(m, TWICE_SOURCE.functions), {"x"});
      assert TWICE.body.head == IF_ABOVE && TWICE.body.tail == EmptyBlock;
    }
    forall m: Constants ensures ValueExpression(Source(m, TWICE_SOURCE.functions), U8_200) {
      assert ValueExpression(Source(m, TWICE_SOURCE.functions), Literally(200));
    }
    var args := [U8_200];
    assert forall e :: e in args ==> e == U8_200;
  }

  lemma TwiceCallsNothing()
    ensures BlockCalls(TWICE.body) == {} && Calls(U8_200) == {}
  {
    var sum := BinaryExpression(X, Plus, X, NoMode);
    assert Calls(X) == {} && Calls(sum) == {} && Calls(ABOVE) == {} && Calls(Literally(200)) == {};
    assert THROW_E.head == ThrowStatement("E") && THROW_E.tail == EmptyBlock;
    assert BlockCalls(EmptyBlock) == {} && BlockCalls(THROW_E) == {};
    assert TWICE.body.head == IF_ABOVE && TWICE.body.tail == EmptyBlock;
  }

  // ----- require(x + x < 256), on the same byte -----

  const BELOW: Expression := BinaryExpression(BinaryExpression(X, Plus, X, NoMode), Less, Literally(256), NoMode)

  lemma BelowParts(src: Source, names: set<string>)
    requires ResolvesName(src, names, "x")
    ensures ValueExpression(src, BELOW) && Resolves(src, names, BELOW)
  {
    hide ResolvesName;
    var sum := BinaryExpression(X, Plus, X, NoMode);
    assert ValueExpression(src, X) && Resolves(src, names, X) && names + {} == names;
    assert ValueExpression(src, sum) && Resolves(src, names, sum) && Declares(sum) == {};
  }

  lemma IsBelow(n: int64, w: Width, s: bool)
    ensures ApplyBinary(Less, NoMode, Integer(n, w, s), PushedInt(256)) == Push(Bool(n < 256))
  {
  }

  /** The clause holds of the byte, and the check reports that it is violated. */
  lemma AByteClauseIsReportedWrongly()
    ensures CheckableWithin(NO_PROGRAM, {}, Requiring(["x"], BELOW), []) && Restrict(NO_PROGRAM, {}) == NO_PROGRAM
    ensures WellFormedSource(NO_PROGRAM) && WindowsSurvive(WithBound(NO_PROGRAM, ["x"], [BYTE]))
    ensures JudgeContracts(DEFAULTS, NO_PROGRAM, Requiring(["x"], BELOW), [BYTE]) == ViolatesRequire(0)
    ensures MeansOn(NO_PROGRAM, ["x"], [BYTE], BELOW, Got(Bool(true)))
  {
    hide RunDriver, Eval, ValueExpression, Calls, Restrict;
    WholeIsAPart(NO_PROGRAM, {});
    BelowCallsNothing();
    forall m: Constants ensures ValueExpression(Source(m, map[]), BELOW) { BelowParts(Source(m, map[]), {"x"}); }
    assert Bound(map[], ["x"][..0], [BYTE][..0]) == map[] && Bind(["x"][..0], [BYTE][..0]) == map[];
    var bound := Source(map["x" := BYTE], map[]);
    BelowRuns(bound);
    assert JudgeRequires(DEFAULTS, bound, Requiring(["x"], BELOW).contracts, 0) == ViolatesRequire(0);
    assert NameSet(["x"]) == {"x"};
    BelowMeans();
  }

  lemma BelowCallsNothing()
    ensures Calls(BELOW) == {}
  {
    var sum := BinaryExpression(X, Plus, X, NoMode);
    assert Calls(X) == {} && Calls(sum) == {} && Calls(Literally(256)) == {};
  }

  lemma BelowRuns(src: Source)
    requires WellFormedSource(src) && "x" in src.constants && src.constants["x"] == BYTE
    ensures ValueExpression(src, BELOW) && RunDriver(DEFAULTS, src, BELOW) == Value(Bool(false))
  {
    hide WellFormedSource, ApplyBinary, InitialLocals;
    var at, win, sum, n := Start(DEFAULTS, src), InitialLocals(DEFAULTS), BinaryExpression(X, Plus, X, NoMode), 1_000_000;
    assert NO_LOCALS.slots.Keys == {};
    BelowParts(src, {});
    Sums();
    IsBelow(400, 32, true);
    assert {} + Declares(X) == {} && {} + Declares(sum) == {};
    assert Evaluate(at, NO_LOCALS, X, 0, win, n) == Yields(MakeInt(200), win, n - 1);
    assert Evaluate(at, NO_LOCALS, X, 1, win, n - 1) == Yields(MakeInt(200), win, n - 2);
    assert Evaluate(at, NO_LOCALS, sum, 0, win, n) == Yields(MakeInt(400), win, n - 3);
    assert Evaluate(at, NO_LOCALS, Literally(256), 1, win, n - 3) == Yields(PushedInt(256), win, n - 4);
    assert Evaluate(at, NO_LOCALS, BELOW, 0, win, n) == Yields(Bool(false), win, n - 5);
  }

  lemma BelowMeans()
    ensures WellFormedSource(NO_PROGRAM) && ValueExpression(NO_PROGRAM, BELOW) && Resolves(NO_PROGRAM, {"x"}, BELOW)
    ensures Eval(NO_PROGRAM, {"x"}, map["x" := BYTE], BELOW, 0) == Got(Bool(true))
  {
    hide ApplyBinary;
    var names, env, sum := {"x"}, map["x" := BYTE], BinaryExpression(X, Plus, X, NoMode);
    BelowParts(NO_PROGRAM, names);
    Sums();
    IsBelow(144, 8, false);
    assert names + {} == names;
    assert Eval(NO_PROGRAM, names, env, X, 0) == Got(BYTE);
    assert Eval(NO_PROGRAM, names, env, sum, 0) == Got(Integer(144, 8, false));
  }

  // ----- a constant x = 1, g() { return x; }, f(x) with require(g() == 1), called on 2 -----

  const GETTER: ConstFunction := ConstFunction([], RETURN_X)
  const G_IS_ONE: Expression := BinaryExpression(CALL_G, EqualEqual, Literally(1), NoMode)
  const CAPTURED: Source := Source(map["x" := MakeInt(1)], map["g" := GETTER])

  lemma CaptureParts(v: ConstValue, names: set<string>)
    requires v.IsConstant()
    ensures var src := Source(map["x" := v], map["g" := GETTER]);
      ValueExpression(src, CALL_G) && Resolves(src, names, CALL_G) && Declares(CALL_G) == {} &&
      ValueExpression(src, G_IS_ONE) && Resolves(src, names, G_IS_ONE) &&
      Compiles(src, GETTER) && WellFormedSource(src) && WellFormedBlock(src, RETURN_X) && ResolvesBlock(src, {}, RETURN_X)
    ensures RETURN_X.head == ReturnStatement(Present(X)) && RETURN_X.tail == EmptyBlock && NameSet([]) == {}
  {
    var src := Source(map["x" := v], map["g" := GETTER]);
    assert NameSet([]) == {} && NoArguments.Count() == 0;
    assert ValueArguments(src, NoArguments) && ResolvesArguments(src, names, NoArguments);
    assert ValueExpression(src, X) && Resolves(src, {}, X) && names + {} == names;
    assert RETURN_X.head == ReturnStatement(Present(X)) && RETURN_X.tail == EmptyBlock;
    assert WellFormedBlock(src, EmptyBlock) && ResolvesBlock(src, {} + DeclaresStatement(RETURN_X.head), EmptyBlock);
  }

  lemma GReturnsItsConstant(names: set<string>, env: Env)
    ensures WellFormedSource(CAPTURED) && ValueExpression(CAPTURED, G_IS_ONE) && Resolves(CAPTURED, names, G_IS_ONE)
    ensures Eval(CAPTURED, names, env, G_IS_ONE, 1) == Got(Bool(true))
  {
    hide WellFormedSource;
    CaptureParts(MakeInt(1), names);
    assert names + {} == names;
    assert Eval(CAPTURED, {}, map[], X, 0) == Got(MakeInt(1));
    assert ExecBlock(CAPTURED, {}, map[], RETURN_X, 0) == Gives(MakeInt(1));
    assert Invoke(CAPTURED, "g", [], 0) == Got(MakeInt(1));
    assert Eval(CAPTURED, names, env, CALL_G, 1) == Got(MakeInt(1));
  }

  /** Evaluated with x bound to 2, g returns 2. */
  lemma GReturnsTheArgument(src: Source)
    requires src == Source(map["x" := MakeInt(2)], map["g" := GETTER])
    ensures WellFormedSource(src) && ValueExpression(src, G_IS_ONE)
    ensures RunDriver(DEFAULTS, src, G_IS_ONE) == Value(Bool(false))
  {
    hide WellFormedSource, InitialLocals, WindowAfterCall;
    CaptureParts(MakeInt(2), {});
    var at, win, n := Start(DEFAULTS, src), InitialLocals(DEFAULTS), 1_000_000;
    var inG, after := Place(DEFAULTS, src, |win|, 1), WindowAfterCall(win, [], 0);
    assert NO_LOCALS.slots.Keys == {} && FinalScope(GETTER) == NO_LOCALS && ScopeOfParameters([]) == NO_LOCALS;
    assert [] + Zeros(0) == [];
    assert Evaluate(inG, NO_LOCALS, X, 0, [], n - 1) == Yields(MakeInt(2), [], n - 2);
    assert ExecuteBlock(inG, NO_LOCALS, RETURN_X, 0, [], n - 1) == Returns(MakeInt(2), [], n - 2);
    assert Call(at, "g", [], 0, win, n - 1) == Yields(MakeInt(2), after, n - 3);
    assert Evaluate(at, NO_LOCALS, CALL_G, 0, win, n) == Yields(MakeInt(2), after, n - 3);
    assert Evaluate(at, NO_LOCALS, Literally(1), 1, after, n - 3) == Yields(MakeInt(1), after, n - 4);
    assert {} + Declares(CALL_G) == {};
  }

  /** Faithful arguments are not enough: a function the clause calls sees the argument in place of a constant. */
  lemma AConstantIsCaptured()
    ensures CheckableWithin(CAPTURED, {"g"}, Requiring(["x"], G_IS_ONE), []) && Restrict(CAPTURED, {"g"}) == CAPTURED
    ensures WindowsSurvive(WithBound(CAPTURED, ["x"], [MakeInt(2)])) && AllFaithful([MakeInt(2)])
    ensures JudgeContracts(DEFAULTS, CAPTURED, Requiring(["x"], G_IS_ONE), [MakeInt(2)]) == ViolatesRequire(0)
    ensures MeansOn(CAPTURED, ["x"], [MakeInt(2)], G_IS_ONE, Got(Bool(true)))
    ensures !Apart(CAPTURED, {"g"}, {"x"})
  {
    hide RunDriver, Eval, ValueExpression, WellFormedSource, Resolves, Restrict, Calls;
    CaptureIsCheckable();
    var sym, m := Requiring(["x"], G_IS_ONE), CAPTURED.constants;
    assert Bound(m, ["x"][..0], [MakeInt(2)][..0]) == m;
    var bound := Source(map["x" := MakeInt(2)], CAPTURED.functions);
    assert Bound(m, ["x"], [MakeInt(2)]) == bound.constants;
    GReturnsTheArgument(bound);
    assert JudgeRequires(DEFAULTS, bound, sym.contracts, 0) == ViolatesRequire(0);
    assert NameSet(["x"]) == {"x"} && NameSet([]) == {};
    GReturnsItsConstant({"x"}, Bind(["x"], [MakeInt(2)]));
    assert RETURN_X.head == ReturnStatement(Present(X));
    assert "x" in StatementLooks({}, RETURN_X.head) && "x" in BlockLooks({}, RETURN_X);
    assert BlockCallsReach(bound, 0, RETURN_X) by { assert BlockCallsReach(bound, 0, EmptyBlock); }
    assert FinalScope(GETTER) == NO_LOCALS && ScopeOfParameters([]) == NO_LOCALS;
  }

  lemma CaptureIsCheckable()
    ensures CheckableWithin(CAPTURED, {"g"}, Requiring(["x"], G_IS_ONE), []) && Restrict(CAPTURED, {"g"}) == CAPTURED
  {
    hide Resolves;
    WholeIsAPart(CAPTURED, {"g"});
    assert Calls(CALL_G) == {"g"} && Calls(Literally(1)) == {} && Calls(G_IS_ONE) == {"g"};
    assert BlockCalls(EmptyBlock) == {} && Calls(X) == {};
    assert RETURN_X.head == ReturnStatement(Present(X)) && RETURN_X.tail == EmptyBlock;
    assert BlockCalls(RETURN_X) == {};
    forall m: Constants
      ensures WellFormedSource(Source(m, CAPTURED.functions))
      ensures ValueExpression(Source(m, CAPTURED.functions), G_IS_ONE)
    {
      var src := Source(m, CAPTURED.functions);
      assert NoArguments.Count() == 0 && ValueArguments(src, NoArguments) && ValueExpression(src, CALL_G);
      assert ValueExpression(src, X) && WellFormedBlock(src, EmptyBlock);
      assert RETURN_X.head == ReturnStatement(Present(X)) && RETURN_X.tail == EmptyBlock;
      assert WellFormedBlock(src, RETURN_X);
    }
  }

  // ----- f() { x = 1; g(); y = 1; if (x) { } else { throw E; } }, and require(f() == 1) where g() loses the x of f -----

  const BOTH: set<string> := {"f", "g"}
  const THROWER: FunctionSymbol := FunctionSymbol("f", true, true, true, [], [], [])
  const F_IS_ONE: Expression := BinaryExpression(CALL_F, EqualEqual, ONE, NoMode)

  lemma ProgramIsClosed(rest: Block)
    requires BlockCalls(rest) == {}
    ensures ClosedUnderCalls(Program(rest), BOTH) && Restrict(Program(rest), BOTH) == Program(rest)
  {
    hide BlockCalls, StatementCalls, Calls;
    WholeIsAPart(Program(rest), BOTH);
    AroundCalls(rest);
  }

  lemma AroundCalls(rest: Block)
    requires BlockCalls(rest) == {}
    ensures BlockCalls(Around(rest).body) == {"g"} && BlockCalls(EmptyBlock) == {}
  {
    var body := Around(rest).body;
    assert ArgumentCalls(NoArguments) == {} && Calls(CALL_G) == {"g"} && Calls(VariableInit("x", ONE)) == {};
    assert body.head == Set("x") && body.tail == Statements(DO_G, rest);
    assert BlockCalls(body.tail) == {"g"};
  }

  lemma FIsOneIsFine(src: Source, names: set<string>)
    requires "f" in src.functions && src.functions["f"].paramNames == []
    ensures ValueExpression(src, CALL_F) && Resolves(src, names, CALL_F) && Declares(CALL_F) == {}
    ensures ValueExpression(src, F_IS_ONE) && Resolves(src, names, F_IS_ONE) && Calls(F_IS_ONE) == {"f"}
  {
    assert ArgumentCalls(NoArguments) == {} && NoArguments.Count() == 0;
    assert ValueArguments(src, NoArguments) && ResolvesArguments(src, names, NoArguments) && names + {} == names;
    assert Calls(CALL_F) == {"f"} && Calls(ONE) == {};
  }

  /** No argument is pushed at all: the program returns, and the check reports that it always throws, because a callee
      has fewer locals than its caller. */
  lemma AShortCalleeIsReportedWrongly()
    ensures var src := Program(THROW_UNLESS_X);
      CheckableWithin(src, BOTH, THROWER, []) && Restrict(src, BOTH) == src && !WindowsSurvive(src) && AllFaithful([]) &&
      Compiles(src, src.functions["f"]) && Invoke(src, "f", [], 1) == Got(ZERO) &&
      Judge(AMPLE, src, THROWER, []) == AlwaysThrows("E")
  {
    hide RunCallDriver, RunDriver, Invoke, WellFormedSource, WindowsSurvive, Compiles, THROW_UNLESS_X;
    var src := Program(THROW_UNLESS_X);
    UnlessFollows();
    UnlessCallsNothing();
    ProgramIsClosed(THROW_UNLESS_X);
    forall m: Constants ensures WellFormedSource(Source(m, src.functions)) {
      AroundIsWellFormed(m, THROW_UNLESS_X, Y_AT_1);
    }
    CallerThrows();
    assert ValuesOf(AMPLE, src, []) == Known([]);
  }

  lemma UnlessCallsNothing()
    ensures BlockCalls(THROW_UNLESS_X) == {}
  {
    UnlessFollows();
    assert THROW_E.head == ThrowStatement("E") && THROW_E.tail == EmptyBlock;
    assert BlockCalls(EmptyBlock) == {} && BlockCalls(THROW_E) == {};
    assert Calls(Identifier("x")) == {} && StatementCalls(UNLESS_X) == {} && Calls(VariableInit("y", ONE)) == {};
    assert BlockCalls(THROW_UNLESS_X.tail) == {};
  }

  /** The clause means true, and the check reports that it is violated, though nothing is bound and nothing captured. */
  lemma AShortCalleeClauseIsReportedWrongly()
    ensures var (src, sym) := (Program(SET_Y), Requiring([], F_IS_ONE));
      CheckableWithin(src, BOTH, sym, []) && Restrict(src, BOTH) == src && AllFaithful([]) && Apart(src, BOTH, {}) &&
      !WindowsSurvive(WithBound(src, [], [])) && JudgeContracts(AMPLE, src, sym, []) == ViolatesRequire(0) &&
      MeansOn(src, [], [], F_IS_ONE, Got(Bool(true)))
  {
    hide RunDriver, Eval, ValueExpression, WellFormedSource, Resolves, WindowsSurvive, SET_Y;
    var (src, sym) := (Program(SET_Y), Requiring([], F_IS_ONE));
    BothFollow();
    YCallsNothing();
    ProgramIsClosed(SET_Y);
    FIsOneIsFine(src, {});
    forall m: Constants
      ensures WellFormedSource(Source(m, src.functions)) && ValueExpression(Source(m, src.functions), F_IS_ONE)
    {
      AroundIsWellFormed(m, SET_Y, Y_AT_1);
      FIsOneIsFine(Source(m, src.functions), {});
    }
    ProgramIsFine(SET_Y, Y_AT_1);
    FIsOneRuns();
    FIsOneMeans();
    assert WithBound(src, [], []) == src && NameSet([]) == {};
    assert JudgeRequires(AMPLE, src, sym.contracts, 0) == ViolatesRequire(0);
  }

  lemma YCallsNothing()
    ensures BlockCalls(SET_Y) == {}
  {
    assert SET_Y.head == Set("y") && SET_Y.tail == RETURN_X && Calls(VariableInit("y", ONE)) == {};
    assert RETURN_X.head == ReturnStatement(Present(X)) && RETURN_X.tail == EmptyBlock;
    assert Calls(X) == {} && BlockCalls(EmptyBlock) == {} && BlockCalls(RETURN_X) == {};
  }

  lemma FIsOneRuns()
    requires WellFormedSource(Program(SET_Y))
    ensures ValueExpression(Program(SET_Y), F_IS_ONE) && RunDriver(AMPLE, Program(SET_Y), F_IS_ONE) == Value(Bool(false))
  {
    hide WellFormedSource, Call, ExecuteBlock, WellFormedBlock, ResolvesBlock, SET_Y;
    var top := Start(AMPLE, Program(SET_Y));
    BothFollow();
    YRuns();
    ProgramCalled(SET_Y, Y_AT_1);
    FIsOneIsFine(Program(SET_Y), NO_LOCALS.slots.Keys);
    var f := Call(top, "f", [], 0, [], 99);
    assert EvaluateArguments(top, NO_LOCALS, NoArguments, 0, [], 100) == YieldsAll([], [], 100);
    assert Evaluate(top, NO_LOCALS, CALL_F, 0, [], 100) == f;
    assert Evaluate(top, NO_LOCALS, ONE, 1, f.window, 89) == Yields(MakeInt(1), f.window, 88);
    assert NO_LOCALS.slots.Keys + {} == NO_LOCALS.slots.Keys;
  }

  lemma FIsOneMeans()
    requires WellFormedSource(Program(SET_Y))
    ensures ValueExpression(Program(SET_Y), F_IS_ONE) && Resolves(Program(SET_Y), {}, F_IS_ONE)
    ensures Eval(Program(SET_Y), {}, NOTHING, F_IS_ONE, 2) == Got(Bool(true))
  {
    hide WellFormedSource, SET_Y;
    BothFollow();
    YMeans();
    ProgramMeans(SET_Y, Y_AT_1, MakeInt(1));
    FIsOneIsFine(Program(SET_Y), {});
    assert Eval(Program(SET_Y), {}, NOTHING, ONE, 2) == Got(MakeInt(1));
    assert {} + Declares(CALL_F) == {};
  }
}
