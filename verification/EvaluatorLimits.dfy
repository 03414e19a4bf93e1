/** Programs that show where the evaluator and the meaning of the trees part, for each side condition. */
module EvaluatorLimits {
  import opened ConstValues
  import opened Arithmetic
  import opened Syntax
  import opened Bytecode
  import opened CodeShape
  import opened FrameSemantics
  import opened Simulation
  import opened Reference
  import opened Agreement
  import opened EvaluatorTheorems

  const AMPLE: Config := Config(16, 128, 16, 100, 0)
  const ONE: Expression := IntegerLiteral(Narrow(1))
  const CALL_F: Expression := FunctionCall("f", NoArguments)

  // ----- g() { } has no locals -----

  const G: ConstFunction := ConstFunction([], EmptyBlock)
  const CALL_G: Expression := FunctionCall("g", NoArguments)
  const DO_G: Statement := ExpressionStatement(CALL_G)

  predicate HasG(src: Source) { "g" in src.functions && src.functions["g"] == G }

  lemma GIsFine(src: Source, names: set<string>)
    requires HasG(src)
    ensures Compiles(src, G) && WellFormedBlock(src, G.body) && FinalScope(G) == NO_LOCALS
    ensures ValueExpression(src, CALL_G) && Resolves(src, names, CALL_G) && Declares(CALL_G) == {}
    ensures WellFormed(src, DO_G) && ResolvesStatement(src, names, DO_G) && DeclaresStatement(DO_G) == {}
    ensures forall sc :: ScopeAfterStatement(sc, DO_G) == sc
  {
    assert NoArguments.Count() == 0 && ValueArguments(src, NoArguments) && ResolvesArguments(src, names, NoArguments);
    assert ScopeOfParameters([]) == NO_LOCALS;
    forall sc ensures ScopeAfterStatement(sc, DO_G) == sc { assert ScopeAfter(sc, CALL_G) == sc; }
  }

  /** The call changes no variable. */
  lemma GMeans(src: Source, names: set<string>, env: Env, time: nat)
    requires WellFormedSource(src) && HasG(src) && time >= 1
    ensures WellFormed(src, DO_G) && ResolvesStatement(src, names, DO_G)
    ensures Exec(src, names, env, DO_G, time) == Goes(env)
  {
    hide WellFormedSource;
    GIsFine(src, names);
    assert NameSet([]) == {};
    assert ExecBlock(src, {}, map[], EmptyBlock, time - 1) == Goes(map[]);
    assert Invoke(src, "g", [], time - 1) == Got(ZERO);
    assert EvalArguments(src, names, env, NoArguments, time) == GotAll([]);
    assert Eval(src, names, env, CALL_G, time) == Got(ZERO);
  }

  /** The return of g cuts the window of its caller to nothing. */
  lemma GCuts(at: Place, sc: Scope, win: seq<ConstValue>, fuel: nat)
    requires WellFormedSource(at.src) && HasG(at.src) && at.depth < at.cfg.maxCallDepth && at.cfg.maxStackSize >= 1
    requires fuel >= 5
    ensures WellFormed(at.src, DO_G) && ResolvesStatement(at.src, sc.slots.Keys, DO_G)
    ensures Execute(at, sc, DO_G, 0, win, fuel) == Falls([], fuel - 4)
  {
    hide WellFormedSource, WindowAfterCall, FinalScope;
    GIsFine(at.src, sc.slots.Keys);
    var inG := at.(base := at.base + |win|, depth := at.depth + 1);
    assert [] + Zeros(0) == [];
    assert ScopeOfParameters([]) == NO_LOCALS;
    assert ExecuteBlock(inG, NO_LOCALS, EmptyBlock, 0, [], fuel - 1) == Falls([], fuel - 1);
    assert ExecuteBody(inG, G, 0, [], fuel - 1) == Yields(ZERO, [], fuel - 2);
    assert WindowAfterCall(win, [], 0) == [] by { NothingIsLeft(win); }
    assert Call(at, "g", [], 0, win, fuel - 1) == Yields(ZERO, [], fuel - 3);
    assert EvaluateArguments(at, sc, NoArguments, 0, win, fuel) == YieldsAll([], win, fuel);
    assert Evaluate(at, sc, CALL_G, 0, win, fuel) == Yields(ZERO, [], fuel - 3);
  }

  lemma NothingIsLeft(win: seq<ConstValue>)
    ensures WindowAfterCall(win, [], 0) == []
  {
  }

  // ----- x = 1 and return x -----

  function Set(x: string): Statement { ExpressionStatement(VariableInit(x, ONE)) }

  const RETURN_X: Block := Statements(ReturnStatement(Present(Identifier("x"))), EmptyBlock)

  lemma SetIsFine(src: Source, names: set<string>, x: string, sc: Scope)
    ensures WellFormed(src, Set(x)) && ResolvesStatement(src, names, Set(x)) && DeclaresStatement(Set(x)) == {x}
    ensures ScopeAfterStatement(sc, Set(x)) == Declare(sc, x)
    ensures StoreExpression(src, VariableInit(x, ONE)) && Resolves(src, names, VariableInit(x, ONE))
  {
    assert ValueExpression(src, ONE) && Resolves(src, names, ONE) && Declares(ONE) == {} && ScopeAfter(sc, ONE) == sc;
  }

  lemma SetMeans(src: Source, names: set<string>, env: Env, x: string, time: nat)
    requires WellFormedSource(src)
    ensures WellFormed(src, Set(x)) && ResolvesStatement(src, names, Set(x))
    ensures Exec(src, names, env, Set(x), time) == Goes(env[x := MakeInt(1)])
  {
    hide WellFormedSource;
    SetIsFine(src, names, x, NO_LOCALS);
    assert Eval(src, names, env, ONE, time) == Got(MakeInt(1));
  }

  lemma SetExecutes(at: Place, sc: Scope, x: string, win: seq<ConstValue>, fuel: nat)
    requires WellFormedSource(at.src) && at.cfg.maxStackSize >= 1 && fuel >= 2
    requires at.base + Declare(sc, x).slots[x] < at.cfg.maxLocals
    ensures WellFormed(at.src, Set(x)) && ResolvesStatement(at.src, sc.slots.Keys, Set(x))
    ensures var slot := Declare(sc, x).slots[x];
      var room := if slot >= |win| then win + Zeros(slot + 64 - |win|) else win;
      Execute(at, sc, Set(x), 0, win, fuel) == Falls(room[slot := MakeInt(1)], fuel - 2)
  {
    hide WellFormedSource, Zeros;
    SetIsFine(at.src, sc.slots.Keys, x, sc);
    assert Evaluate(at, sc, ONE, 0, win, fuel) == Yields(MakeInt(1), win, fuel - 1);
    assert ScopeAfter(sc, VariableInit(x, ONE)) == Declare(sc, x);
  }

  lemma ReturnIsFine(src: Source, names: set<string>)
    requires "x" in names
    ensures WellFormedBlock(src, RETURN_X) && ResolvesBlock(src, names, RETURN_X)
    ensures forall sc :: ScopeAfterBlock(sc, RETURN_X) == sc
    ensures RETURN_X.head == ReturnStatement(Present(Identifier("x"))) && RETURN_X.tail == EmptyBlock
  {
    assert RETURN_X.head == ReturnStatement(Present(Identifier("x"))) && RETURN_X.tail == EmptyBlock;
    assert ValueExpression(src, Identifier("x")) && Resolves(src, names, Identifier("x"));
    assert WellFormedBlock(src, EmptyBlock) && ResolvesBlock(src, names + DeclaresStatement(RETURN_X.head), EmptyBlock);
    forall sc ensures ScopeAfterBlock(sc, RETURN_X) == sc { assert ScopeAfter(sc, Identifier("x")) == sc; }
  }

  lemma ReturnMeans(src: Source, names: set<string>, env: Env, time: nat)
    requires WellFormedSource(src) && "x" in names && "x" in env
    ensures WellFormedBlock(src, RETURN_X) && ResolvesBlock(src, names, RETURN_X)
    ensures ExecBlock(src, names, env, RETURN_X, time) == Gives(env["x"])
  {
    hide WellFormedSource;
    ReturnIsFine(src, names);
    assert Eval(src, names, env, Identifier("x"), time) == Got(env["x"]);
    assert Exec(src, names, env, RETURN_X.head, time) == Gives(env["x"]);
  }

  lemma ReturnExecutes(at: Place, sc: Scope, win: seq<ConstValue>, fuel: nat)
    requires WellFormedSource(at.src) && "x" in sc.slots && at.cfg.maxStackSize >= 1 && fuel >= 1
    ensures WellFormedBlock(at.src, RETURN_X) && ResolvesBlock(at.src, sc.slots.Keys, RETURN_X)
    ensures ExecuteBlock(at, sc, RETURN_X, 0, win, fuel) ==
      if sc.slots["x"] < |win| then Returns(win[sc.slots["x"]], win, fuel - 1) else StatementHalts(Value(Error))
  {
    hide WellFormedSource;
    ReturnIsFine(at.src, sc.slots.Keys);
    var r := Evaluate(at, sc, Identifier("x"), 0, win, fuel);
    assert r == if sc.slots["x"] < |win| then Yields(win[sc.slots["x"]], win, fuel - 1) else Halts(Value(Error));
    assert Execute(at, sc, RETURN_X.head, 0, win, fuel) ==
      if r.Yields? then Returns(r.value, win, fuel - 1) else StatementHalts(Value(Error));
  }

  const THROW_E: Block := Statements(ThrowStatement("E"), EmptyBlock)

  lemma ThrowIsFine(src: Source, names: set<string>, n: nat)
    ensures WellFormedBlock(src, THROW_E) && ResolvesBlock(src, names, THROW_E) && BlockCallsReach(src, n, THROW_E)
    ensures WellFormedSource(src) ==>
      forall env, time: nat :: ExecBlock(src, names, env, THROW_E, time) == Stops(Thrown("E"))
  {
    assert THROW_E.head == ThrowStatement("E") && THROW_E.tail == EmptyBlock;
    assert WellFormedBlock(src, EmptyBlock) && BlockCallsReach(src, n, EmptyBlock);
    assert ResolvesBlock(src, names + DeclaresStatement(THROW_E.head), EmptyBlock);
  }

  // ----- f() { x = 1; g(); return x; }   f() { x = 1; g(); y = 1; return x; } -----

  const SET_Y: Block := Statements(Set("y"), RETURN_X)

  /** x = 1; g(); and what follows. */
  function Around(rest: Block): ConstFunction { ConstFunction([], Statements(Set("x"), Statements(DO_G, rest))) }

  function Program(rest: Block): Source { Source(map[], map["f" := Around(rest), "g" := G]) }

  const X_AT_0: Scope := Scope(map["x" := 0], 1)
  const Y_AT_1: Scope := Scope(map["x" := 0, "y" := 1], 2)

  /** What follows is compiled behind x. */
  ghost predicate Follows(rest: Block, last: Scope) {
    ScopeAfterBlock(X_AT_0, rest) == last && last.next >= 1 &&
    X_AT_0.slots.Keys == {"x"} && forall src :: WellFormedBlock(src, rest) && ResolvesBlock(src, X_AT_0.slots.Keys, rest)
  }

  lemma BothFollow()
    ensures Follows(RETURN_X, X_AT_0) && Follows(SET_Y, Y_AT_1)
  {
    assert SET_Y.head == Set("y") && SET_Y.tail == RETURN_X && X_AT_0.slots.Keys == {"x"};
    forall src: Source
      ensures WellFormedBlock(src, RETURN_X) && ResolvesBlock(src, {"x"}, RETURN_X)
      ensures WellFormedBlock(src, SET_Y) && ResolvesBlock(src, {"x"}, SET_Y)
    {
      ReturnIsFine(src, {"x"});
      SetIsFine(src, {"x"}, "y", X_AT_0);
      ReturnIsFine(src, {"x"} + {"y"});
    }
    var src := Source(map[], map[]);
    SetIsFine(src, {"x"}, "y", X_AT_0);
    ReturnIsFine(src, {"x"});
    assert Declare(X_AT_0, "y") == Y_AT_1;
  }

  lemma ProgramIsFine(rest: Block, last: Scope)
    requires Follows(rest, last)
    ensures var src := Program(rest);
      HasG(src) && WellFormedSource(src) && Compiles(src, Around(rest)) && Compiles(src, G) &&
      FinalScope(Around(rest)) == last && Evaluable(src, CALL_F) && !WindowsSurvive(src)
  {
    hide WellFormed, ResolvesStatement, DeclaresStatement, ScopeAfterStatement;
    var src, body := Program(rest), Around(rest).body;
    GIsFine(src, {"x"});
    GIsFine(src, {});
    SetIsFine(src, {}, "x", NO_LOCALS);
    assert NameSet([]) == {} && {} + {"x"} == {"x"} && {"x"} + {} == {"x"};
    assert Declare(NO_LOCALS, "x") == X_AT_0 && ScopeOfParameters([]) == NO_LOCALS;
    assert body.tail == Statements(DO_G, rest);
    assert body == Statements(Set("x"), body.tail);
    assert WellFormedBlock(src, rest) && ResolvesBlock(src, {"x"}, rest);
    assert WellFormedBlock(src, body.tail) && ResolvesBlock(src, {"x"}, body.tail);
    assert WellFormedBlock(src, body) && ResolvesBlock(src, {}, body);
    assert ScopeAfterBlock(X_AT_0, body.tail) == last;
    assert NoArguments.Count() == 0 && ValueArguments(src, NoArguments) && ResolvesArguments(src, {}, NoArguments);
    CutsWindows(src, last.next, rest);
  }

  lemma AroundIsWellFormed(m: map<string, ConstValue>, rest: Block, last: Scope)
    requires Follows(rest, last)
    ensures WellFormedSource(Source(m, Program(rest).functions))
  {
    hide WellFormed, ResolvesStatement, Compiles;
    var src, body := Source(m, Program(rest).functions), Around(rest).body;
    GIsFine(src, {});
    SetIsFine(src, {}, "x", NO_LOCALS);
    assert body.head == Set("x") && body.tail == Statements(DO_G, rest);
    assert WellFormedBlock(src, rest) && WellFormedBlock(src, body.tail) && WellFormedBlock(src, body);
  }

  lemma CutsWindows(src: Source, n: nat, rest: Block)
    requires HasG(src) && n >= 1
    ensures !BlockCallsReach(src, n, Statements(Set("x"), Statements(DO_G, rest)))
  {
    assert FinalScope(G) == NO_LOCALS by { GIsFine(src, {}); }
    assert NoArguments.Count() == 0;
    assert !CallsReach(src, n, CALL_G);
    assert !BlockCallsReach(src, n, Statements(DO_G, rest));
  }

  /** The body does what the rest does with x bound to 1. */
  lemma BodyMeans(rest: Block, last: Scope)
    requires Follows(rest, last) && WellFormedSource(Program(rest))
    ensures var src := Program(rest);
      Compiles(src, Around(rest)) && WellFormedBlock(src, Around(rest).body) && NameSet([]) == {} &&
      ResolvesBlock(src, {}, Around(rest).body) && WellFormedBlock(src, rest) && ResolvesBlock(src, {"x"}, rest) &&
      ExecBlock(src, {}, map[], Around(rest).body, 1) == ExecBlock(src, {"x"}, map["x" := MakeInt(1)], rest, 1)
  {
    hide WellFormedSource, Exec, WellFormed, ResolvesStatement, DeclaresStatement;
    ProgramIsFine(rest, last);
    var src, body, env := Program(rest), Around(rest).body, map["x" := MakeInt(1)];
    GIsFine(src, {"x"});
    SetIsFine(src, {}, "x", NO_LOCALS);
    SetMeans(src, {}, map[], "x", 1);
    GMeans(src, {"x"}, env, 1);
    assert {} + {"x"} == {"x"} && {"x"} + {} == {"x"} && NameSet([]) == {};
    assert body.tail == Statements(DO_G, rest);
    assert ExecBlock(src, {"x"}, env, body.tail, 1) == ExecBlock(src, {"x"}, env, rest, 1);
  }

  /** The program means what the rest returns with x bound to 1. */
  lemma ProgramMeans(rest: Block, last: Scope, v: ConstValue)
    requires Follows(rest, last) && WellFormedSource(Program(rest))
    requires ExecBlock(Program(rest), {"x"}, map["x" := MakeInt(1)], rest, 1) == Gives(v)
    ensures Evaluable(Program(rest), CALL_F) && Means(Program(rest), {}, NOTHING, CALL_F, Got(v))
    ensures Eval(Program(rest), {}, NOTHING, CALL_F, 2) == Got(v)
  {
    hide WellFormedSource, Exec, WellFormedBlock, ResolvesBlock, Compiles;
    ProgramIsFine(rest, last);
    BodyMeans(rest, last);
    assert Invoke(Program(rest), "f", [], 1) == Got(v);
    CallOfFMeans(Program(rest), v);
  }

  lemma CallOfFMeans(src: Source, v: ConstValue)
    requires Evaluable(src, CALL_F) && Compiles(src, src.functions["f"]) && src.functions["f"].paramNames == []
    requires Invoke(src, "f", [], 1) == Got(v)
    ensures Means(src, {}, NOTHING, CALL_F, Got(v)) && Eval(src, {}, NOTHING, CALL_F, 2) == Got(v)
  {
    hide WellFormedSource, Invoke, Compiles;
    assert EvalArguments(src, {}, NOTHING, NoArguments, 2) == GotAll([]);
    assert Eval(src, {}, NOTHING, CALL_F, 2) == Got(v);
  }

  /** The machine does what the rest does with no window at all. */
  lemma BodyRuns(rest: Block, last: Scope)
    requires Follows(rest, last) && WellFormedSource(Program(rest)) && last.next <= 2
    ensures var (src, inF) := (Program(rest), Place(AMPLE, Program(rest), 0, 1));
      Compiles(src, Around(rest)) && FinalScope(Around(rest)) == last &&
      WellFormedBlock(src, Around(rest).body) && ResolvesBlock(src, NO_LOCALS.slots.Keys, Around(rest).body) &&
      WellFormedBlock(src, rest) && ResolvesBlock(src, X_AT_0.slots.Keys, rest) &&
      ExecuteBlock(inF, NO_LOCALS, Around(rest).body, 0, Zeros(last.next), 99) == ExecuteBlock(inF, X_AT_0, rest, 0, [], 93)
  {
    hide WellFormedSource, Execute, WellFormed, ResolvesStatement, DeclaresStatement, ScopeAfterStatement, FinalScope,
      WindowAfterCall, Zeros;
    ProgramIsFine(rest, last);
    var src, body := Program(rest), Around(rest).body;
    var inF, zeros := Place(AMPLE, src, 0, 1), Zeros(last.next);
    SetIsFine(src, {}, "x", NO_LOCALS);
    GIsFine(src, {"x"});
    SetExecutes(inF, NO_LOCALS, "x", zeros, 99);
    GCuts(inF, X_AT_0, zeros[0 := MakeInt(1)], 97);
    assert NO_LOCALS.slots.Keys == {} && X_AT_0.slots.Keys == {"x"} && Declare(NO_LOCALS, "x") == X_AT_0;
    assert ScopeOfParameters([]) == NO_LOCALS && body.tail == Statements(DO_G, rest);
    assert {} + {"x"} == {"x"} && {"x"} + {} == {"x"};
    assert WellFormedBlock(src, body.tail) && ResolvesBlock(src, {"x"}, body.tail);
    assert ResolvesBlock(src, {}, body) && WellFormedBlock(src, body);
    var r := ExecuteBlock(inF, X_AT_0, rest, 0, [], 93);
    assert ExecuteBlock(inF, X_AT_0, body.tail, 0, zeros[0 := MakeInt(1)], 97) == r;
  }

  lemma ProgramCalled(rest: Block, last: Scope)
    requires Follows(rest, last) && WellFormedSource(Program(rest)) && last.next <= 2
    ensures InitialLocals(AMPLE) == [] && Program(rest).functions["f"] == Around(rest)
    ensures WellFormedBlock(Program(rest), rest) && ResolvesBlock(Program(rest), X_AT_0.slots.Keys, rest)
    ensures var r := ExecuteBlock(Place(AMPLE, Program(rest), 0, 1), X_AT_0, rest, 0, [], 93);
      var call := Call(Start(AMPLE, Program(rest)), "f", [], 0, [], 99);
      (r.StatementHalts? ==> call == Halts(r.outcome)) &&
      (r.Returns? && r.fuel >= 2 ==> call.Yields? && call.value == r.value && call.fuel == r.fuel - 1)
  {
    hide WellFormedSource, ExecuteBlock, Compiles, FinalScope, WindowAfterCall, Zeros, WellFormedBlock, ResolvesBlock;
    BodyRuns(rest, last);
    var (src, inF) := (Program(rest), Place(AMPLE, Program(rest), 0, 1));
    assert InitialLocals(AMPLE) == [] by { assert |InitialLocals(AMPLE)| == 0; }
    assert NO_LOCALS.slots.Keys == {} && ScopeOfParameters([]) == NO_LOCALS;
    assert [] + Zeros(last.next) == Zeros(last.next);
    var r := ExecuteBlock(inF, X_AT_0, rest, 0, [], 93);
    if r.Returns? {
      assert ExecuteBody(inF, Around(rest), 0, Zeros(last.next), 99) == Yields(r.value, r.window, r.fuel);
    }
  }

  /** The machine gives what the rest gives with no window at all. */
  lemma ProgramRuns(rest: Block, last: Scope, o: Outcome)
    requires Follows(rest, last) && WellFormedSource(Program(rest)) && last.next <= 2
    requires var r := ExecuteBlock(Place(AMPLE, Program(rest), 0, 1), X_AT_0, rest, 0, [], 93);
      (r == StatementHalts(o)) || (r.Returns? && r.fuel >= 3 && o == Value(r.value))
    ensures Evaluable(Program(rest), CALL_F) && RunDriver(AMPLE, Program(rest), CALL_F) == o
  {
    hide WellFormedSource, ExecuteBlock, Call, WellFormedBlock, ResolvesBlock;
    ProgramIsFine(rest, last);
    ProgramCalled(rest, last);
    var top := Start(AMPLE, Program(rest));
    assert NO_LOCALS.slots.Keys == {};
    assert EvaluateArguments(top, NO_LOCALS, NoArguments, 0, [], 100) == YieldsAll([], [], 100);
    assert Evaluate(top, NO_LOCALS, CALL_F, 0, [], 100) == Call(top, "f", [], 0, [], 99);
  }

  /** The callee g has no locals, so its return takes the caller's x away: the program means 1, the machine says
      error.  Every side condition but WindowsSurvive holds. */
  lemma CallerLosesItsVariable()
    ensures var src := Program(RETURN_X);
      Evaluable(src, CALL_F) && !WindowsSurvive(src) && Means(src, {}, NOTHING, CALL_F, Got(MakeInt(1))) &&
      RunDriver(AMPLE, src, CALL_F) == Value(Error)
  {
    hide WellFormedSource, RunDriver, Means, WindowsSurvive, Resolves, ValueExpression;
    BothFollow();
    var src := Program(RETURN_X);
    ProgramIsFine(RETURN_X, X_AT_0);
    ReturnMeans(src, {"x"}, map["x" := MakeInt(1)], 1);
    ProgramMeans(RETURN_X, X_AT_0, MakeInt(1));
    ReturnExecutes(Place(AMPLE, src, 0, 1), X_AT_0, [], 93);
    ProgramRuns(RETURN_X, X_AT_0, Value(Error));
  }

  /** A store behind the call fills the window that was cut with zeros, and no error tells of it: the program means 1,
      the machine says 0. */
  lemma CallerReadsZero()
    ensures var src := Program(SET_Y);
      Evaluable(src, CALL_F) && !WindowsSurvive(src) && Means(src, {}, NOTHING, CALL_F, Got(MakeInt(1))) &&
      RunDriver(AMPLE, src, CALL_F) == Value(ZERO)
  {
    hide WellFormedSource, RunDriver, Means, WindowsSurvive, Resolves, ValueExpression;
    BothFollow();
    ProgramIsFine(SET_Y, Y_AT_1);
    YMeans();
    ProgramMeans(SET_Y, Y_AT_1, MakeInt(1));
    YRuns();
    ProgramRuns(SET_Y, Y_AT_1, Value(ZERO));
  }

  lemma YMeans()
    requires WellFormedSource(Program(SET_Y))
    ensures WellFormedBlock(Program(SET_Y), SET_Y) && ResolvesBlock(Program(SET_Y), {"x"}, SET_Y)
    ensures ExecBlock(Program(SET_Y), {"x"}, map["x" := MakeInt(1)], SET_Y, 1) == Gives(MakeInt(1))
  {
    hide WellFormedSource, Exec;
    var src, env := Program(SET_Y), map["x" := MakeInt(1)];
    BothFollow();
    SetIsFine(src, {"x"}, "y", X_AT_0);
    SetMeans(src, {"x"}, env, "y", 1);
    ReturnMeans(src, {"x"} + {"y"}, env["y" := MakeInt(1)], 1);
    assert SET_Y.head == Set("y") && SET_Y.tail == RETURN_X;
  }

  lemma YRuns()
    requires WellFormedSource(Program(SET_Y))
    ensures WellFormedBlock(Program(SET_Y), SET_Y) && ResolvesBlock(Program(SET_Y), X_AT_0.slots.Keys, SET_Y)
    ensures var r := ExecuteBlock(Place(AMPLE, Program(SET_Y), 0, 1), X_AT_0, SET_Y, 0, [], 93);
      r.Returns? && r.value == ZERO && r.fuel == 90
  {
    hide WellFormedSource, Execute;
    var src := Program(SET_Y);
    var inF := Place(AMPLE, src, 0, 1);
    BothFollow();
    assert X_AT_0.slots.Keys == {"x"} && Declare(X_AT_0, "y") == Y_AT_1 && Y_AT_1.slots.Keys == {"x"} + {"y"};
    SetIsFine(src, {"x"}, "y", X_AT_0);
    SetExecutes(inF, X_AT_0, "y", [], 93);
    var win := ([] + Zeros(65))[1 := MakeInt(1)];
    ReturnExecutes(inF, Y_AT_1, win, 91);
    assert SET_Y.head == Set("y") && SET_Y.tail == RETURN_X;
  }

  // ----- f() { x = 1; g(); y = 1; if (x) { } else { throw E; } } -----

  const UNLESS_X: Statement := IfStatement(Identifier("x"), EmptyBlock, SomeBlock(THROW_E))
  const THROW_UNLESS_X: Block := Statements(Set("y"), Statements(UNLESS_X, EmptyBlock))

  lemma UnlessIsFine(src: Source, names: set<string>, sc: Scope)
    requires "x" in names
    ensures WellFormed(src, UNLESS_X) && ResolvesStatement(src, names, UNLESS_X) && DeclaresStatement(UNLESS_X) == {}
    ensures ScopeAfterStatement(sc, UNLESS_X) == sc && Declares(Identifier("x")) == {}
    ensures ValueExpression(src, Identifier("x")) && Resolves(src, names, Identifier("x"))
    ensures WellFormedBlock(src, EmptyBlock) && ResolvesBlock(src, names, EmptyBlock)
  {
    assert names + {} == names;
    ThrowIsFine(src, names, 0);
    assert THROW_E.head == ThrowStatement("E") && THROW_E.tail == EmptyBlock;
    assert DeclaresBlock(THROW_E) == {} && DeclaresBlock(EmptyBlock) == {};
    assert ScopeAfter(sc, Identifier("x")) == sc && ScopeAfterBlock(sc, THROW_E) == sc;
  }

  lemma UnlessFollows()
    ensures Follows(THROW_UNLESS_X, Y_AT_1)
    ensures THROW_UNLESS_X.head == Set("y") && THROW_UNLESS_X.tail == Statements(UNLESS_X, EmptyBlock)
  {
    hide WellFormed, ResolvesStatement, ScopeAfterStatement;
    var rest := THROW_UNLESS_X;
    assert rest.head == Set("y") && rest.tail == Statements(UNLESS_X, EmptyBlock) && X_AT_0.slots.Keys == {"x"};
    forall src: Source ensures WellFormedBlock(src, rest) && ResolvesBlock(src, {"x"}, rest) {
      SetIsFine(src, {"x"}, "y", X_AT_0);
      UnlessIsFine(src, {"x"} + {"y"}, Y_AT_1);
      assert ({"x"} + {"y"}) + {} == {"x"} + {"y"};
      assert ResolvesBlock(src, {"x"} + {"y"}, rest.tail) && WellFormedBlock(src, rest.tail);
    }
    SetIsFine(Source(map[], map[]), {"x"}, "y", X_AT_0);
    UnlessIsFine(Source(map[], map[]), {"x"}, Y_AT_1);
    assert Declare(X_AT_0, "y") == Y_AT_1 && ScopeAfterBlock(Y_AT_1, rest.tail) == Y_AT_1;
  }

  /** The callee g has no locals: the program returns, and the machine throws. */
  lemma CallerThrows()
    ensures var src := Program(THROW_UNLESS_X);
      WellFormedSource(src) && Compiles(src, src.functions["f"]) && !WindowsSurvive(src) &&
      Invoke(src, "f", [], 1) == Got(ZERO) && RunCallDriver(AMPLE, src, "f", []) == Value(Thrown("E"))
  {
    hide WellFormedSource, Compiles, WindowsSurvive, Exec, ExecuteBlock, ExecBlock, Call, RunCallDriver, WellFormedBlock,
      ResolvesBlock, Around, THROW_UNLESS_X;
    var (rest, src) := (THROW_UNLESS_X, Program(THROW_UNLESS_X));
    UnlessFollows();
    ProgramIsFine(rest, Y_AT_1);
    BodyMeans(rest, Y_AT_1);
    UnlessMeans(src);
    ProgramCalled(rest, Y_AT_1);
    UnlessRuns(src);
    CallDriverIs(AMPLE, src, "f", [], []);
  }

  lemma UnlessMeans(src: Source)
    requires WellFormedSource(src)
    ensures WellFormedBlock(src, THROW_UNLESS_X) && ResolvesBlock(src, {"x"}, THROW_UNLESS_X)
    ensures ExecBlock(src, {"x"}, map["x" := MakeInt(1)], THROW_UNLESS_X, 1).Goes?
  {
    hide WellFormedSource;
    var env := map["x" := MakeInt(1)]["y" := MakeInt(1)];
    UnlessFollows();
    SetIsFine(src, {"x"}, "y", X_AT_0);
    SetMeans(src, {"x"}, map["x" := MakeInt(1)], "y", 1);
    UnlessIsFine(src, {"x"} + {"y"}, Y_AT_1);
    assert ({"x"} + {"y"}) + {} == {"x"} + {"y"};
    assert Eval(src, {"x"} + {"y"}, env, Identifier("x"), 1) == Got(MakeInt(1));
    assert ExecBlock(src, {"x"} + {"y"}, env, EmptyBlock, 1) == Goes(env);
    assert Exec(src, {"x"} + {"y"}, env, UNLESS_X, 1) == Goes(env);
  }

  lemma UnlessRuns(src: Source)
    requires WellFormedSource(src)
    ensures WellFormedBlock(src, THROW_UNLESS_X) && ResolvesBlock(src, X_AT_0.slots.Keys, THROW_UNLESS_X)
    ensures ExecuteBlock(Place(AMPLE, src, 0, 1), X_AT_0, THROW_UNLESS_X, 0, [], 93) == StatementHalts(Value(Thrown("E")))
  {
    hide WellFormedSource, Execute, WellFormed, ResolvesStatement, ScopeAfterStatement;
    var inF := Place(AMPLE, src, 0, 1);
    UnlessFollows();
    assert X_AT_0.slots.Keys == {"x"} && Declare(X_AT_0, "y") == Y_AT_1 && Y_AT_1.slots.Keys == {"x"} + {"y"};
    SetIsFine(src, {"x"}, "y", X_AT_0);
    SetExecutes(inF, X_AT_0, "y", [], 93);
    UnlessIsFine(src, {"x"} + {"y"}, Y_AT_1);
    UnlessThrows(inF, ([] + Zeros(65))[1 := MakeInt(1)], 91);
  }

  lemma UnlessThrows(at: Place, win: seq<ConstValue>, fuel: nat)
    requires WellFormedSource(at.src) && at.cfg.maxStackSize >= 1 && fuel >= 4 && |win| > 0 && win[0] == ZERO
    ensures WellFormed(at.src, UNLESS_X) && ResolvesStatement(at.src, Y_AT_1.slots.Keys, UNLESS_X)
    ensures Execute(at, Y_AT_1, UNLESS_X, 0, win, fuel) == StatementHalts(Value(Thrown("E")))
  {
    hide WellFormedSource;
    assert Y_AT_1.slots.Keys == {"x"} + {"y"};
    UnlessIsFine(at.src, Y_AT_1.slots.Keys, Y_AT_1);
    ThrowIsFine(at.src, Y_AT_1.slots.Keys, 0);
    assert Evaluate(at, Y_AT_1, Identifier("x"), 0, win, fuel) == Yields(ZERO, win, fuel - 1);
    assert THROW_E.head == ThrowStatement("E") && THROW_E.tail == EmptyBlock;
    assert ScopeAfter(Y_AT_1, Identifier("x")) == Y_AT_1;
    assert ExecuteBlock(at, Y_AT_1, THROW_E, 0, win, fuel - 2) == StatementHalts(Value(Thrown("E")));
  }

  // ----- 1 + (x = 2) -----

  const NESTED_STORE: Expression :=
    BinaryExpression(ONE, Plus, VariableInit("x", IntegerLiteral(Narrow(2))), NoMode)

  const NESTED_CODE: Code :=
    Code([Instruction(PUSH_INT, 0), Instruction(PUSH_INT, 1), Instruction(STORE_LOCAL, 0), Instruction(BINARY(Plus), 0),
          Instruction(HALT, 0)], [1, 2], [], [])

  /** A store inside a value compiles, and its code pops an empty stack. */
  lemma NestedStoreUnderflows()
    ensures var lk := Linkage(Source(map[], map[]), map[]); var im := Image(NESTED_CODE, []);
      Linked(lk, im) && HoldsDriver(lk, im.code, NESTED_STORE) && RunImage(AMPLE, im) == Underflow
  {
    hide RunImage;
    assert Size(VariableInit("x", IntegerLiteral(Narrow(2)))) == 2;
    NestedStoreRuns(Image(NESTED_CODE, []));
  }

  lemma NestedStoreRuns(im: Image)
    requires im == Image(NESTED_CODE, [])
    ensures RunImage(AMPLE, im) == Underflow
  {
    hide Run, Zeros;
    var (s0, v, w) := (InitialState(AMPLE), PushedInt(1), PushedInt(2));
    assert s0.locals == [] by { assert |InitialLocals(AMPLE)| == 0; }
    var s1, s2 := State(1, [v], [], 0, []), State(2, [v, w], [], 0, []);
    var s3 := State(3, [v], ([] + Zeros(64))[0 := w], 0, []);
    assert Step(AMPLE, im, s0) == Next(s1);
    assert Step(AMPLE, im, s1) == Next(s2) by { assert [v] + [w] == [v, w]; }
    assert Step(AMPLE, im, s2) == Next(s3) by { assert [v, w][..1] == [v]; }
    assert Step(AMPLE, im, s3) == Done(Underflow);
    OneStep(AMPLE, im, s0, 100);
    OneStep(AMPLE, im, s1, 99);
    OneStep(AMPLE, im, s2, 98);
    OneStep(AMPLE, im, s3, 97);
  }

  // ----- h(x, y) { } called on one argument -----

  const H: ConstFunction := ConstFunction(["x", "y"], EmptyBlock)
  const TOO_FEW: Expression := FunctionCall("h", MoreArguments(ONE, NoArguments))
  const TOO_FEW_CODE: Code :=
    Code([Instruction(PUSH_INT, 0), Instruction(CALL, 0), Instruction(HALT, 0), Instruction(PUSH_INT, 1),
          Instruction(RET, 0)], [1, 0], [], [])

  /** A call with too few arguments compiles, and takes operands that are not there. */
  lemma TooFewArgumentsUnderflow()
    ensures var lk := Linkage(Source(map[], map["h" := H]), map["h" := 0]);
      var im := Image(TOO_FEW_CODE, [CompiledFunction("h", 2, 2, CodeStart(3))]);
      WellFormedSource(lk.src) && Linked(lk, im) && HoldsDriver(lk, im.code, TOO_FEW) && RunImage(AMPLE, im) == Underflow
  {
    hide Linked, WellFormedSource, HoldsDriver, RunImage, ValueExpression;
    var lk := Linkage(Source(map[], map["h" := H]), map["h" := 0]);
    var im := Image(TOO_FEW_CODE, [CompiledFunction("h", 2, 2, CodeStart(3))]);
    TwoSlots();
    EmptyBodyIsHeld(lk, im, ["x", "y"], 3);
    TooFewHeld(lk);
    TooFewRuns(im);
  }

  lemma TooFewHeld(lk: Linkage)
    requires lk.index == map["h" := 0]
    ensures HoldsDriver(lk, TOO_FEW_CODE, TOO_FEW)
  {
    var one := MoreArguments(ONE, NoArguments);
    assert one.Count() == 1 && SizeOfArguments(NoArguments) == 0 && SizeOfArguments(one) == 1;
    assert CodeOfArguments(lk, TOO_FEW_CODE, NO_LOCALS, NoArguments, 1);
    assert CodeOfArguments(lk, TOO_FEW_CODE, NO_LOCALS, one, 0);
  }

  lemma TooFewRuns(im: Image)
    requires im == Image(TOO_FEW_CODE, [CompiledFunction("h", 2, 2, CodeStart(3))])
    ensures RunImage(AMPLE, im) == Underflow
  {
    var s0, s1 := InitialState(AMPLE), State(1, [PushedInt(1)], [], 0, []);
    assert Step(AMPLE, im, s0) == Next(s1);
    assert Step(AMPLE, im, s1) == Done(Underflow);
    assert Run(AMPLE, im, s1, 99) == Underflow;
  }

  lemma TwoSlots()
    ensures ScopeOfParameters(["x", "y"]).next == 2 && Distinct(["x", "y"])
  {
    assert "x" != "y";
    assert Distinct(["x", "y"]);
  }

  /** A function with distinct parameters and no body is held where its return lies. */
  lemma EmptyBodyIsHeld(lk: Linkage, im: Image, params: seq<string>, lo: nat)
    requires lk.src.functions == map["h" := ConstFunction(params, EmptyBlock)] && lk.index == map["h" := 0]
    requires PushesConstant(im.code, lo, ZERO) && At(im.code, lo + 1, RET, 0)
    requires im.functions == [CompiledFunction("h", |params|, ScopeOfParameters(params).next, CodeStart(lo))]
    ensures Linked(lk, im)
    ensures Distinct(params) ==> WellFormedSource(lk.src)
  {
    hide ScopeOfParameters, PushesConstant, At, Distinct, NameSet;
    var fn := ConstFunction(params, EmptyBlock);
    assert lk.src.functions["h"] == fn && lk.index["h"] == 0;
    assert Compiles(lk.src, fn) && WellFormedBlock(lk.src, EmptyBlock);
    assert CodeOfBlock(lk, im.code, ScopeOfParameters(params), EmptyBlock, lo) && SizeOfBlock(EmptyBlock) == 0;
    assert CodeOfFunction(lk, im.code, fn, lo);
    assert FinalScope(fn) == ScopeOfParameters(params);
    assert HoldsFunction(lk, im.code, fn, im.functions[0]);
  }

  // ----- h(x, x) { } -----

  const TWO_OF_ONE_NAME: ConstFunction := ConstFunction(["x", "x"], EmptyBlock)
  const ON_ONE_AND_ONE: Expression := FunctionCall("h", MoreArguments(ONE, MoreArguments(ONE, NoArguments)))
  const ON_ONE_AND_ONE_CODE: Code :=
    Code([Instruction(PUSH_INT, 0), Instruction(PUSH_INT, 0), Instruction(CALL, 0), Instruction(HALT, 0),
          Instruction(PUSH_INT, 1), Instruction(RET, 0)], [1, 0], [], [])

  /** Two parameters of one name share a slot, so the function has fewer locals than parameters, and a call stores the
      second argument behind the locals it made room for. */
  lemma RepeatedParametersAreUndefined()
    ensures var lk := Linkage(Source(map[], map["h" := TWO_OF_ONE_NAME]), map["h" := 0]);
      var im := Image(ON_ONE_AND_ONE_CODE, [CompiledFunction("h", 2, 1, CodeStart(4))]);
      ValueExpression(lk.src, ON_ONE_AND_ONE) && Linked(lk, im) && HoldsDriver(lk, im.code, ON_ONE_AND_ONE) &&
      RunImage(AMPLE, im) == Undefined
  {
    hide Linked, WellFormedSource, HoldsDriver, RunImage, ValueExpression;
    var lk := Linkage(Source(map[], map["h" := TWO_OF_ONE_NAME]), map["h" := 0]);
    var im := Image(ON_ONE_AND_ONE_CODE, [CompiledFunction("h", 2, 1, CodeStart(4))]);
    OneSlot();
    EmptyBodyIsHeld(lk, im, ["x", "x"], 4);
    OneAndOneHeld(lk);
    OneAndOneRuns(im);
  }

  lemma OneAndOneHeld(lk: Linkage)
    requires lk == Linkage(Source(map[], map["h" := TWO_OF_ONE_NAME]), map["h" := 0])
    ensures ValueExpression(lk.src, ON_ONE_AND_ONE) && HoldsDriver(lk, ON_ONE_AND_ONE_CODE, ON_ONE_AND_ONE)
  {
    var one := MoreArguments(ONE, NoArguments);
    var two := MoreArguments(ONE, one);
    assert NoArguments.Count() == 0 && one.Count() == 1 && two.Count() == 2;
    assert ValueArguments(lk.src, NoArguments) && ValueArguments(lk.src, one) && ValueArguments(lk.src, two);
    assert SizeOfArguments(NoArguments) == 0 && SizeOfArguments(one) == 1 && SizeOfArguments(two) == 2;
    assert CodeOfArguments(lk, ON_ONE_AND_ONE_CODE, NO_LOCALS, NoArguments, 2);
    assert CodeOfArguments(lk, ON_ONE_AND_ONE_CODE, NO_LOCALS, one, 1);
    assert CodeOfArguments(lk, ON_ONE_AND_ONE_CODE, NO_LOCALS, two, 0);
  }

  lemma OneAndOneRuns(im: Image)
    requires im == Image(ON_ONE_AND_ONE_CODE, [CompiledFunction("h", 2, 1, CodeStart(4))])
    ensures RunImage(AMPLE, im) == Undefined
  {
    var v := PushedInt(1);
    var s0, s1, s2 := InitialState(AMPLE), State(1, [v], [], 0, []), State(2, [v, v], [], 0, []);
    assert Step(AMPLE, im, s0) == Next(s1);
    assert Step(AMPLE, im, s1) == Next(s2) by { assert [v] + [v] == [v, v]; }
    assert Step(AMPLE, im, s2) == Done(Undefined);
    assert Run(AMPLE, im, s2, 98) == Undefined;
    assert Run(AMPLE, im, s1, 99) == Undefined;
  }

  lemma OneSlot()
    ensures ScopeOfParameters(["x", "x"]).next == 1
  {
    assert ["x", "x"][..1] == ["x"] && ["x"][..0] == [];
    assert ScopeOfParameters([]) == NO_LOCALS;
    assert ScopeOfParameters(["x"]) == X_AT_0;
  }
}
