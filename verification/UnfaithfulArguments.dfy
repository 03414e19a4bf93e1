/** For every argument that pushing changes there is a function of which the call check says wrongly that it always
    throws, and a require clause of which it says wrongly that the call violates it. */
module UnfaithfulArguments {
  import opened ConstValues
  import opened Arithmetic
  import opened Syntax
  import opened Bytecode
  import opened CodeShape
  import opened FrameSemantics
  import opened ReachableFunctions
  import opened Reference
  import opened LikeValues
  import opened Agreement
  import opened EvaluatorTheorems
  import opened EvaluatorLimits
  import opened ConstEvaluators
  import opened ConstantResolution
  import opened CompileTimeCalls
  import opened CallSoundness

  // ----- an expression that is true of one value and false of what pushing makes of it -----

  /** A number that fits the width of v otherwise than that of the pushed v. */
  function Telling(v: ConstValue): int64
    requires v.Integer?
  {
    if !v.signed && v.width < 64 then -1
    else if v.signed && v.width < PushedInt(v.intVal).width then Pow2Fits(v.width - 1); Pow2(v.width - 1)
    else 0x8000_0000
  }

  lemma Pow2Fits(n: nat)
    requires n < 63
    ensures Pow2(n) <= Pow2(62) == 0x4000_0000_0000_0000
    ensures n < 31 ==> Pow2(n) <= 0x4000_0000
    ensures n >= 32 ==> Pow2(n) >= 0x1_0000_0000
    ensures Pow2(30) == 0x4000_0000 && Pow2(31) == 0x8000_0000 && Pow2(32) == 0x1_0000_0000
  {
    Pow2Of63();
    Pow2Next(62);
    Pow2Monotone(n, 62);
    Pow2Twice(1, 2); Pow2Twice(2, 4); Pow2Twice(4, 16); Pow2Twice(8, 256); Pow2Twice(16, 0x1_0000);
    Pow2Next(31); Pow2Next(30);
    if n < 31 { Pow2Monotone(n, 30); }
    if n >= 32 { Pow2Monotone(32, n); }
  }

  /** A number below the power of the width is itself, or that much less in the upper half of a signed width. */
  lemma WrapOfSmall(n: int64, w: Width, s: bool)
    requires w < 64 && 0 <= n < Pow2(w)
    ensures WrapToWidth(n, w, s) == if s && n >= Pow2(w - 1) then n - Pow2(w) else n
  {
    Pow2Monotone(w, 63);
    Pow2Of63();
    QuotientIsUnique(n, Pow2(w), n / Pow2(w), n % Pow2(w), 0, n);
  }

  lemma WrapOfMinusOne(w: Width)
    requires w < 64
    ensures WrapToWidth(-1, w, false) >= 0
    ensures WrapToWidth(-1, 32, true) == -1
  {
    Pow2Of63();
    Pow2Fits(32);
    assert Unsigned64(-1) % 0x1_0000_0000 == 0xFFFF_FFFF;
  }

  lemma TellingTells(v: ConstValue)
    requires v.Integer? && !Faithful(v)
    ensures WrapToWidth(Telling(v), v.width, v.signed) !=
            WrapToWidth(Telling(v), PushedInt(v.intVal).width, true)
  {
    var (s, n) := (v.signed, Telling(v));
    var w: nat, m: nat := v.width, PushedInt(v.intVal).width;
    FaithfulIff(v);
    if s && w < m {
      Pow2Next(w - 1);
      WrapOfSmall(n, w, s);
      if m == 32 { SignedTelling(n, w); }
    } else if !s && w < 64 {
      WrapOfMinusOne(w);
    } else {
      Pow2Fits(32);
      WrapOfSmall(n, 32, true);
      if w < 64 { WideTelling(w); }
    }
  }

  lemma SignedTelling(n: int64, w: Width)
    requires w < 32 && n == Pow2(w - 1)
    ensures WrapToWidth(n, 32, true) == n > 0
  {
    Pow2Fits(w - 1);
    WrapOfSmall(n, 32, true);
  }

  lemma WideTelling(w: Width)
    requires 32 < w < 64
    ensures WrapToWidth(0x8000_0000, w, true) == 0x8000_0000
  {
    Pow2Fits(w - 1);
    Pow2Next(w - 1);
    WrapOfSmall(0x8000_0000, w, true);
  }

  function Literally(n: int64): Expression { IntegerLiteral(Narrow(n)) }

  /** (x - x) + (i1)n, which has the width and the sign of x. */
  function Fitted(x: string, n: int64): Expression {
    BinaryExpression(BinaryExpression(Identifier(x), Minus, Identifier(x), NoMode), Plus,
                     CastExpression(1, true, Literally(n)), NoMode)
  }

  /** True of v, false of the pushed v. */
  function Probe(x: string, v: ConstValue): Expression
    requires v.Integer?
  {
    BinaryExpression(Fitted(x, Telling(v)), EqualEqual, Literally(WrapToWidth(Telling(v), v.width, v.signed)), NoMode)
  }

  lemma ProbeIsFine(src: Source, names: set<string>, x: string, v: ConstValue)
    requires ResolvesName(src, names, x) && v.Integer?
    ensures ValueExpression(src, Probe(x, v)) && Resolves(src, names, Probe(x, v))
    ensures Declares(Probe(x, v)) == {} && Calls(Probe(x, v)) == {}
    ensures ValueExpression(src, Fitted(x, Telling(v))) && Resolves(src, names, Fitted(x, Telling(v)))
  {
    hide ResolvesName, Telling, WrapToWidth;
    var zero := BinaryExpression(Identifier(x), Minus, Identifier(x), NoMode);
    var one := CastExpression(1, true, Literally(Telling(v)));
    assert names + {} == names;
    assert ValueExpression(src, Literally(Telling(v))) && Resolves(src, names, Literally(Telling(v)));
    assert ValueExpression(src, one) && Resolves(src, names, one) && Declares(one) == {} && Calls(one) == {};
    assert ValueExpression(src, Identifier(x)) && Resolves(src, names, Identifier(x));
    assert ValueExpression(src, zero) && Resolves(src, names, zero) && Declares(zero) == {} && Calls(zero) == {};
    assert Declares(Fitted(x, Telling(v))) == {} && Calls(Fitted(x, Telling(v))) == {};
  }

  lemma FittedMeans(src: Source, names: set<string>, env: Env, x: string, n: int64, time: nat)
    requires WellFormedSource(src) && ResolvesName(src, names, x) && Lookup(src, names, env, x).Integer?
    requires ValueExpression(src, Fitted(x, n)) && Resolves(src, names, Fitted(x, n))
    ensures var u := Lookup(src, names, env, x);
      Eval(src, names, env, Fitted(x, n), time) == Got(Integer(WrapToWidth(n, u.width, u.signed), u.width, u.signed))
  {
    hide WellFormedSource, ResolvesName, Lookup, WrapToWidth;
    var u := Lookup(src, names, env, x);
    var zero := BinaryExpression(Identifier(x), Minus, Identifier(x), NoMode);
    var one := CastExpression(1, true, Literally(n));
    assert names + {} == names;
    assert Declares(Identifier(x)) == {} && Declares(zero) == {};
    NothingOf(u);
    assert Eval(src, names, env, Identifier(x), time) == Got(u);
    assert Eval(src, names, env, one, time) == Got(Integer(n, 1, true));
    assert Eval(src, names, env, zero, time) == Got(Integer(0, u.width, u.signed));
    SumOf(u, n);
  }

  lemma NothingOf(u: ConstValue)
    requires u.Integer?
    ensures ApplyBinary(Minus, NoMode, u, u) == Push(Integer(0, u.width, u.signed))
  {
    if u.width < 64 { Pow2Monotone(u.width, 63); Pow2Of63(); WrapOfSmall(0, u.width, u.signed); }
  }

  lemma SumOf(u: ConstValue, n: int64)
    requires u.Integer?
    ensures ApplyBinary(Plus, NoMode, Integer(0, u.width, u.signed), Integer(n, 1, true)) ==
      Push(Integer(WrapToWidth(n, u.width, u.signed), u.width, u.signed))
  {
    hide WrapToWidth, LimitsFor, AddOverflows64;
    assert Wrap64(0 + n) == n;
  }

  /** The probe tells the value from what pushing makes of it. */
  lemma ProbeMeans(src: Source, names: set<string>, env: Env, x: string, v: ConstValue, time: nat)
    requires WellFormedSource(src) && ResolvesName(src, names, x) && v.Integer? && !Faithful(v)
    requires Lookup(src, names, env, x) in {v, Materialize(v)}
    ensures ValueExpression(src, Probe(x, v)) && Resolves(src, names, Probe(x, v))
    ensures Eval(src, names, env, Probe(x, v), time) == Got(Bool(Lookup(src, names, env, x) == v))
  {
    hide WellFormedSource, ResolvesName, Lookup, WrapToWidth, Telling, Fitted, Like;
    ProbeIsFine(src, names, x, v);
    FittedMeans(src, names, env, x, Telling(v), time);
    TellingTells(v);
    ValuesDeclareNothing(src, Fitted(x, Telling(v)));
    assert names + {} == names;
  }

  // ----- a function that throws unless its k-th argument is v -----

  function Names(n: nat): (r: seq<string>)
    ensures |r| == n && forall i :: 0 <= i < n ==> |r[i]| == i + 1
  {
    if n == 0 then [] else Names(n - 1) + [seq(n, _ => 'p')]
  }

  /** if (probe) { } else { throw E; } */
  function Check(x: string, v: ConstValue): Statement
    requires v.Integer?
  {
    IfStatement(Probe(x, v), EmptyBlock, SomeBlock(THROW_E))
  }

  lemma CheckIsFine(src: Source, names: set<string>, x: string, v: ConstValue, n: nat)
    requires v.Integer? && ResolvesName(src, names, x)
    ensures WellFormed(src, Check(x, v)) && ResolvesStatement(src, names, Check(x, v))
    ensures StatementCallsReach(src, n, Check(x, v))
  {
    hide ResolvesName, Probe, WellFormedSource;
    ProbeIsFine(src, names, x, v);
    ProbeCalls(src, n, x, v);
    ThrowIsFine(src, names, n);
    assert names + {} == names;
    assert ResolvesBlock(src, names, EmptyBlock) && WellFormedBlock(src, EmptyBlock) && BlockCallsReach(src, n, EmptyBlock);
    assert DeclaresBlock(EmptyBlock) == {};
  }

  lemma CheckExecutes(src: Source, names: set<string>, env: Env, x: string, v: ConstValue, time: nat)
    requires WellFormedSource(src) && v.Integer? && !Faithful(v) && ResolvesName(src, names, x)
    requires Lookup(src, names, env, x) in {v, Materialize(v)}
    ensures WellFormed(src, Check(x, v)) && ResolvesStatement(src, names, Check(x, v))
    ensures Exec(src, names, env, Check(x, v), time) ==
      if Lookup(src, names, env, x) == v then Goes(env) else Stops(Thrown("E"))
  {
    hide ResolvesName, Probe, WellFormedSource, Lookup, Faithful, Materialize;
    CheckIsFine(src, names, x, v, 0);
    ProbeIsFine(src, names, x, v);
    ProbeMeans(src, names, env, x, v, time);
    ThrowIsFine(src, names, 0);
    assert names + {} == names;
    assert DeclaresBlock(EmptyBlock) == {};
    assert ExecBlock(src, names, env, EmptyBlock, time) == Goes(env);
  }

  function Thrower(n: nat, k: nat, v: ConstValue): ConstFunction
    requires k < n && v.Integer?
  {
    ConstFunction(Names(n), Statements(Check(Names(n)[k], v), EmptyBlock))
  }

  function ThrowerSource(n: nat, k: nat, v: ConstValue): Source
    requires k < n && v.Integer?
  {
    Source(map[], map["f" := Thrower(n, k, v)])
  }

  lemma ThrowerIsFine(n: nat, k: nat, v: ConstValue)
    requires k < n && v.Integer?
    ensures var src := ThrowerSource(n, k, v);
      Compiles(src, src.functions["f"]) && WellFormedSource(src) && WindowsSurvive(src)
  {
    hide Names, Check, FinalScope, WellFormed, ResolvesStatement, StatementCallsReach;
    var src, fn, x := ThrowerSource(n, k, v), Thrower(n, k, v), Names(n)[k];
    assert x in NameSet(Names(n));
    CheckIsFine(src, NameSet(Names(n)), x, v, FinalScope(fn).next);
    assert fn.body.tail == EmptyBlock;
    assert ResolvesBlock(src, NameSet(Names(n)) + DeclaresStatement(fn.body.head), EmptyBlock);
    assert WellFormedBlock(src, EmptyBlock) && BlockCallsReach(src, FinalScope(fn).next, EmptyBlock);
  }

  lemma ThrowerInvoked(n: nat, k: nat, v: ConstValue, args: seq<ConstValue>, time: nat)
    requires k < n == |args| && v.Integer? && !Faithful(v) && args[k] in {v, Materialize(v)}
    ensures var src := ThrowerSource(n, k, v);
      Compiles(src, src.functions["f"]) && WellFormedSource(src) &&
      Invoke(src, "f", args, time) == if args[k] == v then Got(ZERO) else Ends(Thrown("E"))
  {
    hide Names, Check, WellFormed, ResolvesStatement, Exec, Faithful, Materialize, Bind, Distinct;
    var src, fn, env, x := ThrowerSource(n, k, v), Thrower(n, k, v), Bind(Names(n), args), Names(n)[k];
    var names := NameSet(Names(n));
    ThrowerIsFine(n, k, v);
    BindReads(Names(n), args, "");
    assert x in names;
    CheckExecutes(src, names, env, x, v, time);
    assert fn.body.tail == EmptyBlock;
    assert ExecBlock(src, names + DeclaresStatement(fn.body.head), env, EmptyBlock, time) == Goes(env);
  }

  lemma ProbeCalls(src: Source, n: nat, x: string, v: ConstValue)
    requires v.Integer?
    ensures CallsReach(src, n, Probe(x, v))
  {
    hide Telling, WrapToWidth;
    assert CallsReach(src, n, CastExpression(1, true, Literally(Telling(v))));
    assert CallsReach(src, n, BinaryExpression(Identifier(x), Minus, Identifier(x), NoMode));
    assert CallsReach(src, n, Fitted(x, Telling(v)));
  }

  // ----- when reports hold -----

  /** The evaluator, asked for f on these values, ends with a thrown name, and what f reaches is well-formed with windows
      that survive. */
  ghost predicate ReportsThrow(cfg: Config, src: Source, reach: set<string>, f: string, vs: seq<ConstValue>, name: string) {
    FitsPart(src, reach, ForCall(f, vs)) && WindowsSurvive(Restrict(src, reach)) &&
    RunCallDriver(cfg, Restrict(src, reach), f, vs) == Value(Thrown(name))
  }

  ghost predicate Throws(src: Source, f: string, vs: seq<ConstValue>, name: string) {
    WellFormedSource(src) && f in src.functions && Compiles(src, src.functions[f]) &&
    |vs| == |src.functions[f].paramNames| && exists time: nat :: Invoke(src, f, vs, time) == Ends(Thrown(name))
  }

  /** Whatever the limits and the program, as long as what the function reaches is well-formed and its windows survive:
      what is reported to throw on these values throws on them. */
  ghost predicate ThrowReportsHold(vs: seq<ConstValue>) {
    forall cfg: Config, src: Source, reach: set<string>, f: string, name: string ::
      ReportsThrow(cfg, src, reach, f, vs, name) ==> Throws(Restrict(src, reach), f, vs, name)
  }

  /** Where windows survive, reports of a certain throw hold for these arguments exactly when pushing changes none of
      them.  Where they do not, a report can be wrong without any argument: CallLimits.AShortCalleeIsReportedWrongly. */
  lemma ThrowReportsHoldIff(vs: seq<ConstValue>)
    requires AllConstant(vs)
    ensures ThrowReportsHold(vs) <==> AllFaithful(vs)
  {
    hide Faithful, ReportsThrow, Throws, Restrict;
    if AllFaithful(vs) {
      forall cfg: Config, src: Source, reach: set<string>, f: string, name: string
        | ReportsThrow(cfg, src, reach, f, vs, name)
        ensures Throws(Restrict(src, reach), f, vs, name)
      {
        ReportOfFaithful(cfg, src, reach, f, vs, name);
      }
    } else {
      var v :| v in vs && !Faithful(v);
      var k: nat :| k < |vs| && vs[k] == v;
      var cfg, src := ReportOfUnfaithful(vs, k);
      WholeIsAPart(src, {"f"});
      assert ReportsThrow(cfg, src, {"f"}, "f", vs, "E") && !Throws(Restrict(src, {"f"}), "f", vs, "E");
    }
  }

  lemma ReportOfFaithful(cfg: Config, src: Source, reach: set<string>, f: string, vs: seq<ConstValue>, name: string)
    requires AllFaithful(vs) && ReportsThrow(cfg, src, reach, f, vs, name)
    ensures Throws(Restrict(src, reach), f, vs, name)
  {
    hide Invoke, WellFormedSource, WindowsSurvive, Compiles, RunCallDriver, Faithful, ClosedUnderCalls, Restrict;
    var part := Restrict(src, reach);
    RunThrowMeans(cfg, part, f, vs, name);
    var time: nat :| Invoke(part, f, Pushed(vs), time) == Ends(Thrown(name));
    ThrowsOnTheValues(part, f, vs, time, name);
  }

  /** With a value that pushing changes, some function is reported to throw always though it returns. */
  lemma ReportOfUnfaithful(vs: seq<ConstValue>, k: nat) returns (cfg: Config, src: Source)
    requires AllConstant(vs) && k < |vs| && !Faithful(vs[k])
    ensures src.functions.Keys == {"f"} && ReportsThrow(cfg, src, {"f"}, "f", vs, "E") && !Throws(src, "f", vs, "E")
    ensures WellFormedSource(src) && Compiles(src, src.functions["f"]) &&
            |vs| == |src.functions["f"].paramNames| && Invoke(src, "f", vs, 0) == Got(ZERO)
  {
    hide Invoke, WellFormedSource, WindowsSurvive, Compiles, RunCallDriver, Like, Thrower, Restrict, ClosedUnderCalls;
    var v, n := vs[k], |vs|;
    OnlyIntegersChange(v);
    src := ThrowerSource(n, k, v);
    ThrowerTakes(n, k, v);
    ThrowerIsFine(n, k, v);
    ThrowerIsClosed(n, k, v);
    WholeIsAPart(src, {"f"});
    PushedAt(vs, k);
    assert Pushed(vs)[k] != v by { LikeItself(v); }
    ThrowerInvoked(n, k, v, Pushed(vs), 0);
    var m := MeaningIsReached(src, ForCall("f", vs), Thrown("E"), 0);
    cfg := Config(m, m, m, m, 0);
    assert AtLeast(cfg, m) && RunOf(cfg, src, ForCall("f", vs)) == Value(Thrown("E"));
    forall time: nat ensures Invoke(src, "f", vs, time) == Got(ZERO) { ThrowerInvoked(n, k, v, vs, time); }
  }

  lemma ThrowerIsClosed(n: nat, k: nat, v: ConstValue)
    requires k < n && v.Integer?
    ensures ClosedUnderCalls(ThrowerSource(n, k, v), {"f"})
  {
    hide Names, Probe;
    var src, x := ThrowerSource(n, k, v), Names(n)[k];
    ProbeIsFine(Source(map[x := ZERO], map[]), {}, x, v);
    var body := Thrower(n, k, v).body;
    assert body.head == Check(x, v) && body.tail == EmptyBlock;
    assert THROW_E.head == ThrowStatement("E") && THROW_E.tail == EmptyBlock;
    assert BlockCalls(EmptyBlock) == {} && BlockCalls(THROW_E) == {};
    assert BlockCalls(body) == {};
  }

  lemma OnlyIntegersChange(v: ConstValue)
    requires v.IsConstant() && !Faithful(v)
    ensures v.Integer?
  {
  }

  lemma ThrowerTakes(n: nat, k: nat, v: ConstValue)
    requires k < n && v.Integer?
    ensures |Thrower(n, k, v).paramNames| == n
  {
  }

  lemma {:induction false} PushedAt(vs: seq<ConstValue>, k: nat)
    requires AllConstant(vs) && k < |vs|
    ensures Pushed(vs)[k] == Materialize(vs[k])
    decreases |vs|
  {
    if k > 0 {
      PushedAt(vs[1..], k - 1);
      assert Pushed(vs)[k] == Pushed(vs[1..])[k - 1];
    }
  }

  /** The clause is reported to be violated by these values; what the check reaches is well-formed, with windows that
      survive while the parameters are bound, and the functions of the clause look up no constant under the name of a
      parameter. */
  ghost predicate ReportsViolation(cfg: Config, src: Source, reach: set<string>, sym: FunctionSymbol, vs: seq<ConstValue>,
                                   k: nat, near: set<string>)
  {
    CheckableWithin(src, reach, sym, []) && |vs| == |sym.paramNames| &&
    WindowsSurvive(WithBound(Restrict(src, reach), sym.paramNames, vs)) &&
    JudgeContracts(cfg, Restrict(src, reach), sym, vs) == ViolatesRequire(k) &&
    k < |sym.contracts| && sym.contracts[k].IsClause() &&
    Apart(Restrict(src, reach), near, NameSet(sym.paramNames)) && Calls(sym.contracts[k].Condition().expression) <= near
  }

  /** Whatever the limits and the program, as long as what the check reaches is well-formed and its windows survive: a
      clause that is reported to be violated by these values, and whose functions look up no constant under the name of
      a parameter, means false with the parameters bound to them. */
  ghost predicate ViolationReportsHold(vs: seq<ConstValue>) {
    forall cfg: Config, src: Source, reach: set<string>, sym: FunctionSymbol, k: nat, near: set<string> ::
      ReportsViolation(cfg, src, reach, sym, vs, k, near) ==>
        MeansOn(Restrict(src, reach), sym.paramNames, vs, sym.contracts[k].Condition().expression, Got(Bool(false)))
  }

  /** Where windows survive and no constant is captured, reports of violated clauses hold for these arguments exactly when
      pushing changes none of them.  Otherwise they can be wrong whatever the arguments are:
      CallLimits.AShortCalleeClauseIsReportedWrongly and CallLimits.AConstantIsCaptured. */
  lemma ViolationReportsHoldIff(vs: seq<ConstValue>)
    requires AllConstant(vs)
    ensures ViolationReportsHold(vs) <==> AllFaithful(vs)
  {
    hide Faithful, ReportsViolation, MeansOn, Restrict;
    if AllFaithful(vs) {
      forall cfg: Config, src: Source, reach: set<string>, sym: FunctionSymbol, k: nat, near: set<string>
        | ReportsViolation(cfg, src, reach, sym, vs, k, near)
        ensures k < |sym.contracts| && sym.contracts[k].Condition().Present?
        ensures MeansOn(Restrict(src, reach), sym.paramNames, vs, sym.contracts[k].Condition().expression, Got(Bool(false)))
      {
        ViolationOfFaithful(cfg, src, reach, sym, vs, k, near);
      }
    } else {
      var v :| v in vs && !Faithful(v);
      var k: nat :| k < |vs| && vs[k] == v;
      var cfg, sym := ViolationOfUnfaithful(vs, k);
      WholeIsAPart(NO_PROGRAM, {});
      assert ReportsViolation(cfg, NO_PROGRAM, {}, sym, vs, 0, {});
    }
  }

  lemma ViolationOfFaithful(cfg: Config, src: Source, reach: set<string>, sym: FunctionSymbol, vs: seq<ConstValue>, k: nat,
                            near: set<string>)
    requires AllFaithful(vs) && ReportsViolation(cfg, src, reach, sym, vs, k, near)
    ensures k < |sym.contracts| && sym.contracts[k].IsClause()
    ensures MeansOn(Restrict(src, reach), sym.paramNames, vs, sym.contracts[k].Condition().expression, Got(Bool(false)))
  {
    hide WindowsSurvive, JudgeContracts, CheckableWithin, Apart, Faithful, MeansOn, Restrict;
    PartIsCheckable(src, reach, sym, []);
    ViolationIsSound(cfg, src, reach, sym, vs, k, near);
  }

  const NO_PROGRAM: Source := Source(map[], map[])

  /** The symbol of a function with this one require clause. */
  function Requiring(names: seq<string>, condition: Expression): FunctionSymbol {
    FunctionSymbol("f", true, false, false, names, [], [Contract(true, Present(condition), NoBlock)])
  }

  /** With a value that pushing changes, some clause is reported to be violated though it holds. */
  lemma ViolationOfUnfaithful(vs: seq<ConstValue>, k: nat) returns (cfg: Config, sym: FunctionSymbol)
    requires AllConstant(vs) && k < |vs| && !Faithful(vs[k])
    ensures ReportsViolation(cfg, NO_PROGRAM, {}, sym, vs, 0, {})
    ensures MeansOn(NO_PROGRAM, sym.paramNames, vs, sym.contracts[0].Condition().expression, Got(Bool(true)))
    ensures !MeansOn(NO_PROGRAM, sym.paramNames, vs, sym.contracts[0].Condition().expression, Got(Bool(false)))
  {
    hide Faithful, Probe, Names, Materialize, Bound, Bind, RunDriver, Eval, Means, ValueExpression, Resolves;
    var v, names := vs[k], Names(|vs|);
    var x := names[k];
    OnlyIntegersChange(v);
    var clause := Probe(x, v);
    sym := Requiring(names, clause);
    var bound := WithBound(NO_PROGRAM, names, vs);
    NamesAreBound(vs, k);
    ProbeOnBound(vs, k);
    var n := MeaningIsReached(bound, ForExpression(clause), Bool(false), 0);
    cfg := Config(n, n, n, n, 0);
    assert AtLeast(cfg, n) && RunOf(cfg, bound, ForExpression(clause)) == Value(Bool(false));
    ClauseIsCheckable(names, x, v);
    WholeIsAPart(NO_PROGRAM, {});
    ProbeIsFine(bound, {x}, x, v);
    OneClauseFails(cfg, bound, sym.contracts);
    ProbeOnLocals(vs, k);
  }

  lemma NamesAreBound(vs: seq<ConstValue>, k: nat)
    requires k < |vs|
    ensures var (names, x) := (Names(|vs|), Names(|vs|)[k]);
      x in NameSet(names) && Read(Bind(names, vs), x) == vs[k] &&
      x in Bound(map[], names, vs) && Bound(map[], names, vs)[x] == vs[k]
  {
    hide Names, Bound, Bind;
    var names := Names(|vs|);
    BindReads(names, vs, "");
    BoundIsBind(map[], names, vs, names[k]);
  }

  lemma ProbeOnBound(vs: seq<ConstValue>, k: nat)
    requires AllConstant(vs) && k < |vs| && vs[k].Integer? && !Faithful(vs[k])
    ensures var (bound, clause) := (WithBound(NO_PROGRAM, Names(|vs|), vs), Probe(Names(|vs|)[k], vs[k]));
      Evaluable(bound, clause) && Means(bound, {}, NOTHING, clause, Got(Bool(false))) && WindowsSurvive(bound)
  {
    hide Faithful, Probe, Names, Materialize, Bound, Eval, ValueExpression, Resolves;
    NamesAreBound(vs, k);
    ProbeMeans(WithBound(NO_PROGRAM, Names(|vs|), vs), {}, NOTHING, Names(|vs|)[k], vs[k], 0);
    assert Materialize(vs[k]) != vs[k] by { Unchanged(vs[k]); }
  }

  lemma Unchanged(v: ConstValue)
    requires v.IsConstant() && !Faithful(v)
    ensures Materialize(v) != v
  {
    hide Materialize;
  }

  lemma ProbeOnLocals(vs: seq<ConstValue>, k: nat)
    requires AllConstant(vs) && k < |vs| && vs[k].Integer? && !Faithful(vs[k])
    ensures var (names, clause) := (Names(|vs|), Probe(Names(|vs|)[k], vs[k]));
      MeansOn(NO_PROGRAM, names, vs, clause, Got(Bool(true))) && !MeansOn(NO_PROGRAM, names, vs, clause, Got(Bool(false)))
  {
    hide Faithful, Probe, Names, Materialize, Bind, Eval, ValueExpression, Resolves;
    var names, env, x := Names(|vs|), Bind(Names(|vs|), vs), Names(|vs|)[k];
    NamesAreBound(vs, k);
    ProbeMeans(NO_PROGRAM, NameSet(names), env, x, vs[k], 0);
    forall time: nat ensures Eval(NO_PROGRAM, NameSet(names), env, Probe(x, vs[k]), time) == Got(Bool(true)) {
      ProbeMeans(NO_PROGRAM, NameSet(names), env, x, vs[k], time);
    }
  }

  lemma ClauseIsCheckable(names: seq<string>, x: string, v: ConstValue)
    requires v.Integer?
    ensures CheckableWithin(NO_PROGRAM, {}, Requiring(names, Probe(x, v)), [])
  {
    hide Probe, ValueExpression, Resolves;
    WholeIsAPart(NO_PROGRAM, {});
    ProbeIsFine(NO_PROGRAM, {x}, x, v);
    forall m: Constants ensures ValueExpression(Source(m, map[]), Probe(x, v)) { ProbeIsFine(Source(m, map[]), {x}, x, v); }
  }

  lemma OneClauseFails(cfg: Config, src: Source, contracts: seq<Contract>)
    requires WellFormedSource(src) && |contracts| == 1 && ClausesAreValues(src, contracts)
    requires contracts[0].IsClause()
    requires ValueExpression(src, contracts[0].Condition().expression)
    requires RunDriver(cfg, src, contracts[0].Condition().expression) == Value(Bool(false))
    ensures JudgeRequires(cfg, src, contracts, 0) == ViolatesRequire(0)
  {
    hide RunDriver, WellFormedSource, ValueExpression;
  }
}
