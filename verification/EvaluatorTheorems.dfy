/** The main results about compile-time evaluation. */
module EvaluatorTheorems {
  import opened ConstValues
  import opened Syntax
  import opened Bytecode
  import opened CodeShape
  import opened FrameSemantics
  import opened Simulation
  import opened ReachableFunctions
  import opened LimitIndependence
  import opened Reference
  import opened Agreement
  import opened Adequacy

  const NOTHING: Env := map[]

  ghost predicate Evaluable(src: Source, e: Expression) {
    WellFormedSource(src) && ValueExpression(src, e) && Resolves(src, {}, e)
  }

  /** The driver ends with v: with the value of its expression or of the body it calls, or with the value that ends the
      whole evaluation.  A call of a function that does not compile ends with the error value. */
  ghost predicate EndsWith(src: Source, d: Driver, v: ConstValue)
    requires Runnable(src, d)
  {
    match d
    case ForExpression(e) => Means(src, {}, NOTHING, e, Got(v)) || Means(src, {}, NOTHING, e, Ends(v))
    case ForCall(f, args) =>
      if Compiles(src, src.functions[f]) then exists time: nat :: Invoke(src, f, Pushed(args), time) in {Got(v), Ends(v)}
      else v == Error
  }

  lemma DriverSetting(src: Source, e: Expression, win: seq<ConstValue>)
    ensures NO_LOCALS.slots.Keys == {} && Within(NO_LOCALS, NO_LOCALS) && Mirrors(NO_LOCALS, NOTHING, win)
    ensures CallsReach(src, 0, e)
  {
    CallsReachZero(src, e);
  }

  /** Soundness: whatever the limits, a run that ends with a value ends with what the program means. */
  lemma MachineMeans(cfg: Config, src: Source, d: Driver, v: ConstValue)
    requires Runnable(src, d) && WindowsSurvive(src) && RunOf(cfg, src, d) == Value(v)
    ensures EndsWith(src, d, v)
  {
    hide WellFormedSource, WindowsSurvive, RunDriver, RunCallDriver, Invoke, Means, Compiles;
    match d
    case ForExpression(e) => ExpressionMeans(cfg, src, e, v);
    case ForCall(f, args) => CallDriverMeans(cfg, src, f, args, v);
  }

  lemma ExpressionMeans(cfg: Config, src: Source, e: Expression, v: ConstValue)
    requires Evaluable(src, e) && WindowsSurvive(src) && RunDriver(cfg, src, e) == Value(v)
    ensures Means(src, {}, NOTHING, e, Got(v)) || Means(src, {}, NOTHING, e, Ends(v))
  {
    hide WellFormedSource, WindowsSurvive, Evaluate, Eval, Mirrors, Within, CallsReach;
    var win, n := InitialLocals(cfg), cfg.maxIterations;
    DriverSetting(src, e, win);
    EvalAgrees(Start(cfg, src), NO_LOCALS, NO_LOCALS, NOTHING, e, 0, win, n, n);
    var answer := Eval(src, {}, NOTHING, e, n);
    assert Eval(src, {}, NOTHING, e, n) == answer;
  }

  ghost predicate AtLeast(cfg: Config, n: nat) {
    cfg.maxStackSize >= n && cfg.maxLocals >= n && cfg.maxCallDepth >= n && cfg.maxIterations >= n
  }

  /** Completeness: a program that means v ends with v under all limits from some point on. */
  lemma MeaningIsReached(src: Source, d: Driver, v: ConstValue, heap: nat) returns (n: nat)
    requires Runnable(src, d) && WindowsSurvive(src) && EndsWith(src, d, v)
    ensures forall cfg: Config :: cfg.initialHeapSize == heap && AtLeast(cfg, n) ==> RunOf(cfg, src, d) == Value(v)
  {
    hide WellFormedSource, WindowsSurvive, RunDriver, RunCallDriver, Invoke, Means, Compiles;
    match d
    case ForExpression(e) => n := ExpressionIsReached(src, e, v, heap);
    case ForCall(f, args) => n := CallIsReached(src, f, args, v, heap);
  }

  lemma ExpressionIsReached(src: Source, e: Expression, v: ConstValue, heap: nat) returns (n: nat)
    requires Evaluable(src, e) && WindowsSurvive(src)
    requires Means(src, {}, NOTHING, e, Got(v)) || Means(src, {}, NOTHING, e, Ends(v))
    ensures forall cfg: Config :: cfg.initialHeapSize == heap && AtLeast(cfg, n) ==> RunDriver(cfg, src, e) == Value(v)
  {
    hide WellFormedSource, WindowsSurvive, Evaluate, Eval, Mirrors, Within, CallsReach;
    var answer := if Means(src, {}, NOTHING, e, Got(v)) then Got(v) else Ends(v);
    var time: nat :| Eval(src, {}, NOTHING, e, time) == answer;
    var win := Zeros(heap);
    DriverSetting(src, e, win);
    var n1 := EvalReached(src, 0, 0, NO_LOCALS, NO_LOCALS, NOTHING, e, 0, win, time);
    n := n1 + heap + 1;
    forall cfg: Config | cfg.initialHeapSize == heap && AtLeast(cfg, n) ensures RunDriver(cfg, src, e) == Value(v) {
      var low := Room(src, 0, 0, n1);
      EvaluateUncut(low, Start(cfg, src), NO_LOCALS, e, 0, win, n1, cfg.maxIterations - n1);
      EvalSettles(low, NO_LOCALS, NO_LOCALS, NOTHING, e, 0, win, n1, time);
    }
  }

  lemma CallIsReached(src: Source, f: string, args: seq<ConstValue>, v: ConstValue, heap: nat) returns (n: nat)
    requires Runnable(src, ForCall(f, args)) && WindowsSurvive(src) && EndsWith(src, ForCall(f, args), v)
    ensures forall cfg: Config ::
      cfg.initialHeapSize == heap && AtLeast(cfg, n) ==> RunCallDriver(cfg, src, f, args) == Value(v)
  {
    hide WellFormedSource, WindowsSurvive, Call, Invoke, Compiles, RunCallDriver;
    var win := Zeros(heap);
    var n2: nat, time: nat := 0, 0;
    if Compiles(src, src.functions[f]) {
      time :| Invoke(src, f, Pushed(args), time) in {Got(v), Ends(v)};
      n2 := CallReached(src, 0, 0, f, Pushed(args), 0, win, time);
    }
    n := n2 + |args| + heap + 2;
    forall cfg: Config | cfg.initialHeapSize == heap && AtLeast(cfg, n)
      ensures RunCallDriver(cfg, src, f, args) == Value(v)
    {
      var left := cfg.maxIterations - |args| - 1;
      if Compiles(src, src.functions[f]) { CalledWithRoom(cfg, src, f, args, v, win, n2, left, time); }
      else { Rejected(cfg, src, f, args, win, left); }
      CallDriverIs(cfg, src, f, args, win);
    }
  }

  /** With room for the arguments, a call driver runs as the call of the pushed arguments. */
  lemma CallDriverIs(cfg: Config, src: Source, f: string, args: seq<ConstValue>, win: seq<ConstValue>)
    requires Runnable(src, ForCall(f, args)) && win == InitialLocals(cfg)
    requires cfg.maxStackSize >= |args| && cfg.maxIterations > |args|
    ensures RunCallDriver(cfg, src, f, args) ==
      match Call(Start(cfg, src), f, Pushed(args), 0, win, cfg.maxIterations - |args| - 1)
      case Halts(o) => o
      case Yields(v, _, rest) => if rest == 0 then Limit(Iterations) else Value(v)
  {
    hide WellFormedSource, Call, EvaluateArguments, Quote;
    QuotesEvaluate(Start(cfg, src), args, 0, win, cfg.maxIterations);
  }

  lemma CalledWithRoom(cfg: Config, src: Source, f: string, args: seq<ConstValue>, v: ConstValue, win: seq<ConstValue>,
                       n: nat, left: nat, time: nat)
    requires Runnable(src, ForCall(f, args)) && WindowsSurvive(src) && Compiles(src, src.functions[f])
    requires Invoke(src, f, Pushed(args), time) in {Got(v), Ends(v)}
    requires !ValueCut(Call(Room(src, 0, 0, n), f, Pushed(args), 0, win, n)) && AtLeast(cfg, n) && left > n
    ensures var r := Call(Start(cfg, src), f, Pushed(args), 0, win, left);
      r == Halts(Value(v)) || (r.Yields? && r.value == v && r.fuel > 0)
  {
    hide WellFormedSource, WindowsSurvive, Call, Invoke, Compiles, Mirrors, FinalScope;
    var low, more := Room(src, 0, 0, n), Max(n, time);
    DriverSetting(src, OtherExpression, win);
    CallAgrees(low, NO_LOCALS, NOTHING, f, Pushed(args), 0, win, n, more);
    InvokeStands(src, f, Pushed(args), time, more);
    CallUncut(low, Start(cfg, src), f, Pushed(args), 0, win, n, left - n);
  }

  lemma Rejected(cfg: Config, src: Source, f: string, args: seq<ConstValue>, win: seq<ConstValue>, left: nat)
    requires Runnable(src, ForCall(f, args)) && !Compiles(src, src.functions[f])
    ensures Call(Start(cfg, src), f, Pushed(args), 0, win, left) == Halts(Value(Error))
  {
    hide WellFormedSource, Compiles;
  }

  /** The machine can end with v exactly when the program means v. */
  lemma MachineIffMeaning(src: Source, d: Driver, v: ConstValue)
    requires Runnable(src, d) && WindowsSurvive(src)
    ensures (exists cfg: Config :: RunOf(cfg, src, d) == Value(v)) <==> EndsWith(src, d, v)
  {
    hide RunOf, EndsWith, Runnable, WindowsSurvive;
    if EndsWith(src, d, v) {
      var n := MeaningIsReached(src, d, v, 0);
      var cfg := Config(n, n, n, n, 0);
      assert RunOf(cfg, src, d) == Value(v);
    }
    if cfg: Config :| RunOf(cfg, src, d) == Value(v) {
      MachineMeans(cfg, src, d, v);
    }
  }

  /** A call of a function on constants ends with what the body means on the pushed constants, and with the error value
      when the body does not compile. */
  lemma CallDriverMeans(cfg: Config, src: Source, f: string, args: seq<ConstValue>, v: ConstValue)
    requires WellFormedSource(src) && WindowsSurvive(src) && f in src.functions && AllConstant(args)
    requires |args| == |src.functions[f].paramNames|
    requires RunCallDriver(cfg, src, f, args) == Value(v)
    ensures if Compiles(src, src.functions[f])
            then exists time: nat :: Invoke(src, f, Pushed(args), time) in {Got(v), Ends(v)}
            else v == Error
  {
    hide WellFormedSource, WindowsSurvive, Call, Invoke, Mirrors, Within, CallsReach, Compiles, EvaluateArguments,
      EvalArguments;
    var win, n := InitialLocals(cfg), cfg.maxIterations;
    var at := Start(cfg, src);
    QuotedArguments(src, args);
    DriverSetting(src, OtherExpression, win);
    ArgumentCallsReachZero(src, Quote(args));
    ArgumentsEvalAgree(at, NO_LOCALS, NO_LOCALS, NOTHING, Quote(args), 0, win, n, n);
    QuotedMeaning(src, args, n);
    var operands := EvaluateArguments(at, NO_LOCALS, Quote(args), 0, win, n);
    assert operands.YieldsAll? && operands.fuel > 0;
    var left := operands.fuel - 1;
    CallAgrees(at, NO_LOCALS, NOTHING, f, operands.values, 0, operands.window, left, left);
    if Compiles(src, src.functions[f]) { assert Invoke(src, f, Pushed(args), left) in {Got(v), Ends(v)}; }
  }

  /** Arguments as the driver pushes them. */
  function Pushed(args: seq<ConstValue>): (r: seq<ConstValue>)
    requires AllConstant(args)
    ensures |r| == |args|
  {
    if |args| == 0 then [] else [Materialize(args[0])] + Pushed(args[1..])
  }

  lemma {:induction false} QuotedMeaning(src: Source, args: seq<ConstValue>, time: nat)
    requires WellFormedSource(src) && AllConstant(args)
    requires ValueArguments(src, Quote(args)) && ResolvesArguments(src, {}, Quote(args))
    ensures EvalArguments(src, {}, NOTHING, Quote(args), time) == GotAll(Pushed(args))
    decreases |args|
  {
    if |args| > 0 {
      var none: set<string> := {};
      assert none + Declares(QuoteValue(args[0])) == none;
      QuotedMeaning(src, args[1..], time);
    }
  }

  lemma {:induction false} QuotesEvaluate(at: Place, args: seq<ConstValue>, height: nat, win: seq<ConstValue>, fuel: nat)
    requires WellFormedSource(at.src) && AllConstant(args)
    requires height + |args| <= at.cfg.maxStackSize && fuel >= |args|
    ensures ValueArguments(at.src, Quote(args)) && ResolvesArguments(at.src, NO_LOCALS.slots.Keys, Quote(args))
    ensures EvaluateArguments(at, NO_LOCALS, Quote(args), height, win, fuel) == YieldsAll(Pushed(args), win, fuel - |args|)
    decreases |args|
  {
    hide WellFormedSource;
    assert NO_LOCALS.slots.Keys == {};
    QuotedArguments(at.src, args);
    if |args| > 0 {
      assert Evaluate(at, NO_LOCALS, QuoteValue(args[0]), height, win, fuel) == Yields(Materialize(args[0]), win, fuel - 1);
      QuotesEvaluate(at, args[1..], height + 1, win, fuel - 1);
    }
  }

  // ----- nothing but the trees matters -----

  /** Two images of one program that hold the same driver run alike under every limit, wherever each function lies,
      whatever else the streams hold, in whatever order constants were pooled. */
  lemma LayoutIsIrrelevant(cfg: Config, reach: set<string>, one: Linkage, im1: Image, two: Linkage, im2: Image, d: Driver)
    requires one.src == two.src && Linked(one, im1) && Linked(two, im2)
    requires Holds(one, im1.code, d) && Holds(two, im2.code, d)
    requires ClosedUnderCalls(one.src, reach) && DriverCalls(d) <= reach && Runnable(Restrict(one.src, reach), d)
    ensures RunImage(cfg, im1) == RunImage(cfg, im2)
  {
    hide Linked, Holds, Runnable, RunImage, DriverCalls;
    UnreachedIsIrrelevant(cfg, reach, one, im1, two, im2, d);
  }

  /** Compiled code never pops an empty stack and never leaves defined behaviour: of the functions the driver can reach
      alone it matters that they are well-formed. */
  lemma NoUnderflow(cfg: Config, reach: set<string>, lk: Linkage, im: Image, d: Driver)
    requires Linked(lk, im) && Holds(lk, im.code, d) && ClosedUnderCalls(lk.src, reach) && DriverCalls(d) <= reach
    requires Runnable(Restrict(lk.src, reach), d)
    ensures RunImage(cfg, im).Value? || RunImage(cfg, im).Limit?
  {
    hide Linked, Holds, Runnable, RunOf, RunImage, DriverCalls;
    ReachIsEnough(cfg, reach, lk, im, d);
  }

  /** An image can end with v exactly when the part of the program that its driver can reach means v. */
  lemma ImageIffMeaning(reach: set<string>, lk: Linkage, im: Image, d: Driver, v: ConstValue)
    requires Linked(lk, im) && Holds(lk, im.code, d) && ClosedUnderCalls(lk.src, reach) && DriverCalls(d) <= reach
    requires Runnable(Restrict(lk.src, reach), d) && WindowsSurvive(Restrict(lk.src, reach))
    ensures (exists cfg: Config :: RunImage(cfg, im) == Value(v)) <==> EndsWith(Restrict(lk.src, reach), d, v)
  {
    hide Linked, Holds, Runnable, RunOf, RunImage, DriverCalls, WindowsSurvive, EndsWith, ClosedUnderCalls;
    var part := Restrict(lk.src, reach);
    MachineIffMeaning(part, d, v);
    forall cfg: Config ensures RunImage(cfg, im) == RunOf(cfg, part, d) { ReachIsEnough(cfg, reach, lk, im, d); }
    if cfg: Config :| RunOf(cfg, part, d) == Value(v) { assert RunImage(cfg, im) == Value(v); }
    if cfg: Config :| RunImage(cfg, im) == Value(v) { assert RunOf(cfg, part, d) == Value(v); }
  }

  // ----- a caller's variables across a call -----

  /** After a call returns, the first n slots of the caller are in place exactly when the callee has n locals. */
  lemma WindowKeptIff(at: Place, f: string, args: seq<ConstValue>, height: nat, win: seq<ConstValue>, fuel: nat, n: nat)
    requires WellFormedSource(at.src) && f in at.src.functions && |args| == |at.src.functions[f].paramNames|
    requires height <= at.cfg.maxStackSize && n <= |win|
    requires Call(at, f, args, height, win, fuel).Yields?
    ensures var after := Call(at, f, args, height, win, fuel).window;
      (n <= |after| && after[..n] == win[..n]) <==> n <= FinalScope(at.src.functions[f]).next
  {
    hide WellFormedSource, Compiles, ExecuteBody, FinalScope;
  }

  /** A variable read after a call is still its value exactly when its slot is below the callee's number of locals;
      otherwise the read is an error. */
  lemma VariableKeptIff(at: Place, sc: Scope, x: string, f: string, args: seq<ConstValue>, height: nat,
                        win: seq<ConstValue>, fuel: nat)
    requires WellFormedSource(at.src) && f in at.src.functions && |args| == |at.src.functions[f].paramNames|
    requires height <= at.cfg.maxStackSize && x in sc.slots && sc.slots[x] < |win|
    requires var r := Call(at, f, args, height, win, fuel); r.Yields? && r.fuel > 0
    ensures var r := Call(at, f, args, height, win, fuel);
      ReadName(at, sc, height, x, r.window, r.fuel) ==
        if sc.slots[x] < FinalScope(at.src.functions[f]).next then Yields(win[sc.slots[x]], r.window, r.fuel - 1)
        else Halts(Value(Error))
  {
    hide WellFormedSource, Compiles, ExecuteBody, FinalScope;
  }

  /** A store behind a window that was cut below the slot of x fills what was cut with zeros: x then reads as 0, and no
      error tells that its value is lost. */
  lemma StoreRefillsWithZeros(at: Place, sc: Scope, x: string, height: nat, slot: nat, v: ConstValue, win: seq<ConstValue>,
                              fuel: nat)
    requires ResolvesName(at.src, sc.slots.Keys, x) && x in sc.slots
    requires |win| <= slot && |win| <= sc.slots[x] < slot + 64 && sc.slots[x] != slot
    requires WriteSlot(at, slot, v, win, fuel).Stored?
    ensures var r := WriteSlot(at, slot, v, win, fuel);
      ReadName(at, sc, height, x, r.window, r.fuel) == PushOne(at, height, ZERO, r.window, r.fuel)
  {
  }
}
