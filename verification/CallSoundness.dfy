/** What a report of the call check means for the values of the arguments.  All side conditions are asked of a part of the
    program that holds what the check can reach; the check reports of the whole what it says of such a part. */
module CallSoundness {
  import opened ConstValues
  import opened Syntax
  import opened Bytecode
  import opened CodeShape
  import opened FrameSemantics
  import opened Simulation
  import opened ReachableFunctions
  import opened Reference
  import opened LikeValues
  import opened Agreement
  import opened EvaluatorTheorems
  import opened ThrownNames
  import opened ConstEvaluators
  import opened ConstantResolution
  import opened CompileTimeCalls

  // ----- arguments -----

  /** A run that ends with a value that is no error and no thrown name resolves, and the expression means that value. */
  lemma ValueMeans(cfg: Config, src: Source, e: Expression, v: ConstValue)
    requires WellFormedSource(src) && WindowsSurvive(src) && ValueExpression(src, e)
    requires RunDriver(cfg, src, e) == Value(v) && !Ending(v)
    ensures Evaluable(src, e) && Means(src, {}, NOTHING, e, Got(v))
  {
    hide Evaluate, Eval, WellFormedSource, WindowsSurvive, ValueExpression, Resolves;
    assert NO_LOCALS.slots.Keys == {};
    ExpressionMeans(cfg, src, e, v);
    if Means(src, {}, NOTHING, e, Ends(v)) {
      var time: nat :| Eval(src, {}, NOTHING, e, time) == Ends(v);
      EvalIsClean(src, {}, NOTHING, e, time);
    }
  }

  lemma {:induction false} KnownMeans(cfg: Config, src: Source, args: seq<Expression>, i: nat)
    requires WellFormedSource(src) && WindowsSurvive(src) && (forall e :: e in args ==> ValueExpression(src, e))
    requires ValuesOf(cfg, src, args).Known? && i < |args|
    ensures Evaluable(src, args[i]) && Means(src, {}, NOTHING, args[i], Got(ValuesOf(cfg, src, args).values[i]))
    decreases |args|
  {
    hide RunDriver, WellFormedSource, WindowsSurvive, ValueExpression, Evaluable, Means;
    var n := |args| - 1;
    if i < n { KnownMeans(cfg, src, args[..n], i); }
    else { ValueMeans(cfg, src, args[n], ValuesOf(cfg, src, args).values[n]); }
  }

  /** The arguments of every report are what the argument expressions mean. */
  lemma ArgumentsMean(cfg: Config, src: Source, reach: set<string>, args: seq<Expression>, i: nat)
    requires ArgumentsFit(src, reach, args) && WindowsSurvive(Restrict(src, reach)) && i < |args|
    ensures var part := Restrict(src, reach);
      WellFormedSource(part) && (forall e :: e in args ==> ValueExpression(part, e)) &&
      (ValuesOf(cfg, part, args).Known? ==>
         Evaluable(part, args[i]) && Means(part, {}, NOTHING, args[i], Got(ValuesOf(cfg, part, args).values[i])))
  {
    hide ValuesOf, WellFormedSource, WindowsSurvive, ValueExpression, Evaluable, Means, Restrict, FitsPart;
    FitArgumentsAreValues(src, reach, args);
    if ValuesOf(cfg, Restrict(src, reach), args).Known? { KnownMeans(cfg, Restrict(src, reach), args, i); }
  }

  function AsArguments(args: seq<Expression>): (r: Arguments)
    ensures r.Count() == |args|
  {
    if |args| == 0 then NoArguments else MoreArguments(args[0], AsArguments(args[1..]))
  }

  /** Arguments that each mean their value are evaluated together within some time. */
  lemma {:induction false} ArgumentsMeanTogether(src: Source, args: seq<Expression>, values: seq<ConstValue>)
    returns (time: nat)
    requires WellFormedSource(src) && |args| == |values|
    requires forall i :: 0 <= i < |args| ==>
      Evaluable(src, args[i]) && Means(src, {}, NOTHING, args[i], Got(values[i]))
    ensures ValueArguments(src, AsArguments(args)) && ResolvesArguments(src, {}, AsArguments(args))
    ensures EvalArguments(src, {}, NOTHING, AsArguments(args), time) == GotAll(values)
    decreases |args|
  {
    hide WellFormedSource, Eval, ValueExpression, Resolves;
    if |args| == 0 { return 0; }
    var rest := ArgumentsMeanTogether(src, args[1..], values[1..]);
    assert Means(src, {}, NOTHING, args[0], Got(values[0]));
    var first: nat :| Eval(src, {}, NOTHING, args[0], first) == Got(values[0]);
    time := if first >= rest then first else rest;
    ValuesDeclareNothing(src, args[0]);
    assert {} + Declares(args[0]) == {};
    EvalStands(src, {}, NOTHING, args[0], first, time);
    ArgumentsStand(src, {}, NOTHING, AsArguments(args[1..]), rest, time);
    assert [values[0]] + values[1..] == values;
  }

  // ----- a certain throw -----

  lemma RunThrowMeans(cfg: Config, src: Source, f: string, args: seq<ConstValue>, name: string)
    requires WellFormedSource(src) && WindowsSurvive(src)
    requires f in src.functions ==> |args| == |src.functions[f].paramNames|
    requires RunCallDriver(cfg, src, f, args) == Value(Thrown(name))
    ensures f in src.functions && AllConstant(args) && Compiles(src, src.functions[f])
    ensures exists time: nat :: Invoke(src, f, Pushed(args), time) == Ends(Thrown(name))
  {
    hide Invoke, WellFormedSource, WindowsSurvive, Compiles, EvaluateArguments, ExecuteBody;
    QuotedArguments(src, args);
    CallDriverMeans(cfg, src, f, args, Thrown(name));
    var time: nat :| Invoke(src, f, Pushed(args), time) in {Got(Thrown(name)), Ends(Thrown(name))};
    PushedIsClean(args);
    InvokeIsClean(src, f, Pushed(args), time);
  }

  /** What the whole program with this call reports: a call driver that ends with a thrown name calls a function that throws
      it on the pushed arguments, if what the function reaches is well-formed and its windows survive. */
  lemma ThrowMeans(cfg: Config, src: Source, reach: set<string>, lk: Linkage, im: Image, f: string, args: seq<ConstValue>,
                   name: string)
    requires FitsPart(src, reach, ForCall(f, args)) && WindowsSurvive(Restrict(src, reach))
    requires lk.src == src && Linked(lk, im) && Holds(lk, im.code, ForCall(f, args))
    requires RunImage(cfg, im) == Value(Thrown(name))
    ensures var part := Restrict(src, reach);
      WellFormedSource(part) && f in part.functions && Compiles(part, part.functions[f]) && AllConstant(args) &&
      |args| == |part.functions[f].paramNames| &&
      exists time: nat :: Invoke(part, f, Pushed(args), time) == Ends(Thrown(name))
  {
    hide Invoke, WellFormedSource, WindowsSurvive, Compiles, RunCallDriver, Linked, Holds, RunImage, ClosedUnderCalls;
    ReachIsEnough(cfg, reach, lk, im, ForCall(f, args));
    RunThrowMeans(cfg, Restrict(src, reach), f, args, name);
  }

  lemma {:induction false} PushedIsClean(args: seq<ConstValue>)
    requires AllConstant(args)
    ensures NoneIsThrown(Pushed(args))
    decreases |args|
  {
    if |args| > 0 { PushedIsClean(args[1..]); }
  }

  /** Every function and every function they call. */
  function Everything(src: Source): set<string> {
    src.functions.Keys + set f, g | f in src.functions && g in BlockCalls(src.functions[f].body) :: g
  }

  lemma SharesItself(src: Source)
    ensures Share(src, src, Everything(src))
  {
    hide BlockCalls, BlockLooks;
  }

  lemma {:induction false} PushedAlike(vs: seq<ConstValue>)
    requires AllFaithful(vs)
    ensures AllConstant(vs) && LikeSeqs(Pushed(vs), vs)
    decreases |vs|
  {
    hide Like, Materialize;
    if |vs| > 0 {
      assert Faithful(vs[0]);
      PushedAlike(vs[1..]);
      assert forall i :: 1 <= i < |vs| ==> Pushed(vs)[i] == Pushed(vs[1..])[i - 1] && vs[i] == vs[1..][i - 1];
    }
  }

  /** A function that throws on the pushed constants throws on the constants, if all are faithful. */
  lemma ThrowsOnTheValues(src: Source, f: string, vs: seq<ConstValue>, time: nat, name: string)
    requires WellFormedSource(src) && f in src.functions && Compiles(src, src.functions[f])
    requires AllFaithful(vs) && |vs| == |src.functions[f].paramNames|
    requires Invoke(src, f, Pushed(vs), time) == Ends(Thrown(name))
    ensures Invoke(src, f, vs, time) == Ends(Thrown(name))
  {
    hide Invoke, WellFormedSource, Compiles, Like, Share;
    PushedAlike(vs);
    SharesItself(src);
    InvokeAlike(Everything(src), src, src, f, Pushed(vs), vs, time);
  }

  /** With windows that survive, "always throws" is reported only of a function that throws on the pushed values of the
      arguments; if these are faithful, it throws on the values themselves, and so the call expression means that throw. */
  lemma AlwaysThrowsIsSound(cfg: Config, src: Source, reach: set<string>, sym: FunctionSymbol, args: seq<Expression>,
                            e: string)
    requires CheckableWithin(src, reach, sym, args) && WindowsSurvive(Restrict(src, reach))
    requires Judge(cfg, Restrict(src, reach), sym, args) == AlwaysThrows(e)
    ensures var part := Restrict(src, reach);
      WellFormedSource(part) && (forall a :: a in args ==> ValueExpression(part, a)) &&
      ValuesOf(cfg, part, args).Known? && var values := ValuesOf(cfg, part, args).values;
      sym.name in part.functions && AllConstant(values) && Compiles(part, part.functions[sym.name]) &&
      |values| == |part.functions[sym.name].paramNames| &&
      exists name, time: nat :: (
        && Invoke(part, sym.name, Pushed(values), time) == Ends(Thrown(name)) && e == ErrorOf(name)
        && (AllFaithful(values) ==> Invoke(part, sym.name, values, time) == Ends(Thrown(name)))
        && (AllFaithful(values) ==> CallMeans(part, sym.name, args, Ends(Thrown(name)))))
  {
    hide RunCallDriver, Invoke, WellFormedSource, WindowsSurvive, Compiles, JudgeContracts, ValuesOf, CallMeans, AllFaithful,
      Checkable, CheckableWithin, Restrict;
    PartIsCheckable(src, reach, sym, args);
    var part := Restrict(src, reach);
    ArgumentsAreFine(part.constants, part.functions, sym, args);
    var values := ValuesOf(cfg, part, args).values;
    JudgeContractsNeverThrows(cfg, part, sym, values);
    CalleeTakes(part, sym);
    var name := RunCallDriver(cfg, part, sym.name, values).value.errorName;
    RunThrowMeans(cfg, part, sym.name, values, name);
    var time: nat :| Invoke(part, sym.name, Pushed(values), time) == Ends(Thrown(name));
    if AllFaithful(values) {
      ThrowsOnTheValues(part, sym.name, values, time, name);
      CallThrows(cfg, part, sym.name, args, time, name);
    }
    assert e == ErrorOf(name);
  }

  lemma CalleeTakes(src: Source, sym: FunctionSymbol)
    requires Checkable(src.functions, sym, [])
    ensures sym.name in src.functions ==> |src.functions[sym.name].paramNames| == |sym.paramNames|
  {
  }

  /** The call expression means this answer, unless its name makes it a hint. */
  ghost predicate CallMeans(src: Source, f: string, args: seq<Expression>, answer: Answer) {
    var call := FunctionCall(f, AsArguments(args));
    IsHint(f, AsArguments(args)) || (Evaluable(src, call) && Means(src, {}, NOTHING, call, answer))
  }

  lemma CallThrows(cfg: Config, src: Source, f: string, args: seq<Expression>, time: nat, name: string)
    requires WellFormedSource(src) && WindowsSurvive(src) && (forall e :: e in args ==> ValueExpression(src, e))
    requires ValuesOf(cfg, src, args).Known? && f in src.functions && Compiles(src, src.functions[f])
    requires |args| == |src.functions[f].paramNames|
    requires Invoke(src, f, ValuesOf(cfg, src, args).values, time) == Ends(Thrown(name))
    ensures CallMeans(src, f, args, Ends(Thrown(name)))
  {
    hide Invoke, WellFormedSource, WindowsSurvive, Compiles, ValuesOf, Means, EvalArguments, ValueExpression, Resolves;
    var values := ValuesOf(cfg, src, args).values;
    forall i | 0 <= i < |args| ensures Evaluable(src, args[i]) && Means(src, {}, NOTHING, args[i], Got(values[i])) {
      KnownMeans(cfg, src, args, i);
    }
    var first := ArgumentsMeanTogether(src, args, values);
    if IsHint(f, AsArguments(args)) { return; }
    CallOf(src, f, AsArguments(args), values, first, time, Ends(Thrown(name)));
  }

  lemma CallOf(src: Source, f: string, args: Arguments, values: seq<ConstValue>, first: nat, time: nat, answer: Answer)
    requires WellFormedSource(src) && ValueArguments(src, args) && ResolvesArguments(src, {}, args)
    requires EvalArguments(src, {}, NOTHING, args, first) == GotAll(values)
    requires f in src.functions && Compiles(src, src.functions[f]) && args.Count() == |src.functions[f].paramNames|
    requires |values| == |src.functions[f].paramNames| && Invoke(src, f, values, time) == answer && !answer.Late?
    requires !IsHint(f, args)
    ensures Evaluable(src, FunctionCall(f, args)) && Means(src, {}, NOTHING, FunctionCall(f, args), answer)
  {
    hide Invoke, WellFormedSource, Compiles, EvalArguments;
    var both := if first >= time + 1 then first else time + 1;
    ArgumentsStand(src, {}, NOTHING, args, first, both);
    InvokeStands(src, f, values, time, both - 1);
    assert Eval(src, {}, NOTHING, FunctionCall(f, args), both) == answer;
  }

  // ----- a violated clause -----

  function WithBound(src: Source, names: seq<string>, vs: seq<ConstValue>): Source
    requires |names| == |vs|
  {
    Source(Bound(src.constants, names, vs), src.functions)
  }

  /** The report of the check is one of the clauses on the values of the arguments. */
  lemma ViolationIsOfAClause(cfg: Config, src: Source, reach: set<string>, sym: FunctionSymbol, args: seq<Expression>,
                             k: nat)
    requires CheckableWithin(src, reach, sym, args) && Judge(cfg, Restrict(src, reach), sym, args) == ViolatesRequire(k)
    ensures var part := Restrict(src, reach);
      WellFormedSource(part) && (forall a :: a in args ==> ValueExpression(part, a)) &&
      ValuesOf(cfg, part, args).Known? && var values := ValuesOf(cfg, part, args).values;
      |values| == |sym.paramNames| && JudgeContracts(cfg, part, sym, values) == ViolatesRequire(k)
  {
    hide RunCallDriver, WellFormedSource, JudgeContracts, ValuesOf, Checkable, CheckableWithin, Restrict;
    PartIsCheckable(src, reach, sym, args);
    ArgumentsAreFine(src.constants, Restrict(src, reach).functions, sym, args);
  }

  /** The expression means this answer when names are locals bound to the values. */
  ghost predicate MeansOn(src: Source, names: seq<string>, vs: seq<ConstValue>, e: Expression, answer: Answer) {
    |names| == |vs| && WellFormedSource(src) && ValueExpression(src, e) && Resolves(src, NameSet(names), e) &&
    Means(src, NameSet(names), Bind(names, vs), e, answer)
  }

  /** The functions of the set call one another alone, and none looks up a constant under one of the names. */
  ghost predicate Apart(src: Source, reach: set<string>, names: set<string>) {
    ClosedUnderCalls(src, reach) &&
    forall f :: f in reach && f in src.functions ==>
      BlockLooks(NameSet(src.functions[f].paramNames), src.functions[f].body) !! names
  }

  lemma {:induction false} BoundIsBind(m: Constants, names: seq<string>, vs: seq<ConstValue>, x: string)
    requires |names| == |vs|
    ensures x in names <==> x in Bind(names, vs)
    ensures x in names ==>
      x in Bound(m, names, vs) && Bound(m, names, vs)[x] == Bind(names, vs)[x] && Bind(names, vs)[x] in vs
    ensures x !in names ==> Find(Bound(m, names, vs), x) == Find(m, x)
    decreases |names|
  {
    if |names| > 0 { BoundIsBind(m, names[..|names| - 1], vs[..|vs| - 1], x); }
  }

  lemma BoundShares(src: Source, names: seq<string>, vs: seq<ConstValue>, reach: set<string>)
    requires |names| == |vs| && Apart(src, reach, NameSet(names))
    ensures Share(WithBound(src, names, vs), src, reach)
  {
    hide BlockCalls, BlockLooks, Bound;
    forall x | x !in names ensures Find(Bound(src.constants, names, vs), x) == Find(src.constants, x) {
      BoundIsBind(src.constants, names, vs, x);
    }
  }

  lemma BoundShowsTheValues(src: Source, names: seq<string>, vs: seq<ConstValue>, mentioned: set<string>)
    requires |names| == |vs| && AllFaithful(vs)
    ensures SeeAlike(View(WithBound(src, names, vs), {}, NOTHING), View(src, NameSet(names), Bind(names, vs)), mentioned)
  {
    hide Like, Materialize, Bound, Bind;
    var bound, env := WithBound(src, names, vs), Bind(names, vs);
    forall x | x in mentioned && ResolvesName(bound, {}, x) && ResolvesName(src, NameSet(names), x)
      ensures Like(Lookup(bound, {}, NOTHING, x), Lookup(src, NameSet(names), env, x))
    {
      BoundIsBind(src.constants, names, vs, x);
      if x in names { assert Faithful(env[x]); }
      else {
        assert Find(bound.constants, x) == Find(src.constants, x);
        LikeItself(Materialize(src.constants[x]));
      }
    }
  }

  /** A value expression resolves wherever more names do. */
  lemma {:induction false} ResolvesUnder(one: Source, names: set<string>, two: Source, more: set<string>, e: Expression)
    requires one.functions == two.functions && ValueExpression(one, e) && Resolves(one, names, e)
    requires forall x :: ResolvesName(one, names, x) ==> ResolvesName(two, more, x)
    ensures Resolves(two, more, e)
    decreases e
  {
    hide ResolvesName;
    match e
    case BinaryExpression(l, _, r, _) =>
      ValuesDeclareNothing(one, l);
      assert names + Declares(l) == names && more + Declares(l) == more;
      ResolvesUnder(one, names, two, more, l);
      ResolvesUnder(one, names, two, more, r);
    case UnaryExpression(_, a, _) => ResolvesUnder(one, names, two, more, a);
    case CastExpression(_, _, a) => ResolvesUnder(one, names, two, more, a);
    case FunctionCall(f, args) =>
      if IsHint(f, args) {
        assert args.MoreArguments? && ValueArguments(one, args);
        ResolvesUnder(one, names, two, more, args.first);
      } else {
        ArgumentsResolveUnder(one, names, two, more, args);
      }
    case _ =>
  }

  lemma {:induction false} ArgumentsResolveUnder(one: Source, names: set<string>, two: Source, more: set<string>,
                                                 args: Arguments)
    requires one.functions == two.functions && ValueArguments(one, args) && ResolvesArguments(one, names, args)
    requires forall x :: ResolvesName(one, names, x) ==> ResolvesName(two, more, x)
    ensures ResolvesArguments(two, more, args)
    decreases args
  {
    hide ResolvesName;
    if args.MoreArguments? {
      ValuesDeclareNothing(one, args.first);
      assert names + Declares(args.first) == names && more + Declares(args.first) == more;
      ResolvesUnder(one, names, two, more, args.first);
      ArgumentsResolveUnder(one, names, two, more, args.rest);
    }
  }

  /** What an expression means with constants bound to the values, it means with locals bound to them: when the values
      are faithful and no function it reaches looks up a constant under the name of such a local. */
  lemma BoundMeansTheValues(src: Source, names: seq<string>, vs: seq<ConstValue>, e: Expression, b: bool, reach: set<string>)
    requires |names| == |vs| && AllFaithful(vs) && Apart(src, reach, NameSet(names)) && Calls(e) <= reach
    requires WellFormedSource(src) && ValueExpression(src, e)
    requires var bound := WithBound(src, names, vs);
      Evaluable(bound, e) && Means(bound, {}, NOTHING, e, Got(Bool(b)))
    ensures MeansOn(src, names, vs, e, Got(Bool(b)))
  {
    hide WellFormedSource, ValueExpression, Resolves, Eval, Bound, Bind, AllFaithful, Apart, Share, SeeAlike, Looks, Calls;
    var bound, env := WithBound(src, names, vs), Bind(names, vs);
    forall x | ResolvesName(bound, {}, x) ensures ResolvesName(src, NameSet(names), x) {
      BoundIsBind(src.constants, names, vs, x);
      assert x !in names ==> Find(bound.constants, x) == Find(src.constants, x);
    }
    ResolvesUnder(bound, {}, src, NameSet(names), e);
    BoundShares(src, names, vs, reach);
    BoundShowsTheValues(src, names, vs, Looks({}, e));
    var time: nat :| Eval(bound, {}, NOTHING, e, time) == Got(Bool(b));
    EvalAlike(reach, View(bound, {}, NOTHING), View(src, NameSet(names), env), e, time);
    assert Eval(src, NameSet(names), env, e, time) == Got(Bool(b));
  }

  /** With windows that survive, a violation is reported only of a require clause that means false with constants bound
      to the values; if they are faithful and nothing is captured, it means false with the parameters bound to them. */
  lemma ViolationIsSound(cfg: Config, src: Source, reach: set<string>, sym: FunctionSymbol, values: seq<ConstValue>, k: nat,
                         near: set<string>)
    requires CheckableWithin(src, reach, sym, []) && |values| == |sym.paramNames|
    requires WindowsSurvive(WithBound(Restrict(src, reach), sym.paramNames, values))
    requires JudgeContracts(cfg, Restrict(src, reach), sym, values) == ViolatesRequire(k)
    ensures k < |sym.contracts| && sym.contracts[k].IsClause()
    ensures var (part, condition) := (Restrict(src, reach), sym.contracts[k].Condition().expression);
      var bound := WithBound(part, sym.paramNames, values);
      Evaluable(bound, condition) && Means(bound, {}, NOTHING, condition, Got(Bool(false))) &&
      (AllFaithful(values) && Apart(part, near, NameSet(sym.paramNames)) && Calls(condition) <= near ==>
        MeansOn(part, sym.paramNames, values, condition, Got(Bool(false))))
  {
    hide RunDriver, WellFormedSource, ValueExpression, WindowsSurvive, Resolves, Means, Bound, AllFaithful, Apart, Calls,
      Checkable, CheckableWithin, Restrict;
    PartIsCheckable(src, reach, sym, []);
    var part := Restrict(src, reach);
    var bound := WithBound(part, sym.paramNames, values);
    ClausesAreFine(bound.constants, part.functions, sym);
    ClausesAreFine(part.constants, part.functions, sym);
    ViolatedClause(cfg, bound, sym.contracts, 0, k);
    var condition := sym.contracts[k].Condition().expression;
    ValueMeans(cfg, bound, condition, Bool(false));
    if AllFaithful(values) && Apart(part, near, NameSet(sym.paramNames)) && Calls(condition) <= near {
      BoundMeansTheValues(part, sym.paramNames, values, condition, false, near);
    }
  }
}
