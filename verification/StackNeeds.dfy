/** How much of the operand stack an expression needs can be read off its heights, before anything is run. */
module StackNeeds {
  import opened ConstValues
  import opened Arithmetic
  import opened Syntax
  import opened Bytecode
  import opened CodeShape
  import opened FrameSemantics
  import opened ReachableFunctions
  import opened StackTyping
  import opened ConstEvaluators
  import opened ConstantResolution
  import opened CompileTimeCalls

  predicate AtMost(hs: seq<nat>, max: nat) { forall h :: h in hs ==> h <= max }

  /** Evaluated at this height, neither an instruction of e nor the end of e finds more than max operands. */
  predicate Shallow(e: Expression, height: nat, max: nat) { height < max && AtMost(Heights(e, height), max) }

  lemma AtMostOfBoth(hs: seq<nat>, more: seq<nat>, max: nat)
    ensures AtMost(hs + more, max) <==> AtMost(hs, max) && AtMost(more, max)
  {
    if AtMost(hs + more, max) {
      forall h | h in hs ensures h <= max { assert h in hs + more; }
      forall h | h in more ensures h <= max { assert h in hs + more; }
    }
  }

  lemma OneIsAtMost(h: nat, max: nat)
    ensures AtMost([h], max) <==> h <= max
  {
    assert h in [h];
  }

  lemma OperandsAreShallow(l: Expression, op: BinaryOp, r: Expression, mode: OverflowMode, height: nat, max: nat)
    ensures Shallow(BinaryExpression(l, op, r, mode), height, max) <==>
      Shallow(l, height, max) && Shallow(r, height + 1, max)
  {
    hide AtMost;
    var (ls, rs) := (Heights(l, height), Heights(r, height + 1));
    assert Heights(BinaryExpression(l, op, r, mode), height) == ls + rs + [height + 2];
    AtMostOfBoth(ls, rs, max);
    AtMostOfBoth(ls + rs, [height + 2], max);
    OneIsAtMost(height + 2, max);
  }

  /** An expression that calls nothing overflows the stack only if its heights pass the limit, and yields a value only if
      they do not. */
  lemma {:induction false} HeightsDecide(at: Place, sc: Scope, e: Expression, height: nat, win: seq<ConstValue>, fuel: nat)
    requires WellFormedSource(at.src) && ValueExpression(at.src, e) && Resolves(at.src, sc.slots.Keys, e)
    requires Calls(e) == {} && height <= at.cfg.maxStackSize
    ensures var r := Evaluate(at, sc, e, height, win, fuel);
      (r == Halts(Limit(StackSize)) ==> !Shallow(e, height, at.cfg.maxStackSize)) &&
      (r.Yields? ==> Shallow(e, height, at.cfg.maxStackSize))
    decreases e
  {
    hide WellFormedSource, ApplyBinary, ApplyUnary, Call, EvaluateArguments, AtMost;
    var max := at.cfg.maxStackSize;
    match e
    case BinaryExpression(l, op, r, mode) =>
      ValuesDeclareNothing(at.src, l);
      assert sc.slots.Keys + Declares(l) == sc.slots.Keys;
      OperandsAreShallow(l, op, r, mode, height, max);
      HeightsDecide(at, sc, l, height, win, fuel);
      var left := Evaluate(at, sc, l, height, win, fuel);
      if left.Yields? { HeightsDecide(at, sc, r, height + 1, left.window, left.fuel); }
    case UnaryExpression(_, a, _) =>
      HeightsDecide(at, sc, a, height, win, fuel);
      AtMostOfBoth(Heights(a, height), [height + 1], max);
      OneIsAtMost(height + 1, max);
    case CastExpression(_, _, a) =>
      HeightsDecide(at, sc, a, height, win, fuel);
      AtMostOfBoth(Heights(a, height), [height + 1], max);
      OneIsAtMost(height + 1, max);
    case FunctionCall(f, args) =>
      assert !IsHint(f, args) ==> f in Calls(e);
      assert args.MoreArguments? && ValueArguments(at.src, args);
      HeightsDecide(at, sc, args.first, height, win, fuel);
    case _ => OneIsAtMost(height, max);
  }

  /** Whatever it computes, and under all other limits, it never raises. */
  lemma ShallowNeverRaises(cfg: Config, src: Source, e: Expression)
    requires WellFormedSource(src) && ValueExpression(src, e) && Calls(e) == {} && Shallow(e, 0, cfg.maxStackSize)
    ensures Observe(RunDriver(cfg, src, e)).Returned?
  {
    hide WellFormedSource, ValueExpression, Resolves, Evaluate, Calls, Shallow;
    if Resolves(src, NO_LOCALS.slots.Keys, e) {
      HeightsDecide(Start(cfg, src), NO_LOCALS, e, 0, InitialLocals(cfg), cfg.maxIterations);
    }
  }

  // ----- initialisers and clauses -----

  /** Where no function is registered, what resolves calls nothing. */
  lemma {:induction false} PlainCallsNothing(src: Source, names: set<string>, e: Expression)
    requires src.functions == map[] && ValueExpression(src, e) && Resolves(src, names, e)
    ensures Calls(e) == {}
    decreases e
  {
    match e
    case BinaryExpression(l, _, r, _) =>
      PlainCallsNothing(src, names, l);
      PlainCallsNothing(src, names + Declares(l), r);
    case UnaryExpression(_, a, _) => PlainCallsNothing(src, names, a);
    case CastExpression(_, _, a) => PlainCallsNothing(src, names, a);
    case FunctionCall(f, args) =>
      assert args.MoreArguments? && ValueArguments(src, args);
      PlainCallsNothing(src, names, args.first);
      assert args.Count() == 1 && args.rest.Count() == 0;
      assert args.rest.NoArguments? && ArgumentCalls(args.rest) == {};
    case _ =>
  }

  /** An initialiser overflows only if its heights pass the limit, whatever constants are known. */
  lemma ShallowInitialisers(cfg: Config, inits: Initialisers, m: Constants)
    requires AllPlain(inits) && forall x :: x in inits ==> Shallow(inits[x], 0, cfg.maxStackSize)
    ensures !SomeOverflows(cfg, inits, m)
  {
    hide ValueExpression, Resolves, RunDriver, Shallow, Calls;
    var src := ConstantResolution.Known(m);
    forall x | x in inits ensures Observe(Attempt(cfg, m, inits[x])).Returned? {
      PlainAnywhere(m, inits[x]);
      if Resolves(src, {}, inits[x]) {
        PlainCallsNothing(src, {}, inits[x]);
        ShallowNeverRaises(cfg, src, inits[x]);
      } else {
        UnresolvedReturns(cfg, src, inits[x]);
      }
    }
  }

  lemma UnresolvedReturns(cfg: Config, src: Source, e: Expression)
    requires WellFormedSource(src) && ValueExpression(src, e) && !Resolves(src, {}, e)
    ensures RunDriver(cfg, src, e) == Value(Error)
  {
    hide WellFormedSource, Evaluate;
    assert NO_LOCALS.slots.Keys == {};
  }

  /** Clauses that call nothing and fit the stack never raise. */
  lemma ShallowClauses(cfg: Config, src: Source, contracts: seq<Contract>, from: nat)
    requires WellFormedSource(src) && from <= |contracts| && ClausesAreValues(src, contracts)
    requires forall c :: c in contracts && c.IsClause() ==>
      Calls(c.Condition().expression) == {} && Shallow(c.Condition().expression, 0, cfg.maxStackSize)
    ensures !JudgeRequires(cfg, src, contracts, from).Raises?
  {
    hide WellFormedSource, ValueExpression, RunDriver, Shallow, Calls, JudgeRequires;
    VerdictIs(cfg, src, contracts, from);
    if k: nat :| from <= k < |contracts| && Overflows(cfg, src, contracts[k]) && Undecided(cfg, src, contracts, from, k) {
      assert contracts[k] in contracts;
      ShallowNeverRaises(cfg, src, contracts[k].Condition().expression);
    }
  }
}
