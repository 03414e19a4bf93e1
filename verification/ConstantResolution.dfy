/** The named constants of a program: an iteration that retries until no further constant evaluates, and the least
    fixed point it computes. */
module ConstantResolution {
  import opened Options
  import opened ConstValues
  import opened Arithmetic
  import opened Syntax
  import opened Bytecode
  import opened CodeShape
  import opened FrameSemantics
  import opened ConstEvaluators

  type Constants = map<string, ConstValue>

  /** The initialisers of the declared constants, by name. */
  type Initialisers = map<string, Expression>

  function Known(m: Constants): Source { Source(m, map[]) }

  /** An initialiser the compiler leaves one value for.  No function is registered while constants are resolved. */
  predicate Plain(e: Expression) { ValueExpression(Known(map[]), e) }

  ghost predicate AllPlain(inits: Initialisers) { forall x :: x in inits ==> Plain(inits[x]) }

  /** What evaluating e gives when exactly the constants of m are defined. */
  function Attempt(cfg: Config, m: Constants, e: Expression): Outcome
    requires Plain(e)
  {
    PlainAnywhere(m, e);
    RunDriver(cfg, Known(m), e)
  }

  /** An outcome that defines a constant. */
  predicate Defines(o: Outcome) { o.Value? && !o.value.Error? && !o.value.Thrown? }

  ghost predicate Below(m: Constants, n: Constants) { forall x :: x in m ==> x in n && n[x] == m[x] }

  // ----- evaluation is monotone in the constants -----

  lemma {:induction false} PlainAnywhere(m: Constants, e: Expression)
    requires Plain(e)
    ensures ValueExpression(Known(m), e)
    decreases e
  {
    match e
    case BinaryExpression(l, _, r, _) => PlainAnywhere(m, l); PlainAnywhere(m, r);
    case UnaryExpression(_, a, _) => PlainAnywhere(m, a);
    case CastExpression(_, _, a) => PlainAnywhere(m, a);
    case FunctionCall(_, args) => PlainArgumentsAnywhere(m, args);
    case _ =>
  }

  lemma {:induction false} PlainArgumentsAnywhere(m: Constants, args: Arguments)
    requires ValueArguments(Known(map[]), args)
    ensures ValueArguments(Known(m), args)
    decreases args
  {
    if args.MoreArguments? {
      PlainAnywhere(m, args.first);
      PlainArgumentsAnywhere(m, args.rest);
    }
  }

  function WithConstants(at: Place, m: Constants): Place { at.(src := Known(m)) }

  /** What resolves keeps its meaning when more constants become known. */
  lemma {:induction false} EvaluateGrows(at: Place, m: Constants, n: Constants, sc: Scope, e: Expression, height: nat,
                                         win: seq<ConstValue>, fuel: nat)
    requires Plain(e) && Below(m, n) && Resolves(Known(m), sc.slots.Keys, e) && height <= at.cfg.maxStackSize
    ensures Resolves(Known(n), sc.slots.Keys, e)
    ensures ValueExpression(Known(m), e) && ValueExpression(Known(n), e)
    ensures Evaluate(WithConstants(at, n), sc, e, height, win, fuel) ==
            Evaluate(WithConstants(at, m), sc, e, height, win, fuel)
    decreases e
  {
    hide ApplyBinary, ApplyUnary, EvaluateArguments, Call;
    PlainAnywhere(m, e);
    PlainAnywhere(n, e);
    var am, names := WithConstants(at, m), sc.slots.Keys;
    match e
    case BinaryExpression(l, _, r, _) =>
      ValuesDeclareNothing(Known(m), l);
      assert names + Declares(l) == names;
      EvaluateGrows(at, m, n, sc, l, height, win, fuel);
      var left := Evaluate(am, sc, l, height, win, fuel);
      if left.Yields? { EvaluateGrows(at, m, n, sc, r, height + 1, left.window, left.fuel); }
      else { ResolvesGrows(m, n, names, r); }
    case UnaryExpression(_, a, _) => EvaluateGrows(at, m, n, sc, a, height, win, fuel);
    case CastExpression(_, _, a) => EvaluateGrows(at, m, n, sc, a, height, win, fuel);
    case FunctionCall(_, args) =>
      assert args.MoreArguments? && ValueArguments(Known(map[]), args);
      EvaluateGrows(at, m, n, sc, args.first, height, win, fuel);
    case _ =>
  }

  lemma {:induction false} ResolvesGrows(m: Constants, n: Constants, names: set<string>, e: Expression)
    requires Plain(e) && Below(m, n) && Resolves(Known(m), names, e)
    ensures Resolves(Known(n), names, e)
    decreases e
  {
    match e
    case BinaryExpression(l, _, r, _) =>
      ResolvesGrows(m, n, names, l);
      ResolvesGrows(m, n, names + Declares(l), r);
    case UnaryExpression(_, a, _) => ResolvesGrows(m, n, names, a);
    case CastExpression(_, _, a) => ResolvesGrows(m, n, names, a);
    case FunctionCall(_, args) =>
      assert args.MoreArguments? && ValueArguments(Known(map[]), args);
      ResolvesGrows(m, n, names, args.first);
    case _ =>
  }

  /** An outcome other than the error value does not change when more constants become known. */
  lemma AttemptGrows(cfg: Config, m: Constants, n: Constants, e: Expression)
    requires Plain(e) && Below(m, n) && Attempt(cfg, m, e) != Value(Error)
    ensures Attempt(cfg, n, e) == Attempt(cfg, m, e)
  {
    hide Evaluate, Resolves;
    PlainAnywhere(m, e);
    PlainAnywhere(n, e);
    EvaluateGrows(Start(cfg, Known(m)), m, n, NO_LOCALS, e, 0, InitialLocals(cfg), cfg.maxIterations);
  }

  // ----- fixed points -----

  /** All constants that evaluate when those of m are defined. */
  function Advance(cfg: Config, inits: Initialisers, m: Constants): Constants
    requires AllPlain(inits)
  {
    map x | x in inits && Defines(Attempt(cfg, m, inits[x])) :: Attempt(cfg, m, inits[x]).value
  }

  ghost predicate Closed(cfg: Config, inits: Initialisers, m: Constants)
    requires AllPlain(inits)
  {
    Below(Advance(cfg, inits, m), m)
  }

  ghost predicate LeastFixedPoint(cfg: Config, inits: Initialisers, m: Constants)
    requires AllPlain(inits)
  {
    Advance(cfg, inits, m) == m && forall n :: Closed(cfg, inits, n) ==> Below(m, n)
  }

  lemma AdvanceGrows(cfg: Config, inits: Initialisers, m: Constants, n: Constants)
    requires AllPlain(inits) && Below(m, n)
    ensures Below(Advance(cfg, inits, m), Advance(cfg, inits, n))
  {
    hide Attempt;
    forall x | x in Advance(cfg, inits, m)
      ensures x in Advance(cfg, inits, n) && Advance(cfg, inits, n)[x] == Advance(cfg, inits, m)[x]
    {
      AttemptGrows(cfg, m, n, inits[x]);
    }
  }

  // ----- derivations -----

  /** The constants defined by evaluating initialisers in the order of d, each with only the earlier ones known. */
  function Replay(cfg: Config, inits: Initialisers, d: seq<string>): Option<Constants>
    requires AllPlain(inits)
  {
    if |d| == 0 then Some(map[])
    else
      var (before, x) := (Replay(cfg, inits, d[..|d| - 1]), d[|d| - 1]);
      if before.None? || x !in inits then None
      else
        var o := Attempt(cfg, before.value, inits[x]);
        if Defines(o) then Some(before.value[x := o.value]) else None
  }

  /** What a derivation defines still evaluates to the same once all of it is known. */
  lemma {:induction false} DerivedIsStable(cfg: Config, inits: Initialisers, d: seq<string>)
    requires AllPlain(inits) && Replay(cfg, inits, d).Some?
    ensures var m := Replay(cfg, inits, d).value; Below(m, Advance(cfg, inits, m))
    decreases |d|
  {
    hide Attempt;
    if |d| > 0 {
      var m := Replay(cfg, inits, d).value;
      var before, x := Replay(cfg, inits, d[..|d| - 1]).value, d[|d| - 1];
      DerivedIsStable(cfg, inits, d[..|d| - 1]);
      assert Below(before, m) by {
        if x in before { assert Advance(cfg, inits, before)[x] == before[x]; }
      }
      AdvanceGrows(cfg, inits, before, m);
      AttemptGrows(cfg, before, m, inits[x]);
    }
  }

  lemma {:induction false} DerivedIsBelow(cfg: Config, inits: Initialisers, d: seq<string>, n: Constants)
    requires AllPlain(inits) && Replay(cfg, inits, d).Some? && Closed(cfg, inits, n)
    ensures Below(Replay(cfg, inits, d).value, n)
    decreases |d|
  {
    hide Attempt;
    if |d| > 0 {
      var before, x := Replay(cfg, inits, d[..|d| - 1]).value, d[|d| - 1];
      DerivedIsBelow(cfg, inits, d[..|d| - 1], n);
      AttemptGrows(cfg, before, n, inits[x]);
      assert x in Advance(cfg, inits, n);
    }
  }

  /** A derived map that is closed is the least fixed point. */
  lemma DerivedAndClosed(cfg: Config, inits: Initialisers, d: seq<string>, m: Constants)
    requires AllPlain(inits) && Replay(cfg, inits, d) == Some(m) && Closed(cfg, inits, m)
    ensures LeastFixedPoint(cfg, inits, m)
  {
    hide Advance, Replay;
    DerivedIsStable(cfg, inits, d);
    forall n | Closed(cfg, inits, n) ensures Below(m, n) { DerivedIsBelow(cfg, inits, d, n); }
    assert Advance(cfg, inits, m) == m;
  }

  lemma Extend(cfg: Config, inits: Initialisers, d: seq<string>, x: string)
    requires AllPlain(inits) && Replay(cfg, inits, d).Some? && x in inits
    requires Defines(Attempt(cfg, Replay(cfg, inits, d).value, inits[x]))
    ensures Replay(cfg, inits, d + [x]) ==
      Some(Replay(cfg, inits, d).value[x := Attempt(cfg, Replay(cfg, inits, d).value, inits[x]).value])
  {
    assert (d + [x])[..|d + [x]| - 1] == d;
  }

  lemma {:induction false} LeastFrom(cfg: Config, inits: Initialisers, d: seq<string>) returns (d': seq<string>)
    requires AllPlain(inits) && Replay(cfg, inits, d).Some?
    ensures Replay(cfg, inits, d').Some? && LeastFixedPoint(cfg, inits, Replay(cfg, inits, d').value)
    decreases |inits.Keys - Replay(cfg, inits, d).value.Keys|
  {
    hide Attempt, Replay, LeastFixedPoint;
    var m := Replay(cfg, inits, d).value;
    if x :| x in inits && x !in m && Defines(Attempt(cfg, m, inits[x])) {
      Extend(cfg, inits, d, x);
      var m' := Replay(cfg, inits, d + [x]).value;
      assert inits.Keys - m.Keys == inits.Keys - m'.Keys + {x};
      d' := LeastFrom(cfg, inits, d + [x]);
    } else {
      DerivedIsStable(cfg, inits, d);
      DerivedAndClosed(cfg, inits, d, m);
      d' := d;
    }
  }

  /** There is exactly one least fixed point. */
  lemma LeastIsUnique(cfg: Config, inits: Initialisers, m: Constants, n: Constants)
    requires AllPlain(inits) && LeastFixedPoint(cfg, inits, m) && LeastFixedPoint(cfg, inits, n)
    ensures m == n
  {
    hide Advance;
    assert Closed(cfg, inits, m) && Closed(cfg, inits, n);
  }

  lemma NothingIsReplayed(cfg: Config, inits: Initialisers)
    requires AllPlain(inits)
    ensures Replay(cfg, inits, []) == Some(map[])
  {
  }

  /** A constant has the value v in the least fixed point exactly when a finite derivation gives it v. */
  lemma DefinedIffDerivable(cfg: Config, inits: Initialisers, m: Constants, x: string, v: ConstValue)
    requires AllPlain(inits) && LeastFixedPoint(cfg, inits, m)
    ensures x in m && m[x] == v <==>
      exists d :: Replay(cfg, inits, d).Some? && x in Replay(cfg, inits, d).value && Replay(cfg, inits, d).value[x] == v
  {
    hide Advance, Replay;
    NothingIsReplayed(cfg, inits);
    var full := LeastFrom(cfg, inits, []);
    LeastIsUnique(cfg, inits, m, Replay(cfg, inits, full).value);
    if d :| Replay(cfg, inits, d).Some? && x in Replay(cfg, inits, d).value && Replay(cfg, inits, d).value[x] == v {
      assert Closed(cfg, inits, m);
      DerivedIsBelow(cfg, inits, d, m);
    }
  }

  // ----- the iteration -----

  /** The declared constants that have an initialiser. */
  function Initialised(entries: map<string, OptionalExpression>): Initialisers {
    map x | x in entries && entries[x].Present? :: entries[x].expression
  }

  /** Evaluating some initialiser with the constants of m overflows the operand stack. */
  ghost predicate SomeOverflows(cfg: Config, inits: Initialisers, m: Constants)
    requires AllPlain(inits)
  {
    exists x :: x in inits && Observe(Attempt(cfg, m, inits[x])).Raised?
  }

  /** What a derivation has reached when an initialiser overflows still overflows in the least fixed point. */
  lemma OverflowStays(cfg: Config, inits: Initialisers, d: seq<string>, x: string, m: Constants)
    requires AllPlain(inits) && Replay(cfg, inits, d).Some? && x in inits && LeastFixedPoint(cfg, inits, m)
    requires Observe(Attempt(cfg, Replay(cfg, inits, d).value, inits[x])).Raised?
    ensures SomeOverflows(cfg, inits, m)
  {
    hide Attempt, Replay, Advance;
    assert Closed(cfg, inits, m);
    DerivedIsBelow(cfg, inits, d, m);
    AttemptGrows(cfg, Replay(cfg, inits, d).value, m, inits[x]);
  }

  ghost predicate Reached(cfg: Config, inits: Initialisers, d: seq<string>, m: Constants)
    requires AllPlain(inits)
  {
    Replay(cfg, inits, d) == Some(m)
  }

  /** No initialiser of these names yields a constant or overflows when exactly m is known. */
  ghost predicate Stuck(cfg: Config, inits: Initialisers, names: seq<string>, m: Constants)
    requires AllPlain(inits)
  {
    forall x :: x in names && x in inits ==>
      !Defines(Attempt(cfg, m, inits[x])) && !Observe(Attempt(cfg, m, inits[x])).Raised?
  }

  /** One pass over the pending constants, in order: those that evaluate are defined at once and erased. */
  method ErasePass(eval: ConstEvaluator, inits: Initialisers, pending: seq<string>, ghost d: seq<string>)
    returns (kept: seq<string>, progressed: bool, raised: bool, ghost d': seq<string>)
    requires eval.functions == map[] && forall x :: x in pending ==> x in inits
    requires AllPlain(inits) ==> Reached(eval.config, inits, d, eval.constants)
    modifies eval`constants
    ensures |kept| <= |pending| && (progressed && !raised ==> |kept| < |pending|)
    ensures forall x :: x in kept ==> x in pending
    ensures !raised ==> forall x :: x in pending ==> x in kept || x in eval.constants
    ensures forall x :: x in old(eval.constants) ==> x in eval.constants
    ensures AllPlain(inits) ==> Reached(eval.config, inits, d', eval.constants)
    ensures AllPlain(inits) && !raised && !progressed ==> Stuck(eval.config, inits, kept, eval.constants)
    ensures AllPlain(inits) && raised ==>
      exists x :: x in inits && Observe(Attempt(eval.config, eval.constants, inits[x])).Raised?
  {
    hide Attempt, Replay, Evaluate;
    kept, progressed, raised, d' := [], false, false, d;
    for i := 0 to |pending|
      invariant eval.functions == map[] && |kept| <= i && (progressed ==> |kept| < i)
      invariant forall x :: x in kept ==> x in pending[..i]
      invariant forall x :: x in pending[..i] ==> x in kept || x in eval.constants
      invariant forall x :: x in old(eval.constants) ==> x in eval.constants
      invariant AllPlain(inits) ==> Reached(eval.config, inits, d', eval.constants)
      invariant AllPlain(inits) && !progressed ==> Stuck(eval.config, inits, kept, eval.constants)
    {
      var x := pending[i];
      assert pending[..i + 1] == pending[..i] + [x];
      var o := eval.Evaluate(inits[x]);
      if AllPlain(inits) { AttemptIsRun(eval.config, eval.constants, inits[x]); }
      if Observe(o).Raised? { raised := true; return; }
      var v := Observe(o).value;
      if v.Error? || v.Thrown? {
        kept := kept + [x];
      } else {
        if AllPlain(inits) {
          Extend(eval.config, inits, d', x);
          d' := d' + [x];
        }
        eval.DefineConstant(x, v);
        progressed := true;
      }
    }
    assert pending[..|pending|] == pending;
  }

  lemma AttemptIsRun(cfg: Config, m: Constants, e: Expression)
    requires Plain(e)
    ensures WellFormedSource(Known(m)) && ValueExpression(Known(m), e) && Attempt(cfg, m, e) == RunDriver(cfg, Known(m), e)
  {
    PlainAnywhere(m, e);
  }

  lemma OverflowEverywhere(cfg: Config, inits: Initialisers, d: seq<string>, m: Constants)
    requires AllPlain(inits) && Reached(cfg, inits, d, m) && SomeOverflows(cfg, inits, m)
    ensures forall n :: LeastFixedPoint(cfg, inits, n) ==> SomeOverflows(cfg, inits, n)
  {
    hide Attempt, Replay, LeastFixedPoint;
    var x :| x in inits && Observe(Attempt(cfg, m, inits[x])).Raised?;
    forall n | LeastFixedPoint(cfg, inits, n) ensures SomeOverflows(cfg, inits, n) { OverflowStays(cfg, inits, d, x, n); }
  }

  /** When every constant that is not defined is stuck, the derived map is the least fixed point and nothing overflows. */
  lemma ResolvedIsLeast(cfg: Config, inits: Initialisers, d: seq<string>, pending: seq<string>, m: Constants)
    requires AllPlain(inits) && Reached(cfg, inits, d, m) && Stuck(cfg, inits, pending, m)
    requires forall x :: x in inits ==> x in pending || x in m
    ensures LeastFixedPoint(cfg, inits, m)
    ensures forall n :: LeastFixedPoint(cfg, inits, n) ==> !SomeOverflows(cfg, inits, n)
  {
    hide Attempt, Replay, LeastFixedPoint;
    DerivedIsStable(cfg, inits, d);
    DerivedAndClosed(cfg, inits, d, m);
    assert !SomeOverflows(cfg, inits, m) by {
      forall x | x in inits ensures !Observe(Attempt(cfg, m, inits[x])).Raised? {
        if x in m { assert x in Advance(cfg, inits, m); }
      }
    }
    forall n | LeastFixedPoint(cfg, inits, n) ensures !SomeOverflows(cfg, inits, n) { LeastIsUnique(cfg, inits, m, n); }
  }

  /** The names that have an initialiser, in order of declaration. */
  method PendingConstants(order: seq<string>, entries: map<string, OptionalExpression>) returns (pending: seq<string>)
    requires NameSet(order) == entries.Keys
    ensures forall x :: x in pending <==> x in Initialised(entries)
  {
    pending := [];
    for i := 0 to |order|
      invariant forall x :: x in pending <==> x in order[..i] && entries[x].Present?
    {
      assert order[i] in NameSet(order);
      if entries[order[i]].Present? { pending := pending + [order[i]]; }
    }
  }

  /** Retries until a pass makes no progress or the exception of the operand stack escapes. */
  method ResolveConstants(eval: ConstEvaluator, inits: Initialisers, order: seq<string>) returns (raised: bool)
    requires eval.functions == map[] && eval.constants == map[] && forall x :: x in order <==> x in inits
    modifies eval`constants
    ensures AllPlain(inits) && !raised ==> LeastFixedPoint(eval.config, inits, eval.constants)
    ensures AllPlain(inits) ==>
      forall m :: LeastFixedPoint(eval.config, inits, m) ==> (raised <==> SomeOverflows(eval.config, inits, m))
  {
    hide LeastFixedPoint, SomeOverflows, Stuck, Reached, AllPlain;
    ghost var d := [];
    var pending, progressed := order, true;
    if AllPlain(inits) { ReachedNothing(eval.config, inits); }
    while progressed && |pending| > 0
      invariant eval.functions == map[] && forall x :: x in pending ==> x in inits
      invariant forall x :: x in inits ==> x in pending || x in eval.constants
      invariant AllPlain(inits) ==> Reached(eval.config, inits, d, eval.constants)
      invariant AllPlain(inits) && !progressed ==> Stuck(eval.config, inits, pending, eval.constants)
      decreases |pending| + if progressed then 1 else 0
    {
      pending, progressed, raised, d := ErasePass(eval, inits, pending, d);
      if raised {
        if AllPlain(inits) { RaisedSomewhere(eval.config, inits, d, eval.constants); }
        return;
      }
    }
    if AllPlain(inits) {
      NothingIsStuck(eval.config, inits, pending, eval.constants);
      ResolvedIsLeast(eval.config, inits, d, pending, eval.constants);
    }
    raised := false;
  }

  lemma ReachedNothing(cfg: Config, inits: Initialisers)
    requires AllPlain(inits)
    ensures Reached(cfg, inits, [], map[])
  {
  }

  lemma NothingIsStuck(cfg: Config, inits: Initialisers, pending: seq<string>, m: Constants)
    requires AllPlain(inits)
    ensures pending == [] ==> Stuck(cfg, inits, pending, m)
  {
  }

  lemma RaisedSomewhere(cfg: Config, inits: Initialisers, d: seq<string>, m: Constants)
    requires AllPlain(inits) && Reached(cfg, inits, d, m)
    requires exists x :: x in inits && Observe(Attempt(cfg, m, inits[x])).Raised?
    ensures forall n :: LeastFixedPoint(cfg, inits, n) ==> SomeOverflows(cfg, inits, n)
  {
    hide Reached, LeastFixedPoint, Attempt;
    OverflowEverywhere(cfg, inits, d, m);
  }

  /** Evaluator of a program: resolves its constants, then registers its functions.  The least fixed point does not
      mention the order of declaration, so the order does not matter; `raised` is the exception of the operand stack. */
  method BuildEvaluator(config: Config, order: seq<string>, entries: map<string, OptionalExpression>,
                        functions: map<string, ConstFunction>) returns (eval: ConstEvaluator, raised: bool)
    requires NameSet(order) == entries.Keys
    ensures fresh(eval) && eval.config == config
    ensures var inits := Initialised(entries); AllPlain(inits) && !raised ==>
      LeastFixedPoint(config, inits, eval.constants) && eval.functions == functions
    ensures var inits := Initialised(entries); AllPlain(inits) ==>
      forall m :: LeastFixedPoint(config, inits, m) ==> (raised <==> SomeOverflows(config, inits, m))
  {
    hide LeastFixedPoint, SomeOverflows, AllPlain;
    eval := new ConstEvaluator(config);
    var pending := PendingConstants(order, entries);
    raised := ResolveConstants(eval, Initialised(entries), pending);
    if raised { return; }
    var names := functions.Keys;
    ghost var resolved := eval.constants;
    while names != {}
      invariant eval.constants == resolved
      invariant names <= functions.Keys && eval.functions == map f | f in functions.Keys - names :: functions[f]
    {
      var f :| f in names;
      eval.DefineFunction(f, functions[f]);
      names := names - {f};
    }
  }

  /** The evaluator of a binder, built when it is first asked for.  It counts as built before it is: if building it
      raises, the binder has none from then on. */
  class EvaluatorCache {
    var ready: bool
    var evaluator: ConstEvaluator?

    constructor ()
      ensures Valid() && !ready
    {
      ready, evaluator := false, null;
    }

    ghost predicate Valid()
      reads this
    {
      evaluator != null ==> ready
    }

    /** Returns with an evaluator, raises, or, if it raised before, returns without one. */
    method Get(config: Config, order: seq<string>, entries: map<string, OptionalExpression>,
               functions: map<string, ConstFunction>) returns (raised: bool)
      requires Valid() && NameSet(order) == entries.Keys
      modifies this
      ensures Valid() && ready
      ensures old(ready) ==> !raised && evaluator == old(evaluator)
      ensures !old(ready) ==> (raised <==> evaluator == null)
      ensures !old(ready) && AllPlain(Initialised(entries)) ==>
        forall m :: LeastFixedPoint(config, Initialised(entries), m) ==>
          (evaluator == null <==> SomeOverflows(config, Initialised(entries), m))
      ensures !old(ready) && !raised ==>
        fresh(evaluator) && evaluator.config == config &&
        (AllPlain(Initialised(entries)) ==>
          LeastFixedPoint(config, Initialised(entries), evaluator.constants) && evaluator.functions == functions)
    {
      hide LeastFixedPoint, SomeOverflows, AllPlain;
      if ready { return false; }
      ready := true;
      var eval;
      eval, raised := BuildEvaluator(config, order, entries, functions);
      if raised { return; }
      evaluator := eval;
    }
  }
}
