/** Exactly when the call check reports what: in terms of the values of the arguments, and of what the program means. */
module CallReports {
  import opened Options
  import opened ConstValues
  import opened Syntax
  import opened Bytecode
  import opened CodeShape
  import opened FrameSemantics
  import opened ReachableFunctions
  import opened Reference
  import opened Agreement
  import opened EvaluatorTheorems
  import opened ThrownNames
  import opened ConstEvaluators
  import opened CompileTimeCalls
  import opened CallSoundness

  /** A zero of any integer type: of 128 bits, both halves. */
  predicate Nought(v: ConstValue) {
    (v.Integer? && v.intVal == 0) || (v.Integer128? && v.int128Val.high == 0 && v.int128Val.low == 0)
  }

  /** The k-th parameter is the first of those that must not be zero that gets a zero. */
  predicate FirstZero(sym: FunctionSymbol, vs: seq<ConstValue>, k: nat) {
    k < |sym.nonZero| && k < |vs| && sym.nonZero[k] && Nought(vs[k]) &&
    forall j :: 0 <= j < k ==> !(sym.nonZero[j] && Nought(vs[j]))
  }

  predicate NoZero(sym: FunctionSymbol, vs: seq<ConstValue>) {
    forall j :: 0 <= j < |sym.nonZero| && j < |vs| ==> !(sym.nonZero[j] && Nought(vs[j]))
  }

  /** The check looks at calls of functions with a body and with as many arguments as parameters. */
  predicate Considered(sym: FunctionSymbol, args: seq<Expression>) { sym.hasBody && |args| == |sym.paramNames| }

  lemma ZeroArgumentIs(sym: FunctionSymbol, vs: seq<ConstValue>)
    ensures forall k: nat :: ZeroArgument(sym, vs) == Some(k) <==> FirstZero(sym, vs, k)
    ensures ZeroArgument(sym, vs).None? <==> NoZero(sym, vs)
  {
    forall v ensures IsZero(v) <==> Nought(v) { }
    var zero := ZeroArgument(sym, vs);
    forall k: nat | FirstZero(sym, vs, k) ensures zero == Some(k) {
      assert zero.Some?;
    }
  }

  // ----- under given limits -----

  /** A zero is reported of the k-th parameter exactly when the call is considered, the arguments are known, and that
      parameter is the first that must not be zero and gets a zero. */
  lemma ZeroReportIff(cfg: Config, src: Source, reach: set<string>, sym: FunctionSymbol, args: seq<Expression>, k: nat)
    requires CheckableWithin(src, reach, sym, args)
    ensures var part := Restrict(src, reach);
      WellFormedSource(part) && (forall a :: a in args ==> ValueExpression(part, a)) &&
      (Judge(cfg, part, sym, args) == PassesZero(k) <==>
        Considered(sym, args) && ValuesOf(cfg, part, args).Known? && FirstZero(sym, ValuesOf(cfg, part, args).values, k))
  {
    hide RunCallDriver, WellFormedSource, JudgeContracts, ValuesOf, Checkable, CheckableWithin, Restrict, ZeroArgument,
      FirstZero;
    var part := Restrict(src, reach);
    PartIsCheckable(src, reach, sym, args);
    ArgumentsAreFine(part.constants, part.functions, sym, args);
    var r := ValuesOf(cfg, part, args);
    if r.Known? {
      ZeroArgumentIs(sym, r.values);
      FirstZeroIsAsked(sym, r.values, k);
      if |args| == |sym.paramNames| { JudgeContractsNeverThrows(cfg, part, sym, r.values); }
    }
  }

  lemma FirstZeroIsAsked(sym: FunctionSymbol, vs: seq<ConstValue>, k: nat)
    ensures FirstZero(sym, vs, k) ==> sym.HasNonZero()
  {
    if FirstZero(sym, vs, k) { assert sym.nonZero[k] in sym.nonZero; }
  }

  /** What the check calls a throw. */
  predicate NamesError(e: string, thrown: string) { e == if thrown == "" then "error" else thrown }

  /** A throw is reported exactly when no zero is, the callee may be run, and its run on the arguments ends with that thrown
      name: whatever contracts the callee has. */
  lemma ThrowReportIff(cfg: Config, src: Source, reach: set<string>, sym: FunctionSymbol, args: seq<Expression>, e: string)
    requires CheckableWithin(src, reach, sym, args)
    ensures var part := Restrict(src, reach);
      WellFormedSource(part) && (forall a :: a in args ==> ValueExpression(part, a)) &&
      (sym.name in part.functions ==> |part.functions[sym.name].paramNames| == |sym.paramNames|) &&
      (Judge(cfg, part, sym, args) == AlwaysThrows(e) <==>
        Considered(sym, args) && ValuesOf(cfg, part, args).Known? && var vs := ValuesOf(cfg, part, args).values;
        NoZero(sym, vs) && sym.compileTime && sym.throwing && sym.name in part.functions &&
        exists thrown :: RunCallDriver(cfg, part, sym.name, vs) == Value(Thrown(thrown)) && NamesError(e, thrown))
  {
    hide RunCallDriver, WellFormedSource, JudgeContracts, ValuesOf, Checkable, CheckableWithin, Restrict, ZeroArgument,
      NoZero;
    var part := Restrict(src, reach);
    PartIsCheckable(src, reach, sym, args);
    ArgumentsAreFine(part.constants, part.functions, sym, args);
    CalleeTakes(part, sym);
    var r := ValuesOf(cfg, part, args);
    if r.Known? && Considered(sym, args) {
      ZeroArgumentIs(sym, r.values);
      JudgeContractsNeverThrows(cfg, part, sym, r.values);
    }
  }

  /** A clause is reported exactly when no zero is, the callee is not run or its run neither raises nor throws, and of the
      clauses, with the parameters bound, it is the first that fails or overflows, and fails. */
  lemma ViolationReportIff(cfg: Config, src: Source, reach: set<string>, sym: FunctionSymbol, args: seq<Expression>, k: nat)
    requires CheckableWithin(src, reach, sym, args)
    ensures var part := Restrict(src, reach);
      WellFormedSource(part) && (forall a :: a in args ==> ValueExpression(part, a)) &&
      (sym.name in part.functions ==> |part.functions[sym.name].paramNames| == |sym.paramNames|) &&
      (Judge(cfg, part, sym, args) == ViolatesRequire(k) <==>
        Considered(sym, args) && ValuesOf(cfg, part, args).Known? && var vs := ValuesOf(cfg, part, args).values;
        NoZero(sym, vs) &&
        (sym.compileTime && sym.throwing && sym.name in part.functions ==>
           var o := RunCallDriver(cfg, part, sym.name, vs);
           o != Limit(StackSize) && !(o.Value? && o.value.Thrown?)) &&
        var bound := WithBound(part, sym.paramNames, vs);
        WellFormedSource(bound) && ClausesAreValues(bound, sym.contracts) &&
        k < |sym.contracts| && Fails(cfg, bound, sym.contracts[k]) && Undecided(cfg, bound, sym.contracts, 0, k))
  {
    hide RunCallDriver, RunDriver, WellFormedSource, ValueExpression, JudgeRequires, ValuesOf, Checkable, CheckableWithin,
      Restrict, ZeroArgument, NoZero, Undecided, Fails, Bound;
    var part := Restrict(src, reach);
    PartIsCheckable(src, reach, sym, args);
    ArgumentsAreFine(part.constants, part.functions, sym, args);
    CalleeTakes(part, sym);
    var r := ValuesOf(cfg, part, args);
    if r.Known? && Considered(sym, args) {
      var bound := WithBound(part, sym.paramNames, r.values);
      ZeroArgumentIs(sym, r.values);
      ClausesAreFine(bound.constants, part.functions, sym);
      VerdictIs(cfg, bound, sym.contracts, 0);
      if k < |sym.contracts| { FailingIsRequired(cfg, bound, sym, k); }
    }
  }

  /** The exception of the operand stack comes out of the check exactly when there is something to check and an argument
      raises; or the arguments are known, no zero is passed, and the run of the callee raises, or, when that neither raises
      nor throws, the first clause that fails or overflows overflows. */
  lemma RaisesIff(cfg: Config, src: Source, reach: set<string>, sym: FunctionSymbol, args: seq<Expression>)
    requires CheckableWithin(src, reach, sym, args)
    ensures var part := Restrict(src, reach);
      WellFormedSource(part) && (forall a :: a in args ==> ValueExpression(part, a)) &&
      (sym.name in part.functions ==> |part.functions[sym.name].paramNames| == |sym.paramNames|) &&
      (Judge(cfg, part, sym, args) == Raises <==>
        Considered(sym, args) && var r := ValuesOf(cfg, part, args);
        var run := sym.compileTime && sym.throwing && sym.name in part.functions;
        if r.Known? then
          var bound := WithBound(part, sym.paramNames, r.values);
          NoZero(sym, r.values) && WellFormedSource(bound) && ClausesAreValues(bound, sym.contracts) &&
          ((run && RunCallDriver(cfg, part, sym.name, r.values) == Limit(StackSize)) ||
           ((run ==> var o := RunCallDriver(cfg, part, sym.name, r.values); !(o.Value? && o.value.Thrown?)) &&
            OverflowsFirst(cfg, bound, sym.contracts, 0)))
        else r.ArgumentRaises? && (run || (exists c :: c in sym.contracts && c.isRequire) || true in sym.nonZero))
  {
    hide RunCallDriver, RunDriver, WellFormedSource, ValueExpression, JudgeRequires, ValuesOf, Checkable, CheckableWithin,
      Restrict, ZeroArgument, NoZero, OverflowsFirst, Bound;
    var part := Restrict(src, reach);
    PartIsCheckable(src, reach, sym, args);
    ArgumentsAreFine(part.constants, part.functions, sym, args);
    CalleeTakes(part, sym);
    var r := ValuesOf(cfg, part, args);
    if r.Known? && Considered(sym, args) {
      var bound := WithBound(part, sym.paramNames, r.values);
      ZeroArgumentIs(sym, r.values);
      ClausesAreFine(bound.constants, part.functions, sym);
      VerdictIs(cfg, bound, sym.contracts, 0);
      OverflowingIsRequired(cfg, bound, sym);
    }
  }

  lemma OverflowingIsRequired(cfg: Config, src: Source, sym: FunctionSymbol)
    requires WellFormedSource(src) && ClausesAreValues(src, sym.contracts)
    ensures OverflowsFirst(cfg, src, sym.contracts, 0) ==> sym.HasRequires()
  {
    hide RunDriver, WellFormedSource, ValueExpression;
    if OverflowsFirst(cfg, src, sym.contracts, 0) {
      var k: nat :| k < |sym.contracts| && Overflows(cfg, src, sym.contracts[k]);
      assert sym.contracts[k] in sym.contracts && sym.contracts[k].isRequire;
    }
  }

  /** The arguments raise at the first that is no constant, if that one raises. */
  lemma {:induction false} ArgumentsRaiseIff(cfg: Config, src: Source, args: seq<Expression>)
    requires WellFormedSource(src) && forall a :: a in args ==> ValueExpression(src, a)
    ensures ValuesOf(cfg, src, args).ArgumentRaises? <==>
      exists i: nat :: i < |args| && ValuesOf(cfg, src, args[..i]).Known? && Observe(RunDriver(cfg, src, args[i])).Raised?
    decreases |args|
  {
    hide RunDriver, WellFormedSource, ValueExpression;
    if |args| > 0 {
      var n: nat := |args| - 1;
      ArgumentsRaiseIff(cfg, src, args[..n]);
      assert forall i: nat :: i <= n ==> args[..n][..i] == args[..i];
      KnownPrefix(cfg, src, args[..n]);
    }
  }

  lemma {:induction false} KnownPrefix(cfg: Config, src: Source, args: seq<Expression>)
    requires WellFormedSource(src) && forall a :: a in args ==> ValueExpression(src, a)
    ensures ValuesOf(cfg, src, args).Known? ==>
      forall i: nat :: i < |args| ==> Observe(RunDriver(cfg, src, args[i])).Returned?
    decreases |args|
  {
    hide RunDriver, WellFormedSource, ValueExpression;
    if |args| > 0 { KnownPrefix(cfg, src, args[..|args| - 1]); }
  }

  lemma FailingIsRequired(cfg: Config, src: Source, sym: FunctionSymbol, k: nat)
    requires WellFormedSource(src) && k < |sym.contracts| && ClausesAreValues(src, sym.contracts)
    ensures Fails(cfg, src, sym.contracts[k]) ==> sym.HasRequires()
  {
    hide RunDriver, WellFormedSource, ValueExpression;
    if Fails(cfg, src, sym.contracts[k]) { assert sym.contracts[k] in sym.contracts && sym.contracts[k].isRequire; }
  }

  /** A clause given as a block that returns an expression is judged as the clause that is this expression, and any other
      block as no clause at all. */
  lemma BlockClauses(cfg: Config, src: Source, b: Block)
    requires WellFormedSource(src)
    ensures var c := Contract(true, Absent, SomeBlock(b));
      (c.Condition().Present? <==>
        exists e :: b == Statements(ReturnStatement(Present(e)), EmptyBlock)) &&
      forall e :: b == Statements(ReturnStatement(Present(e)), EmptyBlock) && ValueExpression(src, e) ==>
        JudgeRequires(cfg, src, [c], 0) == JudgeRequires(cfg, src, [Contract(true, Present(e), NoBlock)], 0)
  {
    hide RunDriver, WellFormedSource, ValueExpression;
    var c := Contract(true, Absent, SomeBlock(b));
    if c.Condition().Present? {
      var e := c.Condition().expression;
      assert b == Statements(ReturnStatement(Present(e)), EmptyBlock);
      if ValueExpression(src, e) {
        var d := Contract(true, Present(e), NoBlock);
        OneClause(cfg, src, c);
        OneClause(cfg, src, d);
      }
    }
  }

  lemma OneClause(cfg: Config, src: Source, c: Contract)
    requires WellFormedSource(src) && c.IsClause() && ValueExpression(src, c.Condition().expression)
    ensures ClausesAreValues(src, [c])
    ensures JudgeRequires(cfg, src, [c], 0) ==
      match Observe(RunDriver(cfg, src, c.Condition().expression))
      case Raised => Raises
      case Returned(v) => if v == Bool(false) then ViolatesRequire(0) else Silent
  {
    hide RunDriver, WellFormedSource, ValueExpression;
  }

  // ----- in terms of meanings -----

  /** The arguments mean these values, none of which ends an evaluation. */
  ghost predicate Mean(src: Source, args: seq<Expression>, vs: seq<ConstValue>) {
    |args| == |vs| && forall i :: 0 <= i < |args| ==>
      Evaluable(src, args[i]) && Means(src, {}, NOTHING, args[i], Got(vs[i])) && !Ending(vs[i])
  }

  /** What the arguments mean is known under all limits from some point on. */
  lemma {:induction false} MeantIsKnown(src: Source, args: seq<Expression>, vs: seq<ConstValue>, heap: nat) returns (n: nat)
    requires WellFormedSource(src) && WindowsSurvive(src) && Mean(src, args, vs)
    requires forall a :: a in args ==> ValueExpression(src, a)
    ensures forall cfg: Config :: cfg.initialHeapSize == heap && AtLeast(cfg, n) ==> ValuesOf(cfg, src, args) == Known(vs)
    decreases |args|
  {
    hide WellFormedSource, WindowsSurvive, ValueExpression, Resolves, Means, RunDriver;
    if |args| == 0 { return 0; }
    var k := |args| - 1;
    var before := MeantIsKnown(src, args[..k], vs[..k], heap);
    assert args[k] in args;
    assert Evaluable(src, args[k]) && Means(src, {}, NOTHING, args[k], Got(vs[k]));
    var last := ExpressionIsReached(src, args[k], vs[k], heap);
    n := before + last;
    assert vs[..k] + [vs[k]] == vs;
    forall cfg: Config | cfg.initialHeapSize == heap && AtLeast(cfg, n) ensures ValuesOf(cfg, src, args) == Known(vs) {
      assert AtLeast(cfg, before) && AtLeast(cfg, last);
    }
  }

  lemma KnownIsMeant(cfg: Config, src: Source, args: seq<Expression>)
    requires WellFormedSource(src) && WindowsSurvive(src) && (forall a :: a in args ==> ValueExpression(src, a))
    requires ValuesOf(cfg, src, args).Known?
    ensures Mean(src, args, ValuesOf(cfg, src, args).values)
  {
    hide WellFormedSource, WindowsSurvive, ValueExpression, ValuesOf, Resolves, Eval;
    forall i | 0 <= i < |args|
      ensures Evaluable(src, args[i]) && Means(src, {}, NOTHING, args[i], Got(ValuesOf(cfg, src, args).values[i]))
      ensures !Ending(ValuesOf(cfg, src, args).values[i])
    {
      KnownMeans(cfg, src, args, i);
      KnownGoesOn(cfg, src, args, i);
    }
  }

  lemma {:induction false} KnownGoesOn(cfg: Config, src: Source, args: seq<Expression>, i: nat)
    requires WellFormedSource(src) && (forall a :: a in args ==> ValueExpression(src, a))
    requires ValuesOf(cfg, src, args).Known? && i < |args|
    ensures !Ending(ValuesOf(cfg, src, args).values[i])
    decreases |args|
  {
    hide RunDriver, WellFormedSource, ValueExpression;
    if i < |args| - 1 { KnownGoesOn(cfg, src, args[..|args| - 1], i); }
  }

  /** The check can report a zero for the k-th parameter exactly when the arguments mean values of which that is the first
      zero that is not allowed; and then it does under all limits from some point on. */
  lemma ZeroReportedIff(src: Source, reach: set<string>, sym: FunctionSymbol, args: seq<Expression>, k: nat)
    requires CheckableWithin(src, reach, sym, args) && WindowsSurvive(Restrict(src, reach))
    ensures var part := Restrict(src, reach);
      (exists cfg: Config :: Judge(cfg, part, sym, args) == PassesZero(k)) <==>
      Considered(sym, args) && exists vs :: Mean(part, args, vs) && FirstZero(sym, vs, k)
  {
    hide CheckableWithin, Restrict, WindowsSurvive, Mean, FirstZero, ValuesOf, WellFormedSource, ValueExpression, Judge,
      Checkable;
    var part := Restrict(src, reach);
    PartIsCheckable(src, reach, sym, args);
    ArgumentsAreFine(part.constants, part.functions, sym, args);
    if cfg: Config :| Judge(cfg, part, sym, args) == PassesZero(k) {
      ZeroReportIff(cfg, src, reach, sym, args, k);
      KnownIsMeant(cfg, part, args);
    }
    if Considered(sym, args) {
      if vs :| Mean(part, args, vs) && FirstZero(sym, vs, k) {
        var n := ZeroIsReported(src, reach, sym, args, vs, k, 0);
        var cfg := Config(n, n, n, n, 0);
        assert AtLeast(cfg, n) && Judge(cfg, part, sym, args) == PassesZero(k);
      }
    }
  }

  lemma ZeroIsReported(src: Source, reach: set<string>, sym: FunctionSymbol, args: seq<Expression>, vs: seq<ConstValue>,
                       k: nat, heap: nat) returns (n: nat)
    requires CheckableWithin(src, reach, sym, args) && WindowsSurvive(Restrict(src, reach)) && Considered(sym, args)
    requires Mean(Restrict(src, reach), args, vs) && FirstZero(sym, vs, k)
    ensures forall cfg: Config :: cfg.initialHeapSize == heap && AtLeast(cfg, n) ==>
      Judge(cfg, Restrict(src, reach), sym, args) == PassesZero(k)
  {
    hide CheckableWithin, Restrict, WindowsSurvive, Mean, FirstZero, ValuesOf, WellFormedSource, ValueExpression, Judge,
      Checkable;
    var part := Restrict(src, reach);
    PartIsCheckable(src, reach, sym, args);
    ArgumentsAreFine(part.constants, part.functions, sym, args);
    n := MeantIsKnown(part, args, vs, heap);
    forall cfg: Config | cfg.initialHeapSize == heap && AtLeast(cfg, n)
      ensures Judge(cfg, part, sym, args) == PassesZero(k)
    {
      ZeroReportIff(cfg, src, reach, sym, args, k);
    }
  }

  /** The callee may be run, and on these values, as they are pushed, it throws. */
  ghost predicate ThrowsOn(src: Source, sym: FunctionSymbol, vs: seq<ConstValue>, e: string) {
    WellFormedSource(src) && sym.compileTime && sym.throwing && sym.name in src.functions && AllConstant(vs) &&
    Compiles(src, src.functions[sym.name]) && |vs| == |src.functions[sym.name].paramNames| &&
    exists thrown, time: nat :: Invoke(src, sym.name, Pushed(vs), time) == Ends(Thrown(thrown)) && NamesError(e, thrown)
  }

  /** The check can report a throw exactly when the arguments mean values without a zero that is not allowed on which the
      callee throws, whatever contracts the callee has; and then it does under all limits from some point on. */
  lemma ThrowReportedIff(src: Source, reach: set<string>, sym: FunctionSymbol, args: seq<Expression>, e: string)
    requires CheckableWithin(src, reach, sym, args) && WindowsSurvive(Restrict(src, reach))
    ensures var part := Restrict(src, reach);
      (exists cfg: Config :: Judge(cfg, part, sym, args) == AlwaysThrows(e)) <==>
      Considered(sym, args) && exists vs :: Mean(part, args, vs) && NoZero(sym, vs) && ThrowsOn(part, sym, vs, e)
  {
    hide CheckableWithin, Restrict, WindowsSurvive, Mean, NoZero, ValuesOf, WellFormedSource, ValueExpression, Judge,
      Checkable, Compiles, Invoke, RunCallDriver, AllConstant;
    var part := Restrict(src, reach);
    PartIsCheckable(src, reach, sym, args);
    ArgumentsAreFine(part.constants, part.functions, sym, args);
    if cfg: Config :| Judge(cfg, part, sym, args) == AlwaysThrows(e) {
      ThrowReportIff(cfg, src, reach, sym, args, e);
      KnownIsMeant(cfg, part, args);
      var vs := ValuesOf(cfg, part, args).values;
      var thrown :| RunCallDriver(cfg, part, sym.name, vs) == Value(Thrown(thrown)) && NamesError(e, thrown);
      RunThrowMeans(cfg, part, sym.name, vs, thrown);
    }
    if Considered(sym, args) {
      if vs :| Mean(part, args, vs) && NoZero(sym, vs) && ThrowsOn(part, sym, vs, e) {
        var n := ThrowIsReported(src, reach, sym, args, vs, e, 0);
        var cfg := Config(n, n, n, n, 0);
        assert AtLeast(cfg, n) && Judge(cfg, part, sym, args) == AlwaysThrows(e);
      }
    }
  }

  lemma ThrowIsReported(src: Source, reach: set<string>, sym: FunctionSymbol, args: seq<Expression>, vs: seq<ConstValue>,
                        e: string, heap: nat) returns (n: nat)
    requires CheckableWithin(src, reach, sym, args) && WindowsSurvive(Restrict(src, reach)) && Considered(sym, args)
    requires Mean(Restrict(src, reach), args, vs) && NoZero(sym, vs) && ThrowsOn(Restrict(src, reach), sym, vs, e)
    ensures forall cfg: Config :: cfg.initialHeapSize == heap && AtLeast(cfg, n) ==>
      Judge(cfg, Restrict(src, reach), sym, args) == AlwaysThrows(e)
  {
    hide CheckableWithin, Restrict, WindowsSurvive, Mean, NoZero, ValuesOf, WellFormedSource, ValueExpression, Judge,
      Checkable, Compiles, Invoke, RunCallDriver, AllConstant;
    var part := Restrict(src, reach);
    PartIsCheckable(src, reach, sym, args);
    ArgumentsAreFine(part.constants, part.functions, sym, args);
    var known := MeantIsKnown(part, args, vs, heap);
    var thrown, time: nat :| Invoke(part, sym.name, Pushed(vs), time) == Ends(Thrown(thrown)) && NamesError(e, thrown);
    var run := CallIsReached(part, sym.name, vs, Thrown(thrown), heap);
    n := known + run;
    forall cfg: Config | cfg.initialHeapSize == heap && AtLeast(cfg, n)
      ensures Judge(cfg, part, sym, args) == AlwaysThrows(e)
    {
      assert AtLeast(cfg, known) && AtLeast(cfg, run);
      ThrowReportIff(cfg, src, reach, sym, args, e);
    }
  }

  /** No clause of the first k can be reported: it does not resolve, or it means something that is not false. */
  ghost predicate Passes(src: Source, c: Contract)
    requires WellFormedSource(src) && (c.IsClause() ==> ValueExpression(src, c.Condition().expression))
  {
    c.IsClause() && Resolves(src, {}, c.Condition().expression) ==>
      exists v :: v != Bool(false) && EndsWith(src, ForExpression(c.Condition().expression), v)
  }

  ghost predicate AllPass(src: Source, contracts: seq<Contract>, k: nat)
    requires WellFormedSource(src) && ClausesAreValues(src, contracts) && k <= |contracts|
  {
    forall j: nat :: j < k ==> Passes(src, contracts[j])
  }

  lemma PassingIsUndecided(src: Source, c: Contract, heap: nat) returns (n: nat)
    requires WellFormedSource(src) && (c.IsClause() ==> ValueExpression(src, c.Condition().expression))
    requires WindowsSurvive(src) && Passes(src, c)
    ensures forall cfg: Config :: cfg.initialHeapSize == heap && AtLeast(cfg, n) ==>
      !Fails(cfg, src, c) && !Overflows(cfg, src, c)
  {
    hide WellFormedSource, WindowsSurvive, ValueExpression, Resolves, EndsWith, Evaluate;
    n := 0;
    assert NO_LOCALS.slots.Keys == {};
    if c.IsClause() && Resolves(src, {}, c.Condition().expression) {
      var v :| v != Bool(false) && EndsWith(src, ForExpression(c.Condition().expression), v);
      n := MeaningIsReached(src, ForExpression(c.Condition().expression), v, heap);
      forall cfg: Config | cfg.initialHeapSize == heap && AtLeast(cfg, n)
        ensures !Fails(cfg, src, c) && !Overflows(cfg, src, c)
      {
        assert RunOf(cfg, src, ForExpression(c.Condition().expression)) == Value(v);
      }
    }
  }

  lemma {:induction false} PassingAreUndecided(src: Source, contracts: seq<Contract>, k: nat, heap: nat) returns (n: nat)
    requires WellFormedSource(src) && ClausesAreValues(src, contracts) && k <= |contracts|
    requires WindowsSurvive(src) && AllPass(src, contracts, k)
    ensures forall cfg: Config :: cfg.initialHeapSize == heap && AtLeast(cfg, n) ==> Undecided(cfg, src, contracts, 0, k)
    decreases k
  {
    hide WellFormedSource, WindowsSurvive, ValueExpression, Passes, Fails, Overflows;
    if k == 0 { return 0; }
    var before := PassingAreUndecided(src, contracts, k - 1, heap);
    assert contracts[k - 1] in contracts;
    var last := PassingIsUndecided(src, contracts[k - 1], heap);
    n := before + last;
    forall cfg: Config | cfg.initialHeapSize == heap && AtLeast(cfg, n) ensures Undecided(cfg, src, contracts, 0, k) {
      assert AtLeast(cfg, before) && AtLeast(cfg, last);
    }
  }

  /** The callee is not run on these values, or ends on them without a thrown name. */
  ghost predicate CalleePasses(src: Source, sym: FunctionSymbol, vs: seq<ConstValue>) {
    sym.compileTime && sym.throwing && sym.name in src.functions && AllConstant(vs) ==>
      Runnable(src, ForCall(sym.name, vs)) && exists v: ConstValue :: !v.Thrown? && EndsWith(src, ForCall(sym.name, vs), v)
  }

  lemma CalleeIsQuiet(src: Source, sym: FunctionSymbol, vs: seq<ConstValue>, heap: nat) returns (n: nat)
    requires WellFormedSource(src) && WindowsSurvive(src) && CalleePasses(src, sym, vs)
    requires sym.name in src.functions ==> |vs| == |src.functions[sym.name].paramNames|
    ensures forall cfg: Config | cfg.initialHeapSize == heap && AtLeast(cfg, n) ::
      sym.compileTime && sym.throwing && sym.name in src.functions ==>
        var o := RunCallDriver(cfg, src, sym.name, vs); o.Value? && !o.value.Thrown?
  {
    hide WellFormedSource, WindowsSurvive, EndsWith, Call, EvaluateArguments;
    n := 0;
    if sym.compileTime && sym.throwing && sym.name in src.functions && AllConstant(vs) {
      var v: ConstValue :| !v.Thrown? && EndsWith(src, ForCall(sym.name, vs), v);
      n := MeaningIsReached(src, ForCall(sym.name, vs), v, heap);
      forall cfg: Config | cfg.initialHeapSize == heap && AtLeast(cfg, n)
        ensures RunCallDriver(cfg, src, sym.name, vs) == Value(v)
      {
        assert RunOf(cfg, src, ForCall(sym.name, vs)) == Value(v);
      }
    }
  }

  /** A require clause that means false, with constants bound to the arguments, is reported under all limits from some point
      on: when no zero is passed, the callee does not throw, and the clauses before it mean something else. */
  lemma ViolationIsReported(src: Source, reach: set<string>, sym: FunctionSymbol, args: seq<Expression>,
                            vs: seq<ConstValue>, k: nat, heap: nat) returns (n: nat)
    requires CheckableWithin(src, reach, sym, args) && WindowsSurvive(Restrict(src, reach)) && Considered(sym, args)
    requires Mean(Restrict(src, reach), args, vs) && NoZero(sym, vs) && CalleePasses(Restrict(src, reach), sym, vs)
    requires |vs| == |sym.paramNames| && k < |sym.contracts| && sym.contracts[k].IsClause()
    requires var bound := WithBound(Restrict(src, reach), sym.paramNames, vs);
      WindowsSurvive(bound) && WellFormedSource(bound) && ClausesAreValues(bound, sym.contracts) &&
      AllPass(bound, sym.contracts, k) && Evaluable(bound, sym.contracts[k].Condition().expression) &&
      Means(bound, {}, NOTHING, sym.contracts[k].Condition().expression, Got(Bool(false)))
    ensures forall cfg: Config :: cfg.initialHeapSize == heap && AtLeast(cfg, n) ==>
      Judge(cfg, Restrict(src, reach), sym, args) == ViolatesRequire(k)
  {
    hide CheckableWithin, Restrict, WindowsSurvive, Mean, NoZero, ValuesOf, WellFormedSource, ValueExpression, Judge,
      Checkable, Means, RunCallDriver, RunDriver, AllConstant, AllPass, CalleePasses, Undecided, Bound, Resolves;
    var part := Restrict(src, reach);
    var (bound, c) := (WithBound(part, sym.paramNames, vs), sym.contracts[k]);
    PartIsCheckable(src, reach, sym, args);
    ArgumentsAreFine(part.constants, part.functions, sym, args);
    CalleeTakes(part, sym);
    var known := MeantIsKnown(part, args, vs, heap);
    var quiet := CalleeIsQuiet(part, sym, vs, heap);
    var before := PassingAreUndecided(bound, sym.contracts, k, heap);
    var last := ExpressionIsReached(bound, c.Condition().expression, Bool(false), heap);
    n := known + quiet + before + last;
    forall cfg: Config | cfg.initialHeapSize == heap && AtLeast(cfg, n)
      ensures Judge(cfg, part, sym, args) == ViolatesRequire(k)
    {
      assert AtLeast(cfg, known) && AtLeast(cfg, quiet) && AtLeast(cfg, before) && AtLeast(cfg, last);
      ViolationReportIff(cfg, src, reach, sym, args, k);
    }
  }
}
