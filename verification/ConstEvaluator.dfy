/** The evaluator: named constants and functions, compiled afresh for each evaluation and run on a machine. */
module ConstEvaluators {
  import opened Options
  import opened ConstValues
  import opened Syntax
  import opened Bytecode
  import opened CodeShape
  import opened CodeAssembly
  import opened FrameSemantics
  import opened Simulation
  import opened ReachableFunctions
  import opened BytecodeCompilers
  import opened ConstVMs

  /** What a caller of the evaluator sees: a value, or the exception of the operand stack. */
  datatype Observation = Returned(value: ConstValue) | Raised

  function Observe(o: Outcome): Observation {
    match o
    case Value(v) => Returned(v)
    case Limit(StackSize) => Raised
    case Limit(_) => Returned(Error)
    case Underflow => Raised
    case Undefined => Raised
  }

  /** Copying one of the names that are left. */
  lemma OneMoreCopied<V>(whole: map<string, V>, left: set<string>, x: string)
    requires x in left && x in whole
    ensures (whole - left)[x := whole[x]] == whole - (left - {x}) && x !in whole - left
  {
  }

  class ConstEvaluator {
    const config: Config
    var constants: map<string, ConstValue>
    var functions: map<string, ConstFunction>

    constructor (config: Config)
      ensures this.config == config && constants == map[] && functions == map[]
    {
      this.config := config;
      constants, functions := map[], map[];
    }

    function Src(): Source
      reads this`constants, this`functions
    {
      Source(constants, functions)
    }

    method DefineConstant(name: string, v: ConstValue)
      modifies this`constants
      ensures constants == old(constants)[name := v]
    {
      constants := constants[name := v];
    }

    method RemoveConstant(name: string)
      modifies this`constants
      ensures constants == old(constants) - {name}
    {
      constants := constants - {name};
    }

    method DefineFunction(name: string, fn: ConstFunction)
      modifies this`functions
      ensures functions == old(functions)[name := fn]
    {
      functions := functions[name := fn];
    }

    function LookupConstant(name: string): Option<ConstValue>
      reads this`constants
    {
      if name in constants then Some(constants[name]) else None
    }

    /** Copies constants and functions to a compiler, in whatever order the maps yield them. */
    method SyncToCompiler(compiler: BytecodeCompiler)
      requires compiler.Valid() && compiler.Src() == Source(map[], map[])
      modifies compiler`constants, compiler`functionTable, compiler`functionIndex, compiler`pendingFunctions
      ensures compiler.Valid() && compiler.Src() == Src()
    {
      hide ValidTable;
      var names := constants.Keys;
      while names != {}
        invariant names <= constants.Keys && compiler.Valid() && compiler.pendingFunctions == map[]
        invariant compiler.constants == constants - names
      {
        var x :| x in names;
        OneMoreCopied(constants, names, x);
        compiler.DefineConstant(x, constants[x]);
        names := names - {x};
      }
      names := functions.Keys;
      while names != {}
        invariant names <= functions.Keys && compiler.Valid() && compiler.constants == constants
        invariant compiler.pendingFunctions == functions - names
      {
        var f :| f in names;
        OneMoreCopied(functions, names, f);
        compiler.RegisterFunction(f, functions[f]);
        names := names - {f};
      }
    }

    /** Well-formed code evaluates to what the frame semantics says of the trees alone, whatever the order of the
        maps, the layout of the stream and the functions that are never reached, which need not be well-formed. */
    method Evaluate(e: Expression) returns (o: Outcome)
      ensures WellFormedSource(Src()) && ValueExpression(Src(), e) ==> o == RunDriver(config, Src(), e)
      ensures forall reach | FitsPart(Src(), reach, ForExpression(e)) ::
        o == RunDriver(config, Restrict(Src(), reach), e)
    {
      hide Resolves, HoldsDriver, Linked, FrameSemantics.Evaluate, ValidTable, Grown, WellFormedSource, ValueExpression,
        FitsPart, RunDriver;
      var compiler := new BytecodeCompiler();
      SyncToCompiler(compiler);
      var ok := compiler.CompileDriver(e);
      if !ok {
        Unresolved(config, Src(), e);
        return Value(Error);
      }
      ghost var driver := compiler.TheCode();
      var _ := compiler.CompileAllFunctions();
      var vm := new ConstVM(config);
      var im := Image(Code(compiler.instructions, compiler.intPool, compiler.int128Pool, compiler.stringPool),
                      compiler.functionTable);
      o := vm.Execute(im);
      DriverStays(compiler.Lk(), driver, im.code, e);
      ExpressionImage(config, compiler.Lk(), im, e);
    }

    method EvaluateFunction(name: string, args: seq<ConstValue>) returns (o: Outcome)
      ensures WellFormedSource(Src()) && (name in functions ==> |args| == |functions[name].paramNames|) ==>
        o == RunCallDriver(config, Src(), name, args)
      ensures name !in functions || !AllConstant(args) ==> o == Value(Error)
      ensures forall reach | FitsPart(Src(), reach, ForCall(name, args)) ::
        o == RunCallDriver(config, Restrict(Src(), reach), name, args)
    {
      hide HoldsCallDriver, Linked, ValidTable, Grown, WellFormedSource, AllConstant, EvaluateArguments, Call, FitsPart,
        RunCallDriver;
      if !CallStarts(Src(), name, args) { CallNeedsConstants(config, Src(), name, args); }
      if name !in functions { return Value(Error); }
      var compiler := new BytecodeCompiler();
      SyncToCompiler(compiler);
      var ok := compiler.CompileCallDriver(name, args);
      SameNames(compiler.functionIndex, compiler.pendingFunctions, compiler.functionTable);
      if !ok { return Value(Error); }
      ghost var driver := compiler.TheCode();
      var _ := compiler.CompileAllFunctions();
      var vm := new ConstVM(config);
      var im := Image(Code(compiler.instructions, compiler.intPool, compiler.int128Pool, compiler.stringPool),
                      compiler.functionTable);
      o := vm.Execute(im);
      CallDriverStays(compiler.Lk(), driver, im.code, name, args);
      CallImage(config, compiler.Lk(), im, name, args);
    }
  }

  /** The functions of the set are all the driver can reach, and with it they are well-formed. */
  ghost predicate FitsPart(src: Source, reach: set<string>, d: Driver) {
    ClosedUnderCalls(src, reach) && DriverCalls(d) <= reach && WellFormedSource(Restrict(src, reach)) &&
    FitsDriver(Restrict(src, reach), d)
  }

  lemma Unresolved(cfg: Config, src: Source, e: Expression)
    requires !Resolves(src, NO_LOCALS.slots.Keys, e)
    ensures WellFormedSource(src) && ValueExpression(src, e) ==> RunDriver(cfg, src, e) == Value(Error)
    ensures forall reach | FitsPart(src, reach, ForExpression(e)) ::
      RunDriver(cfg, Restrict(src, reach), e) == Value(Error)
  {
    hide Resolves, WellFormedSource, ValueExpression, Evaluate, Calls, ClosedUnderCalls;
    assert NO_LOCALS.slots.Keys == {};
    forall reach | FitsPart(src, reach, ForExpression(e))
      ensures RunDriver(cfg, Restrict(src, reach), e) == Value(Error)
    {
      ResolvesAlone(src, reach, e);
    }
  }

  /** An image with the driver e runs as the whole program says, and as each part that it can reach says. */
  lemma ExpressionImage(cfg: Config, lk: Linkage, im: Image, e: Expression)
    requires Linked(lk, im) && HoldsDriver(lk, im.code, e) && Resolves(lk.src, NO_LOCALS.slots.Keys, e)
    ensures WellFormedSource(lk.src) && ValueExpression(lk.src, e) ==> RunImage(cfg, im) == RunDriver(cfg, lk.src, e)
    ensures forall reach | FitsPart(lk.src, reach, ForExpression(e)) ::
      RunImage(cfg, im) == RunDriver(cfg, Restrict(lk.src, reach), e)
  {
    hide Linked, HoldsDriver, Resolves, WellFormedSource, ValueExpression, RunImage, RunDriver, Calls, ClosedUnderCalls;
    assert NO_LOCALS.slots.Keys == {};
    if WellFormedSource(lk.src) && ValueExpression(lk.src, e) { DriverRuns(cfg, lk, im, e); }
    forall reach | FitsPart(lk.src, reach, ForExpression(e))
      ensures RunImage(cfg, im) == RunDriver(cfg, Restrict(lk.src, reach), e)
    {
      ResolvesAlone(lk.src, reach, e);
      ReachIsEnough(cfg, reach, lk, im, ForExpression(e));
    }
  }

  lemma CallImage(cfg: Config, lk: Linkage, im: Image, f: string, args: seq<ConstValue>)
    requires Linked(lk, im) && f in lk.src.functions && AllConstant(args) && HoldsCallDriver(lk, im.code, f, args)
    ensures WellFormedSource(lk.src) && |args| == |lk.src.functions[f].paramNames| ==>
      RunImage(cfg, im) == RunCallDriver(cfg, lk.src, f, args)
    ensures forall reach | FitsPart(lk.src, reach, ForCall(f, args)) ::
      RunImage(cfg, im) == RunCallDriver(cfg, Restrict(lk.src, reach), f, args)
  {
    hide Linked, HoldsCallDriver, WellFormedSource, RunImage, RunCallDriver, ClosedUnderCalls, AllConstant;
    if WellFormedSource(lk.src) && |args| == |lk.src.functions[f].paramNames| { CallDriverRuns(cfg, lk, im, f, args); }
    forall reach | FitsPart(lk.src, reach, ForCall(f, args))
      ensures RunImage(cfg, im) == RunCallDriver(cfg, Restrict(lk.src, reach), f, args)
    {
      ReachIsEnough(cfg, reach, lk, im, ForCall(f, args));
    }
  }

  /** What a call driver needs before anything is run. */
  predicate CallStarts(src: Source, f: string, args: seq<ConstValue>) { f in src.functions && AllConstant(args) }

  lemma CallNeedsConstants(cfg: Config, src: Source, f: string, args: seq<ConstValue>)
    requires !CallStarts(src, f, args)
    ensures WellFormedSource(src) && (f in src.functions ==> |args| == |src.functions[f].paramNames|) ==>
      RunCallDriver(cfg, src, f, args) == Value(Error)
    ensures forall reach :: !FitsPart(src, reach, ForCall(f, args))
  {
    hide WellFormedSource, ClosedUnderCalls, Call, EvaluateArguments;
  }
}
