/** The frame semantics under larger limits and with more fuel: a result that is not a limit does not change. */
module LimitIndependence {
  import opened ConstValues
  import opened Arithmetic
  import opened Syntax
  import opened Bytecode
  import opened CodeShape
  import opened FrameSemantics

  /** The same place under limits at least as large. */
  ghost predicate Raised(at: Place, high: Place) {
    high == at.(cfg := high.cfg) && at.cfg.maxStackSize <= high.cfg.maxStackSize &&
    at.cfg.maxLocals <= high.cfg.maxLocals && at.cfg.maxCallDepth <= high.cfg.maxCallDepth
  }

  predicate ValueCut(r: ValueResult) { r.Halts? && r.outcome.Limit? }
  predicate ArgumentsCut(r: ArgumentsResult) { r.ArgumentHalts? && r.outcome.Limit? }
  predicate StoreCut(r: StoreResult) { r.StoreHalts? && r.outcome.Limit? }
  predicate StatementCut(r: StatementResult) { r.StatementHalts? && r.outcome.Limit? }

  function RefuelValue(r: ValueResult, extra: nat): ValueResult {
    if r.Yields? then r.(fuel := r.fuel + extra) else r
  }

  function RefuelArguments(r: ArgumentsResult, extra: nat): ArgumentsResult {
    if r.YieldsAll? then r.(fuel := r.fuel + extra) else r
  }

  function RefuelStore(r: StoreResult, extra: nat): StoreResult {
    if r.Stored? then r.(fuel := r.fuel + extra) else r
  }

  function RefuelStatement(r: StatementResult, extra: nat): StatementResult {
    match r
    case Falls(w, left) => Falls(w, left + extra)
    case Returns(v, w, left) => Returns(v, w, left + extra)
    case StatementHalts(o) => r
  }

  lemma TestRefuels(v: ValueResult, extra: nat)
    requires !ValueCut(Test(v))
    ensures !ValueCut(v) && Test(RefuelValue(v, extra)) == RefuelValue(Test(v), extra)
  {
  }

  lemma JumpRefuels(win: seq<ConstValue>, fuel: nat, extra: nat)
    ensures fuel > 0 ==> Jump(win, fuel) == Stored(win, fuel - 1) && Jump(win, fuel + extra) == Stored(win, fuel + extra - 1)
    ensures fuel == 0 ==> Jump(win, fuel) == StoreHalts(Limit(Iterations))
  {
  }

  lemma {:induction false} EvaluateUncut(at: Place, high: Place, sc: Scope, e: Expression, height: nat, win: seq<ConstValue>,
                                         fuel: nat, extra: nat)
    requires WellFormedSource(at.src) && ValueExpression(at.src, e) && Resolves(at.src, sc.slots.Keys, e)
    requires height <= at.cfg.maxStackSize && Raised(at, high)
    requires !ValueCut(Evaluate(at, sc, e, height, win, fuel))
    ensures Evaluate(high, sc, e, height, win, fuel + extra) == RefuelValue(Evaluate(at, sc, e, height, win, fuel), extra)
    decreases fuel, e, 1
  {
    hide Materialize, ReadName;
    hide WellFormedSource, ApplyBinary, ApplyUnary, Call, EvaluateArguments;
    match e
    case BinaryExpression(_, _, _, _) => BinaryUncut(at, high, sc, e, height, win, fuel, extra);
    case UnaryExpression(_, a, _) => EvaluateUncut(at, high, sc, a, height, win, fuel, extra);
    case CastExpression(_, _, a) => EvaluateUncut(at, high, sc, a, height, win, fuel, extra);
    case FunctionCall(f, args) =>
      if IsHint(f, args) {
        assert args.MoreArguments? && ValueArguments(at.src, args);
        EvaluateUncut(at, high, sc, args.first, height, win, fuel, extra);
      } else {
        ArgumentsUncut(at, high, sc, args, height, win, fuel, extra);
        var operands := EvaluateArguments(at, sc, args, height, win, fuel);
        if operands.YieldsAll? && operands.fuel > 0 {
          CallUncut(at, high, f, operands.values, height, operands.window, operands.fuel - 1, extra);
        }
      }
    case Identifier(x) => NameUncut(at, high, sc, x, height, win, fuel, extra);
    case FieldAccess(o, f) => NameUncut(at, high, sc, o.name + "." + f, height, win, fuel, extra);
    case _ =>
  }

  lemma {:induction false} BinaryUncut(at: Place, high: Place, sc: Scope, e: Expression, height: nat, win: seq<ConstValue>,
                                       fuel: nat, extra: nat)
    requires e.BinaryExpression?
    requires WellFormedSource(at.src) && ValueExpression(at.src, e) && Resolves(at.src, sc.slots.Keys, e)
    requires height <= at.cfg.maxStackSize && Raised(at, high)
    requires !ValueCut(Evaluate(at, sc, e, height, win, fuel))
    ensures Evaluate(high, sc, e, height, win, fuel + extra) == RefuelValue(Evaluate(at, sc, e, height, win, fuel), extra)
    decreases fuel, e, 0
  {
    hide WellFormedSource, ApplyBinary, ApplyUnary, Call, EvaluateArguments, Materialize, ReadName;
    ValuesDeclareNothing(at.src, e.left);
    assert sc.slots.Keys + Declares(e.left) == sc.slots.Keys;
    EvaluateUncut(at, high, sc, e.left, height, win, fuel, extra);
    var left := Evaluate(at, sc, e.left, height, win, fuel);
    if left.Yields? { EvaluateUncut(at, high, sc, e.right, height + 1, left.window, left.fuel, extra); }
  }

  lemma NameUncut(at: Place, high: Place, sc: Scope, x: string, height: nat, win: seq<ConstValue>, fuel: nat, extra: nat)
    requires ResolvesName(at.src, sc.slots.Keys, x) && Raised(at, high)
    requires !ValueCut(ReadName(at, sc, height, x, win, fuel))
    ensures ReadName(high, sc, height, x, win, fuel + extra) == RefuelValue(ReadName(at, sc, height, x, win, fuel), extra)
  {
  }

  lemma {:induction false} ArgumentsUncut(at: Place, high: Place, sc: Scope, args: Arguments, height: nat,
                                          win: seq<ConstValue>, fuel: nat, extra: nat)
    requires WellFormedSource(at.src) && ValueArguments(at.src, args) && ResolvesArguments(at.src, sc.slots.Keys, args)
    requires height <= at.cfg.maxStackSize && Raised(at, high)
    requires !ArgumentsCut(EvaluateArguments(at, sc, args, height, win, fuel))
    ensures EvaluateArguments(high, sc, args, height, win, fuel + extra) ==
            RefuelArguments(EvaluateArguments(at, sc, args, height, win, fuel), extra)
    decreases fuel, args, 1
  {
    hide WellFormedSource, Evaluate;
    if args.MoreArguments? {
      ValuesDeclareNothing(at.src, args.first);
      assert sc.slots.Keys + Declares(args.first) == sc.slots.Keys;
      EvaluateUncut(at, high, sc, args.first, height, win, fuel, extra);
      var first := Evaluate(at, sc, args.first, height, win, fuel);
      if first.Yields? { ArgumentsUncut(at, high, sc, args.rest, height + 1, first.window, first.fuel, extra); }
    }
  }

  lemma {:induction false} CallUncut(at: Place, high: Place, f: string, args: seq<ConstValue>, height: nat,
                                     win: seq<ConstValue>, fuel: nat, extra: nat)
    requires WellFormedSource(at.src) && f in at.src.functions && |args| == |at.src.functions[f].paramNames|
    requires height <= at.cfg.maxStackSize && Raised(at, high)
    requires !ValueCut(Call(at, f, args, height, win, fuel))
    ensures Call(high, f, args, height, win, fuel + extra) == RefuelValue(Call(at, f, args, height, win, fuel), extra)
    decreases fuel, at.src.functions[f], 2
  {
    hide ExecuteBody, Zeros, WindowAfterCall, WellFormedBlock, ScopeOfParameters, ScopeAfterBlock;
    hide WellFormedSource, Compiles, FinalScope, ExecuteBlock;
    var fn := at.src.functions[f];
    if Compiles(at.src, fn) && at.depth < at.cfg.maxCallDepth {
      BodyFits(at.src, f);
      var inside := at.(base := at.base + |win|, depth := at.depth + 1);
      BodyUncut(inside, high.(base := at.base + |win|, depth := at.depth + 1), fn, height,
                args + Zeros(FinalScope(fn).next - |args|), fuel, extra);
    }
  }

  lemma BodyFits(src: Source, f: string)
    requires WellFormedSource(src) && f in src.functions && Compiles(src, src.functions[f])
    ensures WellFormedBlock(src, src.functions[f].body)
    ensures |src.functions[f].paramNames| <= FinalScope(src.functions[f]).next
  {
    ScopeGrowsByBlock(ScopeOfParameters(src.functions[f].paramNames), src.functions[f].body);
  }

  lemma {:induction false} BodyUncut(at: Place, high: Place, fn: ConstFunction, height: nat, win: seq<ConstValue>,
                                     fuel: nat, extra: nat)
    requires WellFormedSource(at.src) && Compiles(at.src, fn) && WellFormedBlock(at.src, fn.body)
    requires height <= at.cfg.maxStackSize && Raised(at, high)
    requires !ValueCut(ExecuteBody(at, fn, height, win, fuel))
    ensures ExecuteBody(high, fn, height, win, fuel + extra) == RefuelValue(ExecuteBody(at, fn, height, win, fuel), extra)
    decreases fuel, fn, 1
  {
    hide WellFormedSource, ExecuteBlock;
    BlockUncut(at, high, ScopeOfParameters(fn.paramNames), fn.body, height, win, fuel, extra);
  }

  lemma {:induction false} StoreUncut(at: Place, high: Place, sc: Scope, e: Expression, height: nat, win: seq<ConstValue>,
                                      fuel: nat, extra: nat)
    requires WellFormedSource(at.src) && StoreExpression(at.src, e) && Resolves(at.src, sc.slots.Keys, e)
    requires height <= at.cfg.maxStackSize && Raised(at, high)
    requires !StoreCut(EvaluateStore(at, sc, e, height, win, fuel))
    ensures EvaluateStore(high, sc, e, height, win, fuel + extra) ==
            RefuelStore(EvaluateStore(at, sc, e, height, win, fuel), extra)
    decreases fuel, e, 1
  {
    hide WellFormedSource, Evaluate;
    EvaluateUncut(at, high, sc, if e.VariableInit? then e.initial else e.stored, height, win, fuel, extra);
  }

  lemma {:induction false} LoopUncut(at: Place, high: Place, sc: Scope, s: Statement, height: nat, win: seq<ConstValue>,
                                     fuel: nat, extra: nat)
    requires s.WhileStatement? || s.ForStatement?
    requires WellFormedSource(at.src) && WellFormed(at.src, s) && ResolvesLoop(at.src, sc.slots.Keys, s)
    requires height <= at.cfg.maxStackSize && Raised(at, high)
    requires !StatementCut(ExecuteLoop(at, sc, s, height, win, fuel))
    ensures ExecuteLoop(high, sc, s, height, win, fuel + extra) ==
            RefuelStatement(ExecuteLoop(at, sc, s, height, win, fuel), extra)
    decreases fuel, s, 2
  {
    hide Test, ExecuteTurn;
    hide WellFormedSource, Evaluate, ValueExpression, WellFormedBlock, ResolvesBlock, Resolves, Raised, ScopeAfterBlock;
    var c := LoopCondition(s);
    RaisedStays(at, high);
    if c.Present? {
      TestRefuels(Evaluate(at, sc, c.expression, height, win, fuel), extra);
      EvaluateUncut(at, high, sc, c.expression, height, win, fuel, extra);
    }
    var test := if c.Absent? then Yields(Bool(true), win, fuel)
                else Test(Evaluate(at, sc, c.expression, height, win, fuel));
    if test.Yields? && test.value.boolVal { TurnUncut(at, high, sc, s, height, test.window, test.fuel, extra); }
  }

  lemma {:induction false} TurnUncut(at: Place, high: Place, sc: Scope, s: Statement, height: nat, win: seq<ConstValue>,
                                     fuel: nat, extra: nat)
    requires s.WhileStatement? || s.ForStatement?
    requires WellFormedSource(at.src) && WellFormed(at.src, s) && ResolvesLoop(at.src, sc.slots.Keys, s)
    requires height <= at.cfg.maxStackSize && Raised(at, high)
    requires !StatementCut(ExecuteTurn(at, sc, s, height, win, fuel))
    ensures ExecuteTurn(high, sc, s, height, win, fuel + extra) ==
            RefuelStatement(ExecuteTurn(at, sc, s, height, win, fuel), extra)
    decreases fuel, s, 1
  {
    hide RepeatLoop, ExecuteBlock;
    hide WellFormedSource, ValueExpression, WellFormedBlock, ResolvesBlock, Resolves, Raised, ScopeAfterBlock, ScopeAfter;
    var inBody, b := ScopeAfterOptional(sc, LoopCondition(s)), LoopBody(s);
    RaisedStays(at, high);
    LoopKeys(sc, s);
    BlockUncut(at, high, inBody, b, height, win, fuel, extra);
    var body := ExecuteBlock(at, inBody, b, height, win, fuel);
    if body.Falls? { RepeatUncut(at, high, sc, s, height, body.window, body.fuel, extra); }
  }

  lemma {:induction false} RepeatUncut(at: Place, high: Place, sc: Scope, s: Statement, height: nat, win: seq<ConstValue>,
                                       fuel: nat, extra: nat)
    requires s.WhileStatement? || s.ForStatement?
    requires WellFormedSource(at.src) && WellFormed(at.src, s) && ResolvesLoop(at.src, sc.slots.Keys, s)
    requires height <= at.cfg.maxStackSize && Raised(at, high)
    requires !StatementCut(RepeatLoop(at, sc, s, height, win, fuel))
    ensures RepeatLoop(high, sc, s, height, win, fuel + extra) ==
            RefuelStatement(RepeatLoop(at, sc, s, height, win, fuel), extra)
    decreases fuel, s, 0
  {
    hide Jump, ExecuteLoop, EvaluateStore, DeclaresOptional, DeclaresBlock, ScopeAfterOptional;
    hide WellFormedSource, ValueExpression, WellFormedBlock, ResolvesBlock, Resolves, Raised, ScopeAfterBlock, ScopeAfter;
    var p := LoopPostfix(s);
    var atPostfix := ScopeAfterBlock(ScopeAfterOptional(sc, LoopCondition(s)), LoopBody(s));
    RaisedStays(at, high);
    LoopKeys(sc, s);
    if p.Present? { StoreUncut(at, high, atPostfix, p.expression, height, win, fuel, extra); }
    var postfix := EvaluateOptionalStore(at, atPostfix, p, height, win, fuel);
    if postfix.Stored? {
      JumpRefuels(postfix.window, postfix.fuel, extra);
      if postfix.fuel > 0 { LoopUncut(at, high, sc, s, height, postfix.window, postfix.fuel - 1, extra); }
    }
  }

  lemma RaisedStays(at: Place, high: Place)
    requires Raised(at, high)
    ensures high.src == at.src && at.cfg.maxStackSize <= high.cfg.maxStackSize
  {
  }

  lemma {:induction false} IfUncut(at: Place, high: Place, sc: Scope, s: Statement, height: nat, win: seq<ConstValue>,
                                   fuel: nat, extra: nat)
    requires s.IfStatement?
    requires WellFormedSource(at.src) && WellFormed(at.src, s) && ResolvesStatement(at.src, sc.slots.Keys, s)
    requires height <= at.cfg.maxStackSize && Raised(at, high)
    requires !StatementCut(Execute(at, sc, s, height, win, fuel))
    ensures Execute(high, sc, s, height, win, fuel + extra) == RefuelStatement(Execute(at, sc, s, height, win, fuel), extra)
    decreases fuel, s, 2
  {
    hide WellFormedSource, Evaluate, ExecuteBlock, ValueExpression, WellFormedBlock, ResolvesBlock, Resolves, ScopeAfter,
      ScopeAfterBlock;
    var c, t, e := s.ifCondition, s.thenBranch, s.elseBranch;
    var inThen := ScopeAfter(sc, c);
    ScopeGrows(sc, c);
    ScopeGrowsByBlock(inThen, t);
    EvaluateUncut(at, high, sc, c, height, win, fuel, extra);
    var test := Test(Evaluate(at, sc, c, height, win, fuel));
    if test.Yields? {
      if test.value.boolVal { BlockUncut(at, high, inThen, t, height, test.window, test.fuel, extra); }
      else if e.SomeBlock? {
        BlockUncut(at, high, ScopeAfterBlock(inThen, t), e.block, height, test.window, test.fuel, extra);
      }
    }
  }

  lemma {:induction false} ExecuteUncut(at: Place, high: Place, sc: Scope, s: Statement, height: nat, win: seq<ConstValue>,
                                        fuel: nat, extra: nat)
    requires WellFormedSource(at.src) && WellFormed(at.src, s) && ResolvesStatement(at.src, sc.slots.Keys, s)
    requires height <= at.cfg.maxStackSize && Raised(at, high)
    requires !StatementCut(Execute(at, sc, s, height, win, fuel))
    ensures Execute(high, sc, s, height, win, fuel + extra) == RefuelStatement(Execute(at, sc, s, height, win, fuel), extra)
    decreases fuel, s, 3
  {
    hide WellFormedSource, Evaluate, ExecuteBlock, EvaluateStore, ExecuteLoop, WellFormedBlock, ResolvesBlock, Resolves,
      ResolvesLoop, ScopeAfter, ScopeAfterBlock, ScopeAfterLoop;
    match s
    case ReturnStatement(o) =>
      if o.Present? { EvaluateUncut(at, high, sc, o.expression, height, win, fuel, extra); }
    case IfStatement(_, _, _) => IfUncut(at, high, sc, s, height, win, fuel, extra);
    case WhileStatement(_, _) => LoopUncut(at, high, sc, s, height, win, fuel, extra);
    case ForStatement(i, _, _, _) =>
      ScopeGrowsByOptional(sc, i);
      if i.Present? { StoreUncut(at, high, sc, i.expression, height, win, fuel, extra); }
      var start := EvaluateOptionalStore(at, sc, i, height, win, fuel);
      if start.Stored? { LoopUncut(at, high, ScopeAfterOptional(sc, i), s, height, start.window, start.fuel, extra); }
    case BlockStatement(b) => BlockUncut(at, high, sc, b, height, win, fuel, extra);
    case ExpressionStatement(e) =>
      if e.IsStore() { StoreUncut(at, high, sc, e, height, win, fuel, extra); }
      else { EvaluateUncut(at, high, sc, e, height, win, fuel, extra); }
    case _ =>
  }

  lemma {:induction false} BlockUncut(at: Place, high: Place, sc: Scope, b: Block, height: nat, win: seq<ConstValue>,
                                      fuel: nat, extra: nat)
    requires WellFormedSource(at.src) && WellFormedBlock(at.src, b) && ResolvesBlock(at.src, sc.slots.Keys, b)
    requires height <= at.cfg.maxStackSize && Raised(at, high)
    requires !StatementCut(ExecuteBlock(at, sc, b, height, win, fuel))
    ensures ExecuteBlock(high, sc, b, height, win, fuel + extra) ==
            RefuelStatement(ExecuteBlock(at, sc, b, height, win, fuel), extra)
    decreases fuel, b, 1
  {
    hide WellFormedSource, Execute, WellFormed, ResolvesStatement, ScopeAfterStatement;
    if b.Statements? {
      ScopeGrowsByStatement(sc, b.head);
      ExecuteUncut(at, high, sc, b.head, height, win, fuel, extra);
      var first := Execute(at, sc, b.head, height, win, fuel);
      if first.Falls? {
        BlockUncut(at, high, ScopeAfterStatement(sc, b.head), b.tail, height, first.window, first.fuel, extra);
      }
    }
  }
}
