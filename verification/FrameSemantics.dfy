/** A big-step reading of the trees that counts what the machine counts: one unit of fuel an instruction, the
    height of the operand stack, the depth of calls, and the window of locals from the current base upward.
    It says nothing of instructions, addresses, pools or function tables. */
module FrameSemantics {
  import opened ConstValues
  import opened Arithmetic
  import opened Syntax
  import opened Bytecode
  import opened CodeShape

  /** Where an evaluation stands: limits, base of its window, depth of calls. */
  datatype Place = Place(cfg: Config, src: Source, base: nat, depth: nat)

  datatype ValueResult =
    | Yields(value: ConstValue, window: seq<ConstValue>, fuel: nat)
    | Halts(outcome: Outcome)

  datatype ArgumentsResult =
    | YieldsAll(values: seq<ConstValue>, window: seq<ConstValue>, fuel: nat)
    | ArgumentHalts(outcome: Outcome)

  datatype StoreResult =
    | Stored(window: seq<ConstValue>, fuel: nat)
    | StoreHalts(outcome: Outcome)

  datatype StatementResult =
    | Falls(window: seq<ConstValue>, fuel: nat)
    | Returns(value: ConstValue, window: seq<ConstValue>, fuel: nat)
    | StatementHalts(outcome: Outcome)

  /** An evaluation halts with a value or at a limit: never on an empty stack, never outside defined behaviour. */
  predicate Proper(o: Outcome) { o.Value? || o.Limit? }

  /** One instruction that pushes v on a stack of the given height. */
  function PushOne(at: Place, height: nat, v: ConstValue, win: seq<ConstValue>, fuel: nat): (r: ValueResult)
    ensures r.Yields? ==> r.fuel < fuel && height < at.cfg.maxStackSize
    ensures r.Halts? ==> Proper(r.outcome)
  {
    if fuel == 0 then Halts(Limit(Iterations))
    else if height >= at.cfg.maxStackSize then Halts(Limit(StackSize))
    else Yields(v, win, fuel - 1)
  }

  function ReadSlot(at: Place, height: nat, slot: nat, win: seq<ConstValue>, fuel: nat): (r: ValueResult)
    ensures r.Yields? ==> r.fuel < fuel && height < at.cfg.maxStackSize
    ensures r.Halts? ==> Proper(r.outcome)
  {
    if fuel > 0 && slot >= |win| then Halts(Value(Error))
    else PushOne(at, height, if slot < |win| then win[slot] else Error, win, fuel)
  }

  function ReadName(at: Place, sc: Scope, height: nat, x: string, win: seq<ConstValue>, fuel: nat): (r: ValueResult)
    requires ResolvesName(at.src, sc.slots.Keys, x)
    ensures r.Yields? ==> r.fuel < fuel && height < at.cfg.maxStackSize
    ensures r.Halts? ==> Proper(r.outcome)
  {
    if x in sc.slots then ReadSlot(at, height, sc.slots[x], win, fuel)
    else PushOne(at, height, Materialize(at.src.constants[x]), win, fuel)
  }

  /** One instruction that replaces operands by the result of an operator. */
  function Operate(op: OpResult, win: seq<ConstValue>, fuel: nat): (r: ValueResult)
    ensures r.Yields? ==> r.fuel < fuel
    ensures r.Halts? ==> Proper(r.outcome)
  {
    if fuel == 0 then Halts(Limit(Iterations))
    else match op case Push(v) => Yields(v, win, fuel - 1) case Stop(v) => Halts(Value(v))
  }

  /** One instruction that writes a slot; a window that is too short grows to 64 past the slot. */
  function WriteSlot(at: Place, slot: nat, v: ConstValue, win: seq<ConstValue>, fuel: nat): (r: StoreResult)
    ensures r.Stored? ==> r.fuel < fuel
    ensures r.StoreHalts? ==> Proper(r.outcome)
  {
    if fuel == 0 then StoreHalts(Limit(Iterations))
    else if at.base + slot >= at.cfg.maxLocals then StoreHalts(Limit(Locals))
    else
      var room := if slot >= |win| then win + Zeros(slot + 64 - |win|) else win;
      Stored(room[slot := v], fuel - 1)
  }

  /** The caller's window after a call: what RET leaves above the caller's base. */
  function WindowAfterCall(caller: seq<ConstValue>, callee: seq<ConstValue>, numLocals: nat): seq<ConstValue> {
    Resize(caller + callee, numLocals)
  }

  function Evaluate(at: Place, sc: Scope, e: Expression, height: nat, win: seq<ConstValue>, fuel: nat): (r: ValueResult)
    requires WellFormedSource(at.src) && ValueExpression(at.src, e) && Resolves(at.src, sc.slots.Keys, e)
    requires height <= at.cfg.maxStackSize
    ensures r.Yields? ==> r.fuel <= fuel && height < at.cfg.maxStackSize
    ensures r.Halts? ==> Proper(r.outcome)
    decreases fuel, e, 1
  {
    match e
    case IntegerLiteral(lit) => PushOne(at, height, Materialize(LiteralConstant(lit)), win, fuel)
    case BooleanLiteral(b) => PushOne(at, height, Bool(b), win, fuel)
    case Identifier(x) => ReadName(at, sc, height, x, win, fuel)
    case FieldAccess(o, f) => ReadName(at, sc, height, o.name + "." + f, win, fuel)
    case BinaryExpression(l, op, r, mode) =>
      ValuesDeclareNothing(at.src, l);
      assert sc.slots.Keys + Declares(l) == sc.slots.Keys;
      var left := Evaluate(at, sc, l, height, win, fuel);
      if left.Halts? then left
      else
        var right := Evaluate(at, sc, r, height + 1, left.window, left.fuel);
        if right.Halts? then right
        else Operate(ApplyBinary(op, mode, left.value, right.value), right.window, right.fuel)
    case UnaryExpression(op, a, mode) =>
      var operand := Evaluate(at, sc, a, height, win, fuel);
      if operand.Halts? then operand
      else Operate(ApplyUnary(op, mode, operand.value), operand.window, operand.fuel)
    case CastExpression(w, s, a) =>
      var operand := Evaluate(at, sc, a, height, win, fuel);
      if operand.Halts? then operand
      else Operate(Push(Integer(operand.value.ToInt(), w, s)), operand.window, operand.fuel)
    case FunctionCall(f, args) =>
      if IsHint(f, args) then
        assert args.MoreArguments? && ValueArguments(at.src, args);
        Evaluate(at, sc, args.first, height, win, fuel)
      else
        var operands := EvaluateArguments(at, sc, args, height, win, fuel);
        if operands.ArgumentHalts? then Halts(operands.outcome)
        else if operands.fuel == 0 then Halts(Limit(Iterations))
        else Call(at, f, operands.values, height, operands.window, operands.fuel - 1)
  }

  function EvaluateArguments(at: Place, sc: Scope, args: Arguments, height: nat, win: seq<ConstValue>, fuel: nat)
    : (r: ArgumentsResult)
    requires WellFormedSource(at.src) && ValueArguments(at.src, args)
    requires ResolvesArguments(at.src, sc.slots.Keys, args)
    requires height <= at.cfg.maxStackSize
    ensures r.YieldsAll? ==>
      r.fuel <= fuel && |r.values| == args.Count() && height + |r.values| <= at.cfg.maxStackSize
    ensures r.ArgumentHalts? ==> Proper(r.outcome)
    decreases fuel, args, 1
  {
    match args
    case NoArguments => YieldsAll([], win, fuel)
    case MoreArguments(a, rest) =>
      ValuesDeclareNothing(at.src, a);
      assert sc.slots.Keys + Declares(a) == sc.slots.Keys;
      var first := Evaluate(at, sc, a, height, win, fuel);
      if first.Halts? then ArgumentHalts(first.outcome)
      else
        var others := EvaluateArguments(at, sc, rest, height + 1, first.window, first.fuel);
        if others.ArgumentHalts? then others
        else YieldsAll([first.value] + others.values, others.window, others.fuel)
  }

  /** After the fetch of CALL: the body in a fresh window on top of the caller's, and RET. */
  function Call(at: Place, f: string, args: seq<ConstValue>, height: nat, win: seq<ConstValue>, fuel: nat)
    : (r: ValueResult)
    requires WellFormedSource(at.src) && f in at.src.functions && |args| == |at.src.functions[f].paramNames|
    requires height <= at.cfg.maxStackSize
    ensures r.Yields? ==> r.fuel <= fuel && height < at.cfg.maxStackSize
    ensures r.Halts? ==> Proper(r.outcome)
    decreases fuel, at.src.functions[f], 1
  {
    var fn := at.src.functions[f];
    if !Compiles(at.src, fn) then Halts(Value(Error))
    else if at.depth >= at.cfg.maxCallDepth then Halts(Limit(CallDepth))
    else
      var sc := ScopeOfParameters(fn.paramNames);
      var numLocals := FinalScope(fn).next;
      ScopeGrowsByBlock(sc, fn.body);
      var inside := at.(base := at.base + |win|, depth := at.depth + 1);
      var body := ExecuteBody(inside, fn, height, args + Zeros(numLocals - |args|), fuel);
      match body
      case Halts(_) => body
      case Yields(v, calleeWin, left) =>
        if left == 0 then Halts(Limit(Iterations)) else Yields(v, WindowAfterCall(win, calleeWin, numLocals), left - 1)
  }

  /** A function body up to, but without, the RET that ends it; falling off the end yields 0. */
  function ExecuteBody(at: Place, fn: ConstFunction, height: nat, win: seq<ConstValue>, fuel: nat): (r: ValueResult)
    requires WellFormedSource(at.src) && Compiles(at.src, fn) && WellFormedBlock(at.src, fn.body)
    requires height <= at.cfg.maxStackSize
    ensures r.Yields? ==> r.fuel <= fuel && height < at.cfg.maxStackSize
    ensures r.Halts? ==> Proper(r.outcome)
    decreases fuel, fn, 0
  {
    var sc := ScopeOfParameters(fn.paramNames);
    match ExecuteBlock(at, sc, fn.body, height, win, fuel)
    case StatementHalts(o) => Halts(o)
    case Returns(v, w, left) => Yields(v, w, left)
    case Falls(w, left) => PushOne(at, height, ZERO, w, left)
  }

  function EvaluateStore(at: Place, sc: Scope, e: Expression, height: nat, win: seq<ConstValue>, fuel: nat)
    : (r: StoreResult)
    requires WellFormedSource(at.src) && StoreExpression(at.src, e) && Resolves(at.src, sc.slots.Keys, e)
    requires height <= at.cfg.maxStackSize
    ensures r.Stored? ==> r.fuel < fuel
    ensures r.StoreHalts? ==> Proper(r.outcome)
    decreases fuel, e, 1
  {
    var v := if e.VariableInit? then e.initial else e.stored;
    var x := if e.VariableInit? then e.declared else e.target;
    var value := Evaluate(at, sc, v, height, win, fuel);
    if value.Halts? then StoreHalts(value.outcome)
    else
      ValuesDeclareNothing(at.src, v);
      ScopeGrows(sc, e);
      WriteSlot(at, ScopeAfter(sc, e).slots[x], value.value, value.window, value.fuel)
  }

  function EvaluateOptionalStore(at: Place, sc: Scope, o: OptionalExpression, height: nat, win: seq<ConstValue>,
                                 fuel: nat): (r: StoreResult)
    requires WellFormedSource(at.src) && (o.Present? ==> StoreExpression(at.src, o.expression))
    requires ResolvesOptional(at.src, sc.slots.Keys, o) && height <= at.cfg.maxStackSize
    ensures r.Stored? ==> r.fuel <= fuel
    ensures r.StoreHalts? ==> Proper(r.outcome)
    decreases fuel, o, 1
  {
    match o case Absent => Stored(win, fuel) case Present(e) => EvaluateStore(at, sc, e, height, win, fuel)
  }

  /** The conditional jump on a condition that was evaluated. */
  function Test(condition: ValueResult): (r: ValueResult)
    ensures r.Yields? ==> condition.Yields? && r.fuel < condition.fuel && r.value.Bool?
    ensures r.Halts? ==> r == condition || Proper(r.outcome)
  {
    if condition.Halts? then condition
    else Operate(Push(Bool(condition.value.ToBool())), condition.window, condition.fuel)
  }

  /** One unconditional jump. */
  function Jump(win: seq<ConstValue>, fuel: nat): (r: StoreResult)
    ensures r.Stored? ==> r.fuel < fuel
    ensures r.StoreHalts? ==> Proper(r.outcome)
  {
    if fuel == 0 then StoreHalts(Limit(Iterations)) else Stored(win, fuel - 1)
  }

  function ExecuteLoop(at: Place, sc: Scope, s: Statement, height: nat, win: seq<ConstValue>, fuel: nat)
    : (r: StatementResult)
    requires s.WhileStatement? || s.ForStatement?
    requires WellFormedSource(at.src) && WellFormed(at.src, s) && ResolvesLoop(at.src, sc.slots.Keys, s)
    requires height <= at.cfg.maxStackSize
    ensures r.Falls? ==> r.fuel <= fuel
    ensures r.Returns? ==> r.fuel <= fuel && height < at.cfg.maxStackSize
    ensures r.StatementHalts? ==> Proper(r.outcome)
    decreases fuel, s, 2
  {
    var c := LoopCondition(s);
    var test := if c.Absent? then Yields(Bool(true), win, fuel)
                else Test(Evaluate(at, sc, c.expression, height, win, fuel));
    if test.Halts? then StatementHalts(test.outcome)
    else if !test.value.boolVal then Falls(test.window, test.fuel)
    else ExecuteTurn(at, sc, s, height, test.window, test.fuel)
  }

  /** The body of a loop whose test held, and what follows. */
  function ExecuteTurn(at: Place, sc: Scope, s: Statement, height: nat, win: seq<ConstValue>, fuel: nat)
    : (r: StatementResult)
    requires s.WhileStatement? || s.ForStatement?
    requires WellFormedSource(at.src) && WellFormed(at.src, s) && ResolvesLoop(at.src, sc.slots.Keys, s)
    requires height <= at.cfg.maxStackSize
    ensures r.Falls? ==> r.fuel <= fuel
    ensures r.Returns? ==> r.fuel <= fuel && height < at.cfg.maxStackSize
    ensures r.StatementHalts? ==> Proper(r.outcome)
    decreases fuel, s, 1
  {
    var inBody := ScopeAfterOptional(sc, LoopCondition(s));
    ScopeGrowsByOptional(sc, LoopCondition(s));
    var body := ExecuteBlock(at, inBody, LoopBody(s), height, win, fuel);
    if body.Falls? then RepeatLoop(at, sc, s, height, body.window, body.fuel) else body
  }

  /** The postfix, the jump back and the loop again. */
  function RepeatLoop(at: Place, sc: Scope, s: Statement, height: nat, win: seq<ConstValue>, fuel: nat)
    : (r: StatementResult)
    requires s.WhileStatement? || s.ForStatement?
    requires WellFormedSource(at.src) && WellFormed(at.src, s) && ResolvesLoop(at.src, sc.slots.Keys, s)
    requires height <= at.cfg.maxStackSize
    ensures r.Falls? ==> r.fuel <= fuel
    ensures r.Returns? ==> r.fuel <= fuel && height < at.cfg.maxStackSize
    ensures r.StatementHalts? ==> Proper(r.outcome)
    decreases fuel, s, 0
  {
    var inBody := ScopeAfterOptional(sc, LoopCondition(s));
    var atPostfix := ScopeAfterBlock(inBody, LoopBody(s));
    ScopeGrowsByOptional(sc, LoopCondition(s));
    ScopeGrowsByBlock(inBody, LoopBody(s));
    var postfix := if s.WhileStatement? then Stored(win, fuel)
                   else EvaluateOptionalStore(at, atPostfix, s.postfix, height, win, fuel);
    if postfix.StoreHalts? then StatementHalts(postfix.outcome)
    else
      var back := Jump(postfix.window, postfix.fuel);
      if back.StoreHalts? then StatementHalts(back.outcome)
      else ExecuteLoop(at, sc, s, height, back.window, back.fuel)
  }

  /** A loop is repeated unless its postfix halts or no fuel is left for the jump back. */
  lemma RepeatIs(at: Place, sc: Scope, s: Statement, height: nat, win: seq<ConstValue>, fuel: nat)
    requires s.WhileStatement? || s.ForStatement?
    requires WellFormedSource(at.src) && WellFormed(at.src, s) && ResolvesLoop(at.src, sc.slots.Keys, s)
    requires height <= at.cfg.maxStackSize
    ensures var atPostfix := ScopeAfterBlock(ScopeAfterOptional(sc, LoopCondition(s)), LoopBody(s));
      ResolvesOptional(at.src, atPostfix.slots.Keys, LoopPostfix(s)) &&
      var postfix := EvaluateOptionalStore(at, atPostfix, LoopPostfix(s), height, win, fuel);
      RepeatLoop(at, sc, s, height, win, fuel) ==
        if postfix.StoreHalts? then StatementHalts(postfix.outcome)
        else if postfix.fuel == 0 then StatementHalts(Limit(Iterations))
        else ExecuteLoop(at, sc, s, height, postfix.window, postfix.fuel - 1)
  {
    hide WellFormedSource, ExecuteLoop, EvaluateStore, ScopeAfterBlock, ScopeAfterOptional, DeclaresOptional, DeclaresBlock,
      ResolvesBlock, Resolves, WellFormedBlock, ValueExpression, StoreExpression;
    LoopKeys(sc, s);
  }

  function Execute(at: Place, sc: Scope, s: Statement, height: nat, win: seq<ConstValue>, fuel: nat)
    : (r: StatementResult)
    requires WellFormedSource(at.src) && WellFormed(at.src, s) && ResolvesStatement(at.src, sc.slots.Keys, s)
    requires height <= at.cfg.maxStackSize
    ensures r.Falls? ==> r.fuel <= fuel
    ensures r.Returns? ==> r.fuel <= fuel && height < at.cfg.maxStackSize
    ensures r.StatementHalts? ==> Proper(r.outcome)
    decreases fuel, s, 3
  {
    match s
    case ReturnStatement(o) =>
      var value := if o.Absent? then PushOne(at, height, ZERO, win, fuel)
                   else Evaluate(at, sc, o.expression, height, win, fuel);
      (match value case Halts(out) => StatementHalts(out) case Yields(v, w, left) => Returns(v, w, left))
    case ThrowStatement(name) =>
      StatementHalts(if fuel == 0 then Limit(Iterations) else Value(Thrown(name)))
    case IfStatement(c, t, e) =>
      ScopeGrows(sc, c);
      ScopeGrowsByBlock(ScopeAfter(sc, c), t);
      var test := Test(Evaluate(at, sc, c, height, win, fuel));
      if test.Halts? then StatementHalts(test.outcome)
      else if test.value.boolVal then
        var chosen := ExecuteBlock(at, ScopeAfter(sc, c), t, height, test.window, test.fuel);
        if chosen.Falls? && e.SomeBlock? then
          var over := Jump(chosen.window, chosen.fuel);
          if over.StoreHalts? then StatementHalts(over.outcome) else Falls(over.window, over.fuel)
        else chosen
      else if e.SomeBlock? then
        ExecuteBlock(at, ScopeAfterBlock(ScopeAfter(sc, c), t), e.block, height, test.window, test.fuel)
      else Falls(test.window, test.fuel)
    case WhileStatement(_, _) => ExecuteLoop(at, sc, s, height, win, fuel)
    case ForStatement(i, _, _, _) =>
      ScopeGrowsByOptional(sc, i);
      var start := EvaluateOptionalStore(at, sc, i, height, win, fuel);
      if start.StoreHalts? then StatementHalts(start.outcome)
      else ExecuteLoop(at, ScopeAfterOptional(sc, i), s, height, start.window, start.fuel)
    case BlockStatement(b) => ExecuteBlock(at, sc, b, height, win, fuel)
    case ExpressionStatement(e) =>
      if e.IsStore() then
        var store := EvaluateStore(at, sc, e, height, win, fuel);
        if store.StoreHalts? then StatementHalts(store.outcome) else Falls(store.window, store.fuel)
      else
        var value := Evaluate(at, sc, e, height, win, fuel);
        if value.Halts? then StatementHalts(value.outcome)
        else
          var popped := Jump(value.window, value.fuel);
          if popped.StoreHalts? then StatementHalts(popped.outcome) else Falls(popped.window, popped.fuel)
  }

  function ExecuteBlock(at: Place, sc: Scope, b: Block, height: nat, win: seq<ConstValue>, fuel: nat)
    : (r: StatementResult)
    requires WellFormedSource(at.src) && WellFormedBlock(at.src, b) && ResolvesBlock(at.src, sc.slots.Keys, b)
    requires height <= at.cfg.maxStackSize
    ensures r.Falls? ==> r.fuel <= fuel
    ensures r.Returns? ==> r.fuel <= fuel && height < at.cfg.maxStackSize
    ensures r.StatementHalts? ==> Proper(r.outcome)
    decreases fuel, b, 1
  {
    match b
    case EmptyBlock => Falls(win, fuel)
    case Statements(s, rest) =>
      ScopeGrowsByStatement(sc, s);
      var first := Execute(at, sc, s, height, win, fuel);
      if !first.Falls? then first
      else ExecuteBlock(at, ScopeAfterStatement(sc, s), rest, height, first.window, first.fuel)
  }

  // ----- entry points -----

  function Start(cfg: Config, src: Source): Place { Place(cfg, src, 0, 0) }

  /** A driver expression followed by HALT. */
  function RunDriver(cfg: Config, src: Source, e: Expression): (o: Outcome)
    requires WellFormedSource(src) && ValueExpression(src, e)
    ensures Proper(o)
  {
    if !Resolves(src, NO_LOCALS.slots.Keys, e) then Value(Error)
    else
      match Evaluate(Start(cfg, src), NO_LOCALS, e, 0, InitialLocals(cfg), cfg.maxIterations)
      case Halts(o) => o
      case Yields(v, _, left) => if left == 0 then Limit(Iterations) else Value(v)
  }

  /** Constant arguments, written as the literals that push them. */
  function QuoteValue(v: ConstValue): Expression
    requires v.IsConstant()
  {
    match v
    case Integer(i, _, _) => IntegerLiteral(Narrow(i))
    case Integer128(w, _) => IntegerLiteral(Wide(w))
    case Bool(b) => BooleanLiteral(b)
  }

  function Quote(args: seq<ConstValue>): Arguments
    requires forall v :: v in args ==> v.IsConstant()
  {
    if |args| == 0 then NoArguments else MoreArguments(QuoteValue(args[0]), Quote(args[1..]))
  }

  lemma QuotedArguments(src: Source, args: seq<ConstValue>)
    requires forall v :: v in args ==> v.IsConstant()
    ensures ValueArguments(src, Quote(args)) && ResolvesArguments(src, {}, Quote(args))
    ensures Quote(args).Count() == |args|
  {
    if |args| > 0 {
      QuotedArguments(src, args[1..]);
      assert {} + Declares(QuoteValue(args[0])) == {};
    }
  }

  predicate AllConstant(args: seq<ConstValue>) { forall v :: v in args ==> v.IsConstant() }

  /** The driver that pushes constant arguments and calls a function. */
  function RunCallDriver(cfg: Config, src: Source, f: string, args: seq<ConstValue>): (o: Outcome)
    requires WellFormedSource(src) && (f in src.functions ==> |args| == |src.functions[f].paramNames|)
    ensures Proper(o)
  {
    if f !in src.functions || !AllConstant(args) then Value(Error)
    else
      QuotedArguments(src, args);
      assert NO_LOCALS.slots.Keys == {};
      match EvaluateArguments(Start(cfg, src), NO_LOCALS, Quote(args), 0, InitialLocals(cfg), cfg.maxIterations)
      case ArgumentHalts(o) => o
      case YieldsAll(values, win, left) =>
        if left == 0 then Limit(Iterations)
        else
          match Call(Start(cfg, src), f, values, 0, win, left - 1)
          case Halts(o) => o
          case Yields(v, _, rest) => if rest == 0 then Limit(Iterations) else Value(v)
  }

  /** What a driver computes: an expression, or a call of a function on constants. */
  datatype Driver = ForExpression(expression: Expression) | ForCall(callee: string, arguments: seq<ConstValue>)

  predicate FitsDriver(src: Source, d: Driver) {
    match d
    case ForExpression(e) => ValueExpression(src, e)
    case ForCall(f, args) => f in src.functions && AllConstant(args) && |args| == |src.functions[f].paramNames|
  }

  /** The driver compiles, and it and every function that compiles are well-formed. */
  predicate Runnable(src: Source, d: Driver) {
    WellFormedSource(src) && FitsDriver(src, d) && (d.ForExpression? ==> Resolves(src, {}, d.expression))
  }

  function RunOf(cfg: Config, src: Source, d: Driver): (o: Outcome)
    requires Runnable(src, d)
    ensures Proper(o)
  {
    match d
    case ForExpression(e) => RunDriver(cfg, src, e)
    case ForCall(f, args) => RunCallDriver(cfg, src, f, args)
  }
}
