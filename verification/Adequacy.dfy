/** Every meaning is reached: when the reference evaluator answers, some limits let the machine answer. */
module Adequacy {
  import opened ConstValues
  import opened Arithmetic
  import opened Syntax
  import opened Bytecode
  import opened CodeShape
  import opened FrameSemantics
  import opened LimitIndependence
  import opened Reference
  import opened Agreement

  /** A place under limits of n. */
  function Room(src: Source, base: nat, depth: nat, n: nat): Place {
    Place(Config(n, n, n, n, 0), src, base, depth)
  }

  function Max(a: nat, b: nat): nat { if a >= b then a else b }

  // ----- agreement without comparing fuel and time, once the reference has answered -----

  lemma EvalSettles(at: Place, sc: Scope, fin: Scope, env: Env, e: Expression, height: nat, win: seq<ConstValue>,
                    fuel: nat, time: nat)
    requires WellFormedSource(at.src) && ValueExpression(at.src, e) && Resolves(at.src, sc.slots.Keys, e)
    requires height <= at.cfg.maxStackSize
    requires WindowsSurvive(at.src) && CallsReach(at.src, fin.next, e) && Within(sc, fin) && Mirrors(fin, env, win)
    requires !Eval(at.src, sc.slots.Keys, env, e, time).Late?
    ensures Agrees(fin, env, Evaluate(at, sc, e, height, win, fuel), Eval(at.src, sc.slots.Keys, env, e, time))
  {
    hide WellFormedSource, ValueExpression, Resolves, WindowsSurvive, CallsReach, Within, Mirrors, Evaluate, Eval, Agrees;
    EvalAgrees(at, sc, fin, env, e, height, win, fuel, Max(fuel, time));
    EvalStands(at.src, sc.slots.Keys, env, e, time, Max(fuel, time));
  }

  lemma ArgumentsSettle(at: Place, sc: Scope, fin: Scope, env: Env, args: Arguments, height: nat, win: seq<ConstValue>,
                        fuel: nat, time: nat)
    requires WellFormedSource(at.src) && ValueArguments(at.src, args) && ResolvesArguments(at.src, sc.slots.Keys, args)
    requires height <= at.cfg.maxStackSize
    requires WindowsSurvive(at.src) && ArgumentCallsReach(at.src, fin.next, args)
    requires Within(sc, fin) && Mirrors(fin, env, win)
    requires !EvalArguments(at.src, sc.slots.Keys, env, args, time).LateAll?
    ensures ArgumentsAgree(fin, env, EvaluateArguments(at, sc, args, height, win, fuel),
                           EvalArguments(at.src, sc.slots.Keys, env, args, time))
  {
    hide WellFormedSource, ValueArguments, ResolvesArguments, WindowsSurvive, ArgumentCallsReach, Within, Mirrors,
      EvaluateArguments, EvalArguments, ArgumentsAgree;
    ArgumentsEvalAgree(at, sc, fin, env, args, height, win, fuel, Max(fuel, time));
    ArgumentsStand(at.src, sc.slots.Keys, env, args, time, Max(fuel, time));
  }

  lemma StoreSettles(at: Place, sc: Scope, fin: Scope, env: Env, e: Expression, height: nat, win: seq<ConstValue>,
                     fuel: nat, time: nat)
    requires WellFormedSource(at.src) && StoreExpression(at.src, e) && Resolves(at.src, sc.slots.Keys, e)
    requires height <= at.cfg.maxStackSize
    requires WindowsSurvive(at.src) && CallsReach(at.src, fin.next, e)
    requires Within(ScopeAfter(sc, e), fin) && Mirrors(fin, env, win)
    requires !ExecStore(at.src, sc.slots.Keys, env, e, time).Unknown?
    ensures StoreAgrees(fin, EvaluateStore(at, sc, e, height, win, fuel), ExecStore(at.src, sc.slots.Keys, env, e, time))
  {
    hide WellFormedSource, StoreExpression, Resolves, WindowsSurvive, CallsReach, Within, Mirrors, EvaluateStore,
      ExecStore, StoreAgrees, ScopeAfter;
    StoreExecAgrees(at, sc, fin, env, e, height, win, fuel, Max(fuel, time));
    StoreStands(at.src, sc.slots.Keys, env, e, time, Max(fuel, time));
  }

  lemma ExecSettles(at: Place, sc: Scope, fin: Scope, env: Env, s: Statement, height: nat, win: seq<ConstValue>,
                    fuel: nat, time: nat)
    requires WellFormedSource(at.src) && WellFormed(at.src, s) && ResolvesStatement(at.src, sc.slots.Keys, s)
    requires height <= at.cfg.maxStackSize
    requires WindowsSurvive(at.src) && StatementCallsReach(at.src, fin.next, s)
    requires Within(ScopeAfterStatement(sc, s), fin) && Mirrors(fin, env, win)
    requires !Exec(at.src, sc.slots.Keys, env, s, time).Unknown?
    ensures StatementAgrees(fin, Execute(at, sc, s, height, win, fuel), Exec(at.src, sc.slots.Keys, env, s, time))
  {
    hide WellFormedSource, WellFormed, ResolvesStatement, WindowsSurvive, StatementCallsReach, Within, Mirrors, Execute,
      Exec, StatementAgrees, ScopeAfterStatement;
    ExecAgrees(at, sc, fin, env, s, height, win, fuel, Max(fuel, time));
    ExecStands(at.src, sc.slots.Keys, env, s, time, Max(fuel, time));
  }

  lemma BlockSettles(at: Place, sc: Scope, fin: Scope, env: Env, b: Block, height: nat, win: seq<ConstValue>,
                     fuel: nat, time: nat)
    requires WellFormedSource(at.src) && WellFormedBlock(at.src, b) && ResolvesBlock(at.src, sc.slots.Keys, b)
    requires height <= at.cfg.maxStackSize
    requires WindowsSurvive(at.src) && BlockCallsReach(at.src, fin.next, b)
    requires Within(ScopeAfterBlock(sc, b), fin) && Mirrors(fin, env, win)
    requires !ExecBlock(at.src, sc.slots.Keys, env, b, time).Unknown?
    ensures StatementAgrees(fin, ExecuteBlock(at, sc, b, height, win, fuel),
                            ExecBlock(at.src, sc.slots.Keys, env, b, time))
  {
    hide WellFormedSource, WellFormedBlock, ResolvesBlock, WindowsSurvive, BlockCallsReach, Within, Mirrors, ExecuteBlock,
      ExecBlock, StatementAgrees, ScopeAfterBlock;
    BlockAgrees(at, sc, fin, env, b, height, win, fuel, Max(fuel, time));
    BlockStands(at.src, sc.slots.Keys, env, b, time, Max(fuel, time));
  }

  // ----- how much room each tree needs -----

  lemma {:induction false} EvalReached(src: Source, base: nat, depth: nat, sc: Scope, fin: Scope, env: Env, e: Expression,
                                       height: nat, win: seq<ConstValue>, time: nat) returns (n: nat)
    requires WellFormedSource(src) && ValueExpression(src, e) && Resolves(src, sc.slots.Keys, e)
    requires WindowsSurvive(src) && CallsReach(src, fin.next, e) && Within(sc, fin) && Mirrors(fin, env, win)
    requires !Eval(src, sc.slots.Keys, env, e, time).Late?
    ensures n >= height && !ValueCut(Evaluate(Room(src, base, depth, n), sc, e, height, win, n))
    decreases time, e, 1
  {
    hide WellFormedSource, WindowsSurvive, Mirrors, Within, ApplyBinary, ApplyUnary, Call, EvaluateArguments, EvalArguments,
      Invoke;
    match e
    case BinaryExpression(_, _, _, _) => n := BinaryReached(src, base, depth, sc, fin, env, e, height, win, time);
    case UnaryExpression(_, _, _) => n := OperandReached(src, base, depth, sc, fin, env, e, height, win, time);
    case CastExpression(_, _, _) => n := OperandReached(src, base, depth, sc, fin, env, e, height, win, time);
    case FunctionCall(f, args) =>
      if IsHint(f, args) {
        assert args.MoreArguments? && ValueArguments(src, args) && ArgumentCallsReach(src, fin.next, args);
        n := EvalReached(src, base, depth, sc, fin, env, args.first, height, win, time);
      } else {
        n := CallExpressionReached(src, base, depth, sc, fin, env, e, height, win, time);
      }
    case _ => n := height + 1;
  }

  lemma {:induction false} OperandReached(src: Source, base: nat, depth: nat, sc: Scope, fin: Scope, env: Env,
                                          e: Expression, height: nat, win: seq<ConstValue>, time: nat) returns (n: nat)
    requires e.UnaryExpression? || e.CastExpression?
    requires WellFormedSource(src) && ValueExpression(src, e) && Resolves(src, sc.slots.Keys, e)
    requires WindowsSurvive(src) && CallsReach(src, fin.next, e) && Within(sc, fin) && Mirrors(fin, env, win)
    requires !Eval(src, sc.slots.Keys, env, e, time).Late?
    ensures n >= height && !ValueCut(Evaluate(Room(src, base, depth, n), sc, e, height, win, n))
    decreases time, e, 0
  {
    hide WellFormedSource, WindowsSurvive, Mirrors, Within, ApplyBinary, ApplyUnary, PushOne, ReadName, Call,
      EvaluateArguments, EvalArguments, Invoke;
    var a := if e.UnaryExpression? then e.operand else e.castOperand;
    var n1 := EvalReached(src, base, depth, sc, fin, env, a, height, win, time);
    n := n1 + 1;
    EvaluateUncut(Room(src, base, depth, n1), Room(src, base, depth, n), sc, a, height, win, n1, 1);
  }

  lemma {:induction false} BinaryReached(src: Source, base: nat, depth: nat, sc: Scope, fin: Scope, env: Env, e: Expression,
                                         height: nat, win: seq<ConstValue>, time: nat) returns (n: nat)
    requires e.BinaryExpression?
    requires WellFormedSource(src) && ValueExpression(src, e) && Resolves(src, sc.slots.Keys, e)
    requires WindowsSurvive(src) && CallsReach(src, fin.next, e) && Within(sc, fin) && Mirrors(fin, env, win)
    requires !Eval(src, sc.slots.Keys, env, e, time).Late?
    ensures n >= height && !ValueCut(Evaluate(Room(src, base, depth, n), sc, e, height, win, n))
    decreases time, e, 0
  {
    hide WellFormedSource, WindowsSurvive, Mirrors, Within, ApplyBinary, ApplyUnary, PushOne, ReadName, Call,
      EvaluateArguments, EvalArguments, Invoke;
    var l, r := e.left, e.right;
    ValuesDeclareNothing(src, l);
    assert sc.slots.Keys + Declares(l) == sc.slots.Keys;
    var n1 := EvalReached(src, base, depth, sc, fin, env, l, height, win, time);
    var left := Evaluate(Room(src, base, depth, n1), sc, l, height, win, n1);
    EvalSettles(Room(src, base, depth, n1), sc, fin, env, l, height, win, n1, time);
    if left.Halts? { return n1; }
    var n2 := EvalReached(src, base, depth, sc, fin, env, r, height + 1, left.window, time);
    n := n1 + n2 + 1;
    BinaryFits(src, base, depth, sc, e, height, win, n1, n2);
  }

  lemma BinaryFits(src: Source, base: nat, depth: nat, sc: Scope, e: Expression, height: nat, win: seq<ConstValue>,
                   n1: nat, n2: nat)
    requires e.BinaryExpression?
    requires WellFormedSource(src) && ValueExpression(src, e) && Resolves(src, sc.slots.Keys, e)
    requires ValueExpression(src, e.left) && Resolves(src, sc.slots.Keys, e.left)
    requires ValueExpression(src, e.right) && Resolves(src, sc.slots.Keys, e.right)
    requires height <= n1 && height + 1 <= n2
    requires
      var left := Evaluate(Room(src, base, depth, n1), sc, e.left, height, win, n1);
      left.Yields? && !ValueCut(Evaluate(Room(src, base, depth, n2), sc, e.right, height + 1, left.window, n2))
    ensures var n := n1 + n2 + 1; !ValueCut(Evaluate(Room(src, base, depth, n), sc, e, height, win, n))
  {
    hide WellFormedSource, ValueExpression, Resolves, ApplyBinary, ApplyUnary, PushOne, ReadName, Call, EvaluateArguments;
    var n, l, r := n1 + n2 + 1, e.left, e.right;
    var high := Room(src, base, depth, n);
    var left := Evaluate(Room(src, base, depth, n1), sc, l, height, win, n1);
    EvaluateUncut(Room(src, base, depth, n1), high, sc, l, height, win, n1, n2 + 1);
    EvaluateUncut(Room(src, base, depth, n2), high, sc, r, height + 1, left.window, n2, left.fuel + 1);
  }

  lemma {:induction false} CallExpressionReached(src: Source, base: nat, depth: nat, sc: Scope, fin: Scope, env: Env,
                                                 e: Expression, height: nat, win: seq<ConstValue>, time: nat)
    returns (n: nat)
    requires e.FunctionCall? && !IsHint(e.callee, e.arguments)
    requires WellFormedSource(src) && ValueExpression(src, e) && Resolves(src, sc.slots.Keys, e)
    requires WindowsSurvive(src) && CallsReach(src, fin.next, e) && Within(sc, fin) && Mirrors(fin, env, win)
    requires !Eval(src, sc.slots.Keys, env, e, time).Late?
    ensures n >= height && !ValueCut(Evaluate(Room(src, base, depth, n), sc, e, height, win, n))
    decreases time, e, 0
  {
    hide WellFormedSource, WindowsSurvive, Mirrors, Within, Call, Invoke, EvaluateArguments, EvalArguments, Compiles,
      FinalScope;
    var f, args := e.callee, e.arguments;
    var n1 := ArgumentsReached(src, base, depth, sc, fin, env, args, height, win, time);
    var operands := EvaluateArguments(Room(src, base, depth, n1), sc, args, height, win, n1);
    ArgumentsSettle(Room(src, base, depth, n1), sc, fin, env, args, height, win, n1, time);
    if operands.ArgumentHalts? { return n1; }
    if !Compiles(src, src.functions[f]) {
      n := n1 + 1;
      ArgumentsUncut(Room(src, base, depth, n1), Room(src, base, depth, n), sc, args, height, win, n1, 1);
      RejectedIsNotCut(Room(src, base, depth, n), f, operands.values, height, operands.window, operands.fuel);
      return;
    }
    var n2 := CallReached(src, base, depth, f, operands.values, height, operands.window, time - 1);
    n := n1 + n2 + 1;
    ArgumentsUncut(Room(src, base, depth, n1), Room(src, base, depth, n), sc, args, height, win, n1, n2 + 1);
    CallUncut(Room(src, base, depth, n2), Room(src, base, depth, n), f, operands.values, height, operands.window, n2,
              operands.fuel);
  }

  lemma {:induction false} ArgumentsReached(src: Source, base: nat, depth: nat, sc: Scope, fin: Scope, env: Env,
                                            args: Arguments, height: nat, win: seq<ConstValue>, time: nat)
    returns (n: nat)
    requires WellFormedSource(src) && ValueArguments(src, args) && ResolvesArguments(src, sc.slots.Keys, args)
    requires WindowsSurvive(src) && ArgumentCallsReach(src, fin.next, args) && Within(sc, fin) && Mirrors(fin, env, win)
    requires !EvalArguments(src, sc.slots.Keys, env, args, time).LateAll?
    ensures n >= height && !ArgumentsCut(EvaluateArguments(Room(src, base, depth, n), sc, args, height, win, n))
    decreases time, args, 1
  {
    hide WellFormedSource, WindowsSurvive, Mirrors, Within, Evaluate, Eval;
    if args.NoArguments? { return height; }
    ValuesDeclareNothing(src, args.first);
    assert sc.slots.Keys + Declares(args.first) == sc.slots.Keys;
    var n1 := EvalReached(src, base, depth, sc, fin, env, args.first, height, win, time);
    var first := Evaluate(Room(src, base, depth, n1), sc, args.first, height, win, n1);
    EvalSettles(Room(src, base, depth, n1), sc, fin, env, args.first, height, win, n1, time);
    if first.Halts? { return n1; }
    var n2 := ArgumentsReached(src, base, depth, sc, fin, env, args.rest, height + 1, first.window, time);
    n := n1 + n2;
    EvaluateUncut(Room(src, base, depth, n1), Room(src, base, depth, n), sc, args.first, height, win, n1, n2);
    ArgumentsUncut(Room(src, base, depth, n2), Room(src, base, depth, n), sc, args.rest, height + 1, first.window, n2,
                   first.fuel);
  }

  lemma {:induction false} CallReached(src: Source, base: nat, depth: nat, f: string, args: seq<ConstValue>, height: nat,
                                       win: seq<ConstValue>, time: nat)
    returns (n: nat)
    requires WellFormedSource(src) && WindowsSurvive(src) && f in src.functions && Compiles(src, src.functions[f])
    requires |args| == |src.functions[f].paramNames| && !Invoke(src, f, args, time).Late?
    ensures n >= height && !ValueCut(Call(Room(src, base, depth, n), f, args, height, win, n))
    decreases time, src.functions[f], 1
  {
    hide WellFormedSource, WindowsSurvive, Mirrors, Within, ExecuteBlock, ExecBlock, Compiles, FinalScope,
      WellFormedBlock, BlockCallsReach, ResolvesBlock, Zeros, Distinct, NameSet, ScopeOfParameters, Bind, Call,
      ScopeAfterBlock;
    var fn := src.functions[f];
    CalleeIsFine(src, f);
    CompilesMeaning(src, fn);
    var sc, last := ScopeOfParameters(fn.paramNames), FinalScope(fn);
    var inside, bound := args + Zeros(last.next - |args|), Bind(fn.paramNames, args);
    EntryMirrors(fn, args);
    FinalWithin(fn);
    var n1 := BlockReached(src, base + |win|, depth + 1, sc, last, bound, fn.body, height, inside, time);
    n := n1 + depth + 3;
    CallFits(src, base, depth, f, args, height, win, n1);
  }

  lemma CallFits(src: Source, base: nat, depth: nat, f: string, args: seq<ConstValue>, height: nat, win: seq<ConstValue>,
                 n1: nat)
    requires WellFormedSource(src) && f in src.functions && Compiles(src, src.functions[f])
    requires var fn := src.functions[f];
      |args| == |fn.paramNames| <= FinalScope(fn).next && WellFormedBlock(src, fn.body) && height <= n1 &&
      ResolvesBlock(src, ScopeOfParameters(fn.paramNames).slots.Keys, fn.body) &&
      !StatementCut(ExecuteBlock(Room(src, base + |win|, depth + 1, n1), ScopeOfParameters(fn.paramNames), fn.body, height,
                                 args + Zeros(FinalScope(fn).next - |args|), n1))
    ensures var n := n1 + depth + 3; !ValueCut(Call(Room(src, base, depth, n), f, args, height, win, n))
  {
    hide WellFormedSource, ExecuteBlock, Compiles, FinalScope, WellFormedBlock, ResolvesBlock, Zeros, WindowAfterCall,
      ScopeOfParameters;
    var n, fn := n1 + depth + 3, src.functions[f];
    var sc, inside := ScopeOfParameters(fn.paramNames), args + Zeros(FinalScope(fn).next - |args|);
    var low, high := Room(src, base + |win|, depth + 1, n1), Room(src, base + |win|, depth + 1, n);
    BlockUncut(low, high, sc, fn.body, height, inside, n1, depth + 3);
    assert Room(src, base, depth, n).(base := base + |win|, depth := depth + 1) == high;
    var body := ExecuteBody(high, fn, height, inside, n);
    assert body.Yields? ==> body.fuel > 0;
  }

  lemma RejectedIsNotCut(at: Place, f: string, args: seq<ConstValue>, height: nat, win: seq<ConstValue>, fuel: nat)
    requires WellFormedSource(at.src) && f in at.src.functions && |args| == |at.src.functions[f].paramNames|
    requires height <= at.cfg.maxStackSize && !Compiles(at.src, at.src.functions[f])
    ensures !ValueCut(Call(at, f, args, height, win, fuel))
  {
  }

  lemma CompilesMeaning(src: Source, fn: ConstFunction)
    ensures Compiles(src, fn) == ResolvesBlock(src, ScopeOfParameters(fn.paramNames).slots.Keys, fn.body)
    ensures ScopeOfParameters(fn.paramNames).slots.Keys == NameSet(fn.paramNames)
  {
  }

  lemma FinalWithin(fn: ConstFunction)
    ensures Within(ScopeAfterBlock(ScopeOfParameters(fn.paramNames), fn.body), FinalScope(fn))
  {
  }

  lemma {:induction false} StoreReached(src: Source, base: nat, depth: nat, sc: Scope, fin: Scope, env: Env, e: Expression,
                                        height: nat, win: seq<ConstValue>, time: nat) returns (n: nat)
    requires WellFormedSource(src) && StoreExpression(src, e) && Resolves(src, sc.slots.Keys, e)
    requires WindowsSurvive(src) && CallsReach(src, fin.next, e)
    requires Within(ScopeAfter(sc, e), fin) && Mirrors(fin, env, win)
    requires !ExecStore(src, sc.slots.Keys, env, e, time).Unknown?
    ensures n >= height && !StoreCut(EvaluateStore(Room(src, base, depth, n), sc, e, height, win, n))
    decreases time, e, 1
  {
    hide WellFormedSource, WindowsSurvive, Mirrors, Evaluate, Eval;
    var v := if e.VariableInit? then e.initial else e.stored;
    var x := if e.VariableInit? then e.declared else e.target;
    ScopeGrows(sc, e);
    ValuesDeclareNothing(src, v);
    var n1 := EvalReached(src, base, depth, sc, fin, env, v, height, win, time);
    n := n1 + base + ScopeAfter(sc, e).slots[x] + 2;
    EvaluateUncut(Room(src, base, depth, n1), Room(src, base, depth, n), sc, v, height, win, n1, n - n1);
  }

  lemma {:induction false} LoopReached(src: Source, base: nat, depth: nat, sc: Scope, fin: Scope, env: Env, s: Statement,
                                       height: nat, win: seq<ConstValue>, time: nat) returns (n: nat)
    requires s.WhileStatement? || s.ForStatement?
    requires WellFormedSource(src) && WellFormed(src, s) && ResolvesLoop(src, sc.slots.Keys, s)
    requires WindowsSurvive(src) && StatementCallsReach(src, fin.next, s)
    requires Within(ScopeAfterLoop(sc, s), fin) && Mirrors(fin, env, win)
    requires !ExecLoop(src, sc.slots.Keys, env, s, time).Unknown?
    ensures n >= height && !StatementCut(ExecuteLoop(Room(src, base, depth, n), sc, s, height, win, n))
    decreases time, s, 2
  {
    hide WellFormedSource, WindowsSurvive, Mirrors, Within, Evaluate, Eval, ExecuteBlock, ExecBlock, EvaluateStore,
      ExecStore, ValueExpression, WellFormedBlock, ResolvesBlock, Resolves, CallsReach, BlockCallsReach,
      ScopeAfter, ScopeAfterBlock, ScopeAfterLoop, Test, Agrees;
    var names := sc.slots.Keys;
    var c, b, p := LoopCondition(s), LoopBody(s), LoopPostfix(s);
    var inBody := ScopeAfterOptional(sc, c);
    var atPostfix := ScopeAfterBlock(inBody, b);
    LoopScopes(sc, fin, s);
    var n0 := height;
    if c.Present? { n0 := EvalReached(src, base, depth, sc, fin, env, c.expression, height, win, time); }
    var n1, test := ConditionReached(src, base, depth, sc, fin, env, c, height, win, time, n0);
    if test.Halts? || !test.value.boolVal { return n1; }
    var n2 := BlockReached(src, base, depth, inBody, fin, env, b, height, test.window, time);
    var body := ExecuteBlock(Room(src, base, depth, n2), inBody, b, height, test.window, n2);
    BlockSettles(Room(src, base, depth, n2), inBody, fin, env, b, height, test.window, n2, time);
    var n3, n4 := height, 0;
    if body.Falls? {
      var env' := ExecBlock(src, inBody.slots.Keys, env, b, time).env;
      if p.Present? {
        n3 := StoreReached(src, base, depth, atPostfix, fin, env', p.expression, height, body.window, time);
        StoreSettles(Room(src, base, depth, n3), atPostfix, fin, env', p.expression, height, body.window, n3, time);
      }
      var postfix := EvaluateOptionalStore(Room(src, base, depth, n3), atPostfix, p, height, body.window, n3);
      if postfix.Stored? {
        var next := if p.Absent? then env' else ExecStore(src, atPostfix.slots.Keys, env', p.expression, time).env;
        n4 := LoopReached(src, base, depth, sc, fin, next, s, height, postfix.window, time - 1);
      }
    }
    n := n1 + n2 + n3 + n4 + 1;
    LoopFits(src, base, depth, sc, s, height, win, n1, n2, n3, n4);
  }

  /** Rooms for the parts of one turn and for the turns that follow make room for the loop. */
  lemma LoopFits(src: Source, base: nat, depth: nat, sc: Scope, s: Statement, height: nat, win: seq<ConstValue>,
                 n1: nat, n2: nat, n3: nat, n4: nat)
    requires s.WhileStatement? || s.ForStatement?
    requires WellFormedSource(src) && WellFormed(src, s) && ResolvesLoop(src, sc.slots.Keys, s)
    requires height <= n1 && height <= n2 && height <= n3
    requires
      var inBody := ScopeAfterOptional(sc, LoopCondition(s));
      var atPostfix := ScopeAfterBlock(inBody, LoopBody(s));
      inBody.slots.Keys == sc.slots.Keys + DeclaresOptional(LoopCondition(s)) &&
      atPostfix.slots.Keys == inBody.slots.Keys + DeclaresBlock(LoopBody(s)) &&
      var test := Tested(Room(src, base, depth, n1), sc, LoopCondition(s), height, win, n1);
      test.Yields? && test.value == Bool(true) &&
      var body := ExecuteBlock(Room(src, base, depth, n2), inBody, LoopBody(s), height, test.window, n2);
      !StatementCut(body) &&
      (body.Falls? ==>
        var postfix := EvaluateOptionalStore(Room(src, base, depth, n3), atPostfix, LoopPostfix(s), height, body.window, n3);
        !StoreCut(postfix) &&
        (postfix.Stored? ==>
          (height <= n4 && !StatementCut(ExecuteLoop(Room(src, base, depth, n4), sc, s, height, postfix.window, n4)))))
    ensures var n := n1 + n2 + n3 + n4 + 1; !StatementCut(ExecuteLoop(Room(src, base, depth, n), sc, s, height, win, n))
  {
    hide ScopeAfterOptional, DeclaresOptional, RepeatLoop;
    hide WellFormedSource, Evaluate, ExecuteBlock, EvaluateStore, ValueExpression, WellFormedBlock, ResolvesBlock, Resolves,
      ScopeAfter, ScopeAfterBlock, Test, Declares, DeclaresBlock;
    var n, m := n1 + n2 + n3 + n4 + 1, n3 + n4 + 1;
    var high := Room(src, base, depth, n);
    var c, b := LoopCondition(s), LoopBody(s);
    var inBody := ScopeAfterOptional(sc, c);
    TestedUncut(src, base, depth, sc, c, height, win, n1, n - n1);
    var test := Tested(Room(src, base, depth, n1), sc, c, height, win, n1);
    BlockUncut(Room(src, base, depth, n2), high, inBody, b, height, test.window, n2, test.fuel + m);
    var body := ExecuteBlock(Room(src, base, depth, n2), inBody, b, height, test.window, n2);
    if body.Falls? {
      RepeatFits(src, base, depth, sc, s, height, body.window, n3, n4);
      RepeatUncut(Room(src, base, depth, m), high, sc, s, height, body.window, m, body.fuel + test.fuel);
    }
  }

  /** Rooms for the postfix and for the turns that follow make room for what comes behind the body. */
  lemma RepeatFits(src: Source, base: nat, depth: nat, sc: Scope, s: Statement, height: nat, win: seq<ConstValue>,
                   n3: nat, n4: nat)
    requires s.WhileStatement? || s.ForStatement?
    requires WellFormedSource(src) && WellFormed(src, s) && ResolvesLoop(src, sc.slots.Keys, s)
    requires height <= n3
    requires
      var atPostfix := ScopeAfterBlock(ScopeAfterOptional(sc, LoopCondition(s)), LoopBody(s));
      ResolvesOptional(src, atPostfix.slots.Keys, LoopPostfix(s)) &&
      var postfix := EvaluateOptionalStore(Room(src, base, depth, n3), atPostfix, LoopPostfix(s), height, win, n3);
      !StoreCut(postfix) &&
      (postfix.Stored? ==>
        height <= n4 && !StatementCut(ExecuteLoop(Room(src, base, depth, n4), sc, s, height, postfix.window, n4)))
    ensures var m := n3 + n4 + 1; !StatementCut(RepeatLoop(Room(src, base, depth, m), sc, s, height, win, m))
  {
    hide RepeatLoop, ExecuteLoop, ScopeAfterOptional;
    hide WellFormedSource, EvaluateStore, ValueExpression, WellFormedBlock, ResolvesBlock, Resolves, ScopeAfterBlock;
    var m, p := n3 + n4 + 1, LoopPostfix(s);
    var low, high := Room(src, base, depth, n3), Room(src, base, depth, m);
    var atPostfix := ScopeAfterBlock(ScopeAfterOptional(sc, LoopCondition(s)), LoopBody(s));
    RepeatIs(high, sc, s, height, win, m);
    if p.Present? { StoreUncut(low, high, atPostfix, p.expression, height, win, n3, n4 + 1); }
    var postfix := EvaluateOptionalStore(low, atPostfix, p, height, win, n3);
    if postfix.Stored? {
      LoopUncut(Room(src, base, depth, n4), high, sc, s, height, postfix.window, n4, postfix.fuel);
    }
  }

  /** The test of a loop, with room for it and its jump. */
  lemma ConditionReached(src: Source, base: nat, depth: nat, sc: Scope, fin: Scope, env: Env,
                                            c: OptionalExpression, height: nat, win: seq<ConstValue>, time: nat, n0: nat)
    returns (n: nat, test: ValueResult)
    requires WellFormedSource(src) && (c.Present? ==> ValueExpression(src, c.expression))
    requires ResolvesOptional(src, sc.slots.Keys, c) && WindowsSurvive(src) && OptionalCallsReach(src, fin.next, c)
    requires Within(sc, fin) && Mirrors(fin, env, win)
    requires c.Present? ==> !Eval(src, sc.slots.Keys, env, c.expression, time).Late?
    requires n0 >= height
    requires c.Present? ==> !ValueCut(Evaluate(Room(src, base, depth, n0), sc, c.expression, height, win, n0))
    ensures n >= height && test == Tested(Room(src, base, depth, n), sc, c, height, win, n) && !ValueCut(test)
    ensures TestAgrees(fin, env, test,
                       if c.Absent? then Got(Bool(true)) else Eval(src, sc.slots.Keys, env, c.expression, time))
  {
    hide WellFormedSource, WindowsSurvive, Mirrors, Within, Evaluate, Eval;
    if c.Absent? { return height, Yields(Bool(true), win, height); }
    n := n0 + 1;
    EvaluateUncut(Room(src, base, depth, n0), Room(src, base, depth, n), sc, c.expression, height, win, n0, 1);
    EvalSettles(Room(src, base, depth, n), sc, fin, env, c.expression, height, win, n, time);
    test := Tested(Room(src, base, depth, n), sc, c, height, win, n);
  }

  function Tested(at: Place, sc: Scope, c: OptionalExpression, height: nat, win: seq<ConstValue>, fuel: nat): ValueResult
    requires WellFormedSource(at.src) && (c.Present? ==> ValueExpression(at.src, c.expression))
    requires ResolvesOptional(at.src, sc.slots.Keys, c) && height <= at.cfg.maxStackSize
  {
    if c.Absent? then Yields(Bool(true), win, fuel) else Test(Evaluate(at, sc, c.expression, height, win, fuel))
  }

  lemma TestedUncut(src: Source, base: nat, depth: nat, sc: Scope, c: OptionalExpression, height: nat, win: seq<ConstValue>,
                    n: nat, extra: nat)
    requires WellFormedSource(src) && (c.Present? ==> ValueExpression(src, c.expression))
    requires ResolvesOptional(src, sc.slots.Keys, c) && height <= n
    requires !ValueCut(Tested(Room(src, base, depth, n), sc, c, height, win, n))
    ensures Tested(Room(src, base, depth, n + extra), sc, c, height, win, n + extra) ==
            RefuelValue(Tested(Room(src, base, depth, n), sc, c, height, win, n), extra)
  {
    hide WellFormedSource, Evaluate, Test;
    if c.Present? {
      var v := Evaluate(Room(src, base, depth, n), sc, c.expression, height, win, n);
      TestRefuels(v, extra);
      EvaluateUncut(Room(src, base, depth, n), Room(src, base, depth, n + extra), sc, c.expression, height, win, n, extra);
    }
  }

  lemma {:induction false} IfReached(src: Source, base: nat, depth: nat, sc: Scope, fin: Scope, env: Env, s: Statement,
                                     height: nat, win: seq<ConstValue>, time: nat) returns (n: nat)
    requires s.IfStatement?
    requires WellFormedSource(src) && WellFormed(src, s) && ResolvesStatement(src, sc.slots.Keys, s)
    requires WindowsSurvive(src) && StatementCallsReach(src, fin.next, s)
    requires Within(ScopeAfterStatement(sc, s), fin) && Mirrors(fin, env, win)
    requires !Exec(src, sc.slots.Keys, env, s, time).Unknown?
    ensures n >= height && !StatementCut(Execute(Room(src, base, depth, n), sc, s, height, win, n))
    decreases time, s, 2
  {
    hide WellFormedSource, WindowsSurvive, Mirrors, Evaluate, Eval, ExecuteBlock, ExecBlock, Execute, ValueExpression,
      WellFormedBlock, ResolvesBlock, Resolves, CallsReach, BlockCallsReach, ScopeAfter, ScopeAfterBlock;
    var c, t, e := s.ifCondition, s.thenBranch, s.elseBranch;
    var inThen := ScopeAfter(sc, c);
    var afterThen := ScopeAfterBlock(inThen, t);
    ScopeGrows(sc, c);
    ScopeGrowsByBlock(inThen, t);
    if e.SomeBlock? { ScopeGrowsByBlock(afterThen, e.block); }
    var n1 := EvalReached(src, base, depth, sc, fin, env, c, height, win, time);
    var v := Evaluate(Room(src, base, depth, n1), sc, c, height, win, n1);
    EvalSettles(Room(src, base, depth, n1), sc, fin, env, c, height, win, n1, time);
    var n2 := height;
    if v.Yields? {
      if v.value.ToBool() { n2 := BlockReached(src, base, depth, inThen, fin, env, t, height, v.window, time); }
      else if e.SomeBlock? { n2 := BlockReached(src, base, depth, afterThen, fin, env, e.block, height, v.window, time); }
    }
    n := n1 + n2 + 2;
    IfFits(src, base, depth, sc, s, height, win, n1, n2);
  }

  /** Rooms for the condition and for the branch taken make room for the if. */
  lemma IfFits(src: Source, base: nat, depth: nat, sc: Scope, s: Statement, height: nat, win: seq<ConstValue>, n1: nat,
               n2: nat)
    requires s.IfStatement?
    requires WellFormedSource(src) && WellFormed(src, s) && ResolvesStatement(src, sc.slots.Keys, s)
    requires height <= n1 && height <= n2
    requires
      var inThen := ScopeAfter(sc, s.ifCondition);
      var afterThen := ScopeAfterBlock(inThen, s.thenBranch);
      inThen.slots.Keys == sc.slots.Keys + Declares(s.ifCondition) &&
      afterThen.slots.Keys == inThen.slots.Keys + DeclaresBlock(s.thenBranch) &&
      var v := Evaluate(Room(src, base, depth, n1), sc, s.ifCondition, height, win, n1);
      !ValueCut(v) &&
      (v.Yields? && v.value.ToBool() ==>
        !StatementCut(ExecuteBlock(Room(src, base, depth, n2), inThen, s.thenBranch, height, v.window, n2))) &&
      (v.Yields? && !v.value.ToBool() && s.elseBranch.SomeBlock? ==>
        !StatementCut(ExecuteBlock(Room(src, base, depth, n2), afterThen, s.elseBranch.block, height, v.window, n2)))
    ensures var n := n1 + n2 + 2; !StatementCut(Execute(Room(src, base, depth, n), sc, s, height, win, n))
  {
    hide WellFormedSource, Evaluate, ExecuteBlock, ValueExpression, WellFormedBlock, ResolvesBlock, Resolves, ScopeAfter,
      ScopeAfterBlock, Declares, DeclaresBlock;
    var (n, c, t, e) := (n1 + n2 + 2, s.ifCondition, s.thenBranch, s.elseBranch);
    var low, high := Room(src, base, depth, n2), Room(src, base, depth, n);
    var inThen := ScopeAfter(sc, c);
    EvaluateUncut(Room(src, base, depth, n1), high, sc, c, height, win, n1, n2 + 2);
    var v := Evaluate(Room(src, base, depth, n1), sc, c, height, win, n1);
    if v.Yields? && v.value.ToBool() { BlockUncut(low, high, inThen, t, height, v.window, n2, v.fuel + 1); }
    else if v.Yields? && e.SomeBlock? {
      BlockUncut(low, high, ScopeAfterBlock(inThen, t), e.block, height, v.window, n2, v.fuel + 1);
    }
  }

  lemma {:induction false} ForReached(src: Source, base: nat, depth: nat, sc: Scope, fin: Scope, env: Env, s: Statement,
                                      height: nat, win: seq<ConstValue>, time: nat) returns (n: nat)
    requires s.ForStatement? && s.initializer.Present?
    requires WellFormedSource(src) && WellFormed(src, s) && ResolvesStatement(src, sc.slots.Keys, s)
    requires WindowsSurvive(src) && StatementCallsReach(src, fin.next, s)
    requires Within(ScopeAfterStatement(sc, s), fin) && Mirrors(fin, env, win)
    requires !Exec(src, sc.slots.Keys, env, s, time).Unknown?
    ensures n >= height && !StatementCut(Execute(Room(src, base, depth, n), sc, s, height, win, n))
    decreases time, s, 3
  {
    hide WellFormedSource, WindowsSurvive, Mirrors, EvaluateStore, ExecStore, ExecuteLoop, ExecLoop, ResolvesLoop, Resolves,
      WellFormedBlock, CallsReach, BlockCallsReach, ScopeAfterLoop, ScopeAfter;
    var i := s.initializer.expression;
    var inner := ScopeAfter(sc, i);
    ScopeGrows(sc, i);
    ScopeGrowsByLoop(inner, s);
    var n1 := StoreReached(src, base, depth, sc, fin, env, i, height, win, time);
    var start := EvaluateStore(Room(src, base, depth, n1), sc, i, height, win, n1);
    StoreSettles(Room(src, base, depth, n1), sc, fin, env, i, height, win, n1, time);
    if start.StoreHalts? { return n1; }
    var env' := ExecStore(src, sc.slots.Keys, env, i, time).env;
    var n2 := LoopReached(src, base, depth, inner, fin, env', s, height, start.window, time);
    n := n1 + n2;
    StoreUncut(Room(src, base, depth, n1), Room(src, base, depth, n), sc, i, height, win, n1, n2);
    LoopUncut(Room(src, base, depth, n2), Room(src, base, depth, n), inner, s, height, start.window, n2, start.fuel);
  }

  lemma {:induction false} ExecReached(src: Source, base: nat, depth: nat, sc: Scope, fin: Scope, env: Env, s: Statement,
                                       height: nat, win: seq<ConstValue>, time: nat) returns (n: nat)
    requires WellFormedSource(src) && WellFormed(src, s) && ResolvesStatement(src, sc.slots.Keys, s)
    requires WindowsSurvive(src) && StatementCallsReach(src, fin.next, s)
    requires Within(ScopeAfterStatement(sc, s), fin) && Mirrors(fin, env, win)
    requires !Exec(src, sc.slots.Keys, env, s, time).Unknown?
    ensures n >= height && !StatementCut(Execute(Room(src, base, depth, n), sc, s, height, win, n))
    decreases time, s, 4
  {
    hide WellFormedSource, WindowsSurvive, Mirrors, Evaluate, Eval, ExecuteBlock, ExecBlock, EvaluateStore, ExecStore,
      ExecuteLoop, ExecLoop, WellFormedBlock, ResolvesBlock, Resolves, ResolvesLoop, CallsReach, BlockCallsReach,
      ScopeAfter, ScopeAfterBlock, ScopeAfterLoop;
    match s
    case ReturnStatement(o) =>
      if o.Absent? { return height + 1; }
      ScopeGrows(sc, o.expression);
      n := EvalReached(src, base, depth, sc, fin, env, o.expression, height, win, time);
    case ThrowStatement(_) => n := height + 1;
    case IfStatement(_, _, _) => n := IfReached(src, base, depth, sc, fin, env, s, height, win, time);
    case WhileStatement(_, _) => n := LoopReached(src, base, depth, sc, fin, env, s, height, win, time);
    case ForStatement(i, _, _, _) =>
      if i.Present? { n := ForReached(src, base, depth, sc, fin, env, s, height, win, time); }
      else {
        assert sc.slots.Keys + DeclaresOptional(i) == sc.slots.Keys;
        n := LoopReached(src, base, depth, sc, fin, env, s, height, win, time);
      }
    case BlockStatement(b) => n := BlockReached(src, base, depth, sc, fin, env, b, height, win, time);
    case ExpressionStatement(e) =>
      if e.IsStore() {
        n := StoreReached(src, base, depth, sc, fin, env, e, height, win, time);
      } else {
        ScopeGrows(sc, e);
        var n1 := EvalReached(src, base, depth, sc, fin, env, e, height, win, time);
        n := n1 + 1;
        EvaluateUncut(Room(src, base, depth, n1), Room(src, base, depth, n), sc, e, height, win, n1, 1);
      }
    case OtherStatement => n := height;
  }

  lemma {:induction false} BlockReached(src: Source, base: nat, depth: nat, sc: Scope, fin: Scope, env: Env, b: Block,
                                        height: nat, win: seq<ConstValue>, time: nat) returns (n: nat)
    requires WellFormedSource(src) && WellFormedBlock(src, b) && ResolvesBlock(src, sc.slots.Keys, b)
    requires WindowsSurvive(src) && BlockCallsReach(src, fin.next, b)
    requires Within(ScopeAfterBlock(sc, b), fin) && Mirrors(fin, env, win)
    requires !ExecBlock(src, sc.slots.Keys, env, b, time).Unknown?
    ensures n >= height && !StatementCut(ExecuteBlock(Room(src, base, depth, n), sc, b, height, win, n))
    decreases time, b, 1
  {
    hide WellFormedSource, WindowsSurvive, Mirrors, Execute, Exec, WellFormed, ResolvesStatement, StatementCallsReach,
      ScopeAfterStatement;
    if b.EmptyBlock? { return height; }
    var sc1 := ScopeAfterStatement(sc, b.head);
    ScopeGrowsByStatement(sc, b.head);
    ScopeGrowsByBlock(sc1, b.tail);
    var n1 := ExecReached(src, base, depth, sc, fin, env, b.head, height, win, time);
    var first := Execute(Room(src, base, depth, n1), sc, b.head, height, win, n1);
    ExecSettles(Room(src, base, depth, n1), sc, fin, env, b.head, height, win, n1, time);
    if !first.Falls? { return n1; }
    var env' := Exec(src, sc.slots.Keys, env, b.head, time).env;
    var n2 := BlockReached(src, base, depth, sc1, fin, env', b.tail, height, first.window, time);
    n := n1 + n2;
    ExecuteUncut(Room(src, base, depth, n1), Room(src, base, depth, n), sc, b.head, height, win, n1, n2);
    BlockUncut(Room(src, base, depth, n2), Room(src, base, depth, n), sc1, b.tail, height, first.window, n2, first.fuel);
  }
}
