/** Where the machine gives the meaning of the trees.  A return cuts the locals to the caller's base plus the number
    of locals of the callee, so a caller keeps its variables exactly when no callee has fewer locals than it has. */
module Agreement {
  import opened ConstValues
  import opened Arithmetic
  import opened Syntax
  import opened Bytecode
  import opened CodeShape
  import opened FrameSemantics
  import opened Reference

  // ----- every call edge leads to a function with at least n locals -----

  /** The function has at least n locals, or does not compile: a call of it then ends the evaluation. */
  predicate KeepsWindow(src: Source, n: nat, fn: ConstFunction) {
    Compiles(src, fn) ==> FinalScope(fn).next >= n
  }

  predicate CallsReach(src: Source, n: nat, e: Expression) {
    match e
    case BinaryExpression(l, _, r, _) => CallsReach(src, n, l) && CallsReach(src, n, r)
    case UnaryExpression(_, a, _) => CallsReach(src, n, a)
    case CastExpression(_, _, a) => CallsReach(src, n, a)
    case FunctionCall(f, args) =>
      ArgumentCallsReach(src, n, args) &&
      (!IsHint(f, args) && f in src.functions ==> KeepsWindow(src, n, src.functions[f]))
    case VariableInit(_, v) => CallsReach(src, n, v)
    case Assignment(_, v) => CallsReach(src, n, v)
    case _ => true
  }

  predicate ArgumentCallsReach(src: Source, n: nat, args: Arguments) {
    args.MoreArguments? ==> CallsReach(src, n, args.first) && ArgumentCallsReach(src, n, args.rest)
  }

  predicate OptionalCallsReach(src: Source, n: nat, o: OptionalExpression) {
    o.Present? ==> CallsReach(src, n, o.expression)
  }

  predicate StatementCallsReach(src: Source, n: nat, s: Statement) {
    match s
    case ReturnStatement(o) => OptionalCallsReach(src, n, o)
    case IfStatement(c, t, e) =>
      CallsReach(src, n, c) && BlockCallsReach(src, n, t) && (e.SomeBlock? ==> BlockCallsReach(src, n, e.block))
    case WhileStatement(c, b) => CallsReach(src, n, c) && BlockCallsReach(src, n, b)
    case ForStatement(i, c, p, b) =>
      OptionalCallsReach(src, n, i) && OptionalCallsReach(src, n, c) && OptionalCallsReach(src, n, p) &&
      BlockCallsReach(src, n, b)
    case BlockStatement(b) => BlockCallsReach(src, n, b)
    case ExpressionStatement(e) => CallsReach(src, n, e)
    case _ => true
  }

  predicate BlockCallsReach(src: Source, n: nat, b: Block) {
    b.Statements? ==> StatementCallsReach(src, n, b.head) && BlockCallsReach(src, n, b.tail)
  }

  /** On every call edge between functions that compile, the callee has at least as many locals as the caller. */
  predicate WindowsSurvive(src: Source) {
    forall f :: f in src.functions && Compiles(src, src.functions[f]) ==>
      BlockCallsReach(src, FinalScope(src.functions[f]).next, src.functions[f].body)
  }

  lemma {:induction false} CallsReachZero(src: Source, e: Expression)
    ensures CallsReach(src, 0, e)
    decreases e
  {
    match e
    case BinaryExpression(l, _, r, _) => CallsReachZero(src, l); CallsReachZero(src, r);
    case UnaryExpression(_, a, _) => CallsReachZero(src, a);
    case CastExpression(_, _, a) => CallsReachZero(src, a);
    case FunctionCall(_, args) => ArgumentCallsReachZero(src, args);
    case VariableInit(_, v) => CallsReachZero(src, v);
    case Assignment(_, v) => CallsReachZero(src, v);
    case _ =>
  }

  lemma {:induction false} ArgumentCallsReachZero(src: Source, args: Arguments)
    ensures ArgumentCallsReach(src, 0, args)
    decreases args
  {
    if args.MoreArguments? {
      CallsReachZero(src, args.first);
      ArgumentCallsReachZero(src, args.rest);
    }
  }

  // ----- windows mirror environments -----

  /** Every variable of the function stands in its slot; one not yet stored stands there as 0. */
  ghost predicate Mirrors(fin: Scope, env: Env, win: seq<ConstValue>) {
    fin.next <= |win| && fin.Valid() && forall x :: x in fin.slots ==> win[fin.slots[x]] == Read(env, x)
  }

  lemma StoreMirrors(fin: Scope, env: Env, win: seq<ConstValue>, x: string, v: ConstValue)
    requires Mirrors(fin, env, win) && x in fin.slots
    ensures Mirrors(fin, env[x := v], win[fin.slots[x] := v])
  {
  }

  /** A call keeps the mirror when the callee has as many locals. */
  lemma CallMirrors(fin: Scope, env: Env, win: seq<ConstValue>, callee: seq<ConstValue>, numLocals: nat)
    requires Mirrors(fin, env, win) && fin.next <= numLocals
    ensures Mirrors(fin, env, WindowAfterCall(win, callee, numLocals))
  {
  }

  lemma {:induction false} BindReads(params: seq<string>, args: seq<ConstValue>, x: string)
    requires |params| == |args|
    ensures Bind(params, args).Keys == NameSet(params)
    ensures Distinct(params) ==> forall i :: 0 <= i < |params| ==> Read(Bind(params, args), params[i]) == args[i]
    decreases |params|
  {
    if |params| > 0 {
      var n := |params| - 1;
      BindReads(params[..n], args[..n], x);
      assert NameSet(params) == NameSet(params[..n]) + {params[n]};
      if Distinct(params) {
        forall i | 0 <= i < |params| ensures Read(Bind(params, args), params[i]) == args[i] {
          if i < n { assert params[..n][i] == params[i]; }
        }
      }
    }
  }

  /** The fresh window of a callee mirrors the environment that binds its parameters. */
  lemma EntryMirrors(fn: ConstFunction, args: seq<ConstValue>)
    requires |fn.paramNames| == |args| <= FinalScope(fn).next && Distinct(fn.paramNames)
    ensures Mirrors(FinalScope(fn), Bind(fn.paramNames, args), args + Zeros(FinalScope(fn).next - |args|))
  {
    hide ScopeOfParameters, Bind, Read, Zeros;
    var params, fin := fn.paramNames, FinalScope(fn);
    var env, win := Bind(params, args), args + Zeros(fin.next - |args|);
    ScopeGrowsByBlock(ScopeOfParameters(params), fn.body);
    forall x | x in fin.slots ensures win[fin.slots[x]] == Read(env, x) {
      if x in NameSet(params) { ParameterStands(fn, args, x); }
      else {
        if fin.slots[x] < |params| { LocalsFollowParameters(fn, x); }
        LocalIsUnset(params, args, x);
        ZerosAbove(args, fin.next - |args|, fin.slots[x]);
      }
    }
  }

  lemma ParameterStands(fn: ConstFunction, args: seq<ConstValue>, x: string)
    requires |fn.paramNames| == |args| && Distinct(fn.paramNames) && x in NameSet(fn.paramNames)
    ensures x in FinalScope(fn).slots && FinalScope(fn).slots[x] < |args|
    ensures args[FinalScope(fn).slots[x]] == Read(Bind(fn.paramNames, args), x)
  {
    hide Read, Bind;
    var params, sc := fn.paramNames, ScopeOfParameters(fn.paramNames);
    ScopeGrowsByBlock(sc, fn.body);
    BindReads(params, args, "");
    var i :| 0 <= i < |params| && params[i] == x;
    assert sc.slots[params[i]] == i;
  }

  lemma LocalIsUnset(params: seq<string>, args: seq<ConstValue>, x: string)
    requires |params| == |args| && x !in NameSet(params)
    ensures Read(Bind(params, args), x) == ZERO
  {
    hide Bind;
    BindReads(params, args, "");
  }

  lemma ZerosAbove(args: seq<ConstValue>, n: nat, slot: nat)
    requires |args| <= slot < |args| + n
    ensures (args + Zeros(n))[slot] == ZERO
  {
  }

  /** A local that is no parameter lies above the parameters. */
  lemma LocalsFollowParameters(fn: ConstFunction, x: string)
    requires Distinct(fn.paramNames) && x in FinalScope(fn).slots && FinalScope(fn).slots[x] < |fn.paramNames|
    ensures x in NameSet(fn.paramNames)
  {
    var params, sc, fin := fn.paramNames, ScopeOfParameters(fn.paramNames), FinalScope(fn);
    ScopeGrowsByBlock(sc, fn.body);
    assert fin.slots[params[fin.slots[x]]] == fin.slots[x];
  }

  // ----- results that agree -----

  ghost predicate Agrees(fin: Scope, env: Env, r: ValueResult, answer: Answer) {
    match r
    case Yields(v, win, _) => answer == Got(v) && Mirrors(fin, env, win)
    case Halts(o) => o.Value? ==> answer == Ends(o.value)
  }

  ghost predicate ArgumentsAgree(fin: Scope, env: Env, r: ArgumentsResult, answers: Answers) {
    match r
    case YieldsAll(vs, win, _) => answers == GotAll(vs) && Mirrors(fin, env, win)
    case ArgumentHalts(o) => o.Value? ==> answers == EndsAll(o.value)
  }

  ghost predicate StoreAgrees(fin: Scope, r: StoreResult, p: Progress) {
    match r
    case Stored(win, _) => p.Goes? && Mirrors(fin, p.env, win)
    case StoreHalts(o) => o.Value? ==> p == Stops(o.value)
  }

  ghost predicate StatementAgrees(fin: Scope, r: StatementResult, p: Progress) {
    match r
    case Falls(win, _) => p.Goes? && Mirrors(fin, p.env, win)
    case Returns(v, _, _) => p == Gives(v)
    case StatementHalts(o) => o.Value? ==> p == Stops(o.value)
  }

  lemma {:induction false} EvalAgrees(at: Place, sc: Scope, fin: Scope, env: Env, e: Expression, height: nat,
                                      win: seq<ConstValue>, fuel: nat, time: nat)
    requires WellFormedSource(at.src) && ValueExpression(at.src, e) && Resolves(at.src, sc.slots.Keys, e)
    requires height <= at.cfg.maxStackSize && fuel <= time
    requires WindowsSurvive(at.src) && CallsReach(at.src, fin.next, e) && Within(sc, fin) && Mirrors(fin, env, win)
    ensures Agrees(fin, env, Evaluate(at, sc, e, height, win, fuel), Eval(at.src, sc.slots.Keys, env, e, time))
    decreases fuel, e, 1
  {
    hide WellFormedSource, WindowsSurvive, Mirrors, Within, Evaluate, Eval, ValueExpression, Resolves, CallsReach, Agrees;
    match e
    case BinaryExpression(_, _, _, _) => BinaryAgrees(at, sc, fin, env, e, height, win, fuel, time);
    case UnaryExpression(_, _, _) => OperandAgrees(at, sc, fin, env, e, height, win, fuel, time);
    case CastExpression(_, _, _) => OperandAgrees(at, sc, fin, env, e, height, win, fuel, time);
    case FunctionCall(_, _) => CallExpressionAgrees(at, sc, fin, env, e, height, win, fuel, time);
    case _ => LeafAgrees(at, sc, fin, env, e, height, win, fuel, time);
  }

  lemma {:induction false} LeafAgrees(at: Place, sc: Scope, fin: Scope, env: Env, e: Expression, height: nat,
                                      win: seq<ConstValue>, fuel: nat, time: nat)
    requires !e.BinaryExpression? && !e.UnaryExpression? && !e.CastExpression? && !e.FunctionCall?
    requires WellFormedSource(at.src) && ValueExpression(at.src, e) && Resolves(at.src, sc.slots.Keys, e)
    requires height <= at.cfg.maxStackSize && fuel <= time
    requires WindowsSurvive(at.src) && CallsReach(at.src, fin.next, e) && Within(sc, fin) && Mirrors(fin, env, win)
    ensures Agrees(fin, env, Evaluate(at, sc, e, height, win, fuel), Eval(at.src, sc.slots.Keys, env, e, time))
    decreases fuel, e, 0
  {
    hide WellFormedSource, WindowsSurvive, Mirrors, Within, ReadName, Lookup, Materialize, EvaluateArguments, EvalArguments,
      Call, Invoke, ApplyBinary, ApplyUnary;
    match e
    case Identifier(x) => NameAgrees(at, sc, fin, env, x, height, win, fuel);
    case FieldAccess(o, f) => NameAgrees(at, sc, fin, env, o.name + "." + f, height, win, fuel);
    case _ =>
  }

  lemma {:induction false} OperandAgrees(at: Place, sc: Scope, fin: Scope, env: Env, e: Expression, height: nat,
                                      win: seq<ConstValue>, fuel: nat, time: nat)
    requires e.UnaryExpression? || e.CastExpression?
    requires WellFormedSource(at.src) && ValueExpression(at.src, e) && Resolves(at.src, sc.slots.Keys, e)
    requires height <= at.cfg.maxStackSize && fuel <= time
    requires WindowsSurvive(at.src) && CallsReach(at.src, fin.next, e) && Within(sc, fin) && Mirrors(fin, env, win)
    ensures Agrees(fin, env, Evaluate(at, sc, e, height, win, fuel), Eval(at.src, sc.slots.Keys, env, e, time))
    decreases fuel, e, 0
  {
    hide WellFormedSource, WindowsSurvive, Mirrors, Within, ReadName, Lookup, Materialize, EvaluateArguments, EvalArguments,
      Call, Invoke, ApplyBinary, ApplyUnary;
    EvalAgrees(at, sc, fin, env, if e.UnaryExpression? then e.operand else e.castOperand, height, win, fuel, time);
  }

  lemma {:induction false} CallExpressionAgrees(at: Place, sc: Scope, fin: Scope, env: Env, e: Expression, height: nat,
                                      win: seq<ConstValue>, fuel: nat, time: nat)
    requires e.FunctionCall?
    requires WellFormedSource(at.src) && ValueExpression(at.src, e) && Resolves(at.src, sc.slots.Keys, e)
    requires height <= at.cfg.maxStackSize && fuel <= time
    requires WindowsSurvive(at.src) && CallsReach(at.src, fin.next, e) && Within(sc, fin) && Mirrors(fin, env, win)
    ensures Agrees(fin, env, Evaluate(at, sc, e, height, win, fuel), Eval(at.src, sc.slots.Keys, env, e, time))
    decreases fuel, e, 0
  {
    hide WellFormedSource, WindowsSurvive, Mirrors, Within, ReadName, Lookup, Materialize, EvaluateArguments, EvalArguments,
      Call, Invoke, ApplyBinary, ApplyUnary;
    var f, args := e.callee, e.arguments;
    if IsHint(f, args) {
      assert args.MoreArguments? && ValueArguments(at.src, args) && ArgumentCallsReach(at.src, fin.next, args);
      EvalAgrees(at, sc, fin, env, args.first, height, win, fuel, time);
    } else {
      ArgumentsEvalAgree(at, sc, fin, env, args, height, win, fuel, time);
      var operands := EvaluateArguments(at, sc, args, height, win, fuel);
      if operands.YieldsAll? && operands.fuel > 0 {
        CallAgrees(at, fin, env, f, operands.values, height, operands.window, operands.fuel - 1, time - 1);
      }
    }
  }

  lemma {:induction false} BinaryAgrees(at: Place, sc: Scope, fin: Scope, env: Env, e: Expression, height: nat,
                                        win: seq<ConstValue>, fuel: nat, time: nat)
    requires e.BinaryExpression?
    requires WellFormedSource(at.src) && ValueExpression(at.src, e) && Resolves(at.src, sc.slots.Keys, e)
    requires height <= at.cfg.maxStackSize && fuel <= time
    requires WindowsSurvive(at.src) && CallsReach(at.src, fin.next, e) && Within(sc, fin) && Mirrors(fin, env, win)
    ensures Agrees(fin, env, Evaluate(at, sc, e, height, win, fuel), Eval(at.src, sc.slots.Keys, env, e, time))
    decreases fuel, e, 0
  {
    hide WellFormedSource, WindowsSurvive, ApplyBinary, Mirrors, Call, Invoke, EvaluateArguments, EvalArguments, ReadName,
      Lookup, Materialize, Within, ApplyUnary;
    var names := sc.slots.Keys;
    ValuesDeclareNothing(at.src, e.left);
    assert names + Declares(e.left) == names;
    EvalAgrees(at, sc, fin, env, e.left, height, win, fuel, time);
    var left := Evaluate(at, sc, e.left, height, win, fuel);
    if left.Yields? { EvalAgrees(at, sc, fin, env, e.right, height + 1, left.window, left.fuel, time); }
  }

  lemma NameAgrees(at: Place, sc: Scope, fin: Scope, env: Env, x: string, height: nat, win: seq<ConstValue>, fuel: nat)
    requires ResolvesName(at.src, sc.slots.Keys, x) && Within(sc, fin) && Mirrors(fin, env, win)
    ensures Agrees(fin, env, ReadName(at, sc, height, x, win, fuel), Got(Lookup(at.src, sc.slots.Keys, env, x)))
  {
  }

  lemma {:induction false} ArgumentsEvalAgree(at: Place, sc: Scope, fin: Scope, env: Env, args: Arguments, height: nat,
                                              win: seq<ConstValue>, fuel: nat, time: nat)
    requires WellFormedSource(at.src) && ValueArguments(at.src, args) && ResolvesArguments(at.src, sc.slots.Keys, args)
    requires height <= at.cfg.maxStackSize && fuel <= time
    requires WindowsSurvive(at.src) && ArgumentCallsReach(at.src, fin.next, args)
    requires Within(sc, fin) && Mirrors(fin, env, win)
    ensures ArgumentsAgree(fin, env, EvaluateArguments(at, sc, args, height, win, fuel),
                           EvalArguments(at.src, sc.slots.Keys, env, args, time))
    decreases fuel, args, 1
  {
    hide WellFormedSource, WindowsSurvive, Mirrors, Evaluate, Eval;
    if args.MoreArguments? {
      ValuesDeclareNothing(at.src, args.first);
      assert sc.slots.Keys + Declares(args.first) == sc.slots.Keys;
      EvalAgrees(at, sc, fin, env, args.first, height, win, fuel, time);
      var first := Evaluate(at, sc, args.first, height, win, fuel);
      if first.Yields? {
        ArgumentsEvalAgree(at, sc, fin, env, args.rest, height + 1, first.window, first.fuel, time);
      }
    }
  }

  lemma CalleeIsFine(src: Source, f: string)
    requires WellFormedSource(src) && WindowsSurvive(src) && f in src.functions && Compiles(src, src.functions[f])
    ensures var fn := src.functions[f];
      Distinct(fn.paramNames) && WellFormedBlock(src, fn.body) && BlockCallsReach(src, FinalScope(fn).next, fn.body) &&
      |fn.paramNames| <= FinalScope(fn).next && FinalScope(fn).Valid()
  {
    var fn := src.functions[f];
    ScopeGrowsByBlock(ScopeOfParameters(fn.paramNames), fn.body);
  }

  lemma {:induction false} CallAgrees(at: Place, fin: Scope, env: Env, f: string, args: seq<ConstValue>, height: nat,
                                      win: seq<ConstValue>, fuel: nat, time: nat)
    requires WellFormedSource(at.src) && WindowsSurvive(at.src) && f in at.src.functions
    requires |args| == |at.src.functions[f].paramNames| && height <= at.cfg.maxStackSize && fuel <= time
    requires KeepsWindow(at.src, fin.next, at.src.functions[f]) && Mirrors(fin, env, win)
    ensures Agrees(fin, env, Call(at, f, args, height, win, fuel),
                   if Compiles(at.src, at.src.functions[f]) then Invoke(at.src, f, args, time) else Ends(Error))
    decreases fuel, at.src.functions[f], 2
  {
    hide ExecuteBody, Zeros, WindowAfterCall, ScopeOfParameters, ScopeAfterBlock;
    hide WellFormedSource, WindowsSurvive, Mirrors, ExecuteBlock, ExecBlock, Compiles, FinalScope, WellFormedBlock,
      BlockCallsReach;
    var src, fn := at.src, at.src.functions[f];
    if Compiles(src, fn) && at.depth < at.cfg.maxCallDepth {
      CalleeIsFine(src, f);
      var numLocals := FinalScope(fn).next;
      var inside := at.(base := at.base + |win|, depth := at.depth + 1);
      EntryMirrors(fn, args);
      BodyAgrees(inside, fn, Bind(fn.paramNames, args), height, args + Zeros(numLocals - |args|), fuel, time);
      var body := ExecuteBody(inside, fn, height, args + Zeros(numLocals - |args|), fuel);
      if body.Yields? { CallMirrors(fin, env, win, body.window, numLocals); }
    }
  }

  lemma {:induction false} BodyAgrees(at: Place, fn: ConstFunction, env: Env, height: nat, win: seq<ConstValue>,
                                      fuel: nat, time: nat)
    requires WellFormedSource(at.src) && WindowsSurvive(at.src) && Compiles(at.src, fn)
    requires WellFormedBlock(at.src, fn.body) && BlockCallsReach(at.src, FinalScope(fn).next, fn.body)
    requires height <= at.cfg.maxStackSize && fuel <= time && Mirrors(FinalScope(fn), env, win)
    ensures var p := ExecBlock(at.src, NameSet(fn.paramNames), env, fn.body, time);
      match ExecuteBody(at, fn, height, win, fuel)
      case Yields(v, _, _) => p == Gives(v) || (p.Goes? && v == ZERO)
      case Halts(o) => o.Value? ==> p == Stops(o.value)
    decreases fuel, fn, 1
  {
    hide WellFormedSource, WindowsSurvive, Mirrors, ExecuteBlock, ExecBlock, WellFormedBlock, BlockCallsReach, ResolvesBlock;
    var sc := ScopeOfParameters(fn.paramNames);
    ScopeIsWithin(FinalScope(fn));
    BlockAgrees(at, sc, FinalScope(fn), env, fn.body, height, win, fuel, time);
  }

  lemma ScopeIsWithin(sc: Scope)
    ensures Within(sc, sc)
  {
  }

  lemma {:induction false} StoreExecAgrees(at: Place, sc: Scope, fin: Scope, env: Env, e: Expression, height: nat,
                                           win: seq<ConstValue>, fuel: nat, time: nat)
    requires WellFormedSource(at.src) && StoreExpression(at.src, e) && Resolves(at.src, sc.slots.Keys, e)
    requires height <= at.cfg.maxStackSize && fuel <= time
    requires WindowsSurvive(at.src) && CallsReach(at.src, fin.next, e)
    requires Within(ScopeAfter(sc, e), fin) && Mirrors(fin, env, win)
    ensures StoreAgrees(fin, EvaluateStore(at, sc, e, height, win, fuel), ExecStore(at.src, sc.slots.Keys, env, e, time))
    decreases fuel, e, 1
  {
    hide WellFormedSource, WindowsSurvive, Evaluate, Eval, Mirrors, WriteSlot, StoreAgrees;
    var v := if e.VariableInit? then e.initial else e.stored;
    var x := if e.VariableInit? then e.declared else e.target;
    ScopeGrows(sc, e);
    ValuesDeclareNothing(at.src, v);
    EvalAgrees(at, sc, fin, env, v, height, win, fuel, time);
    var value := Evaluate(at, sc, v, height, win, fuel);
    if value.Yields? { WriteAgrees(at, fin, env, value.window, x, value.value, value.fuel); }
    else { HaltAgrees(fin, value.outcome, Eval(at.src, sc.slots.Keys, env, v, time)); }
  }

  lemma WriteAgrees(at: Place, fin: Scope, env: Env, win: seq<ConstValue>, x: string, v: ConstValue, fuel: nat)
    requires Mirrors(fin, env, win) && x in fin.slots
    ensures StoreAgrees(fin, WriteSlot(at, fin.slots[x], v, win, fuel), Goes(env[x := v]))
  {
    StoreMirrors(fin, env, win, x, v);
  }

  lemma HaltAgrees(fin: Scope, o: Outcome, answer: Answer)
    requires o.Value? ==> answer == Ends(o.value)
    ensures answer.Ends? ==> StoreAgrees(fin, StoreHalts(o), Stops(answer.final))
    ensures !answer.Ends? ==> !o.Value? && forall p :: StoreAgrees(fin, StoreHalts(o), p)
  {
  }

  /** The scopes along a loop lie within any scope that holds the last of them, and declare what the text declares. */
  lemma LoopScopes(sc: Scope, fin: Scope, s: Statement)
    requires s.WhileStatement? || s.ForStatement?
    requires Within(ScopeAfterLoop(sc, s), fin)
    ensures
      var inBody := ScopeAfterOptional(sc, LoopCondition(s));
      var atPostfix := ScopeAfterBlock(inBody, LoopBody(s));
      Within(sc, fin) && Within(inBody, fin) && Within(atPostfix, fin) &&
      Within(ScopeAfterOptional(atPostfix, LoopPostfix(s)), fin) &&
      inBody.slots.Keys == sc.slots.Keys + DeclaresOptional(LoopCondition(s)) &&
      atPostfix.slots.Keys == inBody.slots.Keys + DeclaresBlock(LoopBody(s))
  {
    var inBody := ScopeAfterOptional(sc, LoopCondition(s));
    ScopeGrowsByOptional(sc, LoopCondition(s));
    ScopeGrowsByBlock(inBody, LoopBody(s));
    ScopeGrowsByOptional(ScopeAfterBlock(inBody, LoopBody(s)), LoopPostfix(s));
  }

  /** A test agrees with an answer when it takes the branch the answer calls for. */
  ghost predicate TestAgrees(fin: Scope, env: Env, test: ValueResult, answer: Answer) {
    match test
    case Yields(b, win, _) => b.Bool? && answer.Got? && b.boolVal == answer.value.ToBool() && Mirrors(fin, env, win)
    case Halts(o) => o.Value? ==> answer == Ends(o.value)
  }

  lemma ConditionAgrees(fin: Scope, env: Env, v: ValueResult, answer: Answer)
    requires Agrees(fin, env, v, answer)
    ensures TestAgrees(fin, env, Test(v), answer)
  {
  }

  lemma {:induction false} LoopAgrees(at: Place, sc: Scope, fin: Scope, env: Env, s: Statement, height: nat,
                                      win: seq<ConstValue>, fuel: nat, time: nat)
    requires s.WhileStatement? || s.ForStatement?
    requires WellFormedSource(at.src) && WellFormed(at.src, s) && ResolvesLoop(at.src, sc.slots.Keys, s)
    requires height <= at.cfg.maxStackSize && fuel <= time
    requires WindowsSurvive(at.src) && StatementCallsReach(at.src, fin.next, s)
    requires Within(ScopeAfterLoop(sc, s), fin) && Mirrors(fin, env, win)
    ensures StatementAgrees(fin, ExecuteLoop(at, sc, s, height, win, fuel), ExecLoop(at.src, sc.slots.Keys, env, s, time))
    decreases fuel, s, 2
  {
    hide PushOne, DeclaresBlock, RepeatLoop, Test, Agrees, Within, ScopeAfterLoop;
    hide WellFormedSource, WindowsSurvive, Mirrors, Evaluate, Eval, ExecuteBlock, ExecBlock, EvaluateStore, ExecStore,
      ValueExpression, WellFormedBlock, ResolvesBlock, Resolves, CallsReach, BlockCallsReach, ScopeAfter, ScopeAfterBlock;
    var src, names := at.src, sc.slots.Keys;
    var c, b, p := LoopCondition(s), LoopBody(s), LoopPostfix(s);
    var inBody := ScopeAfterOptional(sc, c);
    var atPostfix := ScopeAfterBlock(inBody, b);
    LoopScopes(sc, fin, s);
    if c.Present? {
      EvalAgrees(at, sc, fin, env, c.expression, height, win, fuel, time);
      ConditionAgrees(fin, env, Evaluate(at, sc, c.expression, height, win, fuel), Eval(src, names, env, c.expression, time));
    }
    var test := if c.Absent? then Yields(Bool(true), win, fuel)
                else Test(Evaluate(at, sc, c.expression, height, win, fuel));
    assert TestAgrees(fin, env, test, if c.Absent? then Got(Bool(true)) else Eval(src, names, env, c.expression, time));
    if test.Yields? && test.value.boolVal {
      BlockAgrees(at, inBody, fin, env, b, height, test.window, test.fuel, time);
      var body := ExecuteBlock(at, inBody, b, height, test.window, test.fuel);
      if body.Falls? {
        var env' := ExecBlock(src, inBody.slots.Keys, env, b, time).env;
        if p.Present? { StoreExecAgrees(at, atPostfix, fin, env', p.expression, height, body.window, body.fuel, time); }
        var postfix := EvaluateOptionalStore(at, atPostfix, p, height, body.window, body.fuel);
        var next := if p.Absent? then Goes(env') else ExecStore(src, atPostfix.slots.Keys, env', p.expression, time);
        RepeatIs(at, sc, s, height, body.window, body.fuel);
        if postfix.Stored? && postfix.fuel > 0 {
          LoopAgrees(at, sc, fin, next.env, s, height, postfix.window, postfix.fuel - 1, time - 1);
        }
      }
    }
  }

  lemma {:induction false} IfAgrees(at: Place, sc: Scope, fin: Scope, env: Env, s: Statement, height: nat,
                                    win: seq<ConstValue>, fuel: nat, time: nat)
    requires s.IfStatement?
    requires WellFormedSource(at.src) && WellFormed(at.src, s) && ResolvesStatement(at.src, sc.slots.Keys, s)
    requires height <= at.cfg.maxStackSize && fuel <= time
    requires WindowsSurvive(at.src) && StatementCallsReach(at.src, fin.next, s)
    requires Within(ScopeAfterStatement(sc, s), fin) && Mirrors(fin, env, win)
    ensures StatementAgrees(fin, Execute(at, sc, s, height, win, fuel), Exec(at.src, sc.slots.Keys, env, s, time))
    decreases fuel, s, 2
  {
    hide WellFormedSource, WindowsSurvive, Mirrors, Evaluate, Eval, ExecuteBlock, ExecBlock, ValueExpression,
      WellFormedBlock, ResolvesBlock, Resolves, CallsReach, BlockCallsReach, ScopeAfter, ScopeAfterBlock;
    var c, t, e := s.ifCondition, s.thenBranch, s.elseBranch;
    var inThen := ScopeAfter(sc, c);
    var afterThen := ScopeAfterBlock(inThen, t);
    ScopeGrows(sc, c);
    ScopeGrowsByBlock(inThen, t);
    if e.SomeBlock? { ScopeGrowsByBlock(afterThen, e.block); }
    EvalAgrees(at, sc, fin, env, c, height, win, fuel, time);
    var test := Test(Evaluate(at, sc, c, height, win, fuel));
    if test.Yields? {
      if test.value.boolVal { BlockAgrees(at, inThen, fin, env, t, height, test.window, test.fuel, time); }
      else if e.SomeBlock? { BlockAgrees(at, afterThen, fin, env, e.block, height, test.window, test.fuel, time); }
    }
  }

  lemma {:induction false} ExecAgrees(at: Place, sc: Scope, fin: Scope, env: Env, s: Statement, height: nat,
                                      win: seq<ConstValue>, fuel: nat, time: nat)
    requires WellFormedSource(at.src) && WellFormed(at.src, s) && ResolvesStatement(at.src, sc.slots.Keys, s)
    requires height <= at.cfg.maxStackSize && fuel <= time
    requires WindowsSurvive(at.src) && StatementCallsReach(at.src, fin.next, s)
    requires Within(ScopeAfterStatement(sc, s), fin) && Mirrors(fin, env, win)
    ensures StatementAgrees(fin, Execute(at, sc, s, height, win, fuel), Exec(at.src, sc.slots.Keys, env, s, time))
    decreases fuel, s, 3
  {
    hide WellFormedSource, WindowsSurvive, Mirrors, Evaluate, Eval, ExecuteBlock, ExecBlock, EvaluateStore, ExecStore,
      ExecuteLoop, ExecLoop, WellFormedBlock, ResolvesBlock, Resolves, ResolvesLoop, CallsReach,
      BlockCallsReach, ScopeAfter, ScopeAfterBlock, ScopeAfterLoop;
    var src, names := at.src, sc.slots.Keys;
    match s
    case ReturnStatement(o) =>
      if o.Present? {
        ScopeGrows(sc, o.expression);
        EvalAgrees(at, sc, fin, env, o.expression, height, win, fuel, time);
      }
    case IfStatement(_, _, _) => IfAgrees(at, sc, fin, env, s, height, win, fuel, time);
    case WhileStatement(_, _) => LoopAgrees(at, sc, fin, env, s, height, win, fuel, time);
    case ForStatement(i, _, _, _) =>
      ScopeGrowsByOptional(sc, i);
      var inner := ScopeAfterOptional(sc, i);
      ScopeGrowsByLoop(inner, s);
      if i.Present? { StoreExecAgrees(at, sc, fin, env, i.expression, height, win, fuel, time); }
      var start := EvaluateOptionalStore(at, sc, i, height, win, fuel);
      var next := ExecOptionalStore(src, names, env, i, time);
      if start.Stored? { LoopAgrees(at, inner, fin, next.env, s, height, start.window, start.fuel, time); }
    case BlockStatement(b) => BlockAgrees(at, sc, fin, env, b, height, win, fuel, time);
    case ExpressionStatement(e) =>
      if e.IsStore() {
        StoreExecAgrees(at, sc, fin, env, e, height, win, fuel, time);
      } else {
        ScopeGrows(sc, e);
        EvalAgrees(at, sc, fin, env, e, height, win, fuel, time);
      }
    case _ =>
  }

  lemma {:induction false} BlockAgrees(at: Place, sc: Scope, fin: Scope, env: Env, b: Block, height: nat,
                                       win: seq<ConstValue>, fuel: nat, time: nat)
    requires WellFormedSource(at.src) && WellFormedBlock(at.src, b) && ResolvesBlock(at.src, sc.slots.Keys, b)
    requires height <= at.cfg.maxStackSize && fuel <= time
    requires WindowsSurvive(at.src) && BlockCallsReach(at.src, fin.next, b)
    requires Within(ScopeAfterBlock(sc, b), fin) && Mirrors(fin, env, win)
    ensures StatementAgrees(fin, ExecuteBlock(at, sc, b, height, win, fuel),
                            ExecBlock(at.src, sc.slots.Keys, env, b, time))
    decreases fuel, b, 1
  {
    hide WellFormedSource, WindowsSurvive, Mirrors, Execute, Exec, WellFormed, ResolvesStatement, StatementCallsReach,
      ScopeAfterStatement;
    if b.Statements? {
      var sc1 := ScopeAfterStatement(sc, b.head);
      ScopeGrowsByStatement(sc, b.head);
      ScopeGrowsByBlock(sc1, b.tail);
      ExecAgrees(at, sc, fin, env, b.head, height, win, fuel, time);
      var first := Execute(at, sc, b.head, height, win, fuel);
      if first.Falls? {
        var env' := Exec(at.src, sc.slots.Keys, env, b.head, time).env;
        BlockAgrees(at, sc1, fin, env', b.tail, height, first.window, first.fuel, time);
      }
    }
  }
}
