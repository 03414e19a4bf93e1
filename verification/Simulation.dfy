/** The machine running compiled code computes exactly what the frame semantics says, limits included,
    wherever the code was placed. */
module Simulation {
  import opened ConstValues
  import opened Arithmetic
  import opened Syntax
  import opened Bytecode
  import opened CodeShape
  import opened FrameSemantics

  /** The image holds the code of every function that compiles and rejects every other one.  Nothing is said
      of where the code lies, in which order, or what else the stream holds. */
  ghost predicate Linked(lk: Linkage, im: Image) {
    lk.index.Keys == lk.src.functions.Keys &&
    forall f :: f in lk.src.functions ==>
      lk.index[f] < |im.functions| && HoldsFunction(lk, im.code, lk.src.functions[f], im.functions[lk.index[f]])
  }

  ghost predicate HoldsFunction(lk: Linkage, code: Code, fn: ConstFunction, entry: CompiledFunction) {
    if Compiles(lk.src, fn) then
      entry.entry.CodeStart? && entry.numParams == |fn.paramNames| && entry.numLocals == FinalScope(fn).next &&
      CodeOfFunction(lk, code, fn, entry.entry.at)
    else entry.entry.InvalidCodeStart?
  }

  ghost predicate Sound(cfg: Config, st: State) {
    st.base <= |st.locals| && |st.stack| <= cfg.maxStackSize
  }

  function Window(st: State): seq<ConstValue>
    requires st.base <= |st.locals|
  {
    st.locals[st.base..]
  }

  /** st with another window and the given values pushed, at another instruction. */
  function Moved(st: State, ip: nat, values: seq<ConstValue>, win: seq<ConstValue>): (r: State)
    requires st.base <= |st.locals|
    ensures r.base <= |r.locals| && Window(r) == win
  {
    st.(ip := ip, stack := st.stack + values, locals := st.locals[..st.base] + win)
  }

  lemma MovedTwice(st: State, ip: nat, values: seq<ConstValue>, win: seq<ConstValue>, ip': nat,
                   values': seq<ConstValue>, win': seq<ConstValue>)
    requires st.base <= |st.locals|
    ensures Moved(Moved(st, ip, values, win), ip', values', win') == Moved(st, ip', values + values', win')
  {
    assert (st.stack + values) + values' == st.stack + (values + values');
    assert (st.locals[..st.base] + win)[..st.base] == st.locals[..st.base];
  }

  function PlaceOf(cfg: Config, src: Source, st: State): Place { Place(cfg, src, st.base, |st.frames|) }

  /** From a with f instructions left, the machine gets to b with g left. */
  ghost predicate Goes(cfg: Config, im: Image, a: State, f: nat, b: State, g: nat) {
    g <= f && Steps(cfg, im, a, f - g) == Next(b)
  }

  /** It gets to a RET with the value v and the window win on top of st, wherever that instruction lies. */
  ghost predicate GoesToReturn(cfg: Config, im: Image, a: State, f: nat, st: State, v: ConstValue, win: seq<ConstValue>,
                               g: nat)
    requires st.base <= |st.locals|
  {
    exists ip: nat :: At(im.code, ip, RET, 0) && Goes(cfg, im, a, f, Moved(st, ip, [v], win), g)
  }

  lemma GoesOn(cfg: Config, im: Image, a: State, f: nat, b: State, g: nat, c: State, h: nat)
    requires Goes(cfg, im, a, f, b, g) && Goes(cfg, im, b, g, c, h)
    ensures Goes(cfg, im, a, f, c, h)
  {
    hide Steps;
    StepsAdd(cfg, im, a, f - g, b, g - h);
  }

  lemma GoesOnToReturn(cfg: Config, im: Image, a: State, f: nat, b: State, g: nat, st: State, v: ConstValue,
                       win: seq<ConstValue>, h: nat)
    requires st.base <= |st.locals| && Goes(cfg, im, a, f, b, g) && GoesToReturn(cfg, im, b, g, st, v, win, h)
    ensures GoesToReturn(cfg, im, a, f, st, v, win, h)
  {
    hide Goes;
    var ip: nat :| At(im.code, ip, RET, 0) && Goes(cfg, im, b, g, Moved(st, ip, [v], win), h);
    GoesOn(cfg, im, a, f, b, g, Moved(st, ip, [v], win), h);
  }

  /** Where the machine goes, it goes on from there, and the run is the run from there. */
  lemma Chains(cfg: Config, im: Image)
    ensures forall a: State, f: nat, b: State, g: nat ::
      Goes(cfg, im, a, f, b, g) ==> Run(cfg, im, a, f) == Run(cfg, im, b, g)
    ensures forall a: State, f: nat, b: State, g: nat, c: State, h: nat ::
      Goes(cfg, im, a, f, b, g) && Goes(cfg, im, b, g, c, h) ==> Goes(cfg, im, a, f, c, h)
    ensures forall a: State, f: nat, b: State, g: nat, st: State, v: ConstValue, win: seq<ConstValue>, h: nat ::
      st.base <= |st.locals| && Goes(cfg, im, a, f, b, g) && GoesToReturn(cfg, im, b, g, st, v, win, h) ==>
        GoesToReturn(cfg, im, a, f, st, v, win, h)
  {
    hide Run, Steps, Goes, GoesToReturn;
    forall a: State, f: nat, b: State, g: nat | Goes(cfg, im, a, f, b, g)
      ensures Run(cfg, im, a, f) == Run(cfg, im, b, g)
    {
      GoesRuns(cfg, im, a, f, b, g);
    }
    forall a: State, f: nat, b: State, g: nat, c: State, h: nat
      | Goes(cfg, im, a, f, b, g) && Goes(cfg, im, b, g, c, h)
      ensures Goes(cfg, im, a, f, c, h)
    {
      GoesOn(cfg, im, a, f, b, g, c, h);
    }
    forall a: State, f: nat, b: State, g: nat, st: State, v: ConstValue, win: seq<ConstValue>, h: nat
      | st.base <= |st.locals| && Goes(cfg, im, a, f, b, g) && GoesToReturn(cfg, im, b, g, st, v, win, h)
      ensures GoesToReturn(cfg, im, a, f, st, v, win, h)
    {
      GoesOnToReturn(cfg, im, a, f, b, g, st, v, win, h);
    }
  }

  lemma GoesRuns(cfg: Config, im: Image, a: State, f: nat, b: State, g: nat)
    requires Goes(cfg, im, a, f, b, g)
    ensures Run(cfg, im, a, f) == Run(cfg, im, b, g)
  {
    hide Run, Steps;
    StepsRun(cfg, im, a, f - g, b, f);
  }

  lemma ValuesKeepScope(src: Source, sc: Scope, e: Expression)
    requires ValueExpression(src, e)
    ensures ScopeAfter(sc, e) == sc
    decreases e
  {
    if e.FunctionCall? { ArgumentsKeepScope(src, sc, e.arguments); }
  }

  lemma ArgumentsKeepScope(src: Source, sc: Scope, args: Arguments)
    requires ValueArguments(src, args)
    ensures ScopeAfterArguments(sc, args) == sc
    decreases args
  {
    if args.MoreArguments? {
      ValuesKeepScope(src, sc, args.first);
      ArgumentsKeepScope(src, sc, args.rest);
    }
  }

  lemma ModeSurvives(op: BinaryOp, mode: OverflowMode, l: ConstValue, r: ConstValue)
    ensures ApplyBinary(op, DecodeMode(BinaryOperand(op, mode)), l, r) == ApplyBinary(op, mode, l, r)
  {
  }

  lemma UnaryModeSurvives(op: UnaryOp, mode: OverflowMode, v: ConstValue)
    ensures ApplyUnary(op, DecodeMode(UnaryOperand(op, mode)), v) == ApplyUnary(op, mode, v)
  {
  }

  // ----- the run from `from` gets where the frame semantics gets, told relative to st -----

  ghost predicate RunsToValue(cfg: Config, im: Image, from: State, fuel: nat, st: State, end: nat, r: ValueResult)
    requires st.base <= |st.locals|
  {
    match r
    case Halts(o) => Run(cfg, im, from, fuel) == o
    case Yields(v, win, left) => Goes(cfg, im, from, fuel, Moved(st, end, [v], win), left)
  }

  ghost predicate RunsToValues(cfg: Config, im: Image, from: State, fuel: nat, st: State, end: nat, r: ArgumentsResult)
    requires st.base <= |st.locals|
  {
    match r
    case ArgumentHalts(o) => Run(cfg, im, from, fuel) == o
    case YieldsAll(vs, win, left) => Goes(cfg, im, from, fuel, Moved(st, end, vs, win), left)
  }

  ghost predicate RunsToReturn(cfg: Config, im: Image, from: State, fuel: nat, st: State, r: ValueResult)
    requires st.base <= |st.locals|
  {
    match r
    case Halts(o) => Run(cfg, im, from, fuel) == o
    case Yields(v, win, left) => GoesToReturn(cfg, im, from, fuel, st, v, win, left)
  }

  ghost predicate RunsToStore(cfg: Config, im: Image, from: State, fuel: nat, st: State, end: nat, r: StoreResult)
    requires st.base <= |st.locals|
  {
    match r
    case StoreHalts(o) => Run(cfg, im, from, fuel) == o
    case Stored(win, left) => Goes(cfg, im, from, fuel, Moved(st, end, [], win), left)
  }

  ghost predicate RunsToBranch(cfg: Config, im: Image, from: State, fuel: nat, st: State, onTrue: nat, onFalse: nat,
                               r: ValueResult)
    requires st.base <= |st.locals|
  {
    match r
    case Halts(o) => Run(cfg, im, from, fuel) == o
    case Yields(v, win, left) =>
      v.Bool? && Goes(cfg, im, from, fuel, Moved(st, if v.boolVal then onTrue else onFalse, [], win), left)
  }

  ghost predicate RunsToEnd(cfg: Config, im: Image, from: State, fuel: nat, st: State, end: nat, r: StatementResult)
    requires st.base <= |st.locals|
  {
    match r
    case StatementHalts(o) => Run(cfg, im, from, fuel) == o
    case Falls(win, left) => Goes(cfg, im, from, fuel, Moved(st, end, [], win), left)
    case Returns(v, win, left) => GoesToReturn(cfg, im, from, fuel, st, v, win, left)
  }

  // ----- single instructions -----

  lemma OneStep(cfg: Config, im: Image, st: State, fuel: nat)
    requires st.ip < |im.code.instructions|
    ensures fuel == 0 ==> Run(cfg, im, st, fuel) == Limit(Iterations)
    ensures fuel > 0 ==>
      match Step(cfg, im, st)
      case Done(o) => Run(cfg, im, st, fuel) == o
      case Next(next) => Goes(cfg, im, st, fuel, next, fuel - 1) && Run(cfg, im, st, fuel) == Run(cfg, im, next, fuel - 1)
  {
    hide Step;
    assert Steps(cfg, im, st, 0) == Next(st);
    if fuel > 0 && Step(cfg, im, st).Next? { assert Steps(cfg, im, st, fuel - (fuel - 1)) == Step(cfg, im, st); }
  }

  lemma PushRuns(cfg: Config, src: Source, im: Image, v: ConstValue, st: State, fuel: nat)
    requires Sound(cfg, st) && PushesConstant(im.code, st.ip, v)
    ensures RunsToValue(cfg, im, st, fuel, st, st.ip + 1,
                        PushOne(PlaceOf(cfg, src, st), |st.stack|, Materialize(v), Window(st), fuel))
  {
    hide Run, Goes;
    OneStep(cfg, im, st, fuel);
    assert st.locals[..st.base] + Window(st) == st.locals;
  }

  lemma NameRuns(cfg: Config, lk: Linkage, im: Image, sc: Scope, x: string, st: State, fuel: nat)
    requires Sound(cfg, st) && LoadsName(lk, im.code, sc, x, st.ip) && ResolvesName(lk.src, sc.slots.Keys, x)
    ensures RunsToValue(cfg, im, st, fuel, st, st.ip + 1,
                        ReadName(PlaceOf(cfg, lk.src, st), sc, |st.stack|, x, Window(st), fuel))
  {
    hide Run, Goes;
    assert st.locals[..st.base] + Window(st) == st.locals;
    if x in sc.slots { OneStep(cfg, im, st, fuel); } else { PushRuns(cfg, lk.src, im, lk.src.constants[x], st, fuel); }
  }

  lemma BinaryRuns(cfg: Config, im: Image, op: BinaryOp, mode: OverflowMode, st: State, l: ConstValue,
                   r: ConstValue, win: seq<ConstValue>, ip: nat, fuel: nat)
    requires Sound(cfg, st) && |st.stack| < cfg.maxStackSize
    requires At(im.code, ip, BINARY(op), BinaryOperand(op, mode))
    ensures RunsToValue(cfg, im, Moved(st, ip, [l] + [r], win), fuel, st, ip + 1, Operate(ApplyBinary(op, mode, l, r), win, fuel))
  {
    hide ApplyBinary, Run, Goes;
    var full := Moved(st, ip, [l] + [r], win);
    OneStep(cfg, im, full, fuel);
    assert Drop(full, 2).stack == st.stack;
    ModeSurvives(op, mode, l, r);
  }

  lemma UnaryRuns(cfg: Config, im: Image, op: UnaryOp, mode: OverflowMode, st: State, v: ConstValue,
                  win: seq<ConstValue>, ip: nat, fuel: nat)
    requires Sound(cfg, st) && |st.stack| < cfg.maxStackSize
    requires At(im.code, ip, UNARY(op), UnaryOperand(op, mode))
    ensures RunsToValue(cfg, im, Moved(st, ip, [v], win), fuel, st, ip + 1, Operate(ApplyUnary(op, mode, v), win, fuel))
  {
    hide ApplyUnary, Run, Goes;
    OneStep(cfg, im, Moved(st, ip, [v], win), fuel);
    assert Drop(Moved(st, ip, [v], win), 1).stack == st.stack;
    UnaryModeSurvives(op, mode, v);
  }

  lemma CastRuns(cfg: Config, im: Image, w: Width, s: bool, st: State, v: ConstValue,
                 win: seq<ConstValue>, ip: nat, fuel: nat)
    requires Sound(cfg, st) && |st.stack| < cfg.maxStackSize
    requires At(im.code, ip, CAST_INT, CastOperand(w, s))
    ensures RunsToValue(cfg, im, Moved(st, ip, [v], win), fuel, st, ip + 1, Operate(Push(Integer(v.ToInt(), w, s)), win, fuel))
  {
    hide Run, Goes;
    var full := Moved(st, ip, [v], win);
    assert Drop(full, 1).stack == st.stack;
    CastOperandReads(w, s);
    OneStep(cfg, im, full, fuel);
  }

  lemma CastOperandReads(w: Width, s: bool)
    ensures CastOperand(w, s) % 0x1_0000 == w && ((CastOperand(w, s) / 0x1_0000) % 2 == 1 <==> s)
  {
  }

  lemma StoreRuns(cfg: Config, src: Source, im: Image, slot: nat, st: State, v: ConstValue, win: seq<ConstValue>,
                  ip: nat, fuel: nat)
    requires Sound(cfg, st) && At(im.code, ip, STORE_LOCAL, slot)
    ensures RunsToStore(cfg, im, Moved(st, ip, [v], win), fuel, st, ip + 1,
                        WriteSlot(PlaceOf(cfg, src, st), slot, v, win, fuel))
  {
    hide Zeros, Run, Goes;
    var full := Moved(st, ip, [v], win);
    OneStep(cfg, im, full, fuel);
    assert Drop(full, 1).stack == st.stack + [];
    var below := st.locals[..st.base];
    assert full.locals == below + win;
    StoredBelow(below, win, slot, v);
  }

  /** Storing above the base is storing in the window, which grows where the locals do. */
  lemma StoredBelow(below: seq<ConstValue>, win: seq<ConstValue>, slot: nat, v: ConstValue)
    ensures slot < |win| ==> (below + win)[|below| + slot := v] == below + win[slot := v]
    ensures slot >= |win| ==>
      var room := win + Zeros(slot + 64 - |win|);
      |room| == slot + 64 && (below + win) + Zeros(|below| + slot + 64 - |below + win|) == below + room &&
      (below + room)[|below| + slot := v] == below + room[slot := v]
  {
    if slot >= |win| { assert |below| + slot + 64 - |below + win| == slot + 64 - |win|; }
  }

  lemma TestRuns(cfg: Config, im: Image, st: State, target: nat, v: ConstValue, win: seq<ConstValue>, ip: nat, fuel: nat)
    requires Sound(cfg, st) && At(im.code, ip, JMP_IF_FALSE, target)
    ensures RunsToBranch(cfg, im, Moved(st, ip, [v], win), fuel, st, ip + 1, target, Test(Yields(v, win, fuel)))
  {
    hide Run, Goes;
    OneStep(cfg, im, Moved(st, ip, [v], win), fuel);
    assert Drop(Moved(st, ip, [v], win), 1).stack == st.stack + [];
  }

  lemma JumpRuns(cfg: Config, im: Image, st: State, target: nat, win: seq<ConstValue>, ip: nat, fuel: nat)
    requires Sound(cfg, st) && At(im.code, ip, JMP, target)
    ensures RunsToStore(cfg, im, Moved(st, ip, [], win), fuel, st, target, Jump(win, fuel))
  {
    hide Run, Goes;
    OneStep(cfg, im, Moved(st, ip, [], win), fuel);
  }

  lemma ThrowRuns(cfg: Config, im: Image, name: string, st: State, fuel: nat)
    requires st.ip < |im.code.instructions| && im.code.instructions[st.ip].op == THROW
    requires im.code.instructions[st.ip].operand < |im.code.stringPool|
    requires im.code.stringPool[im.code.instructions[st.ip].operand] == name
    ensures Run(cfg, im, st, fuel) == if fuel == 0 then Limit(Iterations) else Value(Thrown(name))
  {
  }

  lemma ReturnReached(cfg: Config, im: Image, a: State, f: nat, st: State, ip: nat, v: ConstValue, win: seq<ConstValue>,
                      g: nat)
    requires st.base <= |st.locals| && At(im.code, ip, RET, 0) && Goes(cfg, im, a, f, Moved(st, ip, [v], win), g)
    ensures GoesToReturn(cfg, im, a, f, st, v, win, g)
  {
    hide Goes;
  }

  lemma GoesNowhere(cfg: Config, im: Image, st: State, fuel: nat)
    requires st.base <= |st.locals|
    ensures Goes(cfg, im, st, fuel, Moved(st, st.ip, [], Window(st)), fuel)
  {
    assert Moved(st, st.ip, [], Window(st)) == st;
  }

  /** The state a CALL enters. */
  function Entered(st: State, entry: CompiledFunction, args: seq<ConstValue>, win: seq<ConstValue>, ip: nat): (r: State)
    requires st.base <= |st.locals| && entry.entry.CodeStart? && |args| <= entry.numLocals
    ensures r.base <= |r.locals| && Window(r) == args + Zeros(entry.numLocals - |args|)
  {
    var below := st.locals[..st.base] + win;
    State(entry.entry.at, st.stack, below + (args + Zeros(entry.numLocals - |args|)), st.base + |win|,
          st.frames + [CallFrame(ip + 1, st.base, entry.numLocals)])
  }

  lemma EntryRuns(cfg: Config, im: Image, index: nat, st: State, args: seq<ConstValue>, win: seq<ConstValue>, ip: nat,
                  fuel: nat)
    requires Sound(cfg, st) && At(im.code, ip, CALL, index) && index < |im.functions|
    requires im.functions[index].entry.CodeStart? ==>
      |args| == im.functions[index].numParams <= im.functions[index].numLocals
    ensures var (before, entry) := (Moved(st, ip, args, win), im.functions[index]);
      if fuel == 0 then Run(cfg, im, before, fuel) == Limit(Iterations)
      else if entry.entry.InvalidCodeStart? then Run(cfg, im, before, fuel) == Value(Error)
      else if |st.frames| >= cfg.maxCallDepth then Run(cfg, im, before, fuel) == Limit(CallDepth)
      else Goes(cfg, im, before, fuel, Entered(st, entry, args, win, ip), fuel - 1)
  {
    hide Run, Goes;
    var before := Moved(st, ip, args, win);
    OneStep(cfg, im, before, fuel);
    if im.functions[index].entry.CodeStart? {
      hide Zeros;
      var room := im.functions[index].numLocals - |args|;
      assert before.stack[|before.stack| - |args|..] == args;
      assert Drop(before, |args|).stack == st.stack;
      assert before.locals + args + Zeros(room) == st.locals[..st.base] + win + (args + Zeros(room));
    }
  }

  lemma PopRuns(cfg: Config, im: Image, st: State, v: ConstValue, win: seq<ConstValue>, ip: nat, fuel: nat)
    requires Sound(cfg, st) && At(im.code, ip, POP, 0)
    ensures RunsToStore(cfg, im, Moved(st, ip, [v], win), fuel, st, ip + 1, Jump(win, fuel))
  {
    hide Run, Goes;
    OneStep(cfg, im, Moved(st, ip, [v], win), fuel);
    assert Drop(Moved(st, ip, [v], win), 1).stack == st.stack + [];
  }

  // ----- expressions -----

  lemma {:induction false} ExpressionRuns(cfg: Config, lk: Linkage, im: Image, sc: Scope, e: Expression,
                                          st: State, fuel: nat)
    requires WellFormedSource(lk.src) && Linked(lk, im) && Sound(cfg, st) && CodeOf(lk, im.code, sc, e, st.ip)
    requires ValueExpression(lk.src, e) && Resolves(lk.src, sc.slots.Keys, e)
    ensures RunsToValue(cfg, im, st, fuel, st, st.ip + Size(e),
                        Evaluate(PlaceOf(cfg, lk.src, st), sc, e, |st.stack|, Window(st), fuel))
    decreases fuel, e, 1
  {
    hide ApplyBinary, ApplyUnary, PushOne, ReadName, Call, CodeOfArguments, ResolvesArguments, EvaluateArguments;
    hide Run, Step, Goes, GoesToReturn, Linked, WellFormedSource;
    Chains(cfg, im);
    var at := PlaceOf(cfg, lk.src, st);
    match e
    case IntegerLiteral(lit) => PushRuns(cfg, lk.src, im, LiteralConstant(lit), st, fuel);
    case BooleanLiteral(b) => PushRuns(cfg, lk.src, im, Bool(b), st, fuel);
    case Identifier(x) => NameRuns(cfg, lk, im, sc, x, st, fuel);
    case FieldAccess(o, f) => NameRuns(cfg, lk, im, sc, o.name + "." + f, st, fuel);
    case BinaryExpression(_, _, _, _) => BinaryExpressionRuns(cfg, lk, im, sc, e, st, fuel);
    case UnaryExpression(_, _, _) => OperandRuns(cfg, lk, im, sc, e, st, fuel);
    case CastExpression(_, _, _) => OperandRuns(cfg, lk, im, sc, e, st, fuel);
    case FunctionCall(f, args) =>
      if IsHint(f, args) {
        assert args.MoreArguments? && ValueArguments(lk.src, args);
        ExpressionRuns(cfg, lk, im, sc, args.first, st, fuel);
      } else {
        CallExpressionRuns(cfg, lk, im, sc, e, st, fuel);
      }
  }

  lemma {:induction false} OperandRuns(cfg: Config, lk: Linkage, im: Image, sc: Scope, e: Expression,
                                       st: State, fuel: nat)
    requires WellFormedSource(lk.src) && Linked(lk, im) && Sound(cfg, st) && CodeOf(lk, im.code, sc, e, st.ip)
    requires e.UnaryExpression? || e.CastExpression?
    requires ValueExpression(lk.src, e) && Resolves(lk.src, sc.slots.Keys, e)
    ensures RunsToValue(cfg, im, st, fuel, st, st.ip + Size(e),
                        Evaluate(PlaceOf(cfg, lk.src, st), sc, e, |st.stack|, Window(st), fuel))
    decreases fuel, e, 0
  {
    hide ApplyBinary, ApplyUnary, Call, CodeOfArguments, ResolvesArguments, EvaluateArguments;
    hide Run, Step, Goes, GoesToReturn, Linked, WellFormedSource, PushesConstant, LoadsName;
    Chains(cfg, im);
    var a := if e.UnaryExpression? then e.operand else e.castOperand;
    ExpressionRuns(cfg, lk, im, sc, a, st, fuel);
    var r := Evaluate(PlaceOf(cfg, lk.src, st), sc, a, |st.stack|, Window(st), fuel);
    if r.Yields? {
      var ip := st.ip + Size(a);
      if e.UnaryExpression? { UnaryRuns(cfg, im, e.unaryOp, e.unaryMode, st, r.value, r.window, ip, r.fuel); }
      else { CastRuns(cfg, im, e.targetWidth, e.targetSigned, st, r.value, r.window, ip, r.fuel); }
    }
  }

  lemma {:induction false} BinaryExpressionRuns(cfg: Config, lk: Linkage, im: Image, sc: Scope, e: Expression,
                                                st: State, fuel: nat)
    requires WellFormedSource(lk.src) && Linked(lk, im) && Sound(cfg, st) && CodeOf(lk, im.code, sc, e, st.ip)
    requires e.BinaryExpression? && ValueExpression(lk.src, e) && Resolves(lk.src, sc.slots.Keys, e)
    ensures RunsToValue(cfg, im, st, fuel, st, st.ip + Size(e),
                        Evaluate(PlaceOf(cfg, lk.src, st), sc, e, |st.stack|, Window(st), fuel))
    decreases fuel, e, 0
  {
    hide Run, Step, Goes, GoesToReturn, Linked, WellFormedSource, ApplyBinary, ApplyUnary, Call, CodeOfArguments,
      ResolvesArguments,
      EvaluateArguments, PushesConstant, LoadsName, PushOne, ReadName;
    Chains(cfg, im);
    var at, l, r := PlaceOf(cfg, lk.src, st), e.left, e.right;
    ExpressionRuns(cfg, lk, im, sc, l, st, fuel);
    ValuesDeclareNothing(lk.src, l);
    assert sc.slots.Keys + Declares(l) == sc.slots.Keys;
    ValuesKeepScope(lk.src, sc, l);
    var left := Evaluate(at, sc, l, |st.stack|, Window(st), fuel);
    if left.Yields? {
      var st1 := Moved(st, st.ip + Size(l), [left.value], left.window);
      ExpressionRuns(cfg, lk, im, sc, r, st1, left.fuel);
      var right := Evaluate(at, sc, r, |st.stack| + 1, left.window, left.fuel);
      if right.Yields? {
        var ip := st.ip + Size(l) + Size(r);
        MovedTwice(st, st1.ip, [left.value], left.window, ip, [right.value], right.window);
        BinaryRuns(cfg, im, e.binaryOp, e.binaryMode, st, left.value, right.value, right.window, ip, right.fuel);
      }
    }
  }

  lemma {:induction false} CallExpressionRuns(cfg: Config, lk: Linkage, im: Image, sc: Scope, e: Expression,
                                              st: State, fuel: nat)
    requires WellFormedSource(lk.src) && Linked(lk, im) && Sound(cfg, st) && CodeOf(lk, im.code, sc, e, st.ip)
    requires e.FunctionCall? && !IsHint(e.callee, e.arguments)
    requires ValueExpression(lk.src, e) && Resolves(lk.src, sc.slots.Keys, e)
    ensures RunsToValue(cfg, im, st, fuel, st, st.ip + Size(e),
                        Evaluate(PlaceOf(cfg, lk.src, st), sc, e, |st.stack|, Window(st), fuel))
    decreases fuel, e, 0
  {
    hide Run, Step, Goes, GoesToReturn, Linked, WellFormedSource, ApplyBinary, ApplyUnary, Call, EvaluateArguments,
      CodeOfArguments;
    Chains(cfg, im);
    var f, args := e.callee, e.arguments;
    ArgumentsRun(cfg, lk, im, sc, args, st, fuel);
    var operands := EvaluateArguments(PlaceOf(cfg, lk.src, st), sc, args, |st.stack|, Window(st), fuel);
    if operands.YieldsAll? {
      var ip := st.ip + SizeOfArguments(args);
      if operands.fuel > 0 {
        CallRuns(cfg, lk, im, f, st, operands.values, operands.window, ip, operands.fuel - 1);
      } else {
        NoFuel(cfg, im, Moved(st, ip, operands.values, operands.window));
      }
    }
  }

  lemma NoFuel(cfg: Config, im: Image, st: State)
    requires st.ip < |im.code.instructions|
    ensures Run(cfg, im, st, 0) == Limit(Iterations)
  {
  }

  lemma {:induction false} ArgumentsRun(cfg: Config, lk: Linkage, im: Image, sc: Scope, args: Arguments,
                                        st: State, fuel: nat)
    requires WellFormedSource(lk.src) && Linked(lk, im) && Sound(cfg, st) && CodeOfArguments(lk, im.code, sc, args, st.ip)
    requires ValueArguments(lk.src, args) && ResolvesArguments(lk.src, sc.slots.Keys, args)
    ensures RunsToValues(cfg, im, st, fuel, st, st.ip + SizeOfArguments(args),
                         EvaluateArguments(PlaceOf(cfg, lk.src, st), sc, args, |st.stack|, Window(st), fuel))
    decreases fuel, args, 1
  {
    hide Evaluate, CodeOf, Resolves, Size, PushOne;
    hide Run, Step, Goes, GoesToReturn, Linked, WellFormedSource;
    Chains(cfg, im);
    var at := PlaceOf(cfg, lk.src, st);
    match args
    case NoArguments => GoesNowhere(cfg, im, st, fuel);
    case MoreArguments(a, rest) =>
      ExpressionRuns(cfg, lk, im, sc, a, st, fuel);
      ValuesDeclareNothing(lk.src, a);
      assert sc.slots.Keys + Declares(a) == sc.slots.Keys;
      ValuesKeepScope(lk.src, sc, a);
      var first := Evaluate(at, sc, a, |st.stack|, Window(st), fuel);
      if first.Yields? {
        var st1 := Moved(st, st.ip + Size(a), [first.value], first.window);
        ArgumentsRun(cfg, lk, im, sc, rest, st1, first.fuel);
        var others := EvaluateArguments(at, sc, rest, |st.stack| + 1, first.window, first.fuel);
        if others.YieldsAll? {
          MovedTwice(st, st1.ip, [first.value], first.window, st.ip + SizeOfArguments(args), others.values, others.window);
        }
      }
  }

  lemma CalleeFits(src: Source, f: string)
    requires WellFormedSource(src) && f in src.functions && Compiles(src, src.functions[f])
    ensures var fn := src.functions[f]; |fn.paramNames| <= FinalScope(fn).next && WellFormedBlock(src, fn.body)
  {
    var fn := src.functions[f];
    ScopeGrowsByBlock(ScopeOfParameters(fn.paramNames), fn.body);
  }

  lemma EntryHolds(lk: Linkage, im: Image, f: string)
    requires Linked(lk, im) && f in lk.src.functions
    ensures f in lk.index && lk.index[f] < |im.functions|
    ensures HoldsFunction(lk, im.code, lk.src.functions[f], im.functions[lk.index[f]])
  {
  }

  /** CALL with its operands on the stack, through the body, to the instruction after CALL. */
  lemma {:induction false} CallRuns(cfg: Config, lk: Linkage, im: Image, f: string, st: State, args: seq<ConstValue>,
                                    win: seq<ConstValue>, ip: nat, fuel: nat)
    requires WellFormedSource(lk.src) && Linked(lk, im) && Sound(cfg, st) && f in lk.src.functions
    requires |args| == |lk.src.functions[f].paramNames| && At(im.code, ip, CALL, lk.index[f])
    ensures RunsToValue(cfg, im, Moved(st, ip, args, win), fuel + 1, st, ip + 1,
                        Call(PlaceOf(cfg, lk.src, st), f, args, |st.stack|, win, fuel))
    decreases fuel, lk.src.functions[f], 1
  {
    hide Run, Step, Goes, GoesToReturn, Linked, WellFormedSource, Compiles, FinalScope, WellFormedBlock, CodeOfFunction,
      ExecuteBody, Call, RunsToValue, RunsToReturn;
    Chains(cfg, im);
    EntryHolds(lk, im, f);
    var fn, entry := lk.src.functions[f], im.functions[lk.index[f]];
    if Compiles(lk.src, fn) {
      CalleeFits(lk.src, f);
      var inside := Entered(st, entry, args, win, ip);
      EntryRuns(cfg, im, lk.index[f], st, args, win, ip, fuel + 1);
      if |st.frames| < cfg.maxCallDepth {
        BodyRuns(cfg, lk, im, fn, inside, fuel);
      }
      CallEnds(cfg, lk.src, im, f, st, args, win, ip, fuel, inside);
    } else {
      EntryRuns(cfg, im, lk.index[f], st, args, win, ip, fuel + 1);
      CallRejected(cfg, lk.src, im, f, st, args, win, ip, fuel);
    }
  }

  lemma CallRejected(cfg: Config, src: Source, im: Image, f: string, st: State, args: seq<ConstValue>, win: seq<ConstValue>,
                     ip: nat, fuel: nat)
    requires WellFormedSource(src) && Sound(cfg, st) && f in src.functions && !Compiles(src, src.functions[f])
    requires |args| == |src.functions[f].paramNames|
    requires Run(cfg, im, Moved(st, ip, args, win), fuel + 1) == Value(Error)
    ensures RunsToValue(cfg, im, Moved(st, ip, args, win), fuel + 1, st, ip + 1,
                        Call(PlaceOf(cfg, src, st), f, args, |st.stack|, win, fuel))
  {
    hide Run, Step, WellFormedSource, Compiles;
  }

  /** From the end of the callee's body back to the caller. */
  lemma CallEnds(cfg: Config, src: Source, im: Image, f: string, st: State, args: seq<ConstValue>, win: seq<ConstValue>,
                 ip: nat, fuel: nat, inside: State)
    requires WellFormedSource(src) && Sound(cfg, st) && f in src.functions && Compiles(src, src.functions[f])
    requires var fn := src.functions[f];
      |args| == |fn.paramNames| <= FinalScope(fn).next && WellFormedBlock(src, fn.body) &&
      inside.stack == st.stack && inside.base == st.base + |win| && inside.base <= |inside.locals| &&
      inside.locals[..inside.base] == st.locals[..st.base] + win &&
      Window(inside) == args + Zeros(FinalScope(fn).next - |args|) &&
      inside.frames == st.frames + [CallFrame(ip + 1, st.base, FinalScope(fn).next)] &&
      (|st.frames| < cfg.maxCallDepth ==>
        RunsToReturn(cfg, im, inside, fuel, inside,
                     ExecuteBody(PlaceOf(cfg, src, inside), fn, |inside.stack|, Window(inside), fuel)))
    requires var before := Moved(st, ip, args, win);
      if |st.frames| >= cfg.maxCallDepth then Run(cfg, im, before, fuel + 1) == Limit(CallDepth)
      else Goes(cfg, im, before, fuel + 1, inside, fuel)
    ensures RunsToValue(cfg, im, Moved(st, ip, args, win), fuel + 1, st, ip + 1,
                        Call(PlaceOf(cfg, src, st), f, args, |st.stack|, win, fuel))
  {
    hide Run, Step, Goes, GoesToReturn, WellFormedSource, Compiles, FinalScope, WellFormedBlock, ExecuteBody, Zeros;
    Chains(cfg, im);
    if |st.frames| < cfg.maxCallDepth {
      var at, fn := PlaceOf(cfg, src, st), src.functions[f];
      assert PlaceOf(cfg, src, inside) == at.(base := at.base + |win|, depth := at.depth + 1);
      var body := ExecuteBody(PlaceOf(cfg, src, inside), fn, |st.stack|, Window(inside), fuel);
      if body.Yields? {
        ReturnRuns(cfg, im, Moved(st, ip, args, win), fuel + 1, st, win, inside,
                   CallFrame(ip + 1, st.base, FinalScope(fn).next), body.value, body.window, body.fuel);
      }
    }
  }

  lemma ReturnRuns(cfg: Config, im: Image, a: State, f: nat, st: State, win: seq<ConstValue>, inside: State,
                   frame: CallFrame, v: ConstValue, calleeWin: seq<ConstValue>, fuel: nat)
    requires Sound(cfg, st) && |st.stack| < cfg.maxStackSize && frame.localsBase == st.base
    requires inside.stack == st.stack && inside.frames == st.frames + [frame]
    requires inside.base <= |inside.locals| && inside.locals[..inside.base] == st.locals[..st.base] + win
    requires GoesToReturn(cfg, im, a, f, inside, v, calleeWin, fuel)
    ensures if fuel == 0 then Run(cfg, im, a, f) == Limit(Iterations)
            else Goes(cfg, im, a, f, Moved(st, frame.returnIP, [v], WindowAfterCall(win, calleeWin, frame.numLocals)),
                      fuel - 1)
  {
    hide Run, Step, Goes, WindowAfterCall;
    Chains(cfg, im);
    var ip: nat :| At(im.code, ip, RET, 0) && Goes(cfg, im, a, f, Moved(inside, ip, [v], calleeWin), fuel);
    OneStep(cfg, im, Moved(inside, ip, [v], calleeWin), fuel);
    ReturnSteps(cfg, im, st, win, inside, frame, v, calleeWin, ip);
  }

  /** The RET at ip, one instruction. */
  lemma ReturnSteps(cfg: Config, im: Image, st: State, win: seq<ConstValue>, inside: State, frame: CallFrame,
                    v: ConstValue, calleeWin: seq<ConstValue>, ip: nat)
    requires Sound(cfg, st) && |st.stack| < cfg.maxStackSize && frame.localsBase == st.base && At(im.code, ip, RET, 0)
    requires inside.stack == st.stack && inside.frames == st.frames + [frame]
    requires inside.base <= |inside.locals| && inside.locals[..inside.base] == st.locals[..st.base] + win
    ensures Step(cfg, im, Moved(inside, ip, [v], calleeWin)) ==
      Next(Moved(st, frame.returnIP, [v], WindowAfterCall(win, calleeWin, frame.numLocals)))
  {
    hide Resize;
    var full, below := Moved(inside, ip, [v], calleeWin), st.locals[..st.base];
    assert full.locals == below + (win + calleeWin);
    assert Drop(full, 1).stack == st.stack;
    assert full.frames[..|full.frames| - 1] == st.frames;
    ResizeAbove(below, win + calleeWin, frame.numLocals);
  }

  lemma ResizeAbove(below: seq<ConstValue>, above: seq<ConstValue>, n: nat)
    ensures Resize(below + above, |below| + n) == below + Resize(above, n)
  {
  }

  lemma {:induction false} BodyRuns(cfg: Config, lk: Linkage, im: Image, fn: ConstFunction, st: State, fuel: nat)
    requires WellFormedSource(lk.src) && Linked(lk, im) && Sound(cfg, st) && CodeOfFunction(lk, im.code, fn, st.ip)
    requires Compiles(lk.src, fn) && WellFormedBlock(lk.src, fn.body)
    ensures RunsToReturn(cfg, im, st, fuel, st, ExecuteBody(PlaceOf(cfg, lk.src, st), fn, |st.stack|, Window(st), fuel))
    decreases fuel, fn, 0
  {
    hide ExecuteBlock, ResolvesBlock, CodeOfBlock, SizeOfBlock, WellFormedBlock, ScopeOfParameters, Zeros;
    hide Run, Step, Goes, GoesToReturn, Linked, WellFormedSource;
    Chains(cfg, im);
    var at := PlaceOf(cfg, lk.src, st);
    var sc := ScopeOfParameters(fn.paramNames);
    BlockRuns(cfg, lk, im, sc, fn.body, st, fuel);
    var r := ExecuteBlock(at, sc, fn.body, |st.stack|, Window(st), fuel);
    if r.Falls? {
      var end := st.ip + SizeOfBlock(fn.body);
      var st1 := Moved(st, end, [], r.window);
      assert st1.stack == st.stack;
      PushRuns(cfg, lk.src, im, ZERO, st1, r.fuel);
      MovedTwice(st, end, [], r.window, end + 1, [ZERO], r.window);
      assert [] + [ZERO] == [ZERO];
      var zero := PushOne(at, |st.stack|, ZERO, r.window, r.fuel);
      if zero.Yields? { ReturnReached(cfg, im, st, fuel, st, end + 1, ZERO, r.window, zero.fuel); }
    }
  }

  // ----- statements -----

  lemma {:induction false} StoreExpressionRuns(cfg: Config, lk: Linkage, im: Image, sc: Scope, e: Expression,
                                               st: State, fuel: nat)
    requires WellFormedSource(lk.src) && Linked(lk, im) && Sound(cfg, st) && CodeOf(lk, im.code, sc, e, st.ip)
    requires StoreExpression(lk.src, e) && Resolves(lk.src, sc.slots.Keys, e)
    ensures RunsToStore(cfg, im, st, fuel, st, st.ip + Size(e),
                        EvaluateStore(PlaceOf(cfg, lk.src, st), sc, e, |st.stack|, Window(st), fuel))
    decreases fuel, e, 1
  {
    hide Evaluate, WriteSlot;
    hide Run, Step, Goes, GoesToReturn, Linked, WellFormedSource;
    Chains(cfg, im);
    var v := if e.VariableInit? then e.initial else e.stored;
    var x := if e.VariableInit? then e.declared else e.target;
    ExpressionRuns(cfg, lk, im, sc, v, st, fuel);
    ValuesDeclareNothing(lk.src, v);
    ScopeGrows(sc, e);
    var value := Evaluate(PlaceOf(cfg, lk.src, st), sc, v, |st.stack|, Window(st), fuel);
    if value.Yields? {
      StoreRuns(cfg, lk.src, im, ScopeAfter(sc, e).slots[x], st, value.value, value.window, st.ip + Size(v), value.fuel);
    }
  }

  lemma {:induction false} OptionalStoreRuns(cfg: Config, lk: Linkage, im: Image, sc: Scope, o: OptionalExpression,
                                             st: State, fuel: nat)
    requires WellFormedSource(lk.src) && Linked(lk, im) && Sound(cfg, st) && CodeOfOptional(lk, im.code, sc, o, st.ip)
    requires (o.Present? ==> StoreExpression(lk.src, o.expression)) && ResolvesOptional(lk.src, sc.slots.Keys, o)
    ensures RunsToStore(cfg, im, st, fuel, st, st.ip + SizeOfOptional(o),
                        EvaluateOptionalStore(PlaceOf(cfg, lk.src, st), sc, o, |st.stack|, Window(st), fuel))
    decreases fuel, o, 1
  {
    hide Run, Step, Goes, GoesToReturn, Linked, WellFormedSource;
    Chains(cfg, im);
    if o.Present? {
      StoreExpressionRuns(cfg, lk, im, sc, o.expression, st, fuel);
    } else {
      GoesNowhere(cfg, im, st, fuel);
    }
  }

  lemma {:induction false} LoopRuns(cfg: Config, lk: Linkage, im: Image, sc: Scope, s: Statement, st: State, fuel: nat)
    requires s.WhileStatement? || s.ForStatement?
    requires WellFormedSource(lk.src) && Linked(lk, im) && Sound(cfg, st) && CodeOfLoop(lk, im.code, sc, s, st.ip)
    requires WellFormed(lk.src, s) && ResolvesLoop(lk.src, sc.slots.Keys, s)
    ensures RunsToEnd(cfg, im, st, fuel, st, st.ip + LoopSize(s),
                      ExecuteLoop(PlaceOf(cfg, lk.src, st), sc, s, |st.stack|, Window(st), fuel))
    decreases fuel, s, 2
  {
    hide ExecuteTurn, Jump, Test, ScopeAfterBlock, ScopeAfterOptional, CodeOfBlock, WellFormedBlock, ResolvesBlock,
      SizeOfBlock;
    hide Evaluate, CodeOf, Resolves, ValueExpression, Size;
    hide Run, Step, Goes, GoesToReturn, Linked, WellFormedSource;
    Chains(cfg, im);
    var at, c, end := PlaceOf(cfg, lk.src, st), LoopCondition(s), st.ip + LoopSize(s);
    var test := if c.Absent? then Yields(Bool(true), Window(st), fuel)
                else Test(Evaluate(at, sc, c.expression, |st.stack|, Window(st), fuel));
    if c.Present? { ExpressionRuns(cfg, lk, im, sc, c.expression, st, fuel); }
    ConditionRuns(cfg, lk.src, im, sc, c, end, st, fuel);
    if test.Yields? && test.value.boolVal { TurnRuns(cfg, lk, im, sc, s, st, test.window, test.fuel); }
  }

  /** Where the body of the loop at pc starts. */
  function BodyAt(s: Statement, pc: nat): nat
    requires s.WhileStatement? || s.ForStatement?
  {
    pc + SizeOfOptional(LoopCondition(s)) + (if LoopCondition(s).Present? then 1 else 0)
  }

  /** The body of the loop at st, and what follows. */
  lemma {:induction false} TurnRuns(cfg: Config, lk: Linkage, im: Image, sc: Scope, s: Statement, st: State,
                                    win: seq<ConstValue>, fuel: nat)
    requires s.WhileStatement? || s.ForStatement?
    requires WellFormedSource(lk.src) && Linked(lk, im) && Sound(cfg, st) && CodeOfLoop(lk, im.code, sc, s, st.ip)
    requires WellFormed(lk.src, s) && ResolvesLoop(lk.src, sc.slots.Keys, s)
    ensures RunsToEnd(cfg, im, Moved(st, BodyAt(s, st.ip), [], win), fuel, st, st.ip + LoopSize(s),
                      ExecuteTurn(PlaceOf(cfg, lk.src, st), sc, s, |st.stack|, win, fuel))
    decreases fuel, s, 1
  {
    hide RepeatLoop, ExecuteBlock, ScopeAfterBlock, ScopeAfterOptional, DeclaresOptional, CodeOfBlock, WellFormedBlock,
      ResolvesBlock, SizeOfBlock;
    hide CodeOf, Resolves, ValueExpression, StoreExpression, Size;
    hide Run, Step, Goes, GoesToReturn, Linked, WellFormedSource;
    Chains(cfg, im);
    var at, b, bodyIp := PlaceOf(cfg, lk.src, st), LoopBody(s), BodyAt(s, st.ip);
    var inBody := ScopeAfterOptional(sc, LoopCondition(s));
    var st1 := Moved(st, bodyIp, [], win);
    assert st1.stack == st.stack;
    LoopKeys(sc, s);
    BlockRuns(cfg, lk, im, inBody, b, st1, fuel);
    var body := ExecuteBlock(at, inBody, b, |st.stack|, win, fuel);
    RunsOn(cfg, im, st, win, bodyIp, bodyIp + SizeOfBlock(b), fuel, body);
    if body.Falls? { RepeatRuns(cfg, lk, im, sc, s, st, body.window, body.fuel); }
  }

  /** From behind the body of the loop at st: postfix, jump back, and the loop again. */
  lemma {:induction false} RepeatRuns(cfg: Config, lk: Linkage, im: Image, sc: Scope, s: Statement, st: State,
                                      win: seq<ConstValue>, fuel: nat)
    requires s.WhileStatement? || s.ForStatement?
    requires WellFormedSource(lk.src) && Linked(lk, im) && Sound(cfg, st) && CodeOfLoop(lk, im.code, sc, s, st.ip)
    requires WellFormed(lk.src, s) && ResolvesLoop(lk.src, sc.slots.Keys, s)
    ensures RunsToEnd(cfg, im, Moved(st, BodyAt(s, st.ip) + SizeOfBlock(LoopBody(s)), [], win), fuel, st,
                      st.ip + LoopSize(s), RepeatLoop(PlaceOf(cfg, lk.src, st), sc, s, |st.stack|, win, fuel))
    decreases fuel, s, 0
  {
    hide ExecuteLoop, EvaluateStore, Jump, ScopeAfterBlock, ScopeAfterOptional, DeclaresOptional, DeclaresBlock,
      CodeOfBlock,
      WellFormedBlock, ResolvesBlock, SizeOfBlock;
    hide CodeOf, Resolves, ValueExpression, StoreExpression, Size;
    hide Run, Step, Goes, GoesToReturn, Linked, WellFormedSource;
    Chains(cfg, im);
    var at, p, end := PlaceOf(cfg, lk.src, st), LoopPostfix(s), st.ip + LoopSize(s);
    var atPostfix := ScopeAfterBlock(ScopeAfterOptional(sc, LoopCondition(s)), LoopBody(s));
    var ip := BodyAt(s, st.ip) + SizeOfBlock(LoopBody(s));
    var st1 := Moved(st, ip, [], win);
    assert st1.stack == st.stack;
    LoopKeys(sc, s);
    if p.Present? { StoreExpressionRuns(cfg, lk, im, atPostfix, p.expression, st1, fuel); }
    else { GoesNowhere(cfg, im, st1, fuel); }
    var postfix := EvaluateOptionalStore(at, atPostfix, p, |st.stack|, win, fuel);
    if postfix.Stored? {
      StoredOn(cfg, im, st, win, ip, end - 1, fuel, postfix);
      JumpRuns(cfg, im, st, st.ip, postfix.window, end - 1, postfix.fuel);
      var back := Jump(postfix.window, postfix.fuel);
      if back.Stored? {
        var st2 := Moved(st, st.ip, [], back.window);
        assert st2.stack == st.stack;
        LoopRuns(cfg, lk, im, sc, s, st2, back.fuel);
        RunsOn(cfg, im, st, back.window, st.ip, end, back.fuel,
               ExecuteLoop(at, sc, s, |st.stack|, back.window, back.fuel));
      }
    }
  }

  lemma StoredOn(cfg: Config, im: Image, st: State, win: seq<ConstValue>, ip: nat, end: nat, fuel: nat, r: StoreResult)
    requires Sound(cfg, st)
    requires RunsToStore(cfg, im, Moved(st, ip, [], win), fuel, Moved(st, ip, [], win), end, r)
    ensures RunsToStore(cfg, im, Moved(st, ip, [], win), fuel, st, end, r)
  {
    hide Run, Step, Goes;
    var none: seq<ConstValue> := [];
    if r.Stored? { MovedTwice(st, ip, none, win, end, none, r.window); assert none + none == none; }
  }

  /** Results told relative to a moved state are results relative to the original one. */
  lemma RunsOn(cfg: Config, im: Image, st: State, win: seq<ConstValue>, ip: nat, end: nat, fuel: nat, r: StatementResult)
    requires Sound(cfg, st)
    requires RunsToEnd(cfg, im, Moved(st, ip, [], win), fuel, Moved(st, ip, [], win), end, r)
    ensures RunsToEnd(cfg, im, Moved(st, ip, [], win), fuel, st, end, r)
  {
    hide Run, Step, Goes, GoesToReturn;
    var none: seq<ConstValue> := [];
    match r
    case Falls(w, left) => MovedTwice(st, ip, none, win, end, none, w); assert none + none == none;
    case Returns(v, w, left) => ReturnsOn(cfg, im, Moved(st, ip, none, win), fuel, st, ip, win, v, w, left);
    case _ =>
  }

  lemma ReturnsOn(cfg: Config, im: Image, a: State, f: nat, st: State, ip: nat, win: seq<ConstValue>, v: ConstValue,
                  w: seq<ConstValue>, g: nat)
    requires st.base <= |st.locals| && GoesToReturn(cfg, im, a, f, Moved(st, ip, [], win), v, w, g)
    ensures GoesToReturn(cfg, im, a, f, st, v, w, g)
  {
    hide Goes;
    var none: seq<ConstValue> := [];
    var ret: nat :| At(im.code, ret, RET, 0) && Goes(cfg, im, a, f, Moved(Moved(st, ip, none, win), ret, [v], w), g);
    MovedTwice(st, ip, none, win, ret, [v], w);
    assert none + [v] == [v];
  }

  /** The condition of a loop and its exit jump, once the condition itself is known to run. */
  lemma ConditionRuns(cfg: Config, src: Source, im: Image, sc: Scope, c: OptionalExpression, exit: nat, st: State, fuel: nat)
    requires WellFormedSource(src) && Sound(cfg, st)
    requires c.Present? ==> At(im.code, st.ip + SizeOfOptional(c), JMP_IF_FALSE, exit)
    requires (c.Present? ==> ValueExpression(src, c.expression)) && ResolvesOptional(src, sc.slots.Keys, c)
    requires c.Present? ==>
      RunsToValue(cfg, im, st, fuel, st, st.ip + SizeOfOptional(c),
                  Evaluate(PlaceOf(cfg, src, st), sc, c.expression, |st.stack|, Window(st), fuel))
    ensures RunsToBranch(cfg, im, st, fuel, st, st.ip + SizeOfOptional(c) + (if c.Present? then 1 else 0), exit,
                         if c.Absent? then Yields(Bool(true), Window(st), fuel) else
                         Test(Evaluate(PlaceOf(cfg, src, st), sc, c.expression, |st.stack|, Window(st), fuel)))
  {
    hide Run, Step, Goes, WellFormedSource, Evaluate;
    Chains(cfg, im);
    if c.Present? {
      var v := Evaluate(PlaceOf(cfg, src, st), sc, c.expression, |st.stack|, Window(st), fuel);
      if v.Yields? {
        TestRuns(cfg, im, st, exit, v.value, v.window, st.ip + SizeOfOptional(c), v.fuel);
      }
    } else {
      GoesNowhere(cfg, im, st, fuel);
    }
  }

  lemma {:induction false} IfRuns(cfg: Config, lk: Linkage, im: Image, sc: Scope, s: Statement, st: State, fuel: nat)
    requires s.IfStatement?
    requires WellFormedSource(lk.src) && Linked(lk, im) && Sound(cfg, st) && CodeOfStatement(lk, im.code, sc, s, st.ip)
    requires WellFormed(lk.src, s) && ResolvesStatement(lk.src, sc.slots.Keys, s)
    ensures RunsToEnd(cfg, im, st, fuel, st, st.ip + SizeOfStatement(s),
                      Execute(PlaceOf(cfg, lk.src, st), sc, s, |st.stack|, Window(st), fuel))
    decreases fuel, s, 2
  {
    hide Evaluate, EvaluateStore, ExecuteBlock, CodeOf, CodeOfBlock, Resolves, ResolvesBlock, ScopeAfter,
      ScopeAfterBlock, Declares, DeclaresBlock, ValueExpression, WellFormedBlock, Size, SizeOfBlock;
    hide Run, Step, Goes, GoesToReturn, Linked, WellFormedSource;
    Chains(cfg, im);
    var at, height := PlaceOf(cfg, lk.src, st), |st.stack|;
    var c, t, e := s.ifCondition, s.thenBranch, s.elseBranch;
    var inThen := ScopeAfter(sc, c);
    var afterThen := ScopeAfterBlock(inThen, t);
    var thenIp := st.ip + Size(c) + 1;
    var elseIp := thenIp + SizeOfBlock(t) + (if e.SomeBlock? then 1 else 0);
    var end := st.ip + SizeOfStatement(s);
    ScopeGrows(sc, c);
    ScopeGrowsByBlock(inThen, t);
    ExpressionRuns(cfg, lk, im, sc, c, st, fuel);
    var v := Evaluate(at, sc, c, height, Window(st), fuel);
    if v.Yields? {
      TestRuns(cfg, im, st, elseIp, v.value, v.window, st.ip + Size(c), v.fuel);
      var test := Test(v);
      if test.Yields? && test.value.boolVal {
        var st1 := Moved(st, thenIp, [], test.window);
        assert st1.stack == st.stack;
        BlockRuns(cfg, lk, im, inThen, t, st1, test.fuel);
        var chosen := ExecuteBlock(at, inThen, t, height, test.window, test.fuel);
        RunsOn(cfg, im, st, test.window, thenIp, thenIp + SizeOfBlock(t), test.fuel, chosen);
        if chosen.Falls? && e.SomeBlock? {
          JumpRuns(cfg, im, st, end, chosen.window, thenIp + SizeOfBlock(t), chosen.fuel);
        }
      } else if test.Yields? && e.SomeBlock? {
        var st1 := Moved(st, elseIp, [], test.window);
        assert st1.stack == st.stack;
        BlockRuns(cfg, lk, im, afterThen, e.block, st1, test.fuel);
        RunsOn(cfg, im, st, test.window, elseIp, end, test.fuel,
                  ExecuteBlock(at, afterThen, e.block, height, test.window, test.fuel));
      }
    }
  }

  lemma {:induction false} StatementRuns(cfg: Config, lk: Linkage, im: Image, sc: Scope, s: Statement,
                                         st: State, fuel: nat)
    requires WellFormedSource(lk.src) && Linked(lk, im) && Sound(cfg, st) && CodeOfStatement(lk, im.code, sc, s, st.ip)
    requires WellFormed(lk.src, s) && ResolvesStatement(lk.src, sc.slots.Keys, s)
    ensures RunsToEnd(cfg, im, st, fuel, st, st.ip + SizeOfStatement(s),
                      Execute(PlaceOf(cfg, lk.src, st), sc, s, |st.stack|, Window(st), fuel))
    decreases fuel, s, 3
  {
    hide Evaluate, EvaluateStore, ExecuteBlock, CodeOf, CodeOfBlock, Resolves, ResolvesBlock, ScopeAfter,
      ScopeAfterBlock, Declares, DeclaresBlock, WellFormedBlock, Size, SizeOfBlock, ExecuteLoop, CodeOfLoop,
      ResolvesLoop, DeclaresLoop, ScopeAfterLoop;
    hide Run, Step, Goes, GoesToReturn, Linked, WellFormedSource;
    Chains(cfg, im);
    var at, height := PlaceOf(cfg, lk.src, st), |st.stack|;
    match s
    case ReturnStatement(o) =>
      var value := if o.Absent? then PushOne(at, height, ZERO, Window(st), fuel)
                   else Evaluate(at, sc, o.expression, height, Window(st), fuel);
      if o.Absent? { PushRuns(cfg, lk.src, im, ZERO, st, fuel); }
      else { ExpressionRuns(cfg, lk, im, sc, o.expression, st, fuel); }
      if value.Yields? {
        ReturnReached(cfg, im, st, fuel, st, st.ip + SizeOfStatement(s) - 1, value.value, value.window, value.fuel);
      }
    case ThrowStatement(name) => ThrowRuns(cfg, im, name, st, fuel);
    case IfStatement(_, _, _) => IfRuns(cfg, lk, im, sc, s, st, fuel);
    case WhileStatement(_, _) => LoopRuns(cfg, lk, im, sc, s, st, fuel);
    case ForStatement(i, _, _, _) =>
      ScopeGrowsByOptional(sc, i);
      OptionalStoreRuns(cfg, lk, im, sc, i, st, fuel);
      var start := EvaluateOptionalStore(at, sc, i, height, Window(st), fuel);
      if start.Stored? {
        var ip := st.ip + SizeOfOptional(i);
        var st1 := Moved(st, ip, [], start.window);
        assert st1.stack == st.stack;
        LoopRuns(cfg, lk, im, ScopeAfterOptional(sc, i), s, st1, start.fuel);
        RunsOn(cfg, im, st, start.window, ip, ip + LoopSize(s), start.fuel,
                  ExecuteLoop(at, ScopeAfterOptional(sc, i), s, height, start.window, start.fuel));
      }
    case BlockStatement(b) => BlockRuns(cfg, lk, im, sc, b, st, fuel);
    case ExpressionStatement(e) =>
      if e.IsStore() {
        StoreExpressionRuns(cfg, lk, im, sc, e, st, fuel);
      } else {
        ExpressionRuns(cfg, lk, im, sc, e, st, fuel);
        var value := Evaluate(at, sc, e, height, Window(st), fuel);
        if value.Yields? {
          PopRuns(cfg, im, st, value.value, value.window, st.ip + Size(e), value.fuel);
        }
      }
  }

  lemma {:induction false} BlockRuns(cfg: Config, lk: Linkage, im: Image, sc: Scope, b: Block, st: State, fuel: nat)
    requires WellFormedSource(lk.src) && Linked(lk, im) && Sound(cfg, st) && CodeOfBlock(lk, im.code, sc, b, st.ip)
    requires WellFormedBlock(lk.src, b) && ResolvesBlock(lk.src, sc.slots.Keys, b)
    ensures RunsToEnd(cfg, im, st, fuel, st, st.ip + SizeOfBlock(b),
                      ExecuteBlock(PlaceOf(cfg, lk.src, st), sc, b, |st.stack|, Window(st), fuel))
    decreases fuel, b, 1
  {
    hide CodeOfStatement, ResolvesStatement, WellFormed, Execute, ScopeAfterStatement, DeclaresStatement,
      SizeOfStatement;
    hide Run, Step, Goes, GoesToReturn, Linked, WellFormedSource;
    Chains(cfg, im);
    var at, height := PlaceOf(cfg, lk.src, st), |st.stack|;
    match b
    case EmptyBlock => GoesNowhere(cfg, im, st, fuel);
    case Statements(s, rest) =>
      ScopeGrowsByStatement(sc, s);
      StatementRuns(cfg, lk, im, sc, s, st, fuel);
      var first := Execute(at, sc, s, height, Window(st), fuel);
      if first.Falls? {
        var ip := st.ip + SizeOfStatement(s);
        var st1 := Moved(st, ip, [], first.window);
        assert st1.stack == st.stack;
        BlockRuns(cfg, lk, im, ScopeAfterStatement(sc, s), rest, st1, first.fuel);
        var others := ExecuteBlock(at, ScopeAfterStatement(sc, s), rest, height, first.window, first.fuel);
        RunsOn(cfg, im, st, first.window, ip, st.ip + SizeOfBlock(b), first.fuel, others);
      }
  }

  /** A driver expression at the start of the stream, followed by HALT. */
  ghost predicate HoldsDriver(lk: Linkage, code: Code, e: Expression) {
    CodeOf(lk, code, NO_LOCALS, e, 0) && At(code, Size(e), HALT, 0)
  }

  lemma DriverRuns(cfg: Config, lk: Linkage, im: Image, e: Expression)
    requires WellFormedSource(lk.src) && Linked(lk, im) && ValueExpression(lk.src, e) && Resolves(lk.src, NO_LOCALS.slots.Keys, e)
    requires HoldsDriver(lk, im.code, e)
    ensures RunImage(cfg, im) == RunDriver(cfg, lk.src, e)
  {
    hide Run, Step, Goes, Linked, WellFormedSource, Evaluate, CodeOf, Resolves, ValueExpression, Size;
    Chains(cfg, im);
    var st := InitialState(cfg);
    ExpressionRuns(cfg, lk, im, NO_LOCALS, e, st, cfg.maxIterations);
    assert Window(st) == InitialLocals(cfg);
    var r := Evaluate(Start(cfg, lk.src), NO_LOCALS, e, 0, InitialLocals(cfg), cfg.maxIterations);
    if r.Yields? { HaltRuns(cfg, im, Moved(st, Size(e), [r.value], r.window), r.value, r.fuel); }
  }

  lemma HaltRuns(cfg: Config, im: Image, st: State, v: ConstValue, fuel: nat)
    requires At(im.code, st.ip, HALT, 0) && st.stack == [] + [v]
    ensures Run(cfg, im, st, fuel) == if fuel == 0 then Limit(Iterations) else Value(v)
  {
  }

  /** A call driver: the arguments pushed, CALL and HALT. */
  ghost predicate HoldsCallDriver(lk: Linkage, code: Code, f: string, args: seq<ConstValue>)
    requires AllConstant(args)
  {
    CodeOfArguments(lk, code, NO_LOCALS, Quote(args), 0) && f in lk.index &&
    At(code, |args|, CALL, lk.index[f]) && At(code, |args| + 1, HALT, 0)
  }

  lemma QuotedSize(args: seq<ConstValue>)
    requires AllConstant(args)
    ensures SizeOfArguments(Quote(args)) == |args|
  {
    if |args| > 0 { QuotedSize(args[1..]); }
  }

  lemma CallDriverRuns(cfg: Config, lk: Linkage, im: Image, f: string, args: seq<ConstValue>)
    requires WellFormedSource(lk.src) && Linked(lk, im) && f in lk.src.functions && AllConstant(args)
    requires |args| == |lk.src.functions[f].paramNames| && HoldsCallDriver(lk, im.code, f, args)
    ensures RunImage(cfg, im) == RunCallDriver(cfg, lk.src, f, args)
  {
    hide Run, Step, Goes, Linked, WellFormedSource, Call, EvaluateArguments, Compiles, CodeOfArguments;
    Chains(cfg, im);
    var st := InitialState(cfg);
    QuotedArguments(lk.src, args);
    QuotedSize(args);
    assert NO_LOCALS.slots.Keys == {};
    assert Window(st) == InitialLocals(cfg);
    ArgumentsRun(cfg, lk, im, NO_LOCALS, Quote(args), st, cfg.maxIterations);
    var operands := EvaluateArguments(Start(cfg, lk.src), NO_LOCALS, Quote(args), 0, InitialLocals(cfg), cfg.maxIterations);
    if operands.YieldsAll? {
      if operands.fuel == 0 {
        NoFuel(cfg, im, Moved(st, |args|, operands.values, operands.window));
      } else {
        CallRuns(cfg, lk, im, f, st, operands.values, operands.window, |args|, operands.fuel - 1);
        var r := Call(Start(cfg, lk.src), f, operands.values, 0, operands.window, operands.fuel - 1);
        if r.Yields? { HaltRuns(cfg, im, Moved(st, |args| + 1, [r.value], r.window), r.value, r.fuel); }
      }
    }
  }

  ghost predicate Holds(lk: Linkage, code: Code, d: Driver) {
    match d
    case ForExpression(e) => HoldsDriver(lk, code, e)
    case ForCall(f, args) => AllConstant(args) && HoldsCallDriver(lk, code, f, args)
  }

  /** An image with a driver of either kind runs as the trees say. */
  lemma ImageRuns(cfg: Config, lk: Linkage, im: Image, d: Driver)
    requires Linked(lk, im) && Runnable(lk.src, d) && Holds(lk, im.code, d)
    ensures RunImage(cfg, im) == RunOf(cfg, lk.src, d)
  {
    hide Linked, WellFormedSource, HoldsDriver, HoldsCallDriver, RunImage, RunDriver, RunCallDriver;
    match d
    case ForExpression(e) =>
      assert NO_LOCALS.slots.Keys == {};
      DriverRuns(cfg, lk, im, e);
    case ForCall(f, args) => CallDriverRuns(cfg, lk, im, f, args);
  }
}
