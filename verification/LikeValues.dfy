/** Constants lose width and sign when they are pushed.  Which values that changes, to no program's notice, and what a
    program does on values that look alike. */
module LikeValues {
  import opened ConstValues
  import opened Arithmetic
  import opened Syntax
  import opened CodeShape
  import opened Reference
  import opened ReachableFunctions

  /** Values that no operator tells apart: from 64 bits on neither width nor sign takes part in an operation, and of a
      128-bit integer the sign never does, as the width of every result is that of its wider operand. */
  predicate Like(v: ConstValue, u: ConstValue) {
    v == u ||
    (v.Integer? && u.Integer? && v.intVal == u.intVal && v.width >= 64 && u.width >= 64) ||
    (v.Integer128? && u.Integer128? && v.int128Val == u.int128Val)
  }

  /** A constant that pushing does not change to any program's notice. */
  predicate Faithful(v: ConstValue) { v.IsConstant() && Like(Materialize(v), v) }

  predicate AllFaithful(vs: seq<ConstValue>) { forall v :: v in vs ==> Faithful(v) }

  /** Integers of 32 signed bits that fit them, integers of 64 bits and more that do not fit 32, and all others. */
  lemma FaithfulIff(v: ConstValue)
    requires v.IsConstant()
    ensures Faithful(v) <==>
      (v.Integer? ==> if -0x8000_0000 <= v.intVal <= 0x7FFF_FFFF then v.width == 32 && v.signed else v.width >= 64)
  {
  }

  predicate LikeAnswers(a: Answer, b: Answer) {
    match a
    case Got(v) => b.Got? && Like(v, b.value)
    case Ends(v) => b == Ends(v)
    case Late => b.Late?
  }

  predicate LikeSeqs(vs: seq<ConstValue>, us: seq<ConstValue>) {
    |vs| == |us| && forall i :: 0 <= i < |vs| ==> Like(vs[i], us[i])
  }

  predicate LikeAllAnswers(a: Answers, b: Answers) {
    match a
    case GotAll(vs) => b.GotAll? && LikeSeqs(vs, b.values)
    case EndsAll(v) => b == EndsAll(v)
    case LateAll => b.LateAll?
  }

  ghost predicate LikeEnvs(env: Env, env': Env) { forall x :: Like(Read(env, x), Read(env', x)) }

  ghost predicate LikeProgress(p: Progress, q: Progress) {
    match p
    case Goes(env) => q.Goes? && LikeEnvs(env, q.env)
    case Gives(v) => q.Gives? && Like(v, q.value)
    case Stops(v) => q == Stops(v)
    case Unknown => q.Unknown?
  }

  // ----- operators -----

  /** From 64 bits on, what a width and a sign make of a value differs in them alone. */
  lemma FitsAlike(raw: int64, hint: bool, negative: bool, w: Width, s: bool, w': Width, s': bool, mode: OverflowMode)
    requires (w == w' && s == s') || (w >= 64 && w' >= 64)
    ensures LikeAnswers(Got(FitInt(raw, hint, negative, w, s, mode)), Got(FitInt(raw, hint, negative, w', s', mode)))
  {
  }

  lemma CommonAlike(l: ConstValue, r: ConstValue, l': ConstValue, r': ConstValue)
    requires Like(l, l') && Like(r, r')
    ensures l.ToInt() == l'.ToInt() && r.ToInt() == r'.ToInt() && l.ToBool() == l'.ToBool() && r.ToBool() == r'.ToBool()
    ensures (CommonWidth(l, r) == CommonWidth(l', r') && CommonSign(l, r) == CommonSign(l', r')) ||
            (CommonWidth(l, r) >= 64 && CommonWidth(l', r') >= 64)
  {
  }

  lemma DividesAlike(mode: OverflowMode, l: ConstValue, r: ConstValue, l': ConstValue, r': ConstValue)
    requires Like(l, l') && Like(r, r')
    ensures LikeAnswers(Apply(Divide(mode, l, r)), Apply(Divide(mode, l', r')))
    ensures LikeAnswers(Apply(Remainder(mode, l, r)), Apply(Remainder(mode, l', r')))
  {
    hide FitInt, CommonWidth, CommonSign, TruncMod, TruncDiv, Quotient;
    CommonAlike(l, r, l', r');
    var (a, b) := (l.ToInt(), r.ToInt());
    var (w, s, w', s') := (CommonWidth(l, r), CommonSign(l, r), CommonWidth(l', r'), CommonSign(l', r'));
    if b != 0 {
      FitsAlike(Quotient(a, b), false, false, w, s, w', s', mode);
      TruncModFits(a, b);
      FitsAlike(if a == INT64_MIN && b == -1 then 0 else TruncMod(a, b), false, false, w, s, w', s', mode);
    }
  }

  lemma FitsCommonAlike(mode: OverflowMode, l: ConstValue, r: ConstValue, l': ConstValue, r': ConstValue)
    requires Like(l, l') && Like(r, r')
    ensures forall raw: int64, hint, negative ::
      LikeAnswers(Got(FitInt(raw, hint, negative, CommonWidth(l, r), CommonSign(l, r), mode)),
                  Got(FitInt(raw, hint, negative, CommonWidth(l', r'), CommonSign(l', r'), mode)))
  {
    hide FitInt, CommonWidth, CommonSign;
    CommonAlike(l, r, l', r');
    var (w, s, w', s') := (CommonWidth(l, r), CommonSign(l, r), CommonWidth(l', r'), CommonSign(l', r'));
    forall raw: int64, hint, negative
      ensures LikeAnswers(Got(FitInt(raw, hint, negative, w, s, mode)), Got(FitInt(raw, hint, negative, w', s', mode)))
    {
      FitsAlike(raw, hint, negative, w, s, w', s', mode);
    }
  }

  lemma SumsAlike(op: BinaryOp, mode: OverflowMode, l: ConstValue, r: ConstValue, l': ConstValue, r': ConstValue)
    requires op in {Plus, Minus, Star} && Like(l, l') && Like(r, r')
    ensures LikeAnswers(Apply(ApplyBinary(op, mode, l, r)), Apply(ApplyBinary(op, mode, l', r')))
  {
    hide FitInt, CommonWidth, CommonSign, Wrap64, AddOverflows64, SubOverflows64, MulOverflows64, Divide, Remainder, Pow2,
      Bitwise64, Like;
    CommonAlike(l, r, l', r');
    FitsCommonAlike(mode, l, r, l', r');
  }

  lemma OperatesAlike(op: BinaryOp, mode: OverflowMode, l: ConstValue, r: ConstValue, l': ConstValue, r': ConstValue)
    requires Like(l, l') && Like(r, r')
    ensures LikeAnswers(Apply(ApplyBinary(op, mode, l, r)), Apply(ApplyBinary(op, mode, l', r')))
  {
    hide FitInt, CommonWidth, CommonSign, Divide, Remainder, Wrap64, Pow2, Bitwise64, AddOverflows64, SubOverflows64,
      MulOverflows64;
    CommonAlike(l, r, l', r');
    DividesAlike(mode, l, r, l', r');
    if op in {Plus, Minus, Star} { SumsAlike(op, mode, l, r, l', r'); }
  }

  lemma UnaryAlike(op: UnaryOp, mode: OverflowMode, v: ConstValue, u: ConstValue)
    requires Like(v, u)
    ensures LikeAnswers(Apply(ApplyUnary(op, mode, v)), Apply(ApplyUnary(op, mode, u)))
  {
    hide FitInt, LimitsFor;
    var x := v.ToInt();
    var ovf := x == INT64_MIN || (v.BitWidth() < 64 && x == LimitsFor(v.BitWidth(), v.IsSigned()).min);
    FitsAlike(if x == INT64_MIN then INT64_MIN else -x, ovf, false, v.BitWidth(), v.IsSigned(), u.BitWidth(), u.IsSigned(),
              mode);
  }

  // ----- programs -----

  /** A program, the locals declared so far and what they are bound to. */
  datatype View = View(src: Source, names: set<string>, env: Env)

  /** The two programs share these functions, which call only one another and look up no constant the programs bind
      differently. */
  ghost predicate Share(one: Source, two: Source, reach: set<string>) {
    forall f :: f in reach ==>
      (f in one.functions <==> f in two.functions) &&
      (f in one.functions ==>
        one.functions[f] == two.functions[f] && BlockCalls(one.functions[f].body) <= reach &&
        Alike(one, two, BlockLooks(NameSet(one.functions[f].paramNames), one.functions[f].body), {}))
  }

  lemma SharedCompile(one: Source, two: Source, reach: set<string>, f: string)
    requires Share(one, two, reach) && f in reach && f in one.functions
    ensures f in two.functions && two.functions[f] == one.functions[f]
    ensures Compiles(one, one.functions[f]) == Compiles(two, two.functions[f])
  {
    hide ResolvesBlock, BlockLooks, BlockCalls;
    var fn := one.functions[f];
    assert forall g :: g in BlockCalls(fn.body) ==> (g in one.functions <==> g in two.functions);
    BlockResolvesAlike(one, two, NameSet(fn.paramNames), fn.body);
  }

  /** The two views show values that are alike under these names. */
  ghost predicate SeeAlike(p: View, q: View, mentioned: set<string>) {
    forall x :: x in mentioned && ResolvesName(p.src, p.names, x) && ResolvesName(q.src, q.names, x) ==>
      Like(Lookup(p.src, p.names, p.env, x), Lookup(q.src, q.names, q.env, x))
  }

  /** The same locals with values that are alike. */
  ghost predicate SameLocals(p: View, q: View) { p.names == q.names && LikeEnvs(p.env, q.env) }

  ghost predicate Takes(p: View, e: Expression) {
    WellFormedSource(p.src) && ValueExpression(p.src, e) && Resolves(p.src, p.names, e)
  }

  lemma {:induction false} MentionsAreLocalsOrLooked(src: Source, names: set<string>, e: Expression)
    requires ValueExpression(src, e)
    ensures Looks({}, e) <= names + Looks(names, e)
    decreases e
  {
    match e
    case BinaryExpression(l, _, r, _) =>
      ValuesDeclareNothing(src, l);
      assert {} + Declares(l) == {} && names + Declares(l) == names;
      MentionsAreLocalsOrLooked(src, names, l);
      MentionsAreLocalsOrLooked(src, names, r);
    case UnaryExpression(_, a, _) => MentionsAreLocalsOrLooked(src, names, a);
    case CastExpression(_, _, a) => MentionsAreLocalsOrLooked(src, names, a);
    case FunctionCall(_, args) => ArgumentMentions(src, names, args);
    case _ =>
  }

  lemma {:induction false} ArgumentMentions(src: Source, names: set<string>, args: Arguments)
    requires ValueArguments(src, args)
    ensures ArgumentLooks({}, args) <= names + ArgumentLooks(names, args)
    decreases args
  {
    if args.MoreArguments? {
      ValuesDeclareNothing(src, args.first);
      assert {} + Declares(args.first) == {} && names + Declares(args.first) == names;
      MentionsAreLocalsOrLooked(src, names, args.first);
      ArgumentMentions(src, names, args.rest);
    }
  }

  lemma LocalsSeeAlike(p: View, q: View, e: Expression)
    requires SameLocals(p, q) && ValueExpression(p.src, e) && Alike(p.src, q.src, Looks(p.names, e), {})
    ensures SeeAlike(p, q, Looks({}, e))
  {
    hide Looks, ValueExpression;
    MentionsAreLocalsOrLooked(p.src, p.names, e);
  }

  lemma {:induction false} EvalAlike(reach: set<string>, p: View, q: View, e: Expression, time: nat)
    requires Takes(p, e) && Takes(q, e)
    requires Share(p.src, q.src, reach) && Calls(e) <= reach && SeeAlike(p, q, Looks({}, e))
    ensures LikeAnswers(Eval(p.src, p.names, p.env, e, time), Eval(q.src, q.names, q.env, e, time))
    decreases time, e, 1
  {
    hide WellFormedSource, ApplyBinary, ApplyUnary, Invoke, Share, Compiles, Like, Materialize;
    match e
    case BinaryExpression(_, _, _, _) => BinaryAlike(reach, p, q, e, time);
    case UnaryExpression(op, a, mode) =>
      EvalAlike(reach, p, q, a, time);
      var (x, y) := (Eval(p.src, p.names, p.env, a, time), Eval(q.src, q.names, q.env, a, time));
      if x.Got? { UnaryAlike(op, mode, x.value, y.value); }
    case CastExpression(w, s, a) =>
      EvalAlike(reach, p, q, a, time);
      var (x, y) := (Eval(p.src, p.names, p.env, a, time), Eval(q.src, q.names, q.env, a, time));
      if x.Got? { CastsAlike(x.value, y.value, w, s); }
    case FunctionCall(_, _) => CallAlike(reach, p, q, e, time);
    case IntegerLiteral(lit) => LikeItself(Materialize(LiteralConstant(lit)));
    case BooleanLiteral(b) => LikeItself(Bool(b));
    case FieldAccess(o, f) => assert o.name + "." + f in Looks({}, e);
    case _ =>
  }

  lemma CastsAlike(v: ConstValue, u: ConstValue, w: Width, s: bool)
    requires Like(v, u)
    ensures Like(Integer(v.ToInt(), w, s), Integer(u.ToInt(), w, s))
  {
  }

  lemma {:induction false} BinaryAlike(reach: set<string>, p: View, q: View, e: Expression, time: nat)
    requires e.BinaryExpression? && Takes(p, e) && Takes(q, e)
    requires Share(p.src, q.src, reach) && Calls(e) <= reach && SeeAlike(p, q, Looks({}, e))
    ensures LikeAnswers(Eval(p.src, p.names, p.env, e, time), Eval(q.src, q.names, q.env, e, time))
    decreases time, e, 0
  {
    hide WellFormedSource, ApplyBinary, Share, Like, ResolvesName, Lookup;
    var l, r := e.left, e.right;
    ValuesDeclareNothing(p.src, l);
    assert p.names + Declares(l) == p.names && q.names + Declares(l) == q.names && {} + Declares(l) == {};
    EvalAlike(reach, p, q, l, time);
    EvalAlike(reach, p, q, r, time);
    var (x, y) := (Eval(p.src, p.names, p.env, l, time), Eval(q.src, q.names, q.env, l, time));
    var (x', y') := (Eval(p.src, p.names, p.env, r, time), Eval(q.src, q.names, q.env, r, time));
    if x.Got? && x'.Got? { OperatesAlike(e.binaryOp, e.binaryMode, x.value, x'.value, y.value, y'.value); }
  }

  lemma {:induction false} CallAlike(reach: set<string>, p: View, q: View, e: Expression, time: nat)
    requires e.FunctionCall? && Takes(p, e) && Takes(q, e)
    requires Share(p.src, q.src, reach) && Calls(e) <= reach && SeeAlike(p, q, Looks({}, e))
    ensures LikeAnswers(Eval(p.src, p.names, p.env, e, time), Eval(q.src, q.names, q.env, e, time))
    decreases time, e, 0
  {
    hide WellFormedSource, Invoke, Share, Compiles, Like, ResolvesName, Lookup;
    var f, args := e.callee, e.arguments;
    if IsHint(f, args) {
      assert args.MoreArguments? && ValueArguments(p.src, args) && ValueArguments(q.src, args);
      assert Looks({}, args.first) <= ArgumentLooks({}, args) && Calls(args.first) <= ArgumentCalls(args);
      EvalAlike(reach, p, q, args.first, time);
    } else {
      SharedCompile(p.src, q.src, reach, f);
      ArgumentsAlike(reach, p, q, args, time);
      var operands := EvalArguments(p.src, p.names, p.env, args, time);
      var others := EvalArguments(q.src, q.names, q.env, args, time);
      if operands.GotAll? && Compiles(p.src, p.src.functions[f]) && time > 0 {
        InvokeAlike(reach, p.src, q.src, f, operands.values, others.values, time - 1);
      }
    }
  }

  lemma {:induction false} ArgumentsAlike(reach: set<string>, p: View, q: View, args: Arguments, time: nat)
    requires WellFormedSource(p.src) && ValueArguments(p.src, args) && ResolvesArguments(p.src, p.names, args)
    requires WellFormedSource(q.src) && ValueArguments(q.src, args) && ResolvesArguments(q.src, q.names, args)
    requires Share(p.src, q.src, reach) && ArgumentCalls(args) <= reach && SeeAlike(p, q, ArgumentLooks({}, args))
    ensures LikeAllAnswers(EvalArguments(p.src, p.names, p.env, args, time), EvalArguments(q.src, q.names, q.env, args, time))
    decreases time, args, 1
  {
    hide WellFormedSource, Eval, Share, Like, ResolvesName, Lookup, Resolves, Calls, Looks;
    if args.MoreArguments? {
      var a, rest := args.first, args.rest;
      ValuesDeclareNothing(p.src, a);
      assert p.names + Declares(a) == p.names && q.names + Declares(a) == q.names && {} + Declares(a) == {};
      EvalAlike(reach, p, q, a, time);
      ArgumentsAlike(reach, p, q, rest, time);
    }
  }

  lemma {:induction false} BindAlike(params: seq<string>, vs: seq<ConstValue>, us: seq<ConstValue>)
    requires |params| == |vs| && LikeSeqs(vs, us)
    ensures LikeEnvs(Bind(params, vs), Bind(params, us))
    decreases |params|
  {
    hide Like;
    var n := |params| - 1;
    LikeItself(ZERO);
    if |params| > 0 {
      BindAlike(params[..n], vs[..n], us[..n]);
      BoundAlike(Bind(params[..n], vs[..n]), Bind(params[..n], us[..n]), params[n], vs[n], us[n]);
    }
  }

  lemma BoundAlike(env: Env, env': Env, x: string, v: ConstValue, u: ConstValue)
    requires LikeEnvs(env, env') && Like(v, u)
    ensures LikeEnvs(env[x := v], env'[x := u])
  {
    hide Like;
    var e, e' := env[x := v], env'[x := u];
    forall y ensures Like(Read(e, y), Read(e', y)) {
      if y != x { assert Read(e, y) == Read(env, y) && Read(e', y) == Read(env', y); }
    }
  }

  lemma LikeItself(v: ConstValue)
    ensures Like(v, v)
  {
  }

  /** A function gives answers that are alike for arguments that are alike. */
  lemma {:induction false} InvokeAlike(reach: set<string>, one: Source, two: Source, f: string, vs: seq<ConstValue>,
                                       us: seq<ConstValue>, time: nat)
    requires WellFormedSource(one) && WellFormedSource(two) && Share(one, two, reach) && f in reach
    requires f in one.functions && f in two.functions && one.functions[f] == two.functions[f]
    requires Compiles(one, one.functions[f]) && Compiles(two, two.functions[f])
    requires |vs| == |one.functions[f].paramNames| && LikeSeqs(vs, us)
    ensures LikeAnswers(Invoke(one, f, vs, time), Invoke(two, f, us, time))
    decreases time, one.functions[f], 1
  {
    hide ExecBlock, Like, LikeEnvs, ResolvesBlock, WellFormedBlock, BlockLooks, BlockCalls, Bind;
    var fn := one.functions[f];
    var names := NameSet(fn.paramNames);
    BindAlike(fn.paramNames, vs, us);
    LikeItself(ZERO);
    BlockAlike(reach, View(one, names, Bind(fn.paramNames, vs)), View(two, names, Bind(fn.paramNames, us)), fn.body, time);
  }

  lemma {:induction false} StoreAlike(reach: set<string>, p: View, q: View, e: Expression, time: nat)
    requires WellFormedSource(p.src) && StoreExpression(p.src, e) && Resolves(p.src, p.names, e)
    requires WellFormedSource(q.src) && StoreExpression(q.src, e) && Resolves(q.src, q.names, e)
    requires Share(p.src, q.src, reach) && Calls(e) <= reach && SameLocals(p, q)
    requires Alike(p.src, q.src, Looks(p.names, e), {})
    ensures LikeProgress(ExecStore(p.src, p.names, p.env, e, time), ExecStore(q.src, q.names, q.env, e, time))
    decreases time, e, 1
  {
    hide WellFormedSource, Eval, Share, Like, LikeEnvs, Alike, SeeAlike;
    var v := if e.VariableInit? then e.initial else e.stored;
    LocalsSeeAlike(p, q, v);
    EvalAlike(reach, p, q, v, time);
    var (x, y) := (Eval(p.src, p.names, p.env, v, time), Eval(q.src, q.names, q.env, v, time));
    if x.Got? { BoundAlike(p.env, q.env, if e.VariableInit? then e.declared else e.target, x.value, y.value); }
  }

  lemma {:induction false} OptionalStoreAlike(reach: set<string>, p: View, q: View, o: OptionalExpression, time: nat)
    requires WellFormedSource(p.src) && (o.Present? ==> StoreExpression(p.src, o.expression))
    requires WellFormedSource(q.src) && (o.Present? ==> StoreExpression(q.src, o.expression))
    requires ResolvesOptional(p.src, p.names, o) && ResolvesOptional(q.src, q.names, o)
    requires Share(p.src, q.src, reach) && OptionalCalls(o) <= reach && SameLocals(p, q)
    requires Alike(p.src, q.src, OptionalLooks(p.names, o), {})
    ensures LikeProgress(ExecOptionalStore(p.src, p.names, p.env, o, time), ExecOptionalStore(q.src, q.names, q.env, o, time))
    decreases time, o, 1
  {
    hide WellFormedSource, ExecStore, Share, Alike, LikeEnvs, StoreExpression, Resolves, Looks, Calls;
    if o.Present? { StoreAlike(reach, p, q, o.expression, time); }
  }

  lemma {:induction false} LoopAlike(reach: set<string>, p: View, q: View, s: Statement, time: nat)
    requires s.WhileStatement? || s.ForStatement?
    requires WellFormedSource(p.src) && WellFormed(p.src, s) && ResolvesLoop(p.src, p.names, s)
    requires WellFormedSource(q.src) && WellFormed(q.src, s) && ResolvesLoop(q.src, q.names, s)
    requires Share(p.src, q.src, reach) && StatementCalls(s) <= reach && SameLocals(p, q)
    requires Alike(p.src, q.src, LoopLooks(p.names, s), {})
    ensures LikeProgress(ExecLoop(p.src, p.names, p.env, s, time), ExecLoop(q.src, q.names, q.env, s, time))
    decreases time, s, 2
  {
    hide WellFormedSource, Eval, ExecBlock, ExecStore, ValueExpression, StoreExpression, WellFormedBlock, ResolvesBlock,
      Resolves, Share, Like, LikeEnvs, Looks, BlockLooks, Calls, BlockCalls, SeeAlike, Declares, DeclaresBlock;
    var c, b, o := LoopCondition(s), LoopBody(s), LoopPostfix(s);
    var inBody := p.names + DeclaresOptional(c);
    var atPostfix := inBody + DeclaresBlock(b);
    var test, test' := Got(Bool(true)), Got(Bool(true));
    LikeItself(Bool(true));
    if c.Present? {
      LocalsSeeAlike(p, q, c.expression);
      EvalAlike(reach, p, q, c.expression, time);
      test := Eval(p.src, p.names, p.env, c.expression, time);
      test' := Eval(q.src, q.names, q.env, c.expression, time);
    }
    if test.Got? { LikeTests(test.value, test'.value); }
    if test.Got? && test.value.ToBool() {
      BlockAlike(reach, p.(names := inBody), q.(names := inBody), b, time);
      var body, body' := ExecBlock(p.src, inBody, p.env, b, time), ExecBlock(q.src, inBody, q.env, b, time);
      if body.Goes? {
        var p', q' := View(p.src, atPostfix, body.env), View(q.src, atPostfix, body'.env);
        if o.Present? { StoreAlike(reach, p', q', o.expression, time); }
        var next := ExecOptionalStore(p.src, atPostfix, body.env, o, time);
        var next' := ExecOptionalStore(q.src, atPostfix, body'.env, o, time);
        if next.Goes? && time > 0 {
          LoopAlike(reach, p.(env := next.env), q.(env := next'.env), s, time - 1);
        }
      }
    }
  }

  lemma LikeTests(v: ConstValue, u: ConstValue)
    requires Like(v, u)
    ensures v.ToBool() == u.ToBool()
  {
  }

  lemma {:induction false} ExecAlike(reach: set<string>, p: View, q: View, s: Statement, time: nat)
    requires WellFormedSource(p.src) && WellFormed(p.src, s) && ResolvesStatement(p.src, p.names, s)
    requires WellFormedSource(q.src) && WellFormed(q.src, s) && ResolvesStatement(q.src, q.names, s)
    requires Share(p.src, q.src, reach) && StatementCalls(s) <= reach && SameLocals(p, q)
    requires Alike(p.src, q.src, StatementLooks(p.names, s), {})
    ensures LikeProgress(Exec(p.src, p.names, p.env, s, time), Exec(q.src, q.names, q.env, s, time))
    decreases time, s, 3
  {
    hide WellFormedSource, Eval, ExecBlock, ExecStore, ExecOptionalStore, ExecLoop, WellFormedBlock, ResolvesBlock, Resolves,
      ResolvesLoop, Share, Like, LikeEnvs, Looks, BlockLooks, LoopLooks, Calls, BlockCalls, SeeAlike, Declares,
      DeclaresBlock;
    match s
    case ReturnStatement(o) =>
      LikeItself(ZERO);
      if o.Present? {
        LocalsSeeAlike(p, q, o.expression);
        EvalAlike(reach, p, q, o.expression, time);
      }
    case IfStatement(_, _, _) => IfAlike(reach, p, q, s, time);
    case WhileStatement(_, _) => LoopAlike(reach, p, q, s, time);
    case ForStatement(i, _, _, _) =>
      OptionalStoreAlike(reach, p, q, i, time);
      var (x, y) := (ExecOptionalStore(p.src, p.names, p.env, i, time), ExecOptionalStore(q.src, q.names, q.env, i, time));
      var names := p.names + DeclaresOptional(i);
      if x.Goes? { LoopAlike(reach, View(p.src, names, x.env), View(q.src, names, y.env), s, time); }
    case BlockStatement(b) => BlockAlike(reach, p, q, b, time);
    case ExpressionStatement(e) =>
      if e.IsStore() { StoreAlike(reach, p, q, e, time); }
      else {
        LocalsSeeAlike(p, q, e);
        EvalAlike(reach, p, q, e, time);
      }
    case _ =>
  }

  lemma {:induction false} IfAlike(reach: set<string>, p: View, q: View, s: Statement, time: nat)
    requires s.IfStatement?
    requires WellFormedSource(p.src) && WellFormed(p.src, s) && ResolvesStatement(p.src, p.names, s)
    requires WellFormedSource(q.src) && WellFormed(q.src, s) && ResolvesStatement(q.src, q.names, s)
    requires Share(p.src, q.src, reach) && StatementCalls(s) <= reach && SameLocals(p, q)
    requires Alike(p.src, q.src, StatementLooks(p.names, s), {})
    ensures LikeProgress(Exec(p.src, p.names, p.env, s, time), Exec(q.src, q.names, q.env, s, time))
    decreases time, s, 2
  {
    hide WellFormedSource, Eval, ExecBlock, WellFormedBlock, ResolvesBlock, Resolves, ValueExpression, Share, Like, LikeEnvs,
      Looks, BlockLooks, Calls, BlockCalls, SeeAlike, Declares, DeclaresBlock;
    var c, t, e := s.ifCondition, s.thenBranch, s.elseBranch;
    var inThen := p.names + Declares(c);
    LocalsSeeAlike(p, q, c);
    EvalAlike(reach, p, q, c, time);
    var (x, y) := (Eval(p.src, p.names, p.env, c, time), Eval(q.src, q.names, q.env, c, time));
    if x.Got? {
      LikeTests(x.value, y.value);
      if x.value.ToBool() { BlockAlike(reach, p.(names := inThen), q.(names := inThen), t, time); }
      else if e.SomeBlock? {
        var inElse := inThen + DeclaresBlock(t);
        BlockAlike(reach, p.(names := inElse), q.(names := inElse), e.block, time);
      }
    }
  }

  lemma {:induction false} BlockAlike(reach: set<string>, p: View, q: View, b: Block, time: nat)
    requires WellFormedSource(p.src) && WellFormedBlock(p.src, b) && ResolvesBlock(p.src, p.names, b)
    requires WellFormedSource(q.src) && WellFormedBlock(q.src, b) && ResolvesBlock(q.src, q.names, b)
    requires Share(p.src, q.src, reach) && BlockCalls(b) <= reach && SameLocals(p, q)
    requires Alike(p.src, q.src, BlockLooks(p.names, b), {})
    ensures LikeProgress(ExecBlock(p.src, p.names, p.env, b, time), ExecBlock(q.src, q.names, q.env, b, time))
    decreases time, b, 1
  {
    hide WellFormedSource, Exec, WellFormed, ResolvesStatement, Share, Like, LikeEnvs, StatementLooks, StatementCalls,
      DeclaresStatement;
    if b.Statements? {
      ExecAlike(reach, p, q, b.head, time);
      var (x, y) := (Exec(p.src, p.names, p.env, b.head, time), Exec(q.src, q.names, q.env, b.head, time));
      var names := p.names + DeclaresStatement(b.head);
      if x.Goes? { BlockAlike(reach, View(p.src, names, x.env), View(q.src, names, y.env), b.tail, time); }
    }
  }
}
