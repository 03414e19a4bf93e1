/** Values and endings never mix: what an expression yields is never a thrown name, and what ends an evaluation is the
    error value or a thrown name. */
module ThrownNames {
  import opened ConstValues
  import opened Arithmetic
  import opened Syntax
  import opened Reference

  predicate Ending(v: ConstValue) { v.Error? || v.Thrown? }

  ghost predicate NoneThrown(env: Env) { forall x :: x in env ==> !env[x].Thrown? }

  predicate NoneIsThrown(vs: seq<ConstValue>) { forall v :: v in vs ==> !v.Thrown? }

  predicate Clean(a: Answer) { (a.Got? ==> !a.value.Thrown?) && (a.Ends? ==> Ending(a.final)) }

  predicate CleanAll(a: Answers) { (a.GotAll? ==> NoneIsThrown(a.values)) && (a.EndsAll? ==> Ending(a.final)) }

  ghost predicate CleanProgress(p: Progress) {
    (p.Goes? ==> NoneThrown(p.env)) && (p.Gives? ==> !p.value.Thrown?) && (p.Stops? ==> Ending(p.final))
  }

  lemma DivisionIsClean(mode: OverflowMode, l: ConstValue, r: ConstValue)
    ensures Clean(Apply(Divide(mode, l, r))) && Clean(Apply(Remainder(mode, l, r)))
  {
    hide FitInt, Quotient, TruncMod, CommonWidth, CommonSign;
  }

  lemma OperatorsAreClean(op: BinaryOp, mode: OverflowMode, l: ConstValue, r: ConstValue)
    ensures Clean(Apply(ApplyBinary(op, mode, l, r)))
  {
    hide FitInt, Bitwise64, Wrap64, Pow2, AddOverflows64, SubOverflows64, MulOverflows64, CommonWidth, CommonSign, Divide,
      Remainder;
    DivisionIsClean(mode, l, r);
  }

  lemma UnaryIsClean(op: UnaryOp, mode: OverflowMode, v: ConstValue)
    ensures Clean(Apply(ApplyUnary(op, mode, v)))
  {
    hide FitInt, LimitsFor;
  }

  lemma {:induction false} EvalIsClean(src: Source, names: set<string>, env: Env, e: Expression, time: nat)
    requires WellFormedSource(src) && ValueExpression(src, e) && Resolves(src, names, e) && NoneThrown(env)
    ensures Clean(Eval(src, names, env, e, time))
    decreases time, e, 1
  {
    hide WellFormedSource, ApplyBinary, ApplyUnary, Invoke;
    match e
    case BinaryExpression(l, op, r, mode) =>
      ValuesDeclareNothing(src, l);
      assert names + Declares(l) == names;
      EvalIsClean(src, names, env, l, time);
      EvalIsClean(src, names, env, r, time);
      var left, right := Eval(src, names, env, l, time), Eval(src, names, env, r, time);
      if left.Got? && right.Got? { OperatorsAreClean(op, mode, left.value, right.value); }
    case UnaryExpression(op, a, mode) =>
      EvalIsClean(src, names, env, a, time);
      var operand := Eval(src, names, env, a, time);
      if operand.Got? { UnaryIsClean(op, mode, operand.value); }
    case CastExpression(_, _, a) => EvalIsClean(src, names, env, a, time);
    case FunctionCall(f, args) =>
      if IsHint(f, args) {
        assert args.MoreArguments? && ValueArguments(src, args);
        EvalIsClean(src, names, env, args.first, time);
      } else {
        ArgumentsAreClean(src, names, env, args, time);
        var operands := EvalArguments(src, names, env, args, time);
        if operands.GotAll? && Compiles(src, src.functions[f]) && time > 0 {
          InvokeIsClean(src, f, operands.values, time - 1);
        }
      }
    case _ =>
  }

  lemma {:induction false} ArgumentsAreClean(src: Source, names: set<string>, env: Env, args: Arguments, time: nat)
    requires WellFormedSource(src) && ValueArguments(src, args) && ResolvesArguments(src, names, args) && NoneThrown(env)
    ensures CleanAll(EvalArguments(src, names, env, args, time))
    decreases time, args, 1
  {
    hide WellFormedSource, Eval;
    if args.MoreArguments? {
      ValuesDeclareNothing(src, args.first);
      assert names + Declares(args.first) == names;
      EvalIsClean(src, names, env, args.first, time);
      ArgumentsAreClean(src, names, env, args.rest, time);
    }
  }

  lemma {:induction false} BindIsClean(params: seq<string>, values: seq<ConstValue>)
    requires |params| == |values| && NoneIsThrown(values)
    ensures NoneThrown(Bind(params, values))
    decreases |params|
  {
    if |params| > 0 { BindIsClean(params[..|params| - 1], values[..|values| - 1]); }
  }

  lemma {:induction false} InvokeIsClean(src: Source, f: string, args: seq<ConstValue>, time: nat)
    requires WellFormedSource(src) && f in src.functions && Compiles(src, src.functions[f])
    requires |args| == |src.functions[f].paramNames| && NoneIsThrown(args)
    ensures Clean(Invoke(src, f, args, time))
    decreases time, src.functions[f], 1
  {
    hide ExecBlock;
    var fn := src.functions[f];
    BindIsClean(fn.paramNames, args);
    BlockIsClean(src, NameSet(fn.paramNames), Bind(fn.paramNames, args), fn.body, time);
  }

  lemma {:induction false} StoreIsClean(src: Source, names: set<string>, env: Env, e: Expression, time: nat)
    requires WellFormedSource(src) && StoreExpression(src, e) && Resolves(src, names, e) && NoneThrown(env)
    ensures CleanProgress(ExecStore(src, names, env, e, time))
    decreases time, e, 1
  {
    hide WellFormedSource, Eval;
    EvalIsClean(src, names, env, if e.VariableInit? then e.initial else e.stored, time);
  }

  lemma {:induction false} LoopIsClean(src: Source, names: set<string>, env: Env, s: Statement, time: nat)
    requires s.WhileStatement? || s.ForStatement?
    requires WellFormedSource(src) && WellFormed(src, s) && ResolvesLoop(src, names, s) && NoneThrown(env)
    ensures CleanProgress(ExecLoop(src, names, env, s, time))
    decreases time, s, 2
  {
    hide WellFormedSource, Eval, ExecBlock, ExecStore, ValueExpression, WellFormedBlock, ResolvesBlock, Resolves;
    var c, p := LoopCondition(s), LoopPostfix(s);
    var inBody := names + DeclaresOptional(c);
    var atPostfix := inBody + DeclaresBlock(LoopBody(s));
    if c.Present? { EvalIsClean(src, names, env, c.expression, time); }
    BlockIsClean(src, inBody, env, LoopBody(s), time);
    var body := ExecBlock(src, inBody, env, LoopBody(s), time);
    if body.Goes? {
      if p.Present? { StoreIsClean(src, atPostfix, body.env, p.expression, time); }
      var postfix := if p.Absent? then Goes(body.env) else ExecStore(src, atPostfix, body.env, p.expression, time);
      if postfix.Goes? && time > 0 { LoopIsClean(src, names, postfix.env, s, time - 1); }
    }
  }

  lemma {:induction false} ExecIsClean(src: Source, names: set<string>, env: Env, s: Statement, time: nat)
    requires WellFormedSource(src) && WellFormed(src, s) && ResolvesStatement(src, names, s) && NoneThrown(env)
    ensures CleanProgress(Exec(src, names, env, s, time))
    decreases time, s, 3
  {
    hide WellFormedSource, Eval, ExecBlock, ExecStore, ExecLoop, WellFormedBlock, ResolvesBlock, Resolves, ResolvesLoop;
    match s
    case ReturnStatement(o) => if o.Present? { EvalIsClean(src, names, env, o.expression, time); }
    case IfStatement(c, t, e) =>
      var inThen := names + Declares(c);
      EvalIsClean(src, names, env, c, time);
      BlockIsClean(src, inThen, env, t, time);
      if e.SomeBlock? { BlockIsClean(src, inThen + DeclaresBlock(t), env, e.block, time); }
    case WhileStatement(_, _) => LoopIsClean(src, names, env, s, time);
    case ForStatement(i, _, _, _) =>
      if i.Present? { StoreIsClean(src, names, env, i.expression, time); }
      var start := ExecOptionalStore(src, names, env, i, time);
      if start.Goes? { LoopIsClean(src, names + DeclaresOptional(i), start.env, s, time); }
    case BlockStatement(b) => BlockIsClean(src, names, env, b, time);
    case ExpressionStatement(e) =>
      if e.IsStore() { StoreIsClean(src, names, env, e, time); } else { EvalIsClean(src, names, env, e, time); }
    case _ =>
  }

  lemma {:induction false} BlockIsClean(src: Source, names: set<string>, env: Env, b: Block, time: nat)
    requires WellFormedSource(src) && WellFormedBlock(src, b) && ResolvesBlock(src, names, b) && NoneThrown(env)
    ensures CleanProgress(ExecBlock(src, names, env, b, time))
    decreases time, b, 1
  {
    hide WellFormedSource, Exec, WellFormed, ResolvesStatement;
    if b.Statements? {
      ExecIsClean(src, names, env, b.head, time);
      var first := Exec(src, names, env, b.head, time);
      if first.Goes? { BlockIsClean(src, names + DeclaresStatement(b.head), first.env, b.tail, time); }
    }
  }
}
