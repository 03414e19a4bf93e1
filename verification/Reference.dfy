/** What the trees mean: an evaluator over named environments, with no stack, slots, windows or limits.  `time` bounds
    the nesting of calls and loop turns, so that the definition ends; it changes nothing else. */
module Reference {
  import opened ConstValues
  import opened Arithmetic
  import opened Syntax
  import opened CodeShape

  type Env = map<string, ConstValue>

  /** A value, a value that ends the whole evaluation (an error or a thrown name), or no answer yet. */
  datatype Answer = Got(value: ConstValue) | Ends(final: ConstValue) | Late

  datatype Answers = GotAll(values: seq<ConstValue>) | EndsAll(final: ConstValue) | LateAll

  /** A statement goes on with an environment, returns from the function, ends everything, or is late. */
  datatype Progress = Goes(env: Env) | Gives(value: ConstValue) | Stops(final: ConstValue) | Unknown

  /** A declared variable that was never stored reads as integer 0. */
  function Read(env: Env, x: string): ConstValue {
    if x in env then env[x] else ZERO
  }

  function Lookup(src: Source, names: set<string>, env: Env, x: string): ConstValue
    requires ResolvesName(src, names, x)
  {
    if x in names then Read(env, x) else Materialize(src.constants[x])
  }

  function Bind(params: seq<string>, values: seq<ConstValue>): Env
    requires |params| == |values|
  {
    if |params| == 0 then map[]
    else Bind(params[..|params| - 1], values[..|values| - 1])[params[|params| - 1] := values[|values| - 1]]
  }

  function Apply(r: OpResult): Answer {
    match r case Push(v) => Got(v) case Stop(v) => Ends(v)
  }

  function Eval(src: Source, names: set<string>, env: Env, e: Expression, time: nat): Answer
    requires WellFormedSource(src) && ValueExpression(src, e) && Resolves(src, names, e)
    decreases time, e, 1
  {
    match e
    case IntegerLiteral(lit) => Got(Materialize(LiteralConstant(lit)))
    case BooleanLiteral(b) => Got(Bool(b))
    case Identifier(x) => Got(Lookup(src, names, env, x))
    case FieldAccess(o, f) => Got(Lookup(src, names, env, o.name + "." + f))
    case BinaryExpression(l, op, r, mode) =>
      ValuesDeclareNothing(src, l);
      assert names + Declares(l) == names;
      var left := Eval(src, names, env, l, time);
      if !left.Got? then left
      else
        var right := Eval(src, names, env, r, time);
        if !right.Got? then right else Apply(ApplyBinary(op, mode, left.value, right.value))
    case UnaryExpression(op, a, mode) =>
      var operand := Eval(src, names, env, a, time);
      if !operand.Got? then operand else Apply(ApplyUnary(op, mode, operand.value))
    case CastExpression(w, s, a) =>
      var operand := Eval(src, names, env, a, time);
      if !operand.Got? then operand else Got(Integer(operand.value.ToInt(), w, s))
    case FunctionCall(f, args) =>
      if (f == "likely" || f == "unlikely") && args.Count() == 1 then
        assert args.MoreArguments? && ValueArguments(src, args);
        Eval(src, names, env, args.first, time)
      else
        var operands := EvalArguments(src, names, env, args, time);
        if operands.EndsAll? then Ends(operands.final)
        else if operands.LateAll? then Late
        else if !Compiles(src, src.functions[f]) then Ends(Error)
        else if time == 0 then Late
        else Invoke(src, f, operands.values, time - 1)
  }

  function EvalArguments(src: Source, names: set<string>, env: Env, args: Arguments, time: nat): (r: Answers)
    requires WellFormedSource(src) && ValueArguments(src, args) && ResolvesArguments(src, names, args)
    ensures r.GotAll? ==> |r.values| == args.Count()
    decreases time, args, 1
  {
    match args
    case NoArguments => GotAll([])
    case MoreArguments(a, rest) =>
      ValuesDeclareNothing(src, a);
      assert names + Declares(a) == names;
      match Eval(src, names, env, a, time)
      case Ends(v) => EndsAll(v)
      case Late => LateAll
      case Got(v) =>
        match EvalArguments(src, names, env, rest, time)
        case GotAll(vs) => GotAll([v] + vs)
        case other => other
  }

  /** The body in a fresh environment; falling off its end returns 0. */
  function Invoke(src: Source, f: string, args: seq<ConstValue>, time: nat): Answer
    requires WellFormedSource(src) && f in src.functions && Compiles(src, src.functions[f])
    requires |args| == |src.functions[f].paramNames|
    decreases time, src.functions[f], 1
  {
    var fn := src.functions[f];
    match ExecBlock(src, NameSet(fn.paramNames), Bind(fn.paramNames, args), fn.body, time)
    case Goes(_) => Got(ZERO)
    case Gives(v) => Got(v)
    case Stops(v) => Ends(v)
    case Unknown => Late
  }

  function ExecStore(src: Source, names: set<string>, env: Env, e: Expression, time: nat): (r: Progress)
    requires WellFormedSource(src) && StoreExpression(src, e) && Resolves(src, names, e)
    ensures !r.Gives?
    decreases time, e, 1
  {
    var x := if e.VariableInit? then e.declared else e.target;
    match Eval(src, names, env, if e.VariableInit? then e.initial else e.stored, time)
    case Got(v) => Goes(env[x := v])
    case Ends(v) => Stops(v)
    case Late => Unknown
  }

  function ExecOptionalStore(src: Source, names: set<string>, env: Env, o: OptionalExpression, time: nat): (r: Progress)
    requires WellFormedSource(src) && (o.Present? ==> StoreExpression(src, o.expression)) && ResolvesOptional(src, names, o)
    ensures !r.Gives?
    decreases time, o, 1
  {
    match o case Absent => Goes(env) case Present(e) => ExecStore(src, names, env, e, time)
  }

  function ExecLoop(src: Source, names: set<string>, env: Env, s: Statement, time: nat): Progress
    requires s.WhileStatement? || s.ForStatement?
    requires WellFormedSource(src) && WellFormed(src, s) && ResolvesLoop(src, names, s)
    decreases time, s, 2
  {
    var c := if s.WhileStatement? then Present(s.whileCondition) else s.forCondition;
    var b := if s.WhileStatement? then s.whileBody else s.forBody;
    var p := if s.WhileStatement? then Absent else s.postfix;
    var inBody := names + DeclaresOptional(c);
    var test := if c.Absent? then Got(Bool(true)) else Eval(src, names, env, c.expression, time);
    if test.Ends? then Stops(test.final)
    else if test.Late? then Unknown
    else if !test.value.ToBool() then Goes(env)
    else
      var body := ExecBlock(src, inBody, env, b, time);
      if !body.Goes? then body
      else
        var postfix := if p.Absent? then Goes(body.env)
                       else ExecStore(src, inBody + DeclaresBlock(b), body.env, p.expression, time);
        if !postfix.Goes? then postfix
        else if time == 0 then Unknown
        else ExecLoop(src, names, postfix.env, s, time - 1)
  }

  function Exec(src: Source, names: set<string>, env: Env, s: Statement, time: nat): Progress
    requires WellFormedSource(src) && WellFormed(src, s) && ResolvesStatement(src, names, s)
    decreases time, s, 3
  {
    match s
    case ReturnStatement(o) =>
      if o.Absent? then Gives(ZERO)
      else
        (match Eval(src, names, env, o.expression, time)
         case Got(v) => Gives(v) case Ends(v) => Stops(v) case Late => Unknown)
    case ThrowStatement(name) => Stops(Thrown(name))
    case IfStatement(c, t, e) =>
      var test := Eval(src, names, env, c, time);
      var inThen := names + Declares(c);
      if test.Ends? then Stops(test.final)
      else if test.Late? then Unknown
      else if test.value.ToBool() then ExecBlock(src, inThen, env, t, time)
      else if e.SomeBlock? then ExecBlock(src, inThen + DeclaresBlock(t), env, e.block, time)
      else Goes(env)
    case WhileStatement(_, _) => ExecLoop(src, names, env, s, time)
    case ForStatement(i, _, _, _) =>
      var start := ExecOptionalStore(src, names, env, i, time);
      if !start.Goes? then start else ExecLoop(src, names + DeclaresOptional(i), start.env, s, time)
    case BlockStatement(b) => ExecBlock(src, names, env, b, time)
    case ExpressionStatement(e) =>
      if e.IsStore() then ExecStore(src, names, env, e, time)
      else
        (match Eval(src, names, env, e, time)
         case Got(_) => Goes(env) case Ends(v) => Stops(v) case Late => Unknown)
  }

  function ExecBlock(src: Source, names: set<string>, env: Env, b: Block, time: nat): Progress
    requires WellFormedSource(src) && WellFormedBlock(src, b) && ResolvesBlock(src, names, b)
    decreases time, b, 1
  {
    match b
    case EmptyBlock => Goes(env)
    case Statements(s, rest) =>
      var first := Exec(src, names, env, s, time);
      if !first.Goes? then first else ExecBlock(src, names + DeclaresStatement(s), first.env, rest, time)
  }

  // ----- an answer, once given, stands -----

  lemma {:induction false} EvalStands(src: Source, names: set<string>, env: Env, e: Expression, time: nat, more: nat)
    requires WellFormedSource(src) && ValueExpression(src, e) && Resolves(src, names, e)
    requires time <= more && !Eval(src, names, env, e, time).Late?
    ensures Eval(src, names, env, e, more) == Eval(src, names, env, e, time)
    decreases time, e, 1
  {
    hide WellFormedSource, ApplyBinary, ApplyUnary, Invoke;
    match e
    case BinaryExpression(l, _, r, _) =>
      ValuesDeclareNothing(src, l);
      assert names + Declares(l) == names;
      EvalStands(src, names, env, l, time, more);
      if Eval(src, names, env, l, time).Got? { EvalStands(src, names, env, r, time, more); }
    case UnaryExpression(_, a, _) => EvalStands(src, names, env, a, time, more);
    case CastExpression(_, _, a) => EvalStands(src, names, env, a, time, more);
    case FunctionCall(f, args) =>
      if IsHint(f, args) {
        assert args.MoreArguments? && ValueArguments(src, args);
        EvalStands(src, names, env, args.first, time, more);
      } else {
        ArgumentsStand(src, names, env, args, time, more);
        var operands := EvalArguments(src, names, env, args, time);
        if operands.GotAll? && Compiles(src, src.functions[f]) {
          InvokeStands(src, f, operands.values, time - 1, more - 1);
        }
      }
    case _ =>
  }

  lemma {:induction false} ArgumentsStand(src: Source, names: set<string>, env: Env, args: Arguments, time: nat, more: nat)
    requires WellFormedSource(src) && ValueArguments(src, args) && ResolvesArguments(src, names, args)
    requires time <= more && !EvalArguments(src, names, env, args, time).LateAll?
    ensures EvalArguments(src, names, env, args, more) == EvalArguments(src, names, env, args, time)
    decreases time, args, 1
  {
    hide WellFormedSource, Eval;
    if args.MoreArguments? {
      ValuesDeclareNothing(src, args.first);
      assert names + Declares(args.first) == names;
      EvalStands(src, names, env, args.first, time, more);
      if Eval(src, names, env, args.first, time).Got? { ArgumentsStand(src, names, env, args.rest, time, more); }
    }
  }

  lemma {:induction false} InvokeStands(src: Source, f: string, args: seq<ConstValue>, time: nat, more: nat)
    requires WellFormedSource(src) && f in src.functions && Compiles(src, src.functions[f])
    requires |args| == |src.functions[f].paramNames| && time <= more && !Invoke(src, f, args, time).Late?
    ensures Invoke(src, f, args, more) == Invoke(src, f, args, time)
    decreases time, src.functions[f], 1
  {
    hide ExecBlock;
    var fn := src.functions[f];
    BlockStands(src, NameSet(fn.paramNames), Bind(fn.paramNames, args), fn.body, time, more);
  }

  lemma {:induction false} StoreStands(src: Source, names: set<string>, env: Env, e: Expression, time: nat, more: nat)
    requires WellFormedSource(src) && StoreExpression(src, e) && Resolves(src, names, e)
    requires time <= more && !ExecStore(src, names, env, e, time).Unknown?
    ensures ExecStore(src, names, env, e, more) == ExecStore(src, names, env, e, time)
    decreases time, e, 1
  {
    hide WellFormedSource, Eval;
    EvalStands(src, names, env, if e.VariableInit? then e.initial else e.stored, time, more);
  }

  lemma {:induction false} OptionalStoreStands(src: Source, names: set<string>, env: Env, o: OptionalExpression, time: nat,
                                               more: nat)
    requires WellFormedSource(src) && (o.Present? ==> StoreExpression(src, o.expression)) && ResolvesOptional(src, names, o)
    requires time <= more && !ExecOptionalStore(src, names, env, o, time).Unknown?
    ensures ExecOptionalStore(src, names, env, o, more) == ExecOptionalStore(src, names, env, o, time)
    decreases time, o, 1
  {
    hide WellFormedSource, ExecStore;
    if o.Present? { StoreStands(src, names, env, o.expression, time, more); }
  }

  lemma {:induction false} LoopStands(src: Source, names: set<string>, env: Env, s: Statement, time: nat, more: nat)
    requires s.WhileStatement? || s.ForStatement?
    requires WellFormedSource(src) && WellFormed(src, s) && ResolvesLoop(src, names, s)
    requires time <= more && !ExecLoop(src, names, env, s, time).Unknown?
    ensures ExecLoop(src, names, env, s, more) == ExecLoop(src, names, env, s, time)
    decreases time, s, 2
  {
    hide WellFormedSource, Eval, ExecBlock, ExecStore, ValueExpression, WellFormedBlock, ResolvesBlock, Resolves;
    var c := LoopCondition(s);
    var inBody := names + DeclaresOptional(c);
    if c.Present? { EvalStands(src, names, env, c.expression, time, more); }
    var test := if c.Absent? then Got(Bool(true)) else Eval(src, names, env, c.expression, time);
    if test.Got? && test.value.ToBool() {
      BlockStands(src, inBody, env, LoopBody(s), time, more);
      var body := ExecBlock(src, inBody, env, LoopBody(s), time);
      if body.Goes? {
        var atPostfix := inBody + DeclaresBlock(LoopBody(s));
        var p := LoopPostfix(s);
        if p.Present? { StoreStands(src, atPostfix, body.env, p.expression, time, more); }
        var postfix := if p.Absent? then Goes(body.env) else ExecStore(src, atPostfix, body.env, p.expression, time);
        if postfix.Goes? && time > 0 { LoopStands(src, names, postfix.env, s, time - 1, more - 1); }
      }
    }
  }

  lemma {:induction false} ExecStands(src: Source, names: set<string>, env: Env, s: Statement, time: nat, more: nat)
    requires WellFormedSource(src) && WellFormed(src, s) && ResolvesStatement(src, names, s)
    requires time <= more && !Exec(src, names, env, s, time).Unknown?
    ensures Exec(src, names, env, s, more) == Exec(src, names, env, s, time)
    decreases time, s, 3
  {
    hide WellFormedSource, Eval, ExecBlock, ExecOptionalStore, ExecStore, ExecLoop, WellFormedBlock, ResolvesBlock,
      Resolves, ResolvesLoop;
    match s
    case ReturnStatement(o) => if o.Present? { EvalStands(src, names, env, o.expression, time, more); }
    case IfStatement(c, t, e) =>
      EvalStands(src, names, env, c, time, more);
      var test := Eval(src, names, env, c, time);
      var inThen := names + Declares(c);
      if test.Got? {
        if test.value.ToBool() { BlockStands(src, inThen, env, t, time, more); }
        else if e.SomeBlock? { BlockStands(src, inThen + DeclaresBlock(t), env, e.block, time, more); }
      }
    case WhileStatement(_, _) => LoopStands(src, names, env, s, time, more);
    case ForStatement(i, _, _, _) =>
      OptionalStoreStands(src, names, env, i, time, more);
      var start := ExecOptionalStore(src, names, env, i, time);
      if start.Goes? { LoopStands(src, names + DeclaresOptional(i), start.env, s, time, more); }
    case BlockStatement(b) => BlockStands(src, names, env, b, time, more);
    case ExpressionStatement(e) =>
      if e.IsStore() { StoreStands(src, names, env, e, time, more); }
      else { EvalStands(src, names, env, e, time, more); }
    case _ =>
  }

  lemma {:induction false} BlockStands(src: Source, names: set<string>, env: Env, b: Block, time: nat, more: nat)
    requires WellFormedSource(src) && WellFormedBlock(src, b) && ResolvesBlock(src, names, b)
    requires time <= more && !ExecBlock(src, names, env, b, time).Unknown?
    ensures ExecBlock(src, names, env, b, more) == ExecBlock(src, names, env, b, time)
    decreases time, b, 1
  {
    hide WellFormedSource, Exec, WellFormed, ResolvesStatement;
    if b.Statements? {
      ExecStands(src, names, env, b.head, time, more);
      var first := Exec(src, names, env, b.head, time);
      if first.Goes? { BlockStands(src, names + DeclaresStatement(b.head), first.env, b.tail, time, more); }
    }
  }

  /** The meaning of an expression: its answer for some bound on time, and so for every larger one. */
  ghost predicate Means(src: Source, names: set<string>, env: Env, e: Expression, answer: Answer)
    requires WellFormedSource(src) && ValueExpression(src, e) && Resolves(src, names, e)
  {
    !answer.Late? && exists time: nat :: Eval(src, names, env, e, time) == answer
  }

  lemma MeaningIsUnique(src: Source, names: set<string>, env: Env, e: Expression, a: Answer, b: Answer)
    requires WellFormedSource(src) && ValueExpression(src, e) && Resolves(src, names, e)
    requires Means(src, names, env, e, a) && Means(src, names, env, e, b)
    ensures a == b
  {
    var s: nat :| Eval(src, names, env, e, s) == a;
    var t: nat :| Eval(src, names, env, e, t) == b;
    if s <= t { EvalStands(src, names, env, e, s, t); } else { EvalStands(src, names, env, e, t, s); }
  }
}
