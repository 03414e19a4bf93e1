/** What it means for a stretch of instructions to be the code of a tree.  Everything here is stated
    without emitting or patching: sizes and slots are computed from the tree, so every jump target is known. */
module CodeShape {
  import opened ConstValues
  import opened Arithmetic
  import opened Syntax
  import opened Bytecode

  // ----- slots -----

  datatype Scope = Scope(slots: map<string, nat>, next: nat) {
    ghost predicate Valid() {
      (forall x :: x in slots ==> slots[x] < next) &&
      (forall x, y :: x in slots && y in slots && slots[x] == slots[y] ==> x == y)
    }
  }

  const NO_LOCALS: Scope := Scope(map[], 0)

  ghost predicate Within(inner: Scope, outer: Scope) {
    inner.next <= outer.next &&
    forall x :: x in inner.slots ==> x in outer.slots && outer.slots[x] == inner.slots[x]
  }

  function Declare(sc: Scope, x: string): (r: Scope)
    ensures r.slots.Keys == sc.slots.Keys + {x}
    ensures Within(sc, r) && (sc.Valid() ==> r.Valid())
  {
    if x in sc.slots then sc else Scope(sc.slots[x := sc.next], sc.next + 1)
  }

  function ScopeAfter(sc: Scope, e: Expression): (r: Scope)
    decreases e
  {
    match e
    case BinaryExpression(l, _, r, _) => ScopeAfter(ScopeAfter(sc, l), r)
    case UnaryExpression(_, a, _) => ScopeAfter(sc, a)
    case CastExpression(_, _, a) => ScopeAfter(sc, a)
    case FunctionCall(_, args) => ScopeAfterArguments(sc, args)
    case VariableInit(x, v) => Declare(ScopeAfter(sc, v), x)
    case Assignment(_, v) => ScopeAfter(sc, v)
    case _ => sc
  }

  function ScopeAfterArguments(sc: Scope, args: Arguments): (r: Scope)
    decreases args
  {
    match args
    case NoArguments => sc
    case MoreArguments(a, rest) => ScopeAfterArguments(ScopeAfter(sc, a), rest)
  }

  function ScopeAfterOptional(sc: Scope, o: OptionalExpression): (r: Scope)
    decreases o
  {
    match o case Absent => sc case Present(e) => ScopeAfter(sc, e)
  }

  function ScopeAfterLoop(sc: Scope, s: Statement): (r: Scope)
    requires s.WhileStatement? || s.ForStatement?
    decreases s, 0
  {
    ScopeAfterOptional(ScopeAfterBlock(ScopeAfterOptional(sc, LoopCondition(s)), LoopBody(s)), LoopPostfix(s))
  }

  function ScopeAfterStatement(sc: Scope, s: Statement): (r: Scope)
    decreases s, 1
  {
    match s
    case ReturnStatement(o) => ScopeAfterOptional(sc, o)
    case IfStatement(c, t, NoBlock) => ScopeAfterBlock(ScopeAfter(sc, c), t)
    case IfStatement(c, t, SomeBlock(e)) => ScopeAfterBlock(ScopeAfterBlock(ScopeAfter(sc, c), t), e)
    case WhileStatement(_, _) => ScopeAfterLoop(sc, s)
    case ForStatement(i, _, _, _) => ScopeAfterLoop(ScopeAfterOptional(sc, i), s)
    case BlockStatement(b) => ScopeAfterBlock(sc, b)
    case ExpressionStatement(e) => ScopeAfter(sc, e)
    case _ => sc
  }

  function ScopeAfterBlock(sc: Scope, b: Block): (r: Scope)
    decreases b
  {
    match b
    case EmptyBlock => sc
    case Statements(s, rest) => ScopeAfterBlock(ScopeAfterStatement(sc, s), rest)
  }

  function ScopeOfParameters(params: seq<string>): (r: Scope)
    ensures r.slots.Keys == NameSet(params)
    ensures r.Valid() && r.next <= |params|
    ensures Distinct(params) ==> r.next == |params| && forall i :: 0 <= i < |params| ==> r.slots[params[i]] == i
  {
    if |params| == 0 then NO_LOCALS
    else
      var n := |params| - 1;
      assert NameSet(params) == NameSet(params[..n]) + {params[n]};
      Declare(ScopeOfParameters(params[..n]), params[n])
  }

  /** The scope at the end of a function body; its size is the number of locals of the function. */
  function FinalScope(f: ConstFunction): Scope {
    ScopeAfterBlock(ScopeOfParameters(f.paramNames), f.body)
  }

  // ----- scopes only grow, by the names the tree declares -----

  ghost predicate GrowsBy(sc: Scope, later: Scope, names: set<string>) {
    later.slots.Keys == sc.slots.Keys + names && Within(sc, later) && (sc.Valid() ==> later.Valid())
  }

  lemma GrowsTwice(sc: Scope, middle: Scope, later: Scope, first: set<string>, second: set<string>)
    requires GrowsBy(sc, middle, first) && GrowsBy(middle, later, second)
    ensures GrowsBy(sc, later, first + second)
  {
  }

  lemma {:induction false} ScopeGrows(sc: Scope, e: Expression)
    ensures GrowsBy(sc, ScopeAfter(sc, e), Declares(e))
    decreases e
  {
    match e
    case BinaryExpression(l, _, r, _) => ScopeGrows(sc, l); ScopeGrows(ScopeAfter(sc, l), r);
    case UnaryExpression(_, a, _) => ScopeGrows(sc, a);
    case CastExpression(_, _, a) => ScopeGrows(sc, a);
    case FunctionCall(_, args) => ScopeGrowsByArguments(sc, args);
    case VariableInit(_, v) => ScopeGrows(sc, v);
    case Assignment(_, v) => ScopeGrows(sc, v);
    case _ =>
  }

  lemma {:induction false} ScopeGrowsByArguments(sc: Scope, args: Arguments)
    ensures GrowsBy(sc, ScopeAfterArguments(sc, args), DeclaresArguments(args))
    decreases args
  {
    if args.MoreArguments? {
      ScopeGrows(sc, args.first);
      ScopeGrowsByArguments(ScopeAfter(sc, args.first), args.rest);
    }
  }

  lemma ScopeGrowsByOptional(sc: Scope, o: OptionalExpression)
    ensures GrowsBy(sc, ScopeAfterOptional(sc, o), DeclaresOptional(o))
  {
    if o.Present? { ScopeGrows(sc, o.expression); }
  }

  lemma {:induction false} ScopeGrowsByLoop(sc: Scope, s: Statement)
    requires s.WhileStatement? || s.ForStatement?
    ensures GrowsBy(sc, ScopeAfterLoop(sc, s), DeclaresLoop(s))
    decreases s, 0
  {
    var inBody := ScopeAfterOptional(sc, LoopCondition(s));
    var atPostfix := ScopeAfterBlock(inBody, LoopBody(s));
    var d, e := DeclaresOptional(LoopCondition(s)), DeclaresBlock(LoopBody(s));
    ScopeGrowsByOptional(sc, LoopCondition(s));
    ScopeGrowsByBlock(inBody, LoopBody(s));
    ScopeGrowsByOptional(atPostfix, LoopPostfix(s));
    GrowsTwice(sc, inBody, atPostfix, d, e);
    GrowsTwice(sc, atPostfix, ScopeAfterLoop(sc, s), d + e, DeclaresOptional(LoopPostfix(s)));
  }

  lemma {:induction false} ScopeGrowsByIf(sc: Scope, s: Statement)
    requires s.IfStatement?
    ensures GrowsBy(sc, ScopeAfterStatement(sc, s), DeclaresStatement(s))
    decreases s, 0
  {
    var inThen := ScopeAfter(sc, s.ifCondition);
    var afterThen := ScopeAfterBlock(inThen, s.thenBranch);
    var d, e := Declares(s.ifCondition), DeclaresBlock(s.thenBranch);
    ScopeGrows(sc, s.ifCondition);
    ScopeGrowsByBlock(inThen, s.thenBranch);
    GrowsTwice(sc, inThen, afterThen, d, e);
    if s.elseBranch.SomeBlock? {
      ScopeGrowsByBlock(afterThen, s.elseBranch.block);
      GrowsTwice(sc, afterThen, ScopeAfterStatement(sc, s), d + e, DeclaresBlock(s.elseBranch.block));
    }
  }

  lemma {:induction false} ScopeGrowsByStatement(sc: Scope, s: Statement)
    ensures GrowsBy(sc, ScopeAfterStatement(sc, s), DeclaresStatement(s))
    decreases s, 1
  {
    match s
    case ReturnStatement(o) => ScopeGrowsByOptional(sc, o);
    case IfStatement(_, _, _) => ScopeGrowsByIf(sc, s);
    case WhileStatement(_, _) => ScopeGrowsByLoop(sc, s);
    case ForStatement(i, _, _, _) =>
      ScopeGrowsByOptional(sc, i);
      ScopeGrowsByLoop(ScopeAfterOptional(sc, i), s);
    case BlockStatement(b) => ScopeGrowsByBlock(sc, b);
    case ExpressionStatement(e) => ScopeGrows(sc, e);
    case _ =>
  }

  lemma {:induction false} ScopeGrowsByBlock(sc: Scope, b: Block)
    ensures GrowsBy(sc, ScopeAfterBlock(sc, b), DeclaresBlock(b))
    decreases b
  {
    if b.Statements? {
      ScopeGrowsByStatement(sc, b.head);
      ScopeGrowsByBlock(ScopeAfterStatement(sc, b.head), b.tail);
    }
  }

  /** The scopes along a loop declare what the text declares. */
  lemma LoopKeys(sc: Scope, s: Statement)
    requires s.WhileStatement? || s.ForStatement?
    ensures
      var inBody := ScopeAfterOptional(sc, LoopCondition(s));
      var atPostfix := ScopeAfterBlock(inBody, LoopBody(s));
      inBody.slots.Keys == sc.slots.Keys + DeclaresOptional(LoopCondition(s)) &&
      atPostfix.slots.Keys == inBody.slots.Keys + DeclaresBlock(LoopBody(s))
  {
    var inBody := ScopeAfterOptional(sc, LoopCondition(s));
    ScopeGrowsByOptional(sc, LoopCondition(s));
    ScopeGrowsByBlock(inBody, LoopBody(s));
  }

  // ----- sizes -----

  function Size(e: Expression): nat {
    match e
    case BinaryExpression(l, _, r, _) => Size(l) + Size(r) + 1
    case UnaryExpression(_, a, _) => Size(a) + 1
    case CastExpression(_, _, a) => Size(a) + 1
    case FunctionCall(f, args) => if IsHint(f, args) then Size(args.first) else SizeOfArguments(args) + 1
    case VariableInit(_, v) => Size(v) + 1
    case Assignment(_, v) => Size(v) + 1
    case _ => 1
  }

  function SizeOfArguments(args: Arguments): nat {
    match args case NoArguments => 0 case MoreArguments(a, rest) => Size(a) + SizeOfArguments(rest)
  }

  function SizeOfOptional(o: OptionalExpression): nat {
    match o case Absent => 0 case Present(e) => Size(e)
  }

  function LoopSize(s: Statement): nat
    requires s.WhileStatement? || s.ForStatement?
    decreases s, 0
  {
    SizeOfOptional(LoopCondition(s)) + (if LoopCondition(s).Present? then 1 else 0) + SizeOfBlock(LoopBody(s)) +
    SizeOfOptional(LoopPostfix(s)) + 1
  }

  function SizeOfStatement(s: Statement): nat
    decreases s, 1
  {
    match s
    case ReturnStatement(Absent) => 2
    case ReturnStatement(Present(e)) => Size(e) + 1
    case IfStatement(c, t, NoBlock) => Size(c) + 1 + SizeOfBlock(t)
    case IfStatement(c, t, SomeBlock(e)) => Size(c) + 1 + SizeOfBlock(t) + 1 + SizeOfBlock(e)
    case WhileStatement(_, _) => LoopSize(s)
    case ForStatement(i, _, _, _) => SizeOfOptional(i) + LoopSize(s)
    case BlockStatement(b) => SizeOfBlock(b)
    case ExpressionStatement(e) => if e.IsStore() then Size(e) else Size(e) + 1
    case _ => 1
  }

  function SizeOfBlock(b: Block): nat {
    match b case EmptyBlock => 0 case Statements(s, rest) => SizeOfStatement(s) + SizeOfBlock(rest)
  }

  // ----- code -----

  /** Names and the function-table index of each function. */
  datatype Linkage = Linkage(src: Source, index: map<string, nat>)

  predicate At(code: Code, pc: nat, op: OpCode, operand: nat) {
    pc < |code.instructions| && code.instructions[pc] == Instruction(op, operand)
  }

  predicate PushesConstant(code: Code, pc: nat, v: ConstValue) {
    pc < |code.instructions| && var instr := code.instructions[pc];
    match v
    case Integer(i, _, _) =>
      instr.op == PUSH_INT && instr.operand < |code.intPool| && code.intPool[instr.operand] == i
    case Integer128(w, _) =>
      instr.op == PUSH_INT128 && instr.operand < |code.int128Pool| && code.int128Pool[instr.operand] == w
    case Bool(b) => instr == Instruction(PUSH_BOOL, if b then 1 else 0)
    case _ => false
  }

  predicate LoadsName(lk: Linkage, code: Code, sc: Scope, x: string, pc: nat) {
    if x in sc.slots then At(code, pc, LOAD_LOCAL, sc.slots[x])
    else x in lk.src.constants && PushesConstant(code, pc, lk.src.constants[x])
  }

  function LiteralConstant(lit: Literal): ConstValue {
    match lit case Narrow(v) => MakeInt(v) case Wide(w) => Integer128(w, true) case Unrepresentable => Error
  }

  /** The mode is an operand of the arithmetic instructions only. */
  function BinaryOperand(op: BinaryOp, mode: OverflowMode): nat {
    match op
    case Plus => ModeCode(mode)
    case Minus => ModeCode(mode)
    case Star => ModeCode(mode)
    case Slash => ModeCode(mode)
    case Percent => ModeCode(mode)
    case _ => 0
  }

  function UnaryOperand(op: UnaryOp, mode: OverflowMode): nat {
    if op.Negate? then ModeCode(mode) else 0
  }

  predicate CodeOf(lk: Linkage, code: Code, sc: Scope, e: Expression, pc: nat)
    decreases e
  {
    match e
    case IntegerLiteral(lit) => PushesConstant(code, pc, LiteralConstant(lit))
    case BooleanLiteral(b) => PushesConstant(code, pc, Bool(b))
    case Identifier(x) => LoadsName(lk, code, sc, x, pc)
    case FieldAccess(o, f) => o.Identifier? && LoadsName(lk, code, sc, o.name + "." + f, pc)
    case BinaryExpression(l, op, r, mode) =>
      CodeOf(lk, code, sc, l, pc) && CodeOf(lk, code, ScopeAfter(sc, l), r, pc + Size(l)) &&
      At(code, pc + Size(l) + Size(r), BINARY(op), BinaryOperand(op, mode))
    case UnaryExpression(op, a, mode) =>
      CodeOf(lk, code, sc, a, pc) && At(code, pc + Size(a), UNARY(op), UnaryOperand(op, mode))
    case CastExpression(w, s, a) =>
      CodeOf(lk, code, sc, a, pc) && At(code, pc + Size(a), CAST_INT, CastOperand(w, s))
    case FunctionCall(f, args) =>
      if IsHint(f, args) then CodeOf(lk, code, sc, args.first, pc)
      else
        CodeOfArguments(lk, code, sc, args, pc) && f in lk.index &&
        At(code, pc + SizeOfArguments(args), CALL, lk.index[f])
    case VariableInit(x, v) =>
      CodeOf(lk, code, sc, v, pc) && At(code, pc + Size(v), STORE_LOCAL, ScopeAfter(sc, e).slots[x])
    case Assignment(x, v) =>
      CodeOf(lk, code, sc, v, pc) && x in ScopeAfter(sc, v).slots &&
      At(code, pc + Size(v), STORE_LOCAL, ScopeAfter(sc, v).slots[x])
    case OtherExpression => false
  }

  predicate CodeOfArguments(lk: Linkage, code: Code, sc: Scope, args: Arguments, pc: nat)
    decreases args
  {
    match args
    case NoArguments => true
    case MoreArguments(a, rest) =>
      CodeOf(lk, code, sc, a, pc) && CodeOfArguments(lk, code, ScopeAfter(sc, a), rest, pc + Size(a))
  }

  predicate CodeOfOptional(lk: Linkage, code: Code, sc: Scope, o: OptionalExpression, pc: nat)
    decreases o
  {
    o.Present? ==> CodeOf(lk, code, sc, o.expression, pc)
  }

  /** The loop itself, without a for-initializer: condition, exit, body, postfix, jump back. */
  predicate CodeOfLoop(lk: Linkage, code: Code, sc: Scope, s: Statement, pc: nat)
    requires s.WhileStatement? || s.ForStatement?
    decreases s, 0
  {
    var c, b, p := LoopCondition(s), LoopBody(s), LoopPostfix(s);
    var atBody := pc + SizeOfOptional(c) + (if c.Present? then 1 else 0);
    var inBody := ScopeAfterOptional(sc, c);
    var atPostfix := atBody + SizeOfBlock(b);
    var end := pc + LoopSize(s);
    CodeOfOptional(lk, code, sc, c, pc) &&
    (c.Present? ==> At(code, pc + SizeOfOptional(c), JMP_IF_FALSE, end)) &&
    CodeOfBlock(lk, code, inBody, b, atBody) &&
    CodeOfOptional(lk, code, ScopeAfterBlock(inBody, b), p, atPostfix) &&
    At(code, end - 1, JMP, pc)
  }

  predicate CodeOfStatement(lk: Linkage, code: Code, sc: Scope, s: Statement, pc: nat)
    decreases s, 1
  {
    match s
    case ReturnStatement(Absent) => PushesConstant(code, pc, ZERO) && At(code, pc + 1, RET, 0)
    case ReturnStatement(Present(e)) => CodeOf(lk, code, sc, e, pc) && At(code, pc + Size(e), RET, 0)
    case ThrowStatement(name) =>
      pc < |code.instructions| && var instr := code.instructions[pc];
      instr.op == THROW && instr.operand < |code.stringPool| && code.stringPool[instr.operand] == name
    case IfStatement(c, t, e) =>
      var inThen := ScopeAfter(sc, c);
      var atThen := pc + Size(c) + 1;
      var afterThen := atThen + SizeOfBlock(t);
      CodeOf(lk, code, sc, c, pc) && CodeOfBlock(lk, code, inThen, t, atThen) &&
      At(code, pc + Size(c), JMP_IF_FALSE, if e.SomeBlock? then afterThen + 1 else afterThen) &&
      (e.SomeBlock? ==>
        At(code, afterThen, JMP, pc + SizeOfStatement(s)) &&
        CodeOfBlock(lk, code, ScopeAfterBlock(inThen, t), e.block, afterThen + 1))
    case WhileStatement(_, _) => CodeOfLoop(lk, code, sc, s, pc)
    case ForStatement(i, _, _, _) =>
      CodeOfOptional(lk, code, sc, i, pc) &&
      CodeOfLoop(lk, code, ScopeAfterOptional(sc, i), s, pc + SizeOfOptional(i))
    case BlockStatement(b) => CodeOfBlock(lk, code, sc, b, pc)
    case ExpressionStatement(e) =>
      CodeOf(lk, code, sc, e, pc) && (!e.IsStore() ==> At(code, pc + Size(e), POP, 0))
    case OtherStatement => false
  }

  predicate CodeOfBlock(lk: Linkage, code: Code, sc: Scope, b: Block, pc: nat)
    decreases b
  {
    match b
    case EmptyBlock => true
    case Statements(s, rest) =>
      CodeOfStatement(lk, code, sc, s, pc) &&
      CodeOfBlock(lk, code, ScopeAfterStatement(sc, s), rest, pc + SizeOfStatement(s))
  }

  /** A function body is followed by an implicit `return 0`. */
  predicate CodeOfFunction(lk: Linkage, code: Code, f: ConstFunction, pc: nat) {
    var end := pc + SizeOfBlock(f.body);
    CodeOfBlock(lk, code, ScopeOfParameters(f.paramNames), f.body, pc) &&
    PushesConstant(code, end, ZERO) && At(code, end + 1, RET, 0)
  }

  // ----- code survives what happens outside its stretch -----

  /** `later` keeps the instructions from lo to hi and only adds to the pools. */
  ghost predicate Keeps(code: Code, later: Code, lo: nat, hi: nat) {
    hi <= |code.instructions| && hi <= |later.instructions| &&
    (forall i :: lo <= i < hi ==> later.instructions[i] == code.instructions[i]) &&
    code.intPool <= later.intPool && code.int128Pool <= later.int128Pool && code.stringPool <= later.stringPool
  }

  lemma CodeStays(lk: Linkage, code: Code, later: Code, sc: Scope, e: Expression, pc: nat)
    requires Keeps(code, later, pc, pc + Size(e)) && CodeOf(lk, code, sc, e, pc)
    ensures CodeOf(lk, later, sc, e, pc)
    decreases e
  {
    hide ScopeAfter, ScopeAfterArguments, CodeOfArguments, SizeOfArguments;
    if e.FunctionCall? && !IsHint(e.callee, e.arguments) {
      ArgumentCodeStays(lk, code, later, sc, e.arguments, pc);
    }
  }

  lemma ArgumentCodeStays(lk: Linkage, code: Code, later: Code, sc: Scope, args: Arguments, pc: nat)
    requires Keeps(code, later, pc, pc + SizeOfArguments(args)) && CodeOfArguments(lk, code, sc, args, pc)
    ensures CodeOfArguments(lk, later, sc, args, pc)
    decreases args
  {
    if args.MoreArguments? {
      CodeStays(lk, code, later, sc, args.first, pc);
      ArgumentCodeStays(lk, code, later, ScopeAfter(sc, args.first), args.rest, pc + Size(args.first));
    }
  }

  lemma OptionalCodeStays(lk: Linkage, code: Code, later: Code, sc: Scope, o: OptionalExpression, pc: nat)
    requires Keeps(code, later, pc, pc + SizeOfOptional(o)) && CodeOfOptional(lk, code, sc, o, pc)
    ensures CodeOfOptional(lk, later, sc, o, pc)
  {
    if o.Present? { CodeStays(lk, code, later, sc, o.expression, pc); }
  }

  lemma {:induction false} LoopCodeStays(lk: Linkage, code: Code, later: Code, sc: Scope, s: Statement, pc: nat)
    requires s.WhileStatement? || s.ForStatement?
    requires Keeps(code, later, pc, pc + LoopSize(s)) && CodeOfLoop(lk, code, sc, s, pc)
    ensures CodeOfLoop(lk, later, sc, s, pc)
    decreases s, 0
  {
    hide CodeOf, CodeOfBlock, Size, SizeOfBlock, ScopeAfter, ScopeAfterBlock;
    var c, b, p := LoopCondition(s), LoopBody(s), LoopPostfix(s);
    var atBody := pc + SizeOfOptional(c) + (if c.Present? then 1 else 0);
    var inBody := ScopeAfterOptional(sc, c);
    var atPostfix := atBody + SizeOfBlock(b);
    assert CodeOfOptional(lk, later, sc, c, pc) by { OptionalCodeStays(lk, code, later, sc, c, pc); }
    assert CodeOfBlock(lk, later, inBody, b, atBody) by { BlockCodeStays(lk, code, later, inBody, b, atBody); }
    assert CodeOfOptional(lk, later, ScopeAfterBlock(inBody, b), p, atPostfix) by {
      OptionalCodeStays(lk, code, later, ScopeAfterBlock(inBody, b), p, atPostfix);
    }
  }

  lemma {:induction false} IfCodeStays(lk: Linkage, code: Code, later: Code, sc: Scope, s: Statement, pc: nat)
    requires s.IfStatement?
    requires Keeps(code, later, pc, pc + SizeOfStatement(s)) && CodeOfStatement(lk, code, sc, s, pc)
    ensures CodeOfStatement(lk, later, sc, s, pc)
    decreases s, 0
  {
    hide CodeOf, CodeOfBlock, Size, SizeOfBlock, ScopeAfter, ScopeAfterBlock;
    var inThen := ScopeAfter(sc, s.ifCondition);
    var atThen := pc + Size(s.ifCondition) + 1;
    var atElse := atThen + SizeOfBlock(s.thenBranch) + 1;
    CodeStays(lk, code, later, sc, s.ifCondition, pc);
    BlockCodeStays(lk, code, later, inThen, s.thenBranch, atThen);
    if s.elseBranch.SomeBlock? {
      BlockCodeStays(lk, code, later, ScopeAfterBlock(inThen, s.thenBranch), s.elseBranch.block, atElse);
    }
  }

  lemma {:induction false} StatementCodeStays(lk: Linkage, code: Code, later: Code, sc: Scope, s: Statement, pc: nat)
    requires Keeps(code, later, pc, pc + SizeOfStatement(s)) && CodeOfStatement(lk, code, sc, s, pc)
    ensures CodeOfStatement(lk, later, sc, s, pc)
    decreases s, 1
  {
    hide CodeOf, CodeOfBlock, CodeOfLoop, Size, SizeOfBlock, LoopSize, ScopeAfter, ScopeAfterBlock, ScopeAfterLoop;
    match s
    case ReturnStatement(Present(e)) => CodeStays(lk, code, later, sc, e, pc);
    case IfStatement(_, _, _) => IfCodeStays(lk, code, later, sc, s, pc);
    case WhileStatement(_, _) => LoopCodeStays(lk, code, later, sc, s, pc);
    case ForStatement(i, _, _, _) =>
      OptionalCodeStays(lk, code, later, sc, i, pc);
      LoopCodeStays(lk, code, later, ScopeAfterOptional(sc, i), s, pc + SizeOfOptional(i));
    case BlockStatement(b) => BlockCodeStays(lk, code, later, sc, b, pc);
    case ExpressionStatement(e) => CodeStays(lk, code, later, sc, e, pc);
    case _ =>
  }

  lemma {:induction false} BlockCodeStays(lk: Linkage, code: Code, later: Code, sc: Scope, b: Block, pc: nat)
    requires Keeps(code, later, pc, pc + SizeOfBlock(b)) && CodeOfBlock(lk, code, sc, b, pc)
    ensures CodeOfBlock(lk, later, sc, b, pc)
    decreases b
  {
    if b.Statements? {
      StatementCodeStays(lk, code, later, sc, b.head, pc);
      BlockCodeStays(lk, code, later, ScopeAfterStatement(sc, b.head), b.tail, pc + SizeOfStatement(b.head));
    }
  }

  lemma FunctionCodeStays(lk: Linkage, code: Code, later: Code, f: ConstFunction, pc: nat)
    requires Keeps(code, later, pc, pc + SizeOfBlock(f.body) + 2) && CodeOfFunction(lk, code, f, pc)
    ensures CodeOfFunction(lk, later, f, pc)
  {
    BlockCodeStays(lk, code, later, ScopeOfParameters(f.paramNames), f.body, pc);
  }
}
