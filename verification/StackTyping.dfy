/** Every instruction of compiled code runs at one operand height above its frame, fixed by the tree it comes from, and
    control never leaves the stretch of the driver or of a function that compiled. */
module StackTyping {
  import opened ConstValues
  import opened Arithmetic
  import opened Syntax
  import opened Bytecode
  import opened CodeShape
  import opened FrameSemantics
  import opened Simulation
  import opened ReachableFunctions
  import opened FrameIsolation

  // ----- the height before each instruction of a tree -----

  function Heights(e: Expression, h: nat): (r: seq<nat>)
    ensures |r| == Size(e) && |r| > 0 && r[0] == h
    decreases e
  {
    match e
    case BinaryExpression(l, _, r, _) => Heights(l, h) + Heights(r, h + 1) + [h + 2]
    case UnaryExpression(_, a, _) => Heights(a, h) + [h + 1]
    case CastExpression(_, _, a) => Heights(a, h) + [h + 1]
    case FunctionCall(f, args) =>
      if IsHint(f, args) then Heights(args.first, h) else HeightsOfArguments(args, h) + [h + args.Count()]
    case VariableInit(_, v) => Heights(v, h) + [h + 1]
    case Assignment(_, v) => Heights(v, h) + [h + 1]
    case _ => [h]
  }

  function HeightsOfArguments(args: Arguments, h: nat): (r: seq<nat>)
    ensures |r| == SizeOfArguments(args) && (|r| > 0 ==> r[0] == h)
    decreases args
  {
    match args case NoArguments => [] case MoreArguments(a, rest) => Heights(a, h) + HeightsOfArguments(rest, h + 1)
  }

  function HeightsOfOptional(o: OptionalExpression): (r: seq<nat>)
    ensures |r| == SizeOfOptional(o) && (|r| > 0 ==> r[0] == 0)
  {
    match o case Absent => [] case Present(e) => Heights(e, 0)
  }

  function HeightsOfLoop(s: Statement): (r: seq<nat>)
    requires s.WhileStatement? || s.ForStatement?
    ensures |r| == LoopSize(s) && r[0] == 0
    decreases s, 0
  {
    HeightsOfOptional(LoopCondition(s)) + (if LoopCondition(s).Present? then [1] else []) +
    HeightsOfBlock(LoopBody(s)) + HeightsOfOptional(LoopPostfix(s)) + [0]
  }

  function HeightsOfStatement(s: Statement): (r: seq<nat>)
    ensures |r| == SizeOfStatement(s) && (|r| > 0 ==> r[0] == 0)
    decreases s, 1
  {
    match s
    case ReturnStatement(Absent) => [0, 1]
    case ReturnStatement(Present(e)) => Heights(e, 0) + [1]
    case IfStatement(c, t, NoBlock) => Heights(c, 0) + [1] + HeightsOfBlock(t)
    case IfStatement(c, t, SomeBlock(e)) => Heights(c, 0) + [1] + HeightsOfBlock(t) + [0] + HeightsOfBlock(e)
    case WhileStatement(_, _) => HeightsOfLoop(s)
    case ForStatement(i, _, _, _) => HeightsOfOptional(i) + HeightsOfLoop(s)
    case BlockStatement(b) => HeightsOfBlock(b)
    case ExpressionStatement(e) => if e.IsStore() then Heights(e, 0) else Heights(e, 0) + [1]
    case _ => [0]
  }

  function HeightsOfBlock(b: Block): (r: seq<nat>)
    ensures |r| == SizeOfBlock(b) && (|r| > 0 ==> r[0] == 0)
    decreases b
  {
    match b case EmptyBlock => [] case Statements(s, rest) => HeightsOfStatement(s) + HeightsOfBlock(rest)
  }

  // ----- what an instruction needs of the heights around it -----

  predicate Falls(hs: seq<nat>, k: nat, h: nat) { k + 1 < |hs| && hs[k + 1] == h }

  predicate Lands(lo: nat, hs: seq<nat>, target: nat, h: nat) { lo <= target < lo + |hs| && hs[target - lo] == h }

  ghost predicate CallsFrom(lk: Linkage, hs: seq<nat>, k: nat, operand: nat)
    requires k < |hs|
  {
    exists f :: f in lk.src.functions && f in lk.index && lk.index[f] == operand &&
      |lk.src.functions[f].paramNames| <= hs[k] && Falls(hs, k, hs[k] - |lk.src.functions[f].paramNames| + 1)
  }

  /** The k-th instruction of the stretch at lo finds the operands it takes, and leaves what its successors expect. */
  ghost predicate Typed(lk: Linkage, code: Code, lo: nat, hs: seq<nat>, k: nat)
    requires k < |hs|
  {
    lo + k < |code.instructions| &&
    var (instr, h) := (code.instructions[lo + k], hs[k]);
    match instr.op
    case PUSH_INT => Falls(hs, k, h + 1)
    case PUSH_INT128 => Falls(hs, k, h + 1)
    case PUSH_BOOL => Falls(hs, k, h + 1)
    case LOAD_LOCAL => Falls(hs, k, h + 1)
    case POP => h >= 1 && Falls(hs, k, h - 1)
    case STORE_LOCAL => h >= 1 && Falls(hs, k, h - 1)
    case BINARY(_) => h >= 2 && Falls(hs, k, h - 1)
    case UNARY(_) => h >= 1 && Falls(hs, k, h)
    case CAST_INT => h >= 1 && Falls(hs, k, h)
    case JMP => Lands(lo, hs, instr.operand, h)
    case JMP_IF_FALSE => h >= 1 && Falls(hs, k, h - 1) && Lands(lo, hs, instr.operand, h - 1)
    case JMP_IF_TRUE => h >= 1 && Falls(hs, k, h - 1) && Lands(lo, hs, instr.operand, h - 1)
    case CALL => CallsFrom(lk, hs, k, instr.operand)
    case RET => h == 1
    case HALT => h == 1
    case THROW => true
  }

  /** The instructions of the stretch from a to b. */
  ghost predicate TypedFrom(lk: Linkage, code: Code, lo: nat, hs: seq<nat>, a: nat, b: nat)
    requires b <= |hs|
  {
    forall k :: a <= k < b ==> Typed(lk, code, lo, hs, k)
  }

  /** A stretch that ends at height x is typed as part of a longer one that goes on at height x. */
  lemma Embeds(lk: Linkage, code: Code, lo: nat, hs: seq<nat>, a: nat, part: seq<nat>, x: nat)
    requires a + |part| < |hs| && hs[a..a + |part|] == part && hs[a + |part|] == x
    requires TypedFrom(lk, code, lo + a, part + [x], 0, |part|)
    ensures TypedFrom(lk, code, lo, hs, a, a + |part|)
  {
    forall k | a <= k < a + |part| ensures Typed(lk, code, lo, hs, k) {
      var j := k - a;
      assert Typed(lk, code, lo + a, part + [x], j);
      assert forall i :: 0 <= i <= |part| ==> (part + [x])[i] == hs[a + i] by {
        assert forall i :: 0 <= i < |part| ==> part[i] == hs[a..a + |part|][i];
      }
      SameType(lk, code, lo, hs, a, part + [x], j);
    }
  }

  lemma SameType(lk: Linkage, code: Code, lo: nat, hs: seq<nat>, a: nat, sub: seq<nat>, j: nat)
    requires a + |sub| <= |hs| && j < |sub| && forall i :: 0 <= i < |sub| ==> sub[i] == hs[a + i]
    requires Typed(lk, code, lo + a, sub, j)
    ensures Typed(lk, code, lo, hs, a + j)
  {
    var instr := code.instructions[lo + a + j];
    if instr.op == CALL {
      var f :| f in lk.src.functions && f in lk.index && lk.index[f] == instr.operand &&
        |lk.src.functions[f].paramNames| <= sub[j] && Falls(sub, j, sub[j] - |lk.src.functions[f].paramNames| + 1);
      assert Falls(hs, a + j, hs[a + j] - |lk.src.functions[f].paramNames| + 1);
    }
    if instr.op in {JMP, JMP_IF_FALSE, JMP_IF_TRUE} {
      assert sub[instr.operand - lo - a] == hs[a + (instr.operand - lo - a)];
    }
  }

  /** A stretch at lo that goes on at height x behind its end. */
  ghost predicate Open(lk: Linkage, code: Code, lo: nat, part: seq<nat>, x: nat) {
    TypedFrom(lk, code, lo, part + [x], 0, |part|)
  }

  lemma OpenJoin(lk: Linkage, code: Code, lo: nat, a: seq<nat>, x: nat, b: seq<nat>, y: nat)
    requires Open(lk, code, lo, a, x) && Open(lk, code, lo + |a|, b, y) && (b + [y])[0] == x
    ensures Open(lk, code, lo, a + b, y)
  {
    hide Typed;
    var hs := (a + b) + [y];
    assert hs[0..0 + |a|] == a && hs[|a|..|a| + |b|] == b;
    Embeds(lk, code, lo, hs, 0, a, x);
    Embeds(lk, code, lo, hs, |a|, b, y);
  }

  lemma OpenOne(lk: Linkage, code: Code, lo: nat, h: nat, x: nat)
    requires Typed(lk, code, lo, [h] + [x], 0)
    ensures Open(lk, code, lo, [h], x)
  {
  }

  lemma OpenNone(lk: Linkage, code: Code, lo: nat, x: nat)
    ensures Open(lk, code, lo, [], x)
  {
  }

  /** How many operands an instruction takes. */
  function Takes(op: OpCode): nat {
    match op
    case POP => 1
    case STORE_LOCAL => 1
    case BINARY(_) => 2
    case UNARY(_) => 1
    case CAST_INT => 1
    case JMP_IF_FALSE => 1
    case JMP_IF_TRUE => 1
    case _ => 0
  }

  /** How many it leaves. */
  function Leaves(op: OpCode): nat {
    match op
    case PUSH_INT => 1
    case PUSH_INT128 => 1
    case PUSH_BOOL => 1
    case LOAD_LOCAL => 1
    case BINARY(_) => 1
    case UNARY(_) => 1
    case CAST_INT => 1
    case _ => 0
  }

  predicate IsJump(op: OpCode) { op.JMP? || op.JMP_IF_FALSE? || op.JMP_IF_TRUE? }

  predicate IsTransfer(op: OpCode) { op.CALL? || op.RET? }

  /** An instruction that only takes and leaves operands. */
  lemma OpenInstruction(lk: Linkage, code: Code, pc: nat, h: nat)
    requires pc < |code.instructions|
    requires var op := code.instructions[pc].op;
      !IsJump(op) && !IsTransfer(op) && !op.HALT? && !op.THROW? && h >= Takes(op)
    ensures Open(lk, code, pc, [h], h - Takes(code.instructions[pc].op) + Leaves(code.instructions[pc].op))
  {
    hide CallsFrom;
  }

  /** Functions and indices go together. */
  predicate Indexed(lk: Linkage) { lk.index.Keys == lk.src.functions.Keys }

  // ----- the code of a tree is typed by its heights -----

  lemma {:induction false} ValueTyped(lk: Linkage, code: Code, sc: Scope, e: Expression, pc: nat, h: nat)
    requires Indexed(lk) && ValueExpression(lk.src, e) && CodeOf(lk, code, sc, e, pc)
    ensures Open(lk, code, pc, Heights(e, h), h + 1)
    decreases e, 1
  {
    hide Open, Typed, PushesConstant, LoadsName;
    match e
    case BinaryExpression(_, _, _, _) => BinaryTyped(lk, code, sc, e, pc, h);
    case UnaryExpression(_, a, _) => OneMore(lk, code, sc, a, pc, h);
    case CastExpression(_, _, a) => OneMore(lk, code, sc, a, pc, h);
    case FunctionCall(f, args) =>
      if IsHint(f, args) {
        assert args.MoreArguments? && ValueArguments(lk.src, args);
        ValueTyped(lk, code, sc, args.first, pc, h);
      } else {
        ArgumentsTyped(lk, code, sc, args, pc, h);
        CallTyped(lk, code, f, args, pc, h);
      }
    case _ => LeafTyped(lk, code, sc, e, pc, h);
  }

  /** Literals and names push one value. */
  lemma LeafTyped(lk: Linkage, code: Code, sc: Scope, e: Expression, pc: nat, h: nat)
    requires e.IntegerLiteral? || e.BooleanLiteral? || e.Identifier? || e.FieldAccess?
    requires CodeOf(lk, code, sc, e, pc)
    ensures Open(lk, code, pc, [h], h + 1)
  {
    hide Open;
    OpenInstruction(lk, code, pc, h);
  }

  lemma {:induction false} BinaryTyped(lk: Linkage, code: Code, sc: Scope, e: Expression, pc: nat, h: nat)
    requires e.BinaryExpression? && Indexed(lk) && ValueExpression(lk.src, e) && CodeOf(lk, code, sc, e, pc)
    ensures Open(lk, code, pc, Heights(e, h), h + 1)
    decreases e, 0
  {
    hide Open, Typed, PushesConstant, LoadsName;
    var l, r := e.left, e.right;
    ValueTyped(lk, code, sc, l, pc, h);
    ValueTyped(lk, code, ScopeAfter(sc, l), r, pc + Size(l), h + 1);
    TwoOperands(lk, code, pc, h, Heights(l, h), Heights(r, h + 1));
  }

  /** Two operands and a binary instruction. */
  lemma TwoOperands(lk: Linkage, code: Code, pc: nat, h: nat, l: seq<nat>, r: seq<nat>)
    requires |r| > 0 && r[0] == h + 1 && Open(lk, code, pc, l, h + 1) && Open(lk, code, pc + |l|, r, h + 2)
    requires pc + |l| + |r| < |code.instructions| && code.instructions[pc + |l| + |r|].op.BINARY?
    ensures Open(lk, code, pc, l + r + [h + 2], h + 1)
  {
    hide Open, Typed;
    OpenJoin(lk, code, pc, l, h + 1, r, h + 2);
    OpenInstruction(lk, code, pc + |l| + |r|, h + 2);
    OpenJoin(lk, code, pc, l + r, h + 2, [h + 2], h + 1);
  }

  lemma {:induction false} OneMore(lk: Linkage, code: Code, sc: Scope, a: Expression, pc: nat, h: nat)
    requires Indexed(lk) && ValueExpression(lk.src, a) && CodeOf(lk, code, sc, a, pc)
    requires pc + Size(a) < |code.instructions| &&
      (code.instructions[pc + Size(a)].op.UNARY? || code.instructions[pc + Size(a)].op == CAST_INT)
    ensures Open(lk, code, pc, Heights(a, h) + [h + 1], h + 1)
    decreases a, 2
  {
    hide Open, Typed, CodeOf, ValueExpression, Heights;
    ValueTyped(lk, code, sc, a, pc, h);
    OpenInstruction(lk, code, pc + Size(a), h + 1);
    OpenJoin(lk, code, pc, Heights(a, h), h + 1, [h + 1], h + 1);
  }

  lemma CallTyped(lk: Linkage, code: Code, f: string, args: Arguments, pc: nat, h: nat)
    requires Indexed(lk) && f in lk.index && args.Count() == |lk.src.functions[f].paramNames|
    requires At(code, pc + SizeOfArguments(args), CALL, lk.index[f])
    requires Open(lk, code, pc, HeightsOfArguments(args, h), h + args.Count())
    ensures Open(lk, code, pc, HeightsOfArguments(args, h) + [h + args.Count()], h + 1)
  {
    hide Open, HeightsOfArguments;
    var n := h + args.Count();
    assert Falls([n] + [h + 1], 0, n - |lk.src.functions[f].paramNames| + 1);
    OpenOne(lk, code, pc + SizeOfArguments(args), n, h + 1);
    OpenJoin(lk, code, pc, HeightsOfArguments(args, h), n, [n], h + 1);
  }

  lemma {:induction false} ArgumentsTyped(lk: Linkage, code: Code, sc: Scope, args: Arguments, pc: nat, h: nat)
    requires Indexed(lk) && ValueArguments(lk.src, args) && CodeOfArguments(lk, code, sc, args, pc)
    ensures Open(lk, code, pc, HeightsOfArguments(args, h), h + args.Count())
    decreases args
  {
    hide Open, Typed, Heights, CodeOf, ValueExpression;
    match args
    case NoArguments => OpenNone(lk, code, pc, h);
    case MoreArguments(a, rest) =>
      ValueTyped(lk, code, sc, a, pc, h);
      ArgumentsTyped(lk, code, ScopeAfter(sc, a), rest, pc + Size(a), h + 1);
      EmptyArguments(rest);
      OpenJoin(lk, code, pc, Heights(a, h), h + 1, HeightsOfArguments(rest, h + 1), h + args.Count());
  }

  lemma EmptyArguments(args: Arguments)
    ensures SizeOfArguments(args) == 0 <==> args.Count() == 0
  {
    if args.MoreArguments? { assert |Heights(args.first, 0)| > 0; }
  }

  lemma StoreTyped(lk: Linkage, code: Code, sc: Scope, e: Expression, pc: nat)
    requires Indexed(lk) && StoreExpression(lk.src, e) && CodeOf(lk, code, sc, e, pc)
    ensures Open(lk, code, pc, Heights(e, 0), 0)
  {
    hide Open, Typed, ValueExpression, ScopeAfter;
    var v := if e.VariableInit? then e.initial else e.stored;
    ValueTyped(lk, code, sc, v, pc, 0);
    OpenInstruction(lk, code, pc + Size(v), 1);
    OpenJoin(lk, code, pc, Heights(v, 0), 1, [1], 0);
  }

  lemma OptionalStoreTyped(lk: Linkage, code: Code, sc: Scope, o: OptionalExpression, pc: nat)
    requires Indexed(lk) && (o.Present? ==> StoreExpression(lk.src, o.expression)) && CodeOfOptional(lk, code, sc, o, pc)
    ensures Open(lk, code, pc, HeightsOfOptional(o), 0)
  {
    hide Open, Heights, StoreExpression;
    if o.Present? { StoreTyped(lk, code, sc, o.expression, pc); } else { OpenNone(lk, code, pc, 0); }
  }

  /** A stretch with a conditional jump behind its first part and the rest at height 0. */
  lemma BranchTyped(lk: Linkage, code: Code, pc: nat, c: seq<nat>, rest: seq<nat>, target: nat)
    requires |c| > 0 && c[0] == 0 && Open(lk, code, pc, c, 1) && At(code, pc + |c|, JMP_IF_FALSE, target)
    requires Lands(pc, c + [1] + rest + [0], target, 0) && (rest + [0])[0] == 0
    requires TypedFrom(lk, code, pc, c + [1] + rest + [0], |c| + 1, |c| + 1 + |rest|)
    ensures Open(lk, code, pc, c + [1] + rest, 0)
  {
    var hs := c + [1] + rest + [0];
    assert hs[0..0 + |c|] == c;
    Embeds(lk, code, pc, hs, 0, c, 1);
    assert hs[|c| + 1] == (rest + [0])[0];
    assert Typed(lk, code, pc, hs, |c|);
  }

  lemma {:induction false} LoopTyped(lk: Linkage, code: Code, sc: Scope, s: Statement, pc: nat)
    requires s.WhileStatement? || s.ForStatement?
    requires Indexed(lk) && WellFormed(lk.src, s) && CodeOfLoop(lk, code, sc, s, pc)
    ensures Open(lk, code, pc, HeightsOfLoop(s), 0)
    decreases s, 2
  {
    hide Open, TypedFrom, Typed, Heights, CodeOf, CodeOfBlock, ValueExpression, StoreExpression, WellFormedBlock,
      HeightsOfBlock, HeightsOfOptional, ScopeAfter, ScopeAfterBlock, Size, SizeOfBlock;
    var c, b, p := LoopCondition(s), LoopBody(s), LoopPostfix(s);
    var inBody := ScopeAfterOptional(sc, c);
    var atBody := pc + SizeOfOptional(c) + (if c.Present? then 1 else 0);
    BlockTyped(lk, code, inBody, b, atBody);
    OptionalStoreTyped(lk, code, ScopeAfterBlock(inBody, b), p, atBody + SizeOfBlock(b));
    var turn := HeightsOfBlock(b) + HeightsOfOptional(p);
    OpenJoin(lk, code, atBody, HeightsOfBlock(b), 0, HeightsOfOptional(p), 0);
    if c.Present? {
      ValueTyped(lk, code, sc, c.expression, pc, 0);
      GuardedTyped(lk, code, pc, Heights(c.expression, 0), turn);
      OptionalIs(c);
      assert HeightsOfLoop(s) == Heights(c.expression, 0) + [1] + (turn + [0]);
    } else {
      EndlessTyped(lk, code, pc, turn);
      OptionalIs(c);
      assert HeightsOfLoop(s) == turn + [0];
    }
  }

  lemma OptionalIs(o: OptionalExpression)
    ensures o.Present? ==> HeightsOfOptional(o) == Heights(o.expression, 0) && SizeOfOptional(o) == Size(o.expression)
    ensures o.Absent? ==> HeightsOfOptional(o) == [] && SizeOfOptional(o) == 0
  {
  }

  lemma GuardedTyped(lk: Linkage, code: Code, pc: nat, c: seq<nat>, turn: seq<nat>)
    requires |c| > 0 && c[0] == 0 && Open(lk, code, pc, c, 1) && Open(lk, code, pc + |c| + 1, turn, 0)
    requires (turn + [0])[0] == 0
    requires At(code, pc + |c|, JMP_IF_FALSE, pc + |c| + 1 + |turn| + 1) && At(code, pc + |c| + 1 + |turn|, JMP, pc)
    ensures Open(lk, code, pc, c + [1] + (turn + [0]), 0)
  {
    var rest := turn + [0];
    var hs := c + [1] + rest + [0];
    var from := |c| + 1;
    assert hs[from..from + |turn|] == turn;
    Embeds(lk, code, pc, hs, from, turn, 0);
    assert Typed(lk, code, pc, hs, from + |turn|);
    assert (rest + [0])[0] == (turn + [0])[0];
    BranchTyped(lk, code, pc, c, rest, pc + |c| + 1 + |turn| + 1);
  }

  lemma EndlessTyped(lk: Linkage, code: Code, pc: nat, turn: seq<nat>)
    requires Open(lk, code, pc, turn, 0) && (turn + [0])[0] == 0 && At(code, pc + |turn|, JMP, pc)
    ensures Open(lk, code, pc, turn + [0], 0)
  {
    var hs := turn + [0] + [0];
    assert hs[0..0 + |turn|] == turn;
    Embeds(lk, code, pc, hs, 0, turn, 0);
    assert hs[0] == (turn + [0])[0];
    assert Typed(lk, code, pc, hs, |turn|);
  }

  lemma {:induction false} IfTyped(lk: Linkage, code: Code, sc: Scope, s: Statement, pc: nat)
    requires s.IfStatement? && Indexed(lk) && WellFormed(lk.src, s) && CodeOfStatement(lk, code, sc, s, pc)
    ensures Open(lk, code, pc, HeightsOfStatement(s), 0)
    decreases s, 2
  {
    hide Open, TypedFrom, Typed, Heights, CodeOf, CodeOfBlock, ValueExpression, WellFormedBlock, HeightsOfBlock, ScopeAfter,
      ScopeAfterBlock, Size, SizeOfBlock;
    var c, t, e := s.ifCondition, s.thenBranch, s.elseBranch;
    var inThen := ScopeAfter(sc, c);
    ValueTyped(lk, code, sc, c, pc, 0);
    BlockTyped(lk, code, inThen, t, pc + Size(c) + 1);
    if e.SomeBlock? {
      BlockTyped(lk, code, ScopeAfterBlock(inThen, t), e.block, pc + Size(c) + 1 + SizeOfBlock(t) + 1);
      IfElseShape(lk, code, pc, Heights(c, 0), HeightsOfBlock(t), HeightsOfBlock(e.block));
      assert HeightsOfStatement(s) == Heights(c, 0) + [1] + (HeightsOfBlock(t) + [0] + HeightsOfBlock(e.block));
    } else {
      IfShape(lk, code, pc, Heights(c, 0), HeightsOfBlock(t));
    }
  }

  lemma IfShape(lk: Linkage, code: Code, pc: nat, c: seq<nat>, t: seq<nat>)
    requires |c| > 0 && c[0] == 0 && Open(lk, code, pc, c, 1) && Open(lk, code, pc + |c| + 1, t, 0) && (t + [0])[0] == 0
    requires At(code, pc + |c|, JMP_IF_FALSE, pc + |c| + 1 + |t|)
    ensures Open(lk, code, pc, c + [1] + t, 0)
  {
    var hs := c + [1] + t + [0];
    assert hs[|c| + 1..|c| + 1 + |t|] == t;
    Embeds(lk, code, pc, hs, |c| + 1, t, 0);
    BranchTyped(lk, code, pc, c, t, pc + |c| + 1 + |t|);
  }

  lemma IfElseShape(lk: Linkage, code: Code, pc: nat, c: seq<nat>, t: seq<nat>, e: seq<nat>)
    requires |c| > 0 && c[0] == 0 && Open(lk, code, pc, c, 1)
    requires Open(lk, code, pc + |c| + 1, t, 0) && (t + [0])[0] == 0
    requires Open(lk, code, pc + |c| + 1 + |t| + 1, e, 0) && (e + [0])[0] == 0
    requires At(code, pc + |c|, JMP_IF_FALSE, pc + |c| + 1 + |t| + 1)
    requires At(code, pc + |c| + 1 + |t|, JMP, pc + |c| + 1 + |t| + 1 + |e|)
    ensures Open(lk, code, pc, c + [1] + (t + [0] + e), 0)
  {
    hide Typed;
    var rest := t + [0] + e;
    var hs := c + [1] + rest + [0];
    var atThen, atElse := |c| + 1, |c| + 1 + |t| + 1;
    IfElseSlices(c, t, e);
    Embeds(lk, code, pc, hs, atThen, t, 0);
    Embeds(lk, code, pc, hs, atElse, e, 0);
    JumpIsTyped(lk, code, pc, hs, atThen + |t|, |hs| - 1);
    BranchTyped(lk, code, pc, c, rest, pc + |c| + 1 + |t| + 1);
  }

  lemma IfElseSlices(c: seq<nat>, t: seq<nat>, e: seq<nat>)
    requires (e + [0])[0] == 0 && (t + [0])[0] == 0
    ensures var (hs, atThen, atElse) := (c + [1] + (t + [0] + e) + [0], |c| + 1, |c| + 1 + |t| + 1);
      |hs| == atElse + |e| + 1 && hs[atThen..atThen + |t|] == t && hs[atElse..atElse + |e|] == e &&
      hs[atThen + |t|] == 0 && hs[atElse] == 0 && hs[|hs| - 1] == 0 && hs[atElse + |e|] == 0
    ensures ((t + [0] + e) + [0])[0] == 0
  {
    var hs := c + [1] + (t + [0] + e) + [0];
    var atElse := |c| + 1 + |t| + 1;
    assert hs[atElse..] == e + [0];
    assert hs[atElse] == hs[atElse..][0];
    assert (t + [0] + e) + [0] == (t + [0]) + (e + [0]);
  }

  lemma JumpIsTyped(lk: Linkage, code: Code, lo: nat, hs: seq<nat>, k: nat, target: nat)
    requires k < |hs| && target < |hs| && hs[k] == hs[target] && At(code, lo + k, JMP, lo + target)
    ensures Typed(lk, code, lo, hs, k)
  {
  }

  lemma {:induction false} StatementTyped(lk: Linkage, code: Code, sc: Scope, s: Statement, pc: nat)
    requires Indexed(lk) && WellFormed(lk.src, s) && CodeOfStatement(lk, code, sc, s, pc)
    ensures Open(lk, code, pc, HeightsOfStatement(s), 0)
    decreases s, 3
  {
    hide Open, Heights, CodeOf, CodeOfBlock, CodeOfLoop, ValueExpression, StoreExpression, WellFormedBlock, HeightsOfBlock,
      HeightsOfLoop, ScopeAfter, ScopeAfterBlock, Size, SizeOfBlock;
    match s
    case ReturnStatement(o) =>
      if o.Absent? { ReturnZeroTyped(lk, code, pc); }
      else {
        ValueTyped(lk, code, sc, o.expression, pc, 0);
        OpenOne(lk, code, pc + Size(o.expression), 1, 0);
        OpenJoin(lk, code, pc, Heights(o.expression, 0), 1, [1], 0);
      }
    case ThrowStatement(_) => OpenOne(lk, code, pc, 0, 0);
    case IfStatement(_, _, _) => IfTyped(lk, code, sc, s, pc);
    case WhileStatement(_, _) => LoopTyped(lk, code, sc, s, pc);
    case ForStatement(i, _, _, _) =>
      OptionalStoreTyped(lk, code, sc, i, pc);
      LoopTyped(lk, code, ScopeAfterOptional(sc, i), s, pc + SizeOfOptional(i));
      OpenJoin(lk, code, pc, HeightsOfOptional(i), 0, HeightsOfLoop(s), 0);
    case BlockStatement(b) => BlockTyped(lk, code, sc, b, pc);
    case ExpressionStatement(e) =>
      if e.IsStore() {
        assert StoreExpression(lk.src, e) by { StoresAreNoValues(lk.src, e); }
        StoreTyped(lk, code, sc, e, pc);
      } else {
        StoresAreNoValues(lk.src, e);
        ValueTyped(lk, code, sc, e, pc, 0);
        OpenInstruction(lk, code, pc + Size(e), 1);
        OpenJoin(lk, code, pc, Heights(e, 0), 1, [1], 0);
      }
    case OtherStatement =>
  }

  lemma StoresAreNoValues(src: Source, e: Expression)
    ensures ValueExpression(src, e) ==> !e.IsStore()
    ensures StoreExpression(src, e) ==> e.IsStore()
  {
  }

  lemma ReturnZeroTyped(lk: Linkage, code: Code, pc: nat)
    requires PushesConstant(code, pc, ZERO) && At(code, pc + 1, RET, 0)
    ensures Open(lk, code, pc, [0, 1], 0)
  {
    hide Open;
    OpenOne(lk, code, pc, 0, 1);
    OpenOne(lk, code, pc + 1, 1, 0);
    OpenJoin(lk, code, pc, [0], 1, [1], 0);
    assert [0] + [1] == [0, 1];
  }

  lemma {:induction false} BlockTyped(lk: Linkage, code: Code, sc: Scope, b: Block, pc: nat)
    requires Indexed(lk) && WellFormedBlock(lk.src, b) && CodeOfBlock(lk, code, sc, b, pc)
    ensures Open(lk, code, pc, HeightsOfBlock(b), 0)
    decreases b, 1
  {
    hide Open, HeightsOfStatement, CodeOfStatement, WellFormed, ScopeAfterStatement, SizeOfStatement;
    match b
    case EmptyBlock => OpenNone(lk, code, pc, 0);
    case Statements(s, rest) =>
      StatementTyped(lk, code, sc, s, pc);
      BlockTyped(lk, code, ScopeAfterStatement(sc, s), rest, pc + SizeOfStatement(s));
      OpenJoin(lk, code, pc, HeightsOfStatement(s), 0, HeightsOfBlock(rest), 0);
  }

  // ----- running -----

  /** Whose code an activation runs: the driver with its HALT, or a function that compiles with the return behind it. */
  datatype Owner = Root | Body(name: string)

  function HeightsOfDriver(d: Driver): (r: seq<nat>)
    ensures |r| > 0 && r[0] == 0
  {
    match d
    case ForExpression(e) => Heights(e, 0) + [1]
    case ForCall(_, args) =>
      if !AllConstant(args) then [0]
      else QuotedSize(args); HeightsOfArguments(Quote(args), 0) + [|args|] + [1]
  }

  function HeightsOf(src: Source, d: Driver, owner: Owner): (r: seq<nat>)
    requires owner.Body? ==> owner.name in src.functions
    ensures |r| > 0 && r[0] == 0
  {
    if owner.Root? then HeightsOfDriver(d)
    else
      var body := HeightsOfBlock(src.functions[owner.name].body);
      assert |body| > 0 ==> (body + [0, 1])[0] == body[0];
      body + [0, 1]
  }

  /** Only functions that compile own code. */
  predicate Owns(lk: Linkage, im: Image, owner: Owner, lo: nat) {
    match owner
    case Root => lo == 0
    case Body(f) =>
      f in lk.src.functions && f in lk.index && Compiles(lk.src, lk.src.functions[f]) && lk.index[f] < |im.functions| &&
      im.functions[lk.index[f]].entry == CodeStart(lo)
  }

  lemma OwnedIsTyped(lk: Linkage, im: Image, d: Driver, owner: Owner, lo: nat)
    requires Prepared(lk, im, d) && Owns(lk, im, owner, lo)
    ensures var hs := HeightsOf(lk.src, d, owner); TypedFrom(lk, im.code, lo, hs, 0, |hs|)
  {
    hide TypedFrom, HeightsOfBlock, HeightsOfDriver, Holds, CodeOfFunction, FitsDriver, WellFormedBlock, Compiles, FinalScope;
    if owner.Root? { DriverIsTyped(lk, im.code, d); }
    else { BodyIsTyped(lk, im.code, lk.src.functions[owner.name], lo); }
  }

  lemma DriverIsTyped(lk: Linkage, code: Code, d: Driver)
    requires Indexed(lk) && FitsDriver(lk.src, d) && Holds(lk, code, d)
    ensures var hs := HeightsOfDriver(d); TypedFrom(lk, code, 0, hs, 0, |hs|)
  {
    hide Heights, HeightsOfArguments, CodeOf, CodeOfArguments, ValueExpression, Size;
    match d
    case ForExpression(e) =>
      ValueTyped(lk, code, NO_LOCALS, e, 0, 0);
      assert Typed(lk, code, 0, Heights(e, 0) + [1], Size(e));
    case ForCall(f, args) => CallDriverIsTyped(lk, code, f, args);
  }

  lemma CallDriverIsTyped(lk: Linkage, code: Code, f: string, args: seq<ConstValue>)
    requires Indexed(lk) && FitsDriver(lk.src, ForCall(f, args)) && HoldsCallDriver(lk, code, f, args)
    ensures var hs := HeightsOfDriver(ForCall(f, args)); TypedFrom(lk, code, 0, hs, 0, |hs|)
  {
    hide HeightsOfArguments, CodeOfArguments, Typed;
    var quoted := Quote(args);
    QuotedArguments(lk.src, args);
    QuotedSize(args);
    ArgumentsTyped(lk, code, NO_LOCALS, quoted, 0, 0);
    CallTyped(lk, code, f, quoted, 0, 0);
    HaltIsTyped(lk, code, HeightsOfArguments(quoted, 0) + [|args|] + [1], |args| + 1);
  }

  lemma HaltIsTyped(lk: Linkage, code: Code, hs: seq<nat>, k: nat)
    requires k < |hs| && hs[k] == 1 && At(code, k, HALT, 0)
    ensures Typed(lk, code, 0, hs, k)
  {
  }

  lemma BodyIsTyped(lk: Linkage, code: Code, fn: ConstFunction, lo: nat)
    requires Indexed(lk) && WellFormedBlock(lk.src, fn.body) && CodeOfFunction(lk, code, fn, lo)
    ensures var body := HeightsOfBlock(fn.body); TypedFrom(lk, code, lo, body + [0, 1], 0, |body| + 2)
  {
    hide HeightsOfBlock, CodeOfBlock, WellFormedBlock, Typed, PushesConstant;
    var body := HeightsOfBlock(fn.body);
    BlockTyped(lk, code, ScopeOfParameters(fn.paramNames), fn.body, lo);
    var hs := body + [0, 1];
    assert hs[0..0 + |body|] == body && hs[|body|] == 0;
    Embeds(lk, code, lo, hs, 0, body, 0);
    EndIsTyped(lk, code, lo, hs, |body|);
  }

  lemma EndIsTyped(lk: Linkage, code: Code, lo: nat, hs: seq<nat>, k: nat)
    requires |hs| == k + 2 && hs[k] == 0 && hs[k + 1] == 1
    requires PushesConstant(code, lo + k, ZERO) && At(code, lo + k + 1, RET, 0)
    ensures Typed(lk, code, lo, hs, k) && Typed(lk, code, lo, hs, k + 1)
  {
  }

  /** One activation: whose code it runs, and how many operands lie below it. */
  datatype Activation = Activation(owner: Owner, lo: nat, below: nat)

  /** pc lies in the code of the activation, and the stack has `size` operands there. */
  ghost predicate Stands(lk: Linkage, im: Image, d: Driver, a: Activation, pc: nat, size: nat) {
    Owns(lk, im, a.owner, a.lo) &&
    var hs := HeightsOf(lk.src, d, a.owner);
    a.lo <= pc < a.lo + |hs| && size == a.below + hs[pc - a.lo]
  }

  /** One activation for the driver and one for each frame; each return address takes one operand more than lay below
      the call. */
  ghost predicate Runs(lk: Linkage, im: Image, d: Driver, acts: seq<Activation>, st: State) {
    |acts| == |st.frames| + 1 && Stands(lk, im, d, acts[|st.frames|], st.ip, |st.stack|) &&
    forall i :: 0 <= i < |st.frames| ==>
      Stands(lk, im, d, acts[i], st.frames[i].returnIP, acts[i + 1].below + 1)
  }

  /** The step leaves the operands below the activation alone and the activations but the last, which may call another
      one above its own operands or return. */
  ghost predicate Spares(acts: seq<Activation>, st: State, acts': seq<Activation>, next: State) {
    |acts| > 0 && var n := |acts| - 1;
    SameBelow(st, next, acts[n].below) &&
    (acts' == acts || acts' == acts[..n] || (|acts'| == n + 2 && acts'[..n + 1] == acts && acts'[n + 1].below >= acts[n].below))
  }

  /** The same operands up to a height. */
  predicate SameBelow(st: State, next: State, below: nat) {
    below <= |st.stack| && below <= |next.stack| && next.stack[..below] == st.stack[..below]
  }

  /** What makes a program a well-formed linked image with a driver. */
  ghost predicate Prepared(lk: Linkage, im: Image, d: Driver) {
    WellFormedSource(lk.src) && Linked(lk, im) && FitsDriver(lk.src, d) && Holds(lk, im.code, d)
  }

  /** Where an activation stands there is an instruction, and it is typed. */
  lemma StandsTyped(lk: Linkage, im: Image, d: Driver, a: Activation, pc: nat, size: nat)
    requires Prepared(lk, im, d) && Stands(lk, im, d, a, pc, size)
    ensures pc < |im.code.instructions| && Typed(lk, im.code, a.lo, HeightsOf(lk.src, d, a.owner), pc - a.lo)
  {
    hide Prepared, HeightsOf, Typed;
    OwnedIsTyped(lk, im, d, a.owner, a.lo);
    assert Typed(lk, im.code, a.lo, HeightsOf(lk.src, d, a.owner), pc - a.lo);
    TypedExists(lk, im.code, a.lo, HeightsOf(lk.src, d, a.owner), pc - a.lo);
  }

  lemma TypedExists(lk: Linkage, code: Code, lo: nat, hs: seq<nat>, k: nat)
    requires k < |hs| && Typed(lk, code, lo, hs, k)
    ensures lo + k < |code.instructions|
  {
  }

  /** The effect of an instruction inside one frame, on sizes and addresses alone. */
  lemma StepEffect(cfg: Config, im: Image, st: State)
    requires st.ip < |im.code.instructions| && !IsTransfer(im.code.instructions[st.ip].op)
    ensures var (instr, r) := (im.code.instructions[st.ip], Step(cfg, im, st));
      (r == Done(Underflow) ==> |st.stack| < Takes(instr.op)) &&
      (r.Next? ==>
        r.state.frames == st.frames && |st.stack| >= Takes(instr.op) &&
        |r.state.stack| == |st.stack| - Takes(instr.op) + Leaves(instr.op) &&
        r.state.stack[..|st.stack| - Takes(instr.op)] == st.stack[..|st.stack| - Takes(instr.op)] &&
        (r.state.ip == st.ip + 1 || (IsJump(instr.op) && r.state.ip == instr.operand)) &&
        (instr.op.JMP? ==> r.state.ip == instr.operand) && !instr.op.HALT? && !instr.op.THROW?)
  {
    hide ApplyBinary, ApplyUnary, Zeros;
  }

  /** A typed instruction finds what it takes; where it goes on, the height is what it leaves. */
  lemma TypedEffect(lk: Linkage, code: Code, lo: nat, hs: seq<nat>, k: nat)
    requires k < |hs| && Typed(lk, code, lo, hs, k)
    ensures var instr := code.instructions[lo + k];
      !IsTransfer(instr.op) ==>
        hs[k] >= Takes(instr.op) &&
        (!instr.op.JMP? && !instr.op.HALT? && !instr.op.THROW? ==> Falls(hs, k, hs[k] - Takes(instr.op) + Leaves(instr.op))) &&
        (IsJump(instr.op) ==> Lands(lo, hs, instr.operand, hs[k] - Takes(instr.op) + Leaves(instr.op)))
  {
    hide CallsFrom;
  }

  lemma OrdinaryStep(cfg: Config, lk: Linkage, im: Image, d: Driver, a: Activation, st: State)
    requires Prepared(lk, im, d) && Stands(lk, im, d, a, st.ip, |st.stack|)
    requires st.ip < |im.code.instructions| && !IsTransfer(im.code.instructions[st.ip].op)
    ensures Step(cfg, im, st) != Done(Underflow)
    ensures Step(cfg, im, st).Next? ==>
      var next := Step(cfg, im, st).state;
      next.frames == st.frames && Stands(lk, im, d, a, next.ip, |next.stack|) && SameBelow(st, next, a.below)
  {
    hide HeightsOf, Prepared, Step, Typed, Takes, Leaves, SameBelow;
    StandsTyped(lk, im, d, a, st.ip, |st.stack|);
    TypedEffect(lk, im.code, a.lo, HeightsOf(lk.src, d, a.owner), st.ip - a.lo);
    StepEffect(cfg, im, st);
    if Step(cfg, im, st).Next? {
      LessIsSame(st, Step(cfg, im, st).state, |st.stack| - Takes(im.code.instructions[st.ip].op), a.below);
    }
  }

  lemma LessIsSame(st: State, next: State, high: nat, low: nat)
    requires low <= high <= |st.stack| && high <= |next.stack| && next.stack[..high] == st.stack[..high]
    ensures SameBelow(st, next, low)
  {
    assert next.stack[..high][..low] == next.stack[..low] && st.stack[..high][..low] == st.stack[..low];
  }

  lemma CalleeOf(lk: Linkage, code: Code, lo: nat, hs: seq<nat>, k: nat) returns (f: string)
    requires k < |hs| && Typed(lk, code, lo, hs, k) && code.instructions[lo + k].op == CALL
    ensures f in lk.src.functions && f in lk.index && lk.index[f] == code.instructions[lo + k].operand
    ensures |lk.src.functions[f].paramNames| <= hs[k] && k + 1 < |hs|
    ensures hs[k + 1] == hs[k] - |lk.src.functions[f].paramNames| + 1
  {
    f :| f in lk.src.functions && f in lk.index && lk.index[f] == code.instructions[lo + k].operand &&
      |lk.src.functions[f].paramNames| <= hs[k] && Falls(hs, k, hs[k] - |lk.src.functions[f].paramNames| + 1);
  }

  /** Where an activation calls: it stands at the instruction behind once the operands are taken and one is left, and
      the callee, if it compiled, stands at its entry. */
  lemma CallSite(lk: Linkage, im: Image, d: Driver, a: Activation, pc: nat, size: nat)
    returns (f: string, callee: Activation)
    requires Prepared(lk, im, d) && Stands(lk, im, d, a, pc, size)
    requires pc < |im.code.instructions| && im.code.instructions[pc].op == CALL
    ensures f in lk.src.functions && |lk.src.functions[f].paramNames| <= size
    ensures callee.below == size - |lk.src.functions[f].paramNames| && Stands(lk, im, d, a, pc + 1, callee.below + 1)
    ensures callee.below >= a.below
    ensures var index := im.code.instructions[pc].operand;
      index < |im.functions| &&
      (im.functions[index].entry.CodeStart? ==>
        im.functions[index].numParams == |lk.src.functions[f].paramNames| &&
        Stands(lk, im, d, callee, im.functions[index].entry.at, callee.below))
  {
    hide WellFormedSource, FitsDriver, Holds, HeightsOf, Compiles, CodeOfFunction, FinalScope, Typed, HoldsFunction, Linked;
    StandsTyped(lk, im, d, a, pc, size);
    f := CalleeOf(lk, im.code, a.lo, HeightsOf(lk.src, d, a.owner), pc - a.lo);
    EntryHolds(lk, im, f);
    var entry := im.functions[im.code.instructions[pc].operand];
    callee := Activation(Body(f), if entry.entry.CodeStart? then entry.entry.at else 0, size - |lk.src.functions[f].paramNames|);
    HeldEntry(lk, im.code, lk.src.functions[f], entry);
  }

  lemma HeldEntry(lk: Linkage, code: Code, fn: ConstFunction, entry: CompiledFunction)
    requires HoldsFunction(lk, code, fn, entry)
    ensures entry.entry.CodeStart? ==> Compiles(lk.src, fn) && entry.numParams == |fn.paramNames|
  {
    hide Compiles, CodeOfFunction, FinalScope;
  }

  lemma CallStep(cfg: Config, lk: Linkage, im: Image, d: Driver, acts: seq<Activation>, st: State)
    returns (acts': seq<Activation>)
    requires Prepared(lk, im, d) && Runs(lk, im, d, acts, st)
    requires st.ip < |im.code.instructions| && im.code.instructions[st.ip].op == CALL
    ensures Step(cfg, im, st) != Done(Underflow)
    ensures im.code.instructions[st.ip].operand < |im.functions|
    ensures Step(cfg, im, st).Next? ==> Runs(lk, im, d, acts', Step(cfg, im, st).state)
    ensures Step(cfg, im, st).Next? ==>
      Spares(acts, st, acts', Step(cfg, im, st).state) && |acts'| == |acts| + 1 &&
      SameBelow(st, Step(cfg, im, st).state, acts'[|acts|].below) &&
      acts'[|acts|].below + im.functions[im.code.instructions[st.ip].operand].numParams == |st.stack|
  {
    hide Prepared, Stands, Step, SameBelow;
    var f, callee := CallSite(lk, im, d, acts[|st.frames|], st.ip, |st.stack|);
    CallEffect(cfg, im, st);
    acts' := acts + [callee];
    if Step(cfg, im, st).Next? {
      LessIsSame(st, Step(cfg, im, st).state, callee.below, callee.below);
      LessIsSame(st, Step(cfg, im, st).state, callee.below, acts[|st.frames|].below);
    }
  }

  lemma CallEffect(cfg: Config, im: Image, st: State)
    requires st.ip < |im.code.instructions| && im.code.instructions[st.ip].op == CALL
    ensures var (index, r) := (im.code.instructions[st.ip].operand, Step(cfg, im, st));
      (r == Done(Underflow) ==> index < |im.functions| && im.functions[index].entry.CodeStart? &&
                                |st.stack| < im.functions[index].numParams) &&
      (r.Next? ==>
        index < |im.functions| && im.functions[index].entry == CodeStart(r.state.ip) &&
        |r.state.stack| == |st.stack| - im.functions[index].numParams &&
        r.state.stack == st.stack[..|st.stack| - im.functions[index].numParams] &&
        |r.state.frames| == |st.frames| + 1 && r.state.frames[..|st.frames|] == st.frames &&
        r.state.frames[|st.frames|].returnIP == st.ip + 1)
  {
    hide Zeros;
  }

  lemma ReturnStep(cfg: Config, lk: Linkage, im: Image, d: Driver, acts: seq<Activation>, st: State)
    returns (acts': seq<Activation>)
    requires Prepared(lk, im, d) && Runs(lk, im, d, acts, st)
    requires st.ip < |im.code.instructions| && im.code.instructions[st.ip].op == RET
    ensures Step(cfg, im, st) != Done(Underflow)
    ensures Step(cfg, im, st).Next? ==>
      Runs(lk, im, d, acts', Step(cfg, im, st).state) && Spares(acts, st, acts', Step(cfg, im, st).state) &&
      |Step(cfg, im, st).state.stack| == acts[|st.frames|].below + 1
  {
    hide HeightsOf, Owns, Prepared, SameBelow;
    var n := |st.frames|;
    StandsTyped(lk, im, d, acts[n], st.ip, |st.stack|);
    acts' := acts[..n];
    if Step(cfg, im, st).Next? { LessIsSame(st, Step(cfg, im, st).state, acts[n].below, acts[n].below); }
  }

  /** Every step keeps the typing; none pops an empty stack. */
  lemma StepKeepsTyping(cfg: Config, lk: Linkage, im: Image, d: Driver, acts: seq<Activation>, st: State)
    returns (acts': seq<Activation>)
    requires Prepared(lk, im, d) && Runs(lk, im, d, acts, st)
    ensures st.ip < |im.code.instructions| && Step(cfg, im, st) != Done(Underflow)
    ensures Step(cfg, im, st).Next? ==>
      Runs(lk, im, d, acts', Step(cfg, im, st).state) && Spares(acts, st, acts', Step(cfg, im, st).state)
  {
    hide Prepared, Stands, Step, SameBelow;
    var a := acts[|st.frames|];
    StandsTyped(lk, im, d, a, st.ip, |st.stack|);
    acts' := acts;
    if im.code.instructions[st.ip].op == CALL { acts' := CallStep(cfg, lk, im, d, acts, st); }
    else if im.code.instructions[st.ip].op == RET { acts' := ReturnStep(cfg, lk, im, d, acts, st); }
    else { OrdinaryStep(cfg, lk, im, d, a, st); }
  }

  /** After any number of steps the machine stands in the code of the driver or of a function that compiled, at the
      height the tree gives that instruction above its frame; it has never run off the code nor popped an empty stack. */
  lemma {:induction false} EveryStateIsTyped(cfg: Config, lk: Linkage, im: Image, d: Driver, n: nat)
    returns (acts: seq<Activation>)
    requires Prepared(lk, im, d)
    ensures var r := Steps(cfg, im, InitialState(cfg), n);
      match r
      case Next(st) => Runs(lk, im, d, acts, st) && st.ip < |im.code.instructions|
      case Done(o) => o != Underflow
    decreases n
  {
    hide Prepared, Runs, Step;
    if n == 0 {
      acts := StartsTyped(cfg, lk, im, d);
      var _ := StepKeepsTyping(cfg, lk, im, d, acts, InitialState(cfg));
    } else {
      var before := EveryStateIsTyped(cfg, lk, im, d, n - 1);
      acts := before;
      var r := Steps(cfg, im, InitialState(cfg), n - 1);
      if r.Next? {
        acts := StepKeepsTyping(cfg, lk, im, d, before, r.state);
        var next := Step(cfg, im, r.state);
        if next.Next? { var _ := StepKeepsTyping(cfg, lk, im, d, acts, next.state); }
      }
    }
  }

  /** The same of the part of the program that the driver can reach, which alone must be well-formed. */
  lemma EveryReachedStateIsTyped(cfg: Config, reach: set<string>, lk: Linkage, im: Image, d: Driver, n: nat)
    returns (acts: seq<Activation>)
    requires Linked(lk, im) && Holds(lk, im.code, d) && ClosedUnderCalls(lk.src, reach) && DriverCalls(d) <= reach
    requires WellFormedSource(Restrict(lk.src, reach)) && FitsDriver(Restrict(lk.src, reach), d)
    ensures var r := Steps(cfg, im, InitialState(cfg), n);
      match r
      case Next(st) => Runs(RestrictLinkage(lk, reach), im, d, acts, st) && st.ip < |im.code.instructions|
      case Done(o) => o != Underflow
  {
    hide Linked, Holds, ClosedUnderCalls, DriverCalls, WellFormedSource, FitsDriver, Runs, Steps;
    LinkedAlone(lk, im, reach);
    HeldAlone(lk, im.code, reach, d);
    acts := EveryStateIsTyped(cfg, RestrictLinkage(lk, reach), im, d, n);
  }

  lemma StartsTyped(cfg: Config, lk: Linkage, im: Image, d: Driver) returns (acts: seq<Activation>)
    requires Prepared(lk, im, d)
    ensures Runs(lk, im, d, acts, InitialState(cfg))
  {
    hide Prepared, InitialLocals, HeightsOfDriver;
    acts := [Activation(Root, 0, 0)];
  }

  // ----- what a call leaves of the operands -----

  /** The activations of st0 are still there, those above them have their operands above those of its last one, and the
      operands below that are the same. */
  ghost predicate Above(acts0: seq<Activation>, st0: State, acts: seq<Activation>, st: State) {
    |acts0| > 0 && acts0 <= acts && var n := |acts0| - 1;
    SameBelow(st0, st, acts0[n].below) && forall i :: n <= i < |acts| ==> acts[i].below >= acts0[n].below
  }

  lemma StepStaysAbove(acts0: seq<Activation>, st0: State, acts: seq<Activation>, st: State, acts': seq<Activation>,
                       next: State)
    requires Above(acts0, st0, acts, st) && Spares(acts, st, acts', next) && |acts'| >= |acts0|
    ensures Above(acts0, st0, acts', next)
  {
    var n := |acts| - 1;
    LessIsSame(st, next, acts[n].below, acts0[|acts0| - 1].below);
  }

  /** As long as the frames of a state remain, whatever runs above them leaves its operands alone. */
  lemma {:induction false} OperandsAreKept(cfg: Config, lk: Linkage, im: Image, d: Driver, acts0: seq<Activation>,
                                           st0: State, n: nat) returns (acts: seq<Activation>)
    requires Prepared(lk, im, d) && Runs(lk, im, d, acts0, st0) && StaysAbove(cfg, im, st0, n)
    ensures var st := Steps(cfg, im, st0, n).state; Runs(lk, im, d, acts, st) && Above(acts0, st0, acts, st)
    decreases n
  {
    hide Prepared, Stands, Step, Spares, Above;
    assert Steps(cfg, im, st0, n).Next? && |Steps(cfg, im, st0, n).state.frames| >= |st0.frames|;
    if n == 0 {
      acts := acts0;
      StartsAbove(lk, im, d, acts0, st0);
    } else {
      var before := OperandsAreKept(cfg, lk, im, d, acts0, st0, n - 1);
      var st := Steps(cfg, im, st0, n - 1).state;
      acts := StepKeepsTyping(cfg, lk, im, d, before, st);
      StepStaysAbove(acts0, st0, before, st, acts, Steps(cfg, im, st0, n).state);
    }
  }

  lemma StartsAbove(lk: Linkage, im: Image, d: Driver, acts0: seq<Activation>, st0: State)
    requires Runs(lk, im, d, acts0, st0)
    ensures Above(acts0, st0, acts0, st0)
  {
    hide HeightsOf, Owns;
  }

  /** When a call of a well-formed image returns, the operands below its arguments are as they were, with one value more. */
  lemma CallLeavesOneMore(cfg: Config, lk: Linkage, im: Image, d: Driver, acts: seq<Activation>, st: State, n: nat)
    requires Prepared(lk, im, d) && Runs(lk, im, d, acts, st) && st.base <= |st.locals| && ReturnsAfter(cfg, im, st, n)
    ensures var (after, index) := (Steps(cfg, im, st, n).state, im.code.instructions[st.ip].operand);
      index < |im.functions| && im.functions[index].numParams <= |st.stack| &&
      var below := |st.stack| - im.functions[index].numParams;
      |after.stack| == below + 1 && after.stack[..below] == st.stack[..below]
  {
    hide Prepared, Stands, Step, ReturnsAfter;
    var inside, last := FirstAndLast(cfg, im, st, n);
    var acts1 := CallStep(cfg, lk, im, d, acts, st);
    var acts2 := OperandsAreKept(cfg, lk, im, d, acts1, inside, n - 2);
    var _ := ReturnStep(cfg, lk, im, d, acts2, last);
    OperandsComeBack(st, inside, last, Steps(cfg, im, st, n).state, acts1, acts2);
  }

  lemma OperandsComeBack(st: State, inside: State, last: State, after: State, acts1: seq<Activation>,
                         acts2: seq<Activation>)
    requires |acts1| > 0 && |acts2| == |acts1| && Above(acts1, inside, acts2, last)
    requires SameBelow(st, inside, acts1[|acts1| - 1].below) && SameBelow(last, after, acts2[|acts2| - 1].below)
    ensures SameBelow(st, after, acts1[|acts1| - 1].below)
  {
  }

  /** Every call of a run, of the part of the program the driver can reach: when it returns, the machine stands behind the
      CALL with the frames and the base from before it, the operands below the arguments and one more, and as many of the
      slots of the caller as the callee has locals. */
  lemma EveryCallReturns(cfg: Config, reach: set<string>, lk: Linkage, im: Image, d: Driver, m: nat, n: nat)
    requires Linked(lk, im) && Holds(lk, im.code, d) && ClosedUnderCalls(lk.src, reach) && DriverCalls(d) <= reach
    requires WellFormedSource(Restrict(lk.src, reach)) && FitsDriver(Restrict(lk.src, reach), d)
    requires Steps(cfg, im, InitialState(cfg), m).Next?
    requires ReturnsAfter(cfg, im, Steps(cfg, im, InitialState(cfg), m).state, n)
    ensures var st := Steps(cfg, im, InitialState(cfg), m).state;
      var (after, index) := (Steps(cfg, im, st, n).state, im.code.instructions[st.ip].operand);
      index < |im.functions| && im.functions[index].numParams <= |st.stack| &&
      after.ip == st.ip + 1 && after.frames == st.frames && after.base == st.base &&
      (var below := |st.stack| - im.functions[index].numParams;
       |after.stack| == below + 1 && after.stack[..below] == st.stack[..below]) &&
      forall k: nat | st.base + k <= |st.locals| :: SlotsKept(st, after, k) <==> k <= im.functions[index].numLocals
  {
    hide Linked, Holds, ClosedUnderCalls, DriverCalls, WellFormedSource, FitsDriver, Runs, Steps, Prepared, SlotsKept;
    var part, st := RestrictLinkage(lk, reach), Steps(cfg, im, InitialState(cfg), m).state;
    LinkedAlone(lk, im, reach);
    HeldAlone(lk, im.code, reach, d);
    PreparedAlone(part, im, d);
    var acts := EveryStateIsTyped(cfg, part, im, d, m);
    BaseIsWithin(cfg, im, InitialState(cfg), m);
    CallReturns(cfg, im, st, n);
    CallLeavesOneMore(cfg, part, im, d, acts, st, n);
    var (after, index) := (Steps(cfg, im, st, n).state, im.code.instructions[st.ip].operand);
    forall k: nat | st.base + k <= |st.locals| ensures SlotsKept(st, after, k) <==> k <= im.functions[index].numLocals {
      SlotsKeptIff(cfg, im, st, n, k);
    }
  }

  lemma PreparedAlone(lk: Linkage, im: Image, d: Driver)
    requires Linked(lk, im) && Holds(lk, im.code, d) && WellFormedSource(lk.src) && FitsDriver(lk.src, d)
    ensures Prepared(lk, im, d)
  {
  }
}
