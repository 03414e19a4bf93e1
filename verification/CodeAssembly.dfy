/** How stretches of code combine: each lemma takes the code before and after the parts were emitted and
    concludes that the whole is the code of the tree.  Emission and back-patching are proved against these. */
module CodeAssembly {
  import opened ConstValues
  import opened Syntax
  import opened Bytecode
  import opened CodeShape

  /** The operand of a forward jump until it is patched. */
  const PLACEHOLDER: nat := 0xFFFF_FFFF

  ghost predicate Grown(before: Code, after: Code) {
    before.instructions <= after.instructions && before.intPool <= after.intPool &&
    before.int128Pool <= after.int128Pool && before.stringPool <= after.stringPool
  }

  /** The code grew by exactly the code of e, and the scope by its declarations. */
  ghost predicate Emits(lk: Linkage, sc: Scope, e: Expression, before: Code, after: Code, later: Scope) {
    Grown(before, after) && |after.instructions| == |before.instructions| + Size(e) &&
    CodeOf(lk, after, sc, e, |before.instructions|) && later == ScopeAfter(sc, e)
  }

  ghost predicate EmitsArguments(lk: Linkage, sc: Scope, args: Arguments, before: Code, after: Code, later: Scope) {
    Grown(before, after) && |after.instructions| == |before.instructions| + SizeOfArguments(args) &&
    CodeOfArguments(lk, after, sc, args, |before.instructions|) && later == ScopeAfterArguments(sc, args)
  }

  ghost predicate EmitsOptional(lk: Linkage, sc: Scope, o: OptionalExpression, before: Code, after: Code, later: Scope) {
    Grown(before, after) && |after.instructions| == |before.instructions| + SizeOfOptional(o) &&
    CodeOfOptional(lk, after, sc, o, |before.instructions|) && later == ScopeAfterOptional(sc, o)
  }

  ghost predicate EmitsStatement(lk: Linkage, sc: Scope, s: Statement, before: Code, after: Code, later: Scope) {
    Grown(before, after) && |after.instructions| == |before.instructions| + SizeOfStatement(s) &&
    CodeOfStatement(lk, after, sc, s, |before.instructions|) && later == ScopeAfterStatement(sc, s)
  }

  ghost predicate EmitsBlock(lk: Linkage, sc: Scope, b: Block, before: Code, after: Code, later: Scope) {
    Grown(before, after) && |after.instructions| == |before.instructions| + SizeOfBlock(b) &&
    CodeOfBlock(lk, after, sc, b, |before.instructions|) && later == ScopeAfterBlock(sc, b)
  }

  ghost predicate EmitsLoop(lk: Linkage, sc: Scope, s: Statement, before: Code, after: Code, later: Scope)
    requires s.WhileStatement? || s.ForStatement?
  {
    Grown(before, after) && |after.instructions| == |before.instructions| + LoopSize(s) &&
    CodeOfLoop(lk, after, sc, s, |before.instructions|) && later == ScopeAfterLoop(sc, s)
  }

  ghost predicate EmitsOne(before: Code, after: Code, op: OpCode, operand: nat) {
    after == before.(instructions := before.instructions + [Instruction(op, operand)])
  }

  ghost predicate EmitsConstant(v: ConstValue, before: Code, after: Code) {
    Grown(before, after) && |after.instructions| == |before.instructions| + 1 &&
    PushesConstant(after, |before.instructions|, v)
  }

  /** The instruction at index now jumps to the end of the stream; nothing else changed. */
  ghost predicate Patches(before: Code, after: Code, index: nat) {
    index < |before.instructions| &&
    after == before.(instructions :=
      before.instructions[index := before.instructions[index].(operand := |before.instructions|)])
  }

  lemma PatchKeeps(start: Code, before: Code, after: Code, index: nat)
    requires Grown(start, before) && |start.instructions| <= index && Patches(before, after, index)
    ensures Grown(start, after)
  {
  }

  lemma GrownTwice(start: Code, middle: Code, after: Code)
    requires Grown(start, middle) && Grown(middle, after)
    ensures Grown(start, after) && |start.instructions| <= |middle.instructions| <= |after.instructions|
  {
  }

  lemma OneGrown(start: Code, before: Code, after: Code, op: OpCode, operand: nat)
    requires Grown(start, before) && EmitsOne(before, after, op, operand)
    ensures Grown(start, after) && |start.instructions| <= |before.instructions| < |after.instructions|
  {
  }

  lemma EmitsDeclares(lk: Linkage, sc: Scope, e: Expression, before: Code, after: Code, later: Scope)
    requires Emits(lk, sc, e, before, after, later)
    ensures later.slots.Keys == sc.slots.Keys + Declares(e)
  {
    ScopeGrows(sc, e);
  }

  lemma EmitsBlockDeclares(lk: Linkage, sc: Scope, b: Block, before: Code, after: Code, later: Scope)
    requires EmitsBlock(lk, sc, b, before, after, later)
    ensures later.slots.Keys == sc.slots.Keys + DeclaresBlock(b)
  {
    ScopeGrowsByBlock(sc, b);
  }

  // ----- expressions -----

  lemma BinaryCode(lk: Linkage, sc: Scope, e: Expression, c0: Code, c1: Code, c2: Code, c3: Code, sc1: Scope, sc2: Scope)
    requires e.BinaryExpression?
    requires Emits(lk, sc, e.left, c0, c1, sc1) && Emits(lk, sc1, e.right, c1, c2, sc2)
    requires EmitsOne(c2, c3, BINARY(e.binaryOp), BinaryOperand(e.binaryOp, e.binaryMode))
    ensures Emits(lk, sc, e, c0, c3, sc2)
  {
    CodeStays(lk, c1, c3, sc, e.left, |c0.instructions|);
    CodeStays(lk, c2, c3, sc1, e.right, |c1.instructions|);
  }

  /** A value followed by one instruction that takes it. */
  lemma UnaryCode(lk: Linkage, sc: Scope, e: Expression, c0: Code, c1: Code, c2: Code, sc1: Scope)
    requires e.UnaryExpression? && Emits(lk, sc, e.operand, c0, c1, sc1)
    requires EmitsOne(c1, c2, UNARY(e.unaryOp), UnaryOperand(e.unaryOp, e.unaryMode))
    ensures Emits(lk, sc, e, c0, c2, sc1)
  {
    CodeStays(lk, c1, c2, sc, e.operand, |c0.instructions|);
  }

  lemma CastCode(lk: Linkage, sc: Scope, e: Expression, c0: Code, c1: Code, c2: Code, sc1: Scope)
    requires e.CastExpression? && Emits(lk, sc, e.castOperand, c0, c1, sc1)
    requires EmitsOne(c1, c2, CAST_INT, CastOperand(e.targetWidth, e.targetSigned))
    ensures Emits(lk, sc, e, c0, c2, sc1)
  {
    CodeStays(lk, c1, c2, sc, e.castOperand, |c0.instructions|);
  }

  lemma StoreCode(lk: Linkage, sc: Scope, e: Expression, c0: Code, c1: Code, c2: Code, sc1: Scope)
    requires e.IsStore()
    requires Emits(lk, sc, if e.VariableInit? then e.initial else e.stored, c0, c1, sc1)
    requires e.Assignment? ==> e.target in sc1.slots
    requires EmitsOne(c1, c2, STORE_LOCAL,
                      if e.VariableInit? then Declare(sc1, e.declared).slots[e.declared] else sc1.slots[e.target])
    ensures Emits(lk, sc, e, c0, c2, if e.VariableInit? then Declare(sc1, e.declared) else sc1)
  {
    CodeStays(lk, c1, c2, sc, if e.VariableInit? then e.initial else e.stored, |c0.instructions|);
  }

  lemma CallCode(lk: Linkage, sc: Scope, e: Expression, c0: Code, c1: Code, c2: Code, sc1: Scope)
    requires e.FunctionCall? && !IsHint(e.callee, e.arguments) && e.callee in lk.index
    requires EmitsArguments(lk, sc, e.arguments, c0, c1, sc1)
    requires EmitsOne(c1, c2, CALL, lk.index[e.callee])
    ensures Emits(lk, sc, e, c0, c2, sc1)
  {
    ArgumentCodeStays(lk, c1, c2, sc, e.arguments, |c0.instructions|);
  }

  lemma HintCode(lk: Linkage, sc: Scope, e: Expression, c0: Code, c1: Code, sc1: Scope)
    requires e.FunctionCall? && IsHint(e.callee, e.arguments) && e.arguments.MoreArguments?
    requires Emits(lk, sc, e.arguments.first, c0, c1, sc1)
    ensures Emits(lk, sc, e, c0, c1, sc1)
  {
    assert e.arguments.rest.Count() == 0;
    assert ScopeAfterArguments(sc1, e.arguments.rest) == sc1;
  }

  lemma ArgumentsCode(lk: Linkage, sc: Scope, args: Arguments, c0: Code, c1: Code, c2: Code, sc1: Scope, sc2: Scope)
    requires args.MoreArguments?
    requires Emits(lk, sc, args.first, c0, c1, sc1) && EmitsArguments(lk, sc1, args.rest, c1, c2, sc2)
    ensures EmitsArguments(lk, sc, args, c0, c2, sc2)
  {
    CodeStays(lk, c1, c2, sc, args.first, |c0.instructions|);
  }

  // ----- statements -----

  lemma ReturnCode(lk: Linkage, sc: Scope, s: Statement, c0: Code, c1: Code, c2: Code, sc1: Scope)
    requires s.ReturnStatement?
    requires if s.returned.Absent? then EmitsConstant(ZERO, c0, c1) && sc1 == sc
             else Emits(lk, sc, s.returned.expression, c0, c1, sc1)
    requires EmitsOne(c1, c2, RET, 0)
    ensures EmitsStatement(lk, sc, s, c0, c2, sc1)
  {
    if s.returned.Present? { CodeStays(lk, c1, c2, sc, s.returned.expression, |c0.instructions|); }
  }

  lemma DiscardCode(lk: Linkage, sc: Scope, s: Statement, c0: Code, c1: Code, c2: Code, sc1: Scope)
    requires s.ExpressionStatement? && Emits(lk, sc, s.expression, c0, c1, sc1)
    requires if s.expression.IsStore() then c2 == c1 else EmitsOne(c1, c2, POP, 0)
    ensures EmitsStatement(lk, sc, s, c0, c2, sc1)
  {
    CodeStays(lk, c1, c2, sc, s.expression, |c0.instructions|);
  }

  lemma BlockCode(lk: Linkage, sc: Scope, b: Block, c0: Code, c1: Code, c2: Code, sc1: Scope, sc2: Scope)
    requires b.Statements?
    requires EmitsStatement(lk, sc, b.head, c0, c1, sc1) && EmitsBlock(lk, sc1, b.tail, c1, c2, sc2)
    ensures EmitsBlock(lk, sc, b, c0, c2, sc2)
  {
    hide CodeOfStatement, SizeOfStatement, ScopeAfterStatement;
    StatementCodeStays(lk, c1, c2, sc, b.head, |c0.instructions|);
  }

  /** Condition, conditional jump still to patch, then-branch. */
  ghost predicate EmitsThen(lk: Linkage, sc: Scope, s: Statement, before: Code, after: Code, jump: nat, later: Scope)
    requires s.IfStatement?
  {
    var pc, inThen := |before.instructions|, ScopeAfter(sc, s.ifCondition);
    Grown(before, after) && jump == pc + Size(s.ifCondition) &&
    |after.instructions| == jump + 1 + SizeOfBlock(s.thenBranch) &&
    CodeOf(lk, after, sc, s.ifCondition, pc) && At(after, jump, JMP_IF_FALSE, PLACEHOLDER) &&
    CodeOfBlock(lk, after, inThen, s.thenBranch, jump + 1) && later == ScopeAfterBlock(inThen, s.thenBranch)
  }

  lemma ThenCode(lk: Linkage, sc: Scope, s: Statement, c0: Code, c1: Code, c2: Code, c3: Code, sc1: Scope, sc2: Scope)
    requires s.IfStatement?
    requires Emits(lk, sc, s.ifCondition, c0, c1, sc1) && EmitsOne(c1, c2, JMP_IF_FALSE, PLACEHOLDER)
    requires EmitsBlock(lk, sc1, s.thenBranch, c2, c3, sc2)
    ensures EmitsThen(lk, sc, s, c0, c3, |c1.instructions|, sc2)
  {
    hide CodeOf, CodeOfBlock, Size, SizeOfBlock, ScopeAfter, ScopeAfterBlock;
    CodeStays(lk, c1, c3, sc, s.ifCondition, |c0.instructions|);
  }

  lemma IfCode(lk: Linkage, sc: Scope, s: Statement, c0: Code, c1: Code, c2: Code, jump: nat, later: Scope)
    requires s.IfStatement? && s.elseBranch.NoBlock?
    requires EmitsThen(lk, sc, s, c0, c1, jump, later) && Patches(c1, c2, jump)
    ensures EmitsStatement(lk, sc, s, c0, c2, later)
  {
    hide CodeOf, CodeOfBlock, Size, SizeOfBlock, ScopeAfter, ScopeAfterBlock;
    CodeStays(lk, c1, c2, sc, s.ifCondition, |c0.instructions|);
    BlockCodeStays(lk, c1, c2, ScopeAfter(sc, s.ifCondition), s.thenBranch, jump + 1);
  }

  /** Then-branch, second placeholder, patch, else-branch, patch. */
  lemma IfElseCode(lk: Linkage, sc: Scope, s: Statement, c0: Code, c1: Code, c2: Code, c3: Code, c4: Code, c5: Code,
                   jump: nat, sc1: Scope, sc2: Scope)
    requires s.IfStatement? && s.elseBranch.SomeBlock?
    requires EmitsThen(lk, sc, s, c0, c1, jump, sc1) && EmitsOne(c1, c2, JMP, PLACEHOLDER) && Patches(c2, c3, jump)
    requires EmitsBlock(lk, sc1, s.elseBranch.block, c3, c4, sc2) && Patches(c4, c5, |c1.instructions|)
    ensures EmitsStatement(lk, sc, s, c0, c5, sc2)
  {
    hide CodeOf, CodeOfBlock, Size, SizeOfBlock, ScopeAfter, ScopeAfterBlock;
    CodeStays(lk, c1, c5, sc, s.ifCondition, |c0.instructions|);
    BlockCodeStays(lk, c1, c5, ScopeAfter(sc, s.ifCondition), s.thenBranch, jump + 1);
    BlockCodeStays(lk, c4, c5, sc1, s.elseBranch.block, |c3.instructions|);
  }

  lemma EmitsThenDeclares(lk: Linkage, sc: Scope, s: Statement, before: Code, after: Code, jump: nat, later: Scope)
    requires s.IfStatement? && EmitsThen(lk, sc, s, before, after, jump, later)
    ensures later.slots.Keys == sc.slots.Keys + Declares(s.ifCondition) + DeclaresBlock(s.thenBranch)
  {
    ScopeGrows(sc, s.ifCondition);
    ScopeGrowsByBlock(ScopeAfter(sc, s.ifCondition), s.thenBranch);
  }

  /** What repeats once the condition held: body, postfix and the jump back to loopStart. */
  ghost predicate EmitsTurn(lk: Linkage, sc: Scope, s: Statement, loopStart: nat, before: Code, after: Code, later: Scope)
    requires s.WhileStatement? || s.ForStatement?
  {
    var pc := |before.instructions|;
    var atPostfix := pc + SizeOfBlock(LoopBody(s));
    var inPostfix := ScopeAfterBlock(sc, LoopBody(s));
    Grown(before, after) &&
    |after.instructions| == atPostfix + SizeOfOptional(LoopPostfix(s)) + 1 &&
    CodeOfBlock(lk, after, sc, LoopBody(s), pc) &&
    CodeOfOptional(lk, after, inPostfix, LoopPostfix(s), atPostfix) &&
    At(after, |after.instructions| - 1, JMP, loopStart) && later == ScopeAfterOptional(inPostfix, LoopPostfix(s))
  }

  lemma TurnCode(lk: Linkage, sc: Scope, s: Statement, loopStart: nat, c0: Code, c1: Code, c2: Code, c3: Code,
                 sc1: Scope, sc2: Scope)
    requires s.WhileStatement? || s.ForStatement?
    requires EmitsBlock(lk, sc, LoopBody(s), c0, c1, sc1) && EmitsOptional(lk, sc1, LoopPostfix(s), c1, c2, sc2)
    requires EmitsOne(c2, c3, JMP, loopStart)
    ensures EmitsTurn(lk, sc, s, loopStart, c0, c3, sc2)
  {
    hide CodeOf, CodeOfBlock, Size, SizeOfBlock, ScopeAfter, ScopeAfterBlock;
    BlockCodeStays(lk, c1, c3, sc, LoopBody(s), |c0.instructions|);
    OptionalCodeStays(lk, c2, c3, sc1, LoopPostfix(s), |c1.instructions|);
  }

  /** A loop with a condition: condition, placeholder, one turn, patch. */
  lemma GuardedLoopCode(lk: Linkage, sc: Scope, s: Statement, c0: Code, c1: Code, c2: Code, c3: Code, c4: Code,
                        sc1: Scope, sc2: Scope)
    requires s.WhileStatement? || s.ForStatement?
    requires LoopCondition(s).Present? && Emits(lk, sc, LoopCondition(s).expression, c0, c1, sc1)
    requires EmitsOne(c1, c2, JMP_IF_FALSE, PLACEHOLDER)
    requires EmitsTurn(lk, sc1, s, |c0.instructions|, c2, c3, sc2) && Patches(c3, c4, |c1.instructions|)
    ensures EmitsLoop(lk, sc, s, c0, c4, sc2)
  {
    hide CodeOf, CodeOfBlock, Size, SizeOfBlock, ScopeAfter, ScopeAfterBlock;
    var inPostfix := ScopeAfterBlock(sc1, LoopBody(s));
    CodeStays(lk, c1, c4, sc, LoopCondition(s).expression, |c0.instructions|);
    BlockCodeStays(lk, c3, c4, sc1, LoopBody(s), |c2.instructions|);
    OptionalCodeStays(lk, c3, c4, inPostfix, LoopPostfix(s), |c2.instructions| + SizeOfBlock(LoopBody(s)));
  }

  lemma EndlessLoopCode(lk: Linkage, sc: Scope, s: Statement, c0: Code, c1: Code, later: Scope)
    requires s.ForStatement? && s.forCondition.Absent?
    requires EmitsTurn(lk, sc, s, |c0.instructions|, c0, c1, later)
    ensures EmitsLoop(lk, sc, s, c0, c1, later)
  {
  }

  lemma ForCode(lk: Linkage, sc: Scope, s: Statement, c0: Code, c1: Code, c2: Code, sc1: Scope, sc2: Scope)
    requires s.ForStatement?
    requires EmitsOptional(lk, sc, s.initializer, c0, c1, sc1) && EmitsLoop(lk, sc1, s, c1, c2, sc2)
    ensures EmitsStatement(lk, sc, s, c0, c2, sc2)
  {
    OptionalCodeStays(lk, c1, c2, sc, s.initializer, |c0.instructions|);
  }

  lemma FunctionCode(lk: Linkage, f: ConstFunction, c0: Code, c1: Code, c2: Code, c3: Code, later: Scope)
    requires EmitsBlock(lk, ScopeOfParameters(f.paramNames), f.body, c0, c1, later)
    requires EmitsConstant(ZERO, c1, c2) && EmitsOne(c2, c3, RET, 0)
    ensures Grown(c0, c3) && CodeOfFunction(lk, c3, f, |c0.instructions|)
    ensures later == FinalScope(f)
  {
    BlockCodeStays(lk, c1, c3, ScopeOfParameters(f.paramNames), f.body, |c0.instructions|);
  }
}
