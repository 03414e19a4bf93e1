/** The compiler from trees to bytecode: it appends to one instruction stream, shares constants through
    pools, gives locals slots in textual order and patches forward jumps in place. */
module BytecodeCompilers {
  import opened ConstValues
  import opened Syntax
  import opened Bytecode
  import opened CodeShape
  import opened CodeAssembly
  import opened FrameSemantics
  import opened Simulation

  /** Each registered function has its own entry in the function table. */
  ghost predicate ValidTable(index: map<string, nat>, pending: map<string, ConstFunction>, table: seq<CompiledFunction>) {
    index.Keys == pending.Keys &&
    (forall f :: f in index ==> index[f] < |table| && table[index[f]].numParams == |pending[f].paramNames|) &&
    (forall f, g :: f in index && g in index && index[f] == index[g] ==> f == g)
  }

  lemma SameNames(index: map<string, nat>, pending: map<string, ConstFunction>, table: seq<CompiledFunction>)
    requires ValidTable(index, pending, table)
    ensures index.Keys == pending.Keys
  {
  }

  lemma EntryOf(index: map<string, nat>, pending: map<string, ConstFunction>, table: seq<CompiledFunction>, f: string)
    requires ValidTable(index, pending, table) && f in index
    ensures f in pending && index[f] < |table| && table[index[f]].numParams == |pending[f].paramNames|
    ensures forall g :: g in index && g != f ==> index[g] != index[f]
  {
  }

  lemma EntryUpdated(index: map<string, nat>, pending: map<string, ConstFunction>, table: seq<CompiledFunction>, f: string,
                     entry: CompiledFunction)
    requires ValidTable(index, pending, table) && f in index && index[f] < |table|
    requires entry.numParams == table[index[f]].numParams
    ensures ValidTable(index, pending, table[index[f] := entry])
  {
  }

  class BytecodeCompiler {
    var instructions: seq<Instruction>
    var intPool: seq<int64>
    var int128Pool: seq<Int128>
    var stringPool: seq<string>
    var functionTable: seq<CompiledFunction>
    var constants: map<string, ConstValue>
    var functionIndex: map<string, nat>
    var pendingFunctions: map<string, ConstFunction>
    var localSlots: map<string, nat>
    var nextLocalSlot: nat
    var hadError: bool

    ghost function TheCode(): Code
      reads this`instructions, this`intPool, this`int128Pool, this`stringPool
    {
      Code(instructions, intPool, int128Pool, stringPool)
    }

    ghost function TheScope(): Scope
      reads this`localSlots, this`nextLocalSlot
    {
      Scope(localSlots, nextLocalSlot)
    }

    ghost function Src(): Source
      reads this`constants, this`pendingFunctions
    {
      Source(constants, pendingFunctions)
    }

    ghost function Lk(): Linkage
      reads this`constants, this`pendingFunctions, this`functionIndex
    {
      Linkage(Src(), functionIndex)
    }

    ghost predicate Valid()
      reads this`functionIndex, this`pendingFunctions, this`functionTable
    {
      ValidTable(functionIndex, pendingFunctions, functionTable)
    }

    constructor ()
      ensures Valid() && !hadError && TheCode() == Code([], [], [], []) && TheScope() == NO_LOCALS
      ensures Src() == Source(map[], map[])
    {
      instructions, intPool, int128Pool, stringPool, functionTable := [], [], [], [], [];
      constants, functionIndex, pendingFunctions := map[], map[], map[];
      localSlots, nextLocalSlot, hadError := map[], 0, false;
    }

    // ----- helpers -----

    method Emit(op: OpCode, operand: nat)
      modifies this`instructions
      ensures EmitsOne(old(TheCode()), TheCode(), op, operand)
    {
      instructions := instructions + [Instruction(op, operand)];
    }

    method AddIntConstant(v: int64) returns (index: nat)
      modifies this`intPool
      ensures old(intPool) <= intPool && index < |intPool| && intPool[index] == v
      ensures v in old(intPool) ==> intPool == old(intPool)
    {
      for i := 0 to |intPool|
        invariant forall j :: 0 <= j < i ==> intPool[j] != v
      {
        if intPool[i] == v { return i; }
      }
      index := |intPool|;
      intPool := intPool + [v];
    }

    method AddInt128Constant(v: Int128) returns (index: nat)
      modifies this`int128Pool
      ensures old(int128Pool) <= int128Pool && index < |int128Pool| && int128Pool[index] == v
      ensures v in old(int128Pool) ==> int128Pool == old(int128Pool)
    {
      for i := 0 to |int128Pool|
        invariant forall j :: 0 <= j < i ==> int128Pool[j] != v
      {
        if int128Pool[i] == v { return i; }
      }
      index := |int128Pool|;
      int128Pool := int128Pool + [v];
    }

    method AddStringConstant(v: string) returns (index: nat)
      modifies this`stringPool
      ensures old(stringPool) <= stringPool && index < |stringPool| && stringPool[index] == v
      ensures v in old(stringPool) ==> stringPool == old(stringPool)
    {
      for i := 0 to |stringPool|
        invariant forall j :: 0 <= j < i ==> stringPool[j] != v
      {
        if stringPool[i] == v { return i; }
      }
      index := |stringPool|;
      stringPool := stringPool + [v];
    }

    method GetOrCreateLocal(name: string) returns (slot: nat)
      modifies this`localSlots, this`nextLocalSlot
      ensures TheScope() == Declare(old(TheScope()), name) && slot == localSlots[name]
    {
      if name in localSlots { return localSlots[name]; }
      slot := nextLocalSlot;
      nextLocalSlot := nextLocalSlot + 1;
      localSlots := localSlots[name := slot];
    }

    method EmitJump(op: OpCode) returns (index: nat)
      modifies this`instructions
      ensures index == old(|instructions|) && EmitsOne(old(TheCode()), TheCode(), op, PLACEHOLDER)
    {
      index := |instructions|;
      Emit(op, PLACEHOLDER);
    }

    method PatchJump(index: nat)
      requires index < |instructions|
      modifies this`instructions
      ensures Patches(old(TheCode()), TheCode(), index)
    {
      instructions := instructions[index := instructions[index].(operand := |instructions|)];
    }

    /** Pushes a constant; kinds without a push instruction are an error. */
    method EmitConstant(v: ConstValue)
      modifies this`instructions, this`intPool, this`int128Pool, this`hadError
      ensures hadError == (old(hadError) || !v.IsConstant())
      ensures Grown(old(TheCode()), TheCode())
      ensures v.IsConstant() ==> EmitsConstant(v, old(TheCode()), TheCode())
    {
      match v
      case Integer(i, _, _) => var index := AddIntConstant(i); Emit(PUSH_INT, index);
      case Integer128(w, _) => var index := AddInt128Constant(w); Emit(PUSH_INT128, index);
      case Bool(b) => Emit(PUSH_BOOL, if b then 1 else 0);
      case _ => hadError := true;
    }

    // ----- expressions -----

    method CompileExpression(e: Expression)
      modifies this`instructions, this`intPool, this`int128Pool, this`stringPool, this`localSlots, this`nextLocalSlot,
        this`hadError
      requires Valid()
      ensures hadError == (old(hadError) || !Resolves(Src(), old(localSlots.Keys), e))
      ensures Grown(old(TheCode()), TheCode())
      ensures !hadError ==> Emits(Lk(), old(TheScope()), e, old(TheCode()), TheCode(), TheScope())
      decreases e, 1
    {
      hide Resolves, CodeOf, Size, ScopeAfter, Declares;
      if hadError { return; }
      if e.BinaryExpression? { CompileBinaryExpression(e); }
      else if e.UnaryExpression? { CompileUnaryExpression(e); }
      else if e.CastExpression? { CompileCastExpression(e); }
      else if e.FunctionCall? { CompileFunctionCall(e); }
      else if e.IsStore() { CompileStore(e); }
      else { CompileAtom(e); }
    }

    /** Literals, names, constant fields; anything else is not supported. */
    method CompileAtom(e: Expression)
      modifies this`instructions, this`intPool, this`int128Pool, this`stringPool, this`localSlots, this`nextLocalSlot,
        this`hadError
      requires Valid() && !hadError
      requires !e.BinaryExpression? && !e.UnaryExpression? && !e.CastExpression? && !e.FunctionCall? && !e.IsStore()
      ensures hadError == (old(hadError) || !Resolves(Src(), old(localSlots.Keys), e))
      ensures Grown(old(TheCode()), TheCode())
      ensures !hadError ==> Emits(Lk(), old(TheScope()), e, old(TheCode()), TheCode(), TheScope())
    {
      if e.IntegerLiteral? { EmitConstant(LiteralConstant(e.literal)); }
      else if e.BooleanLiteral? { EmitConstant(Bool(e.truth)); }
      else if e.Identifier? { CompileIdentifier(e.name); }
      else if e.FieldAccess? && e.receiver.Identifier? { CompileIdentifier(e.receiver.name + "." + e.fieldName); }
      else { hadError := true; }
    }

    method CompileIdentifier(x: string)
      modifies this`instructions, this`intPool, this`int128Pool, this`hadError
      requires Valid()
      ensures hadError == (old(hadError) || !ResolvesName(Src(), localSlots.Keys, x))
      ensures Grown(old(TheCode()), TheCode())
      ensures !hadError ==>
        |instructions| == old(|instructions|) + 1 && LoadsName(Lk(), TheCode(), TheScope(), x, old(|instructions|))
    {
      if x in localSlots { Emit(LOAD_LOCAL, localSlots[x]); }
      else if x in constants { EmitConstant(constants[x]); }
      else { hadError := true; }
    }

    method CompileBinaryExpression(e: Expression)
      modifies this`instructions, this`intPool, this`int128Pool, this`stringPool, this`localSlots, this`nextLocalSlot,
        this`hadError
      requires Valid() && !hadError && e.BinaryExpression?
      ensures hadError == (old(hadError) || !Resolves(Src(), old(localSlots.Keys), e))
      ensures Grown(old(TheCode()), TheCode())
      ensures !hadError ==> Emits(Lk(), old(TheScope()), e, old(TheCode()), TheCode(), TheScope())
      decreases e, 0
    {
      ghost var c0, sc := TheCode(), TheScope();
      ScopeGrows(sc, e.left);
      CompileExpression(e.left);
      if hadError { return; }
      ghost var c1, sc1 := TheCode(), TheScope();
      CompileExpression(e.right);
      if hadError { return; }
      ghost var c2 := TheCode();
      Emit(BINARY(e.binaryOp), BinaryOperand(e.binaryOp, e.binaryMode));
      BinaryCode(Lk(), sc, e, c0, c1, c2, TheCode(), sc1, TheScope());
    }

    method CompileUnaryExpression(e: Expression)
      modifies this`instructions, this`intPool, this`int128Pool, this`stringPool, this`localSlots, this`nextLocalSlot,
        this`hadError
      requires Valid() && !hadError && e.UnaryExpression?
      ensures hadError == (old(hadError) || !Resolves(Src(), old(localSlots.Keys), e))
      ensures Grown(old(TheCode()), TheCode())
      ensures !hadError ==> Emits(Lk(), old(TheScope()), e, old(TheCode()), TheCode(), TheScope())
      decreases e, 0
    {
      ghost var c0, sc := TheCode(), TheScope();
      CompileExpression(e.operand);
      if hadError { return; }
      ghost var c1 := TheCode();
      Emit(UNARY(e.unaryOp), UnaryOperand(e.unaryOp, e.unaryMode));
      UnaryCode(Lk(), sc, e, c0, c1, TheCode(), TheScope());
    }

    method CompileCastExpression(e: Expression)
      modifies this`instructions, this`intPool, this`int128Pool, this`stringPool, this`localSlots, this`nextLocalSlot,
        this`hadError
      requires Valid() && !hadError && e.CastExpression?
      ensures hadError == (old(hadError) || !Resolves(Src(), old(localSlots.Keys), e))
      ensures Grown(old(TheCode()), TheCode())
      ensures !hadError ==> Emits(Lk(), old(TheScope()), e, old(TheCode()), TheCode(), TheScope())
      decreases e, 0
    {
      ghost var c0, sc := TheCode(), TheScope();
      CompileExpression(e.castOperand);
      if hadError { return; }
      ghost var c1 := TheCode();
      Emit(CAST_INT, CastOperand(e.targetWidth, e.targetSigned));
      CastCode(Lk(), sc, e, c0, c1, TheCode(), TheScope());
    }

    method CompileFunctionCall(e: Expression)
      modifies this`instructions, this`intPool, this`int128Pool, this`stringPool, this`localSlots, this`nextLocalSlot,
        this`hadError
      requires Valid() && !hadError && e.FunctionCall?
      ensures hadError == (old(hadError) || !Resolves(Src(), old(localSlots.Keys), e))
      ensures Grown(old(TheCode()), TheCode())
      ensures !hadError ==> Emits(Lk(), old(TheScope()), e, old(TheCode()), TheCode(), TheScope())
      decreases e, 0
    {
      ghost var c0, sc := TheCode(), TheScope();
      if IsHint(e.callee, e.arguments) {
        CompileExpression(e.arguments.first);
        if !hadError { HintCode(Lk(), sc, e, c0, TheCode(), TheScope()); }
        return;
      }
      if e.callee !in functionIndex { hadError := true; return; }
      CompileArguments(e.arguments);
      if hadError { return; }
      ghost var c1 := TheCode();
      Emit(CALL, functionIndex[e.callee]);
      CallCode(Lk(), sc, e, c0, c1, TheCode(), TheScope());
    }

    /** The operands of a call, left to right. */
    method CompileArguments(args: Arguments)
      modifies this`instructions, this`intPool, this`int128Pool, this`stringPool, this`localSlots, this`nextLocalSlot,
        this`hadError
      requires Valid() && !hadError
      ensures hadError == (old(hadError) || !ResolvesArguments(Src(), old(localSlots.Keys), args))
      ensures Grown(old(TheCode()), TheCode())
      ensures !hadError ==> EmitsArguments(Lk(), old(TheScope()), args, old(TheCode()), TheCode(), TheScope())
      decreases args, 0
    {
      if args.NoArguments? { return; }
      ghost var c0, sc := TheCode(), TheScope();
      ScopeGrows(sc, args.first);
      CompileExpression(args.first);
      if hadError { return; }
      ghost var c1, sc1 := TheCode(), TheScope();
      CompileArguments(args.rest);
      if hadError { return; }
      ArgumentsCode(Lk(), sc, args, c0, c1, TheCode(), sc1, TheScope());
    }

    /** A variable initialisation takes a new slot; an assignment needs an old one. */
    method CompileStore(e: Expression)
      modifies this`instructions, this`intPool, this`int128Pool, this`stringPool, this`localSlots, this`nextLocalSlot,
        this`hadError
      requires Valid() && !hadError && e.IsStore()
      ensures hadError == (old(hadError) || !Resolves(Src(), old(localSlots.Keys), e))
      ensures Grown(old(TheCode()), TheCode())
      ensures !hadError ==> Emits(Lk(), old(TheScope()), e, old(TheCode()), TheCode(), TheScope())
      decreases e, 0
    {
      ghost var c0, sc := TheCode(), TheScope();
      var value := if e.VariableInit? then e.initial else e.stored;
      ScopeGrows(sc, value);
      CompileExpression(value);
      if hadError { return; }
      ghost var c1, sc1 := TheCode(), TheScope();
      if e.VariableInit? {
        var slot := GetOrCreateLocal(e.declared);
        Emit(STORE_LOCAL, slot);
      } else {
        if e.target !in localSlots { hadError := true; return; }
        Emit(STORE_LOCAL, localSlots[e.target]);
      }
      StoreCode(Lk(), sc, e, c0, c1, TheCode(), sc1);
    }

    method CompileOptional(o: OptionalExpression)
      modifies this`instructions, this`intPool, this`int128Pool, this`stringPool, this`localSlots, this`nextLocalSlot,
        this`hadError
      requires Valid()
      ensures hadError == (old(hadError) || !ResolvesOptional(Src(), old(localSlots.Keys), o))
      ensures Grown(old(TheCode()), TheCode())
      ensures !hadError ==> EmitsOptional(Lk(), old(TheScope()), o, old(TheCode()), TheCode(), TheScope())
      decreases o, 2
    {
      if o.Present? { CompileExpression(o.expression); }
    }

    // ----- statements -----

    method CompileStatement(s: Statement)
      modifies this`instructions, this`intPool, this`int128Pool, this`stringPool, this`localSlots, this`nextLocalSlot,
        this`hadError
      requires Valid()
      ensures hadError == (old(hadError) || !ResolvesStatement(Src(), old(localSlots.Keys), s))
      ensures Grown(old(TheCode()), TheCode())
      ensures !hadError ==> EmitsStatement(Lk(), old(TheScope()), s, old(TheCode()), TheCode(), TheScope())
      decreases s, 3
    {
      if hadError { return; }
      match s
      case ReturnStatement(_) => CompileReturn(s);
      case ThrowStatement(name) =>
        var index := AddStringConstant(name);
        Emit(THROW, index);
      case IfStatement(_, _, _) => CompileIf(s);
      case WhileStatement(_, _) => CompileLoop(s);
      case ForStatement(_, _, _, _) => CompileFor(s);
      case BlockStatement(b) => CompileBlock(b);
      case ExpressionStatement(_) => CompileExpressionStatement(s);
      case OtherStatement => hadError := true;
    }

    method CompileBlock(b: Block)
      modifies this`instructions, this`intPool, this`int128Pool, this`stringPool, this`localSlots, this`nextLocalSlot,
        this`hadError
      requires Valid()
      ensures hadError == (old(hadError) || !ResolvesBlock(Src(), old(localSlots.Keys), b))
      ensures Grown(old(TheCode()), TheCode())
      ensures !hadError ==> EmitsBlock(Lk(), old(TheScope()), b, old(TheCode()), TheCode(), TheScope())
      decreases b, 0
    {
      if b.EmptyBlock? { return; }
      ghost var c0, sc := TheCode(), TheScope();
      ScopeGrowsByStatement(sc, b.head);
      CompileStatement(b.head);
      if hadError { return; }
      ghost var c1, sc1 := TheCode(), TheScope();
      CompileBlock(b.tail);
      if hadError { return; }
      BlockCode(Lk(), sc, b, c0, c1, TheCode(), sc1, TheScope());
    }

    method CompileReturn(s: Statement)
      modifies this`instructions, this`intPool, this`int128Pool, this`stringPool, this`localSlots, this`nextLocalSlot,
        this`hadError
      requires Valid() && !hadError && s.ReturnStatement?
      ensures hadError == (old(hadError) || !ResolvesStatement(Src(), old(localSlots.Keys), s))
      ensures Grown(old(TheCode()), TheCode())
      ensures !hadError ==> EmitsStatement(Lk(), old(TheScope()), s, old(TheCode()), TheCode(), TheScope())
      decreases s, 1
    {
      ghost var c0, sc := TheCode(), TheScope();
      if s.returned.Present? { CompileExpression(s.returned.expression); } else { EmitConstant(ZERO); }
      ghost var c1 := TheCode();
      Emit(RET, 0);
      if !hadError { ReturnCode(Lk(), sc, s, c0, c1, TheCode(), TheScope()); }
    }

    method CompileIf(s: Statement)
      modifies this`instructions, this`intPool, this`int128Pool, this`stringPool, this`localSlots, this`nextLocalSlot,
        this`hadError
      requires Valid() && !hadError && s.IfStatement?
      ensures hadError == (old(hadError) || !ResolvesStatement(Src(), old(localSlots.Keys), s))
      ensures Grown(old(TheCode()), TheCode())
      ensures !hadError ==> EmitsStatement(Lk(), old(TheScope()), s, old(TheCode()), TheCode(), TheScope())
      decreases s, 1
    {
      hide CodeOf, CodeOfBlock, Resolves, ResolvesBlock, Size, SizeOfBlock, SizeOfStatement, Emits, EmitsBlock,
        EmitsStatement, EmitsThen, Within, Valid, Src, Lk, Grown, EmitsOne, Patches, Declares, DeclaresBlock,
        ScopeAfter, ScopeAfterBlock;
      ghost var c0, sc := TheCode(), TheScope();
      var resolved, jumpToElse := CompileThen(s);
      if !resolved { return; }
      ghost var c1, sc1 := TheCode(), TheScope();
      if !hadError { EmitsThenDeclares(Lk(), sc, s, c0, c1, jumpToElse, sc1); }
      if s.elseBranch.SomeBlock? {
        var jumpToEnd := EmitJump(JMP);
        ghost var c2 := TheCode();
        OneGrown(c0, c1, c2, JMP, PLACEHOLDER);
        PatchJump(jumpToElse);
        ghost var c3 := TheCode();
        PatchKeeps(c0, c2, c3, jumpToElse);
        CompileBlock(s.elseBranch.block);
        ghost var c4 := TheCode();
        GrownTwice(c0, c3, c4);
        PatchJump(jumpToEnd);
        PatchKeeps(c0, c4, TheCode(), jumpToEnd);
        if !hadError { IfElseCode(Lk(), sc, s, c0, c1, c2, c3, c4, TheCode(), jumpToElse, sc1, TheScope()); }
      } else {
        PatchJump(jumpToElse);
        PatchKeeps(c0, c1, TheCode(), jumpToElse);
        if !hadError { IfCode(Lk(), sc, s, c0, c1, TheCode(), jumpToElse, sc1); }
      }
    }

    /** The condition, a conditional jump to patch later, and the then-branch. */
    method CompileThen(s: Statement) returns (resolved: bool, jumpToElse: nat)
      modifies this`instructions, this`intPool, this`int128Pool, this`stringPool, this`localSlots, this`nextLocalSlot,
        this`hadError
      requires Valid() && !hadError && s.IfStatement?
      ensures resolved == Resolves(Src(), old(localSlots.Keys), s.ifCondition)
      ensures hadError == !(resolved && ResolvesBlock(Src(), old(localSlots.Keys) + Declares(s.ifCondition), s.thenBranch))
      ensures Grown(old(TheCode()), TheCode())
      ensures resolved ==> old(|instructions|) <= jumpToElse < |instructions|
      ensures !hadError ==> EmitsThen(Lk(), old(TheScope()), s, old(TheCode()), TheCode(), jumpToElse, TheScope())
      decreases s, 0
    {
      hide CodeOf, CodeOfBlock, Resolves, ResolvesBlock, Size, SizeOfBlock, SizeOfStatement, Emits, EmitsBlock,
        EmitsStatement, EmitsThen, Within, Valid, Src, Lk, Grown, EmitsOne, Patches, Declares, DeclaresBlock,
        ScopeAfter, ScopeAfterBlock;
      ghost var c0, sc := TheCode(), TheScope();
      CompileExpression(s.ifCondition);
      if hadError { return false, 0; }
      resolved := true;
      ghost var c1, sc1 := TheCode(), TheScope();
      EmitsDeclares(Lk(), sc, s.ifCondition, c0, c1, sc1);
      jumpToElse := EmitJump(JMP_IF_FALSE);
      ghost var c2 := TheCode();
      OneGrown(c0, c1, c2, JMP_IF_FALSE, PLACEHOLDER);
      CompileBlock(s.thenBranch);
      GrownTwice(c0, c2, TheCode());
      GrownTwice(c2, c2, TheCode());
      if !hadError { ThenCode(Lk(), sc, s, c0, c1, c2, TheCode(), sc1, TheScope()); }
    }

    /** The part of a while or for statement that repeats. */
    method CompileLoop(s: Statement)
      modifies this`instructions, this`intPool, this`int128Pool, this`stringPool, this`localSlots, this`nextLocalSlot,
        this`hadError
      requires Valid() && (s.WhileStatement? || s.ForStatement?)
      ensures hadError == (old(hadError) || !ResolvesLoop(Src(), old(localSlots.Keys), s))
      ensures Grown(old(TheCode()), TheCode())
      ensures !hadError ==> EmitsLoop(Lk(), old(TheScope()), s, old(TheCode()), TheCode(), TheScope())
      decreases s, 1
    {
      hide CodeOf, CodeOfBlock, CodeOfOptional, CodeOfStatement, CodeOfLoop, Resolves, ResolvesBlock,
        Size, SizeOfBlock, SizeOfOptional, SizeOfStatement, LoopSize, Emits, EmitsBlock, EmitsOptional, EmitsStatement,
        EmitsLoop, EmitsTurn, Within, Valid, Src, Lk;
      ghost var c0, sc := TheCode(), TheScope();
      var loopStart := |instructions|;
      if LoopCondition(s).Absent? {
        assert sc.slots.Keys + DeclaresOptional(LoopCondition(s)) == sc.slots.Keys;
        CompileTurn(s, loopStart);
        if !hadError { EndlessLoopCode(Lk(), sc, s, c0, TheCode(), TheScope()); }
        return;
      }
      CompileExpression(LoopCondition(s).expression);
      if hadError { return; }
      ghost var c1, sc1 := TheCode(), TheScope();
      EmitsDeclares(Lk(), sc, LoopCondition(s).expression, c0, c1, sc1);
      var jumpToEnd := EmitJump(JMP_IF_FALSE);
      ghost var c2 := TheCode();
      assert EmitsOne(c1, c2, JMP_IF_FALSE, PLACEHOLDER);
      CompileTurn(s, loopStart);
      ghost var c3 := TheCode();
      PatchJump(jumpToEnd);
      if !hadError { GuardedLoopCode(Lk(), sc, s, c0, c1, c2, c3, TheCode(), sc1, TheScope()); }
    }

    /** Body, postfix and the jump back. */
    method CompileTurn(s: Statement, loopStart: nat)
      modifies this`instructions, this`intPool, this`int128Pool, this`stringPool, this`localSlots, this`nextLocalSlot,
        this`hadError
      requires Valid() && (s.WhileStatement? || s.ForStatement?)
      ensures hadError == (old(hadError) || !ResolvesBlock(Src(), old(localSlots.Keys), LoopBody(s)) ||
        !ResolvesOptional(Src(), old(localSlots.Keys) + DeclaresBlock(LoopBody(s)), LoopPostfix(s)))
      ensures Grown(old(TheCode()), TheCode())
      ensures !hadError ==> EmitsTurn(Lk(), old(TheScope()), s, loopStart, old(TheCode()), TheCode(), TheScope())
      decreases s, 0
    {
      hide CodeOf, CodeOfBlock, CodeOfOptional, CodeOfStatement, CodeOfLoop, Resolves, ResolvesBlock,
        Size, SizeOfBlock, SizeOfOptional, SizeOfStatement, LoopSize, Emits, EmitsBlock, EmitsOptional, EmitsStatement,
        EmitsLoop, EmitsTurn, Within, Valid, Src, Lk;
      ghost var c0, sc := TheCode(), TheScope();
      CompileBlock(LoopBody(s));
      ghost var c1, sc1 := TheCode(), TheScope();
      if !hadError { EmitsBlockDeclares(Lk(), sc, LoopBody(s), c0, c1, sc1); }
      CompileOptional(LoopPostfix(s));
      ghost var c2 := TheCode();
      Emit(JMP, loopStart);
      if !hadError { TurnCode(Lk(), sc, s, loopStart, c0, c1, c2, TheCode(), sc1, TheScope()); }
    }

    method CompileFor(s: Statement)
      modifies this`instructions, this`intPool, this`int128Pool, this`stringPool, this`localSlots, this`nextLocalSlot,
        this`hadError
      requires Valid() && !hadError && s.ForStatement?
      ensures hadError == (old(hadError) || !ResolvesStatement(Src(), old(localSlots.Keys), s))
      ensures Grown(old(TheCode()), TheCode())
      ensures !hadError ==> EmitsStatement(Lk(), old(TheScope()), s, old(TheCode()), TheCode(), TheScope())
      decreases s, 2
    {
      ghost var c0, sc := TheCode(), TheScope();
      ScopeGrowsByOptional(sc, s.initializer);
      CompileOptional(s.initializer);
      ghost var c1, sc1 := TheCode(), TheScope();
      CompileLoop(s);
      if !hadError { ForCode(Lk(), sc, s, c0, c1, TheCode(), sc1, TheScope()); }
    }

    method CompileExpressionStatement(s: Statement)
      modifies this`instructions, this`intPool, this`int128Pool, this`stringPool, this`localSlots, this`nextLocalSlot,
        this`hadError
      requires Valid() && !hadError && s.ExpressionStatement?
      ensures hadError == (old(hadError) || !ResolvesStatement(Src(), old(localSlots.Keys), s))
      ensures Grown(old(TheCode()), TheCode())
      ensures !hadError ==> EmitsStatement(Lk(), old(TheScope()), s, old(TheCode()), TheCode(), TheScope())
      decreases s, 1
    {
      ghost var c0, sc := TheCode(), TheScope();
      CompileExpression(s.expression);
      if hadError { return; }
      ghost var c1 := TheCode();
      if !s.expression.IsStore() { Emit(POP, 0); }
      DiscardCode(Lk(), sc, s, c0, c1, TheCode(), TheScope());
    }

    // ----- functions and drivers -----

    method DefineConstant(name: string, v: ConstValue)
      modifies this`constants
      ensures constants == old(constants)[name := v]
    {
      constants := constants[name := v];
    }

    /** Reserves the next entry of the function table, unless the name has one. */
    method RegisterFunction(name: string, fn: ConstFunction)
      requires Valid()
      modifies this`functionTable, this`functionIndex, this`pendingFunctions
      ensures Valid()
      ensures pendingFunctions == if name in old(pendingFunctions) then old(pendingFunctions)
                                  else old(pendingFunctions)[name := fn]
    {
      if name in functionIndex { return; }
      var index := |functionTable|;
      functionIndex := functionIndex[name := index];
      functionTable := functionTable + [CompiledFunction(name, |fn.paramNames|, 0, CodeStart(0))];
      pendingFunctions := pendingFunctions[name := fn];
    }

    /** Appends the body of one function and completes its entry; a body that fails makes the entry invalid. */
    method CompileFunction(name: string) returns (ok: bool)
      requires Valid() && name in functionIndex
      modifies this`instructions, this`intPool, this`int128Pool, this`stringPool, this`localSlots, this`nextLocalSlot,
        this`hadError, this`functionTable
      ensures Valid() && Grown(old(TheCode()), TheCode()) && TheScope() == old(TheScope())
      ensures |functionTable| == old(|functionTable|)
      ensures forall i :: 0 <= i < |functionTable| && i != functionIndex[name] ==>
        functionTable[i] == old(functionTable[i])
      ensures ok == Compiles(Src(), pendingFunctions[name])
      ensures HoldsFunction(Lk(), TheCode(), pendingFunctions[name], functionTable[functionIndex[name]])
    {
      EntryOf(functionIndex, pendingFunctions, functionTable, name);
      hide Compiles, CodeOfFunction, Grown, FinalScope, ValidTable, Src, Lk;
      var index, fn := functionIndex[name], pendingFunctions[name];
      var savedSlots, savedNext := localSlots, nextLocalSlot;
      SetEntry(name, functionTable[index].(entry := CodeStart(|instructions|)));
      CompileBody(fn);
      SetEntry(name, functionTable[index].(numLocals := nextLocalSlot));
      localSlots, nextLocalSlot := savedSlots, savedNext;
      if hadError {
        SetEntry(name, functionTable[index].(entry := InvalidCodeStart));
        return false;
      }
      return true;
    }

    method SetEntry(name: string, entry: CompiledFunction)
      requires Valid() && name in functionIndex && functionIndex[name] < |functionTable|
      requires entry.numParams == functionTable[functionIndex[name]].numParams
      modifies this`functionTable
      ensures Valid() && functionTable == old(functionTable)[functionIndex[name] := entry]
    {
      EntryUpdated(functionIndex, pendingFunctions, functionTable, name, entry);
      functionTable := functionTable[functionIndex[name] := entry];
    }

    /** Slots for the parameters, the body, and an implicit `return 0`. */
    method CompileBody(fn: ConstFunction)
      requires Valid()
      modifies this`instructions, this`intPool, this`int128Pool, this`stringPool, this`localSlots, this`nextLocalSlot,
        this`hadError
      ensures Grown(old(TheCode()), TheCode()) && hadError == !Compiles(Src(), fn)
      ensures !hadError ==>
        CodeOfFunction(Lk(), TheCode(), fn, old(|instructions|)) && nextLocalSlot == FinalScope(fn).next
    {
      hide Compiles, CodeOfFunction, CodeOfBlock, ScopeAfterBlock, SizeOfBlock, ResolvesBlock, Grown, FinalScope, EmitsBlock,
        EmitsConstant, EmitsOne, Valid, Src, Lk, ScopeOfParameters, NameSet, PushesConstant, At;
      hadError := false;
      localSlots, nextLocalSlot := map[], 0;
      AllocateParameters(fn.paramNames);
      CompilesMeans(Src(), fn);
      ghost var c0 := TheCode();
      CompileBlock(fn.body);
      ghost var c1, later := TheCode(), TheScope();
      EmitConstant(ZERO);
      ghost var c2 := TheCode();
      Emit(RET, 0);
      GrownTwice(c0, c1, c2);
      OneGrown(c0, c2, TheCode(), RET, 0);
      if !hadError { FunctionCode(Lk(), fn, c0, c1, c2, TheCode(), later); }
    }

    method AllocateParameters(params: seq<string>)
      requires TheScope() == NO_LOCALS
      modifies this`localSlots, this`nextLocalSlot
      ensures TheScope() == ScopeOfParameters(params)
    {
      for i := 0 to |params|
        invariant TheScope() == ScopeOfParameters(params[..i])
      {
        assert params[..i + 1][..i] == params[..i];
        var _ := GetOrCreateLocal(params[i]);
      }
      assert params[..|params|] == params;
    }

    /** Compiles every registered function, in whatever order the pending map yields them. */
    method CompileAllFunctions() returns (all: bool)
      requires Valid()
      modifies this`instructions, this`intPool, this`int128Pool, this`stringPool, this`localSlots, this`nextLocalSlot,
        this`hadError, this`functionTable
      ensures Valid() && Grown(old(TheCode()), TheCode())
      ensures Linked(Lk(), Image(TheCode(), functionTable))
      ensures all == AllCompile(Src(), pendingFunctions.Keys)
    {
      hide Compiles, HoldsFunction, CodeOfFunction, Grown, HoldsAll, AllCompile, ValidTable, Linked;
      NothingHeld(Lk(), TheCode(), functionTable);
      all := true;
      SameNames(functionIndex, pendingFunctions, functionTable);
      var todo := pendingFunctions.Keys;
      assert pendingFunctions.Keys - todo == {};
      while todo != {}
        invariant Valid() && Grown(old(TheCode()), TheCode()) && todo <= pendingFunctions.Keys
        invariant HoldsAll(Lk(), TheCode(), functionTable, pendingFunctions.Keys - todo)
        invariant all == AllCompile(Src(), pendingFunctions.Keys - todo)
      {
        var name :| name in todo;
        ghost var before, table, done := TheCode(), functionTable, pendingFunctions.Keys - todo;
        var ok := CompileFunction(name);
        GrownTwice(old(TheCode()), before, TheCode());
        OneMoreHeld(Lk(), before, TheCode(), table, functionTable, done, name);
        OneMoreCompiles(Src(), done, name);
        if !ok { all := false; }
        assert pendingFunctions.Keys - (todo - {name}) == done + {name};
        todo := todo - {name};
      }
      assert pendingFunctions.Keys - {} == pendingFunctions.Keys;
      AllHeld(Lk(), TheCode(), functionTable);
    }

    /** Driver code for an expression, at the start of the stream. */
    method CompileDriver(e: Expression) returns (ok: bool)
      requires Valid()
      modifies this`instructions, this`intPool, this`int128Pool, this`stringPool, this`localSlots, this`nextLocalSlot,
        this`hadError
      ensures ok == Resolves(Src(), NO_LOCALS.slots.Keys, e)
      ensures ok ==> HoldsDriver(Lk(), TheCode(), e)
    {
      hide Resolves, CodeOf, Linked, ValidTable;
      instructions, intPool, int128Pool, stringPool := [], [], [], [];
      localSlots, nextLocalSlot, hadError := map[], 0, false;
      assert TheScope() == NO_LOCALS;
      CompileExpression(e);
      if !hadError {
        ghost var before := TheCode();
        Emit(HALT, 0);
        CodeStays(Lk(), before, TheCode(), NO_LOCALS, e, 0);
      }
      return !hadError;
    }

    /** Driver code that pushes constant arguments and calls a function. */
    method CompileCallDriver(name: string, args: seq<ConstValue>) returns (ok: bool)
      requires Valid() && TheCode() == Code([], [], [], []) && !hadError
      modifies this`instructions, this`intPool, this`int128Pool, this`hadError
      ensures ok == (name in functionIndex && AllConstant(args))
      ensures ok ==> HoldsCallDriver(Lk(), TheCode(), name, args)
    {
      if name !in functionIndex { return false; }
      for i := 0 to |args|
        invariant !hadError && |instructions| == i && AllConstant(args[..i])
        invariant forall k :: 0 <= k < i ==> PushesConstant(TheCode(), k, args[k])
      {
        ghost var before := TheCode();
        EmitConstant(args[i]);
        if hadError { return false; }
        assert args[..i + 1] == args[..i] + [args[i]];
        forall k | 0 <= k < i ensures PushesConstant(TheCode(), k, args[k]) {
          assert PushesConstant(before, k, args[k]);
        }
      }
      assert args[..|args|] == args;
      ghost var before := TheCode();
      Emit(CALL, functionIndex[name]);
      Emit(HALT, 0);
      forall k | 0 <= k < |args| ensures PushesConstant(TheCode(), k, args[k]) {
        assert PushesConstant(before, k, args[k]);
      }
      QuotedCode(Lk(), TheCode(), args, 0);
      return true;
    }
  }

  predicate AllCompile(src: Source, names: set<string>)
    requires names <= src.functions.Keys
  {
    forall f :: f in names ==> Compiles(src, src.functions[f])
  }

  lemma OneMoreCompiles(src: Source, done: set<string>, name: string)
    requires done + {name} <= src.functions.Keys
    ensures AllCompile(src, done + {name}) == (AllCompile(src, done) && Compiles(src, src.functions[name]))
  {
  }

  ghost predicate HoldsAll(lk: Linkage, code: Code, table: seq<CompiledFunction>, names: set<string>) {
    forall f :: f in names ==>
      f in lk.src.functions && f in lk.index && lk.index[f] < |table| &&
      HoldsFunction(lk, code, lk.src.functions[f], table[lk.index[f]])
  }

  lemma NothingHeld(lk: Linkage, code: Code, table: seq<CompiledFunction>)
    ensures HoldsAll(lk, code, table, {}) && AllCompile(lk.src, {}) && Grown(code, code)
  {
  }

  lemma AllHeld(lk: Linkage, code: Code, table: seq<CompiledFunction>)
    requires ValidTable(lk.index, lk.src.functions, table) && HoldsAll(lk, code, table, lk.src.functions.Keys)
    ensures Linked(lk, Image(code, table))
  {
  }

  lemma OneMoreHeld(lk: Linkage, before: Code, after: Code, table: seq<CompiledFunction>, table': seq<CompiledFunction>,
                    done: set<string>, name: string)
    requires ValidTable(lk.index, lk.src.functions, table) && Grown(before, after) && |table'| == |table|
    requires done <= lk.src.functions.Keys && name in lk.src.functions && name !in done
    requires HoldsAll(lk, before, table, done)
    requires forall i :: 0 <= i < |table| && i != lk.index[name] ==> table'[i] == table[i]
    requires HoldsFunction(lk, after, lk.src.functions[name], table'[lk.index[name]])
    ensures HoldsAll(lk, after, table', done + {name})
  {
    hide HoldsFunction, Grown;
    forall f | f in done ensures HoldsFunction(lk, after, lk.src.functions[f], table'[lk.index[f]]) {
      FunctionStays(lk, before, after, lk.src.functions[f], table[lk.index[f]]);
    }
  }

  lemma CompilesMeans(src: Source, fn: ConstFunction)
    ensures Compiles(src, fn) == ResolvesBlock(src, ScopeOfParameters(fn.paramNames).slots.Keys, fn.body)
  {
  }

  lemma FunctionStays(lk: Linkage, before: Code, after: Code, fn: ConstFunction, entry: CompiledFunction)
    requires HoldsFunction(lk, before, fn, entry) && Grown(before, after)
    ensures HoldsFunction(lk, after, fn, entry)
  {
    if Compiles(lk.src, fn) { FunctionCodeStays(lk, before, after, fn, entry.entry.at); }
  }

  lemma QuotedCode(lk: Linkage, code: Code, args: seq<ConstValue>, pc: nat)
    requires AllConstant(args) && forall k :: 0 <= k < |args| ==> PushesConstant(code, pc + k, args[k])
    ensures CodeOfArguments(lk, code, NO_LOCALS, Quote(args), pc)
    decreases |args|
  {
    if |args| > 0 {
      assert PushesConstant(code, pc + 0, args[0]);
      assert ScopeAfter(NO_LOCALS, QuoteValue(args[0])) == NO_LOCALS;
      forall k | 0 <= k < |args[1..]| ensures PushesConstant(code, pc + 1 + k, args[1..][k]) {
        assert PushesConstant(code, pc + (k + 1), args[k + 1]);
      }
      QuotedCode(lk, code, args[1..], pc + 1);
    }
  }

  /** Code appended after a driver leaves the driver alone. */
  lemma DriverStays(lk: Linkage, before: Code, after: Code, e: Expression)
    requires HoldsDriver(lk, before, e) && Grown(before, after)
    ensures HoldsDriver(lk, after, e)
  {
    CodeStays(lk, before, after, NO_LOCALS, e, 0);
  }

  lemma CallDriverStays(lk: Linkage, before: Code, after: Code, name: string, args: seq<ConstValue>)
    requires AllConstant(args) && HoldsCallDriver(lk, before, name, args) && Grown(before, after)
    ensures HoldsCallDriver(lk, after, name, args)
  {
    QuotedSize(args);
    ArgumentCodeStays(lk, before, after, NO_LOCALS, Quote(args), 0);
  }
}
