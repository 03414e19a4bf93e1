/** The syntax trees the bytecode compiler accepts, and their static semantics. */
module Syntax {
  import opened ConstValues
  import opened Arithmetic

  /** An integer literal after its digits were read: 64 bits, 128 bits, or too wide for either. */
  datatype Literal = Narrow(value: int64) | Wide(wide: Int128) | Unrepresentable

  datatype Expression =
    | IntegerLiteral(literal: Literal)
    | BooleanLiteral(truth: bool)
    | Identifier(name: string)
    | FieldAccess(receiver: Expression, fieldName: string)
    | BinaryExpression(left: Expression, binaryOp: BinaryOp, right: Expression, binaryMode: OverflowMode)
    | UnaryExpression(unaryOp: UnaryOp, operand: Expression, unaryMode: OverflowMode)
    | CastExpression(targetWidth: Width, targetSigned: bool, castOperand: Expression)
    | FunctionCall(callee: string, arguments: Arguments)
    | VariableInit(declared: string, initial: Expression)
    | Assignment(target: string, stored: Expression)
    | OtherExpression
  {
    predicate IsStore() { VariableInit? || Assignment? }
  }

  datatype Arguments = NoArguments | MoreArguments(first: Expression, rest: Arguments) {
    function Count(): nat { if NoArguments? then 0 else 1 + rest.Count() }
  }

  datatype OptionalExpression = Absent | Present(expression: Expression)

  datatype Statement =
    | ReturnStatement(returned: OptionalExpression)
    | ThrowStatement(thrownName: string)
    | IfStatement(ifCondition: Expression, thenBranch: Block, elseBranch: OptionalBlock)
    | WhileStatement(whileCondition: Expression, whileBody: Block)
    | ForStatement(initializer: OptionalExpression, forCondition: OptionalExpression, postfix: OptionalExpression,
                   forBody: Block)
    | BlockStatement(block: Block)
    | ExpressionStatement(expression: Expression)
    | OtherStatement

  datatype Block = EmptyBlock | Statements(head: Statement, tail: Block)

  datatype OptionalBlock = NoBlock | SomeBlock(block: Block)

  datatype ConstFunction = ConstFunction(paramNames: seq<string>, body: Block)

  /** What an evaluator knows: named constants and functions with a body. */
  datatype Source = Source(constants: map<string, ConstValue>, functions: map<string, ConstFunction>)

  /** `likely(e)` and `unlikely(e)` compile to e. */
  predicate IsHint(callee: string, arguments: Arguments) {
    (callee == "likely" || callee == "unlikely") && arguments.Count() == 1
  }

  // ----- the parts of a loop; a for-initializer runs before the loop -----

  function LoopCondition(s: Statement): OptionalExpression
    requires s.WhileStatement? || s.ForStatement?
  {
    if s.WhileStatement? then Present(s.whileCondition) else s.forCondition
  }

  function LoopBody(s: Statement): Block
    requires s.WhileStatement? || s.ForStatement?
  {
    if s.WhileStatement? then s.whileBody else s.forBody
  }

  function LoopPostfix(s: Statement): OptionalExpression
    requires s.WhileStatement? || s.ForStatement?
  {
    if s.WhileStatement? then Absent else s.postfix
  }

  // ----- names declared, in textual order -----

  function Declares(e: Expression): set<string> {
    match e
    case BinaryExpression(l, _, r, _) => Declares(l) + Declares(r)
    case UnaryExpression(_, a, _) => Declares(a)
    case CastExpression(_, _, a) => Declares(a)
    case FunctionCall(_, args) => DeclaresArguments(args)
    case VariableInit(x, v) => Declares(v) + {x}
    case Assignment(_, v) => Declares(v)
    case _ => {}
  }

  function DeclaresArguments(args: Arguments): set<string> {
    match args
    case NoArguments => {}
    case MoreArguments(a, rest) => Declares(a) + DeclaresArguments(rest)
  }

  function DeclaresOptional(o: OptionalExpression): set<string> {
    match o case Absent => {} case Present(e) => Declares(e)
  }

  function DeclaresLoop(s: Statement): set<string>
    requires s.WhileStatement? || s.ForStatement?
    decreases s, 0
  {
    DeclaresOptional(LoopCondition(s)) + DeclaresBlock(LoopBody(s)) + DeclaresOptional(LoopPostfix(s))
  }

  function DeclaresStatement(s: Statement): set<string>
    decreases s, 1
  {
    match s
    case ReturnStatement(o) => DeclaresOptional(o)
    case IfStatement(c, t, NoBlock) => Declares(c) + DeclaresBlock(t)
    case IfStatement(c, t, SomeBlock(e)) => Declares(c) + DeclaresBlock(t) + DeclaresBlock(e)
    case WhileStatement(_, _) => DeclaresLoop(s)
    case ForStatement(i, _, _, _) => DeclaresOptional(i) + DeclaresLoop(s)
    case BlockStatement(b) => DeclaresBlock(b)
    case ExpressionStatement(e) => Declares(e)
    case _ => {}
  }

  function DeclaresBlock(b: Block): set<string> {
    match b
    case EmptyBlock => {}
    case Statements(s, rest) => DeclaresStatement(s) + DeclaresBlock(rest)
  }

  // ----- name resolution: what compiles when `names` are the locals declared so far -----

  predicate ResolvesName(src: Source, names: set<string>, x: string) {
    x in names || (x in src.constants && src.constants[x].IsConstant())
  }

  predicate Resolves(src: Source, names: set<string>, e: Expression)
    decreases e
  {
    match e
    case IntegerLiteral(lit) => !lit.Unrepresentable?
    case BooleanLiteral(_) => true
    case Identifier(x) => ResolvesName(src, names, x)
    case FieldAccess(o, f) => o.Identifier? && ResolvesName(src, names, o.name + "." + f)
    case BinaryExpression(l, _, r, _) => Resolves(src, names, l) && Resolves(src, names + Declares(l), r)
    case UnaryExpression(_, a, _) => Resolves(src, names, a)
    case CastExpression(_, _, a) => Resolves(src, names, a)
    case FunctionCall(f, args) =>
      if IsHint(f, args) then Resolves(src, names, args.first)
      else f in src.functions && ResolvesArguments(src, names, args)
    case VariableInit(_, v) => Resolves(src, names, v)
    case Assignment(x, v) => Resolves(src, names, v) && x in names + Declares(v)
    case OtherExpression => false
  }

  predicate ResolvesArguments(src: Source, names: set<string>, args: Arguments)
    decreases args
  {
    match args
    case NoArguments => true
    case MoreArguments(a, rest) => Resolves(src, names, a) && ResolvesArguments(src, names + Declares(a), rest)
  }

  predicate ResolvesOptional(src: Source, names: set<string>, o: OptionalExpression)
    decreases o
  {
    match o case Absent => true case Present(e) => Resolves(src, names, e)
  }

  predicate ResolvesLoop(src: Source, names: set<string>, s: Statement)
    requires s.WhileStatement? || s.ForStatement?
    decreases s, 0
  {
    var inBody := names + DeclaresOptional(LoopCondition(s));
    ResolvesOptional(src, names, LoopCondition(s)) && ResolvesBlock(src, inBody, LoopBody(s)) &&
    ResolvesOptional(src, inBody + DeclaresBlock(LoopBody(s)), LoopPostfix(s))
  }

  predicate ResolvesStatement(src: Source, names: set<string>, s: Statement)
    decreases s, 1
  {
    match s
    case ReturnStatement(o) => ResolvesOptional(src, names, o)
    case ThrowStatement(_) => true
    case IfStatement(c, t, e) =>
      var inThen := names + Declares(c);
      Resolves(src, names, c) && ResolvesBlock(src, inThen, t) &&
      (e.SomeBlock? ==> ResolvesBlock(src, inThen + DeclaresBlock(t), e.block))
    case WhileStatement(_, _) => ResolvesLoop(src, names, s)
    case ForStatement(i, _, _, _) =>
      ResolvesOptional(src, names, i) && ResolvesLoop(src, names + DeclaresOptional(i), s)
    case BlockStatement(b) => ResolvesBlock(src, names, b)
    case ExpressionStatement(e) => Resolves(src, names, e)
    case OtherStatement => false
  }

  predicate ResolvesBlock(src: Source, names: set<string>, b: Block)
    decreases b
  {
    match b
    case EmptyBlock => true
    case Statements(s, rest) =>
      ResolvesStatement(src, names, s) && ResolvesBlock(src, names + DeclaresStatement(s), rest)
  }

  function NameSet(names: seq<string>): set<string> { set x | x in names }

  /** The function compiles: every name in its body resolves. */
  predicate Compiles(src: Source, f: ConstFunction) {
    ResolvesBlock(src, NameSet(f.paramNames), f.body)
  }

  // ----- well-formed trees -----
  // Stores push nothing, so they stand only where nothing takes their value; CALL takes as many
  // operands as the callee has parameters.

  predicate ValueExpression(src: Source, e: Expression) {
    match e
    case BinaryExpression(l, _, r, _) => ValueExpression(src, l) && ValueExpression(src, r)
    case UnaryExpression(_, a, _) => ValueExpression(src, a)
    case CastExpression(_, _, a) => ValueExpression(src, a)
    case FunctionCall(f, args) =>
      ValueArguments(src, args) &&
      (!IsHint(f, args) && f in src.functions ==> args.Count() == |src.functions[f].paramNames|)
    case VariableInit(_, _) => false
    case Assignment(_, _) => false
    case _ => true
  }

  predicate ValueArguments(src: Source, args: Arguments) {
    args.MoreArguments? ==> ValueExpression(src, args.first) && ValueArguments(src, args.rest)
  }

  predicate StoreExpression(src: Source, e: Expression) {
    match e
    case VariableInit(_, v) => ValueExpression(src, v)
    case Assignment(_, v) => ValueExpression(src, v)
    case _ => false
  }

  predicate WellFormed(src: Source, s: Statement) {
    match s
    case ReturnStatement(o) => o.Present? ==> ValueExpression(src, o.expression)
    case IfStatement(c, t, e) =>
      ValueExpression(src, c) && WellFormedBlock(src, t) && (e.SomeBlock? ==> WellFormedBlock(src, e.block))
    case WhileStatement(c, b) => ValueExpression(src, c) && WellFormedBlock(src, b)
    case ForStatement(i, c, p, b) =>
      (i.Present? ==> StoreExpression(src, i.expression)) && (c.Present? ==> ValueExpression(src, c.expression)) &&
      (p.Present? ==> StoreExpression(src, p.expression)) && WellFormedBlock(src, b)
    case BlockStatement(b) => WellFormedBlock(src, b)
    case ExpressionStatement(e) => StoreExpression(src, e) || ValueExpression(src, e)
    case _ => true
  }

  predicate WellFormedBlock(src: Source, b: Block) {
    b.Statements? ==> WellFormed(src, b.head) && WellFormedBlock(src, b.tail)
  }

  predicate Distinct(names: seq<string>) {
    forall i, j :: 0 <= i < j < |names| ==> names[i] != names[j]
  }

  /** Every function that compiles has distinct parameters and a well-formed body. */
  predicate WellFormedSource(src: Source) {
    forall f :: f in src.functions && Compiles(src, src.functions[f]) ==>
      Distinct(src.functions[f].paramNames) && WellFormedBlock(src, src.functions[f].body)
  }

  lemma ValuesDeclareNothing(src: Source, e: Expression)
    requires ValueExpression(src, e)
    ensures Declares(e) == {}
  {
    if e.FunctionCall? { ValueArgumentsDeclareNothing(src, e.arguments); }
  }

  lemma ValueArgumentsDeclareNothing(src: Source, args: Arguments)
    requires ValueArguments(src, args)
    ensures DeclaresArguments(args) == {}
  {
    if args.MoreArguments? {
      ValuesDeclareNothing(src, args.first);
      ValueArgumentsDeclareNothing(src, args.rest);
    }
  }
}
