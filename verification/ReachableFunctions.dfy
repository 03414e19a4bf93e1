/** Only what a driver can reach matters: functions that no chain of calls from it names may be there or not, compile or
    not, be well-formed or not, without any effect on the outcome, whatever the limits. */
module ReachableFunctions {
  import opened ConstValues
  import opened Syntax
  import opened Bytecode
  import opened CodeShape
  import opened FrameSemantics
  import opened Simulation

  // ----- the functions a tree calls -----

  function Calls(e: Expression): set<string> {
    match e
    case BinaryExpression(l, _, r, _) => Calls(l) + Calls(r)
    case UnaryExpression(_, a, _) => Calls(a)
    case CastExpression(_, _, a) => Calls(a)
    case FunctionCall(f, args) => ArgumentCalls(args) + (if IsHint(f, args) then {} else {f})
    case VariableInit(_, v) => Calls(v)
    case Assignment(_, v) => Calls(v)
    case _ => {}
  }

  function ArgumentCalls(args: Arguments): set<string> {
    match args case NoArguments => {} case MoreArguments(a, rest) => Calls(a) + ArgumentCalls(rest)
  }

  function OptionalCalls(o: OptionalExpression): set<string> {
    match o case Absent => {} case Present(e) => Calls(e)
  }

  function StatementCalls(s: Statement): set<string> {
    match s
    case ReturnStatement(o) => OptionalCalls(o)
    case IfStatement(c, t, NoBlock) => Calls(c) + BlockCalls(t)
    case IfStatement(c, t, SomeBlock(e)) => Calls(c) + BlockCalls(t) + BlockCalls(e)
    case WhileStatement(c, b) => Calls(c) + BlockCalls(b)
    case ForStatement(i, c, p, b) => OptionalCalls(i) + OptionalCalls(c) + OptionalCalls(p) + BlockCalls(b)
    case BlockStatement(b) => BlockCalls(b)
    case ExpressionStatement(e) => Calls(e)
    case _ => {}
  }

  function BlockCalls(b: Block): set<string> {
    match b case EmptyBlock => {} case Statements(s, rest) => StatementCalls(s) + BlockCalls(rest)
  }

  // ----- the constants a tree looks up when `names` are the locals declared so far -----

  function Looks(names: set<string>, e: Expression): set<string>
    decreases e
  {
    match e
    case Identifier(x) => {x} - names
    case FieldAccess(o, f) => if o.Identifier? then {o.name + "." + f} - names else {}
    case BinaryExpression(l, _, r, _) => Looks(names, l) + Looks(names + Declares(l), r)
    case UnaryExpression(_, a, _) => Looks(names, a)
    case CastExpression(_, _, a) => Looks(names, a)
    case FunctionCall(_, args) => ArgumentLooks(names, args)
    case VariableInit(_, v) => Looks(names, v)
    case Assignment(_, v) => Looks(names, v)
    case _ => {}
  }

  function ArgumentLooks(names: set<string>, args: Arguments): set<string>
    decreases args
  {
    match args
    case NoArguments => {}
    case MoreArguments(a, rest) => Looks(names, a) + ArgumentLooks(names + Declares(a), rest)
  }

  function OptionalLooks(names: set<string>, o: OptionalExpression): set<string>
    decreases o
  {
    match o case Absent => {} case Present(e) => Looks(names, e)
  }

  function LoopLooks(names: set<string>, s: Statement): set<string>
    requires s.WhileStatement? || s.ForStatement?
    decreases s, 0
  {
    var inBody := names + DeclaresOptional(LoopCondition(s));
    OptionalLooks(names, LoopCondition(s)) + BlockLooks(inBody, LoopBody(s)) +
    OptionalLooks(inBody + DeclaresBlock(LoopBody(s)), LoopPostfix(s))
  }

  function StatementLooks(names: set<string>, s: Statement): set<string>
    decreases s, 1
  {
    match s
    case ReturnStatement(o) => OptionalLooks(names, o)
    case IfStatement(c, t, e) =>
      var inThen := names + Declares(c);
      Looks(names, c) + BlockLooks(inThen, t) +
      (if e.SomeBlock? then BlockLooks(inThen + DeclaresBlock(t), e.block) else {})
    case WhileStatement(_, _) => LoopLooks(names, s)
    case ForStatement(i, _, _, _) => OptionalLooks(names, i) + LoopLooks(names + DeclaresOptional(i), s)
    case BlockStatement(b) => BlockLooks(names, b)
    case ExpressionStatement(e) => Looks(names, e)
    case _ => {}
  }

  function BlockLooks(names: set<string>, b: Block): set<string>
    decreases b
  {
    match b
    case EmptyBlock => {}
    case Statements(s, rest) => StatementLooks(names, s) + BlockLooks(names + DeclaresStatement(s), rest)
  }

  // ----- names resolve alike -----

  /** The two sources bind these constants alike and know the same of these functions. */
  ghost predicate Alike(one: Source, two: Source, constants: set<string>, functions: set<string>) {
    (forall x :: x in constants ==>
      (x in one.constants <==> x in two.constants) && (x in one.constants ==> one.constants[x] == two.constants[x])) &&
    forall f :: f in functions ==> (f in one.functions <==> f in two.functions)
  }

  lemma {:induction false} ResolveAlike(one: Source, two: Source, names: set<string>, e: Expression)
    requires Alike(one, two, Looks(names, e), Calls(e))
    ensures Resolves(one, names, e) == Resolves(two, names, e)
    decreases e
  {
    match e
    case BinaryExpression(l, _, r, _) =>
      ResolveAlike(one, two, names, l);
      ResolveAlike(one, two, names + Declares(l), r);
    case UnaryExpression(_, a, _) => ResolveAlike(one, two, names, a);
    case CastExpression(_, _, a) => ResolveAlike(one, two, names, a);
    case FunctionCall(f, args) =>
      if IsHint(f, args) {
        assert args.MoreArguments?;
        assert Looks(names, args.first) <= ArgumentLooks(names, args) && Calls(args.first) <= ArgumentCalls(args);
        ResolveAlike(one, two, names, args.first);
      } else {
        ArgumentsResolveAlike(one, two, names, args);
      }
    case VariableInit(_, v) => ResolveAlike(one, two, names, v);
    case Assignment(_, v) => ResolveAlike(one, two, names, v);
    case _ =>
  }

  lemma {:induction false} ArgumentsResolveAlike(one: Source, two: Source, names: set<string>, args: Arguments)
    requires Alike(one, two, ArgumentLooks(names, args), ArgumentCalls(args))
    ensures ResolvesArguments(one, names, args) == ResolvesArguments(two, names, args)
    decreases args
  {
    hide Resolves, Looks, Calls;
    if args.MoreArguments? {
      ResolveAlike(one, two, names, args.first);
      ArgumentsResolveAlike(one, two, names + Declares(args.first), args.rest);
    }
  }

  lemma OptionalResolvesAlike(one: Source, two: Source, names: set<string>, o: OptionalExpression)
    requires Alike(one, two, OptionalLooks(names, o), OptionalCalls(o))
    ensures ResolvesOptional(one, names, o) == ResolvesOptional(two, names, o)
  {
    hide Alike, Resolves, Looks, Calls;
    if o.Present? { ResolveAlike(one, two, names, o.expression); }
  }

  lemma {:induction false} LoopResolvesAlike(one: Source, two: Source, names: set<string>, s: Statement)
    requires s.WhileStatement? || s.ForStatement?
    requires Alike(one, two, LoopLooks(names, s), StatementCalls(s))
    ensures ResolvesLoop(one, names, s) == ResolvesLoop(two, names, s)
    decreases s, 0
  {
    hide Resolves, ResolvesBlock, Looks, BlockLooks, Calls, BlockCalls, OptionalLooks, ResolvesOptional;
    var inBody := names + DeclaresOptional(LoopCondition(s));
    OptionalResolvesAlike(one, two, names, LoopCondition(s));
    BlockResolvesAlike(one, two, inBody, LoopBody(s));
    OptionalResolvesAlike(one, two, inBody + DeclaresBlock(LoopBody(s)), LoopPostfix(s));
  }

  lemma {:induction false} StatementResolvesAlike(one: Source, two: Source, names: set<string>, s: Statement)
    requires Alike(one, two, StatementLooks(names, s), StatementCalls(s))
    ensures ResolvesStatement(one, names, s) == ResolvesStatement(two, names, s)
    decreases s, 1
  {
    hide Resolves, ResolvesBlock, ResolvesLoop, Looks, BlockLooks, LoopLooks, Calls, BlockCalls, OptionalLooks,
      ResolvesOptional;
    match s
    case ReturnStatement(o) => OptionalResolvesAlike(one, two, names, o);
    case IfStatement(c, t, e) =>
      var inThen := names + Declares(c);
      ResolveAlike(one, two, names, c);
      BlockResolvesAlike(one, two, inThen, t);
      if e.SomeBlock? { BlockResolvesAlike(one, two, inThen + DeclaresBlock(t), e.block); }
    case WhileStatement(_, _) => LoopResolvesAlike(one, two, names, s);
    case ForStatement(i, _, _, _) =>
      OptionalResolvesAlike(one, two, names, i);
      LoopResolvesAlike(one, two, names + DeclaresOptional(i), s);
    case BlockStatement(b) => BlockResolvesAlike(one, two, names, b);
    case ExpressionStatement(e) => ResolveAlike(one, two, names, e);
    case _ =>
  }

  lemma {:induction false} BlockResolvesAlike(one: Source, two: Source, names: set<string>, b: Block)
    requires Alike(one, two, BlockLooks(names, b), BlockCalls(b))
    ensures ResolvesBlock(one, names, b) == ResolvesBlock(two, names, b)
    decreases b
  {
    hide ResolvesStatement, StatementLooks, StatementCalls;
    if b.Statements? {
      StatementResolvesAlike(one, two, names, b.head);
      BlockResolvesAlike(one, two, names + DeclaresStatement(b.head), b.tail);
    }
  }

  // ----- code of a tree is its code under any linkage that knows the functions it calls -----

  /** The two linkages know the same constants, and `two` gives these functions the indices `one` gives them. */
  ghost predicate Relinked(one: Linkage, two: Linkage, functions: set<string>) {
    two.src.constants == one.src.constants &&
    forall f :: f in functions && f in one.index ==> f in two.index && two.index[f] == one.index[f]
  }

  lemma {:induction false} CodeRelinks(one: Linkage, two: Linkage, code: Code, sc: Scope, e: Expression, pc: nat)
    requires Relinked(one, two, Calls(e)) && CodeOf(one, code, sc, e, pc)
    ensures CodeOf(two, code, sc, e, pc)
    decreases e
  {
    hide ScopeAfter, PushesConstant, At;
    match e
    case BinaryExpression(l, _, r, _) =>
      CodeRelinks(one, two, code, sc, l, pc);
      CodeRelinks(one, two, code, ScopeAfter(sc, l), r, pc + Size(l));
    case UnaryExpression(_, a, _) => CodeRelinks(one, two, code, sc, a, pc);
    case CastExpression(_, _, a) => CodeRelinks(one, two, code, sc, a, pc);
    case FunctionCall(f, args) =>
      if IsHint(f, args) {
        assert args.MoreArguments?;
        CodeRelinks(one, two, code, sc, args.first, pc);
      } else {
        ArgumentCodeRelinks(one, two, code, sc, args, pc);
      }
    case VariableInit(_, v) => CodeRelinks(one, two, code, sc, v, pc);
    case Assignment(_, v) => CodeRelinks(one, two, code, sc, v, pc);
    case _ =>
  }

  lemma {:induction false} ArgumentCodeRelinks(one: Linkage, two: Linkage, code: Code, sc: Scope, args: Arguments, pc: nat)
    requires Relinked(one, two, ArgumentCalls(args)) && CodeOfArguments(one, code, sc, args, pc)
    ensures CodeOfArguments(two, code, sc, args, pc)
    decreases args
  {
    hide CodeOf, Calls, ScopeAfter, Size;
    if args.MoreArguments? {
      CodeRelinks(one, two, code, sc, args.first, pc);
      ArgumentCodeRelinks(one, two, code, ScopeAfter(sc, args.first), args.rest, pc + Size(args.first));
    }
  }

  lemma OptionalCodeRelinks(one: Linkage, two: Linkage, code: Code, sc: Scope, o: OptionalExpression, pc: nat)
    requires Relinked(one, two, OptionalCalls(o)) && CodeOfOptional(one, code, sc, o, pc)
    ensures CodeOfOptional(two, code, sc, o, pc)
  {
    hide CodeOf, Calls;
    if o.Present? { CodeRelinks(one, two, code, sc, o.expression, pc); }
  }

  lemma {:induction false} LoopCodeRelinks(one: Linkage, two: Linkage, code: Code, sc: Scope, s: Statement, pc: nat)
    requires s.WhileStatement? || s.ForStatement?
    requires Relinked(one, two, StatementCalls(s)) && CodeOfLoop(one, code, sc, s, pc)
    ensures CodeOfLoop(two, code, sc, s, pc)
    decreases s, 0
  {
    hide CodeOf, CodeOfBlock, CodeOfOptional, Calls, BlockCalls, Size, SizeOfBlock, ScopeAfter, ScopeAfterBlock, At;
    var c, b, p := LoopCondition(s), LoopBody(s), LoopPostfix(s);
    var atBody := pc + SizeOfOptional(c) + (if c.Present? then 1 else 0);
    var inBody := ScopeAfterOptional(sc, c);
    OptionalCodeRelinks(one, two, code, sc, c, pc);
    BlockCodeRelinks(one, two, code, inBody, b, atBody);
    OptionalCodeRelinks(one, two, code, ScopeAfterBlock(inBody, b), p, atBody + SizeOfBlock(b));
  }

  lemma {:induction false} StatementCodeRelinks(one: Linkage, two: Linkage, code: Code, sc: Scope, s: Statement, pc: nat)
    requires Relinked(one, two, StatementCalls(s)) && CodeOfStatement(one, code, sc, s, pc)
    ensures CodeOfStatement(two, code, sc, s, pc)
    decreases s, 1
  {
    hide CodeOf, CodeOfBlock, CodeOfLoop, CodeOfOptional, Calls, BlockCalls, Size, SizeOfBlock, ScopeAfter, ScopeAfterBlock,
      LoopSize, At;
    match s
    case ReturnStatement(Present(e)) => CodeRelinks(one, two, code, sc, e, pc);
    case IfStatement(c, t, e) =>
      var inThen, atThen := ScopeAfter(sc, c), pc + Size(c) + 1;
      CodeRelinks(one, two, code, sc, c, pc);
      BlockCodeRelinks(one, two, code, inThen, t, atThen);
      if e.SomeBlock? {
        BlockCodeRelinks(one, two, code, ScopeAfterBlock(inThen, t), e.block, atThen + SizeOfBlock(t) + 1);
      }
    case WhileStatement(_, _) => LoopCodeRelinks(one, two, code, sc, s, pc);
    case ForStatement(i, _, _, _) =>
      OptionalCodeRelinks(one, two, code, sc, i, pc);
      LoopCodeRelinks(one, two, code, ScopeAfterOptional(sc, i), s, pc + SizeOfOptional(i));
    case BlockStatement(b) => BlockCodeRelinks(one, two, code, sc, b, pc);
    case ExpressionStatement(e) => CodeRelinks(one, two, code, sc, e, pc);
    case _ =>
  }

  lemma {:induction false} BlockCodeRelinks(one: Linkage, two: Linkage, code: Code, sc: Scope, b: Block, pc: nat)
    requires Relinked(one, two, BlockCalls(b)) && CodeOfBlock(one, code, sc, b, pc)
    ensures CodeOfBlock(two, code, sc, b, pc)
    decreases b
  {
    hide CodeOfStatement, StatementCalls, ScopeAfterStatement, SizeOfStatement;
    if b.Statements? {
      StatementCodeRelinks(one, two, code, sc, b.head, pc);
      BlockCodeRelinks(one, two, code, ScopeAfterStatement(sc, b.head), b.tail, pc + SizeOfStatement(b.head));
    }
  }

  // ----- the part of a program that a set of functions closed under calls makes up -----

  /** Functions of the set call only functions of the set. */
  ghost predicate ClosedUnderCalls(src: Source, reach: set<string>) {
    forall f :: f in reach && f in src.functions ==> BlockCalls(src.functions[f].body) <= reach
  }

  function Restrict(src: Source, reach: set<string>): Source {
    Source(src.constants, map f | f in src.functions && f in reach :: src.functions[f])
  }

  /** A program is a part of itself. */
  lemma WholeIsAPart(src: Source, reach: set<string>)
    requires src.functions.Keys <= reach
    ensures Restrict(src, reach) == src
  {
    assert Restrict(src, reach).functions == src.functions;
  }

  function RestrictLinkage(lk: Linkage, reach: set<string>): Linkage {
    Linkage(Restrict(lk.src, reach), map f | f in lk.index && f in reach :: lk.index[f])
  }

  function DriverCalls(d: Driver): set<string> {
    match d case ForExpression(e) => Calls(e) case ForCall(f, _) => {f}
  }

  lemma CompilesAlone(src: Source, reach: set<string>, fn: ConstFunction)
    requires BlockCalls(fn.body) <= reach
    ensures Compiles(Restrict(src, reach), fn) == Compiles(src, fn)
  {
    hide ResolvesBlock, BlockCalls, BlockLooks;
    BlockResolvesAlike(Restrict(src, reach), src, NameSet(fn.paramNames), fn.body);
  }

  /** An image of the program is an image of the part. */
  lemma LinkedAlone(lk: Linkage, im: Image, reach: set<string>)
    requires Linked(lk, im) && ClosedUnderCalls(lk.src, reach)
    ensures Linked(RestrictLinkage(lk, reach), im)
  {
    hide Compiles, CodeOfBlock, BlockCalls, FinalScope, PushesConstant, At;
    var part := RestrictLinkage(lk, reach);
    forall f | f in part.src.functions
      ensures HoldsFunction(part, im.code, part.src.functions[f], im.functions[part.index[f]])
    {
      var fn := lk.src.functions[f];
      CompilesAlone(lk.src, reach, fn);
      if Compiles(lk.src, fn) {
        BlockCodeRelinks(lk, part, im.code, ScopeOfParameters(fn.paramNames), fn.body, im.functions[lk.index[f]].entry.at);
      }
    }
  }

  lemma HeldAlone(lk: Linkage, code: Code, reach: set<string>, d: Driver)
    requires Holds(lk, code, d) && DriverCalls(d) <= reach
    ensures Holds(RestrictLinkage(lk, reach), code, d)
  {
    hide CodeOf, CodeOfArguments, Calls, At, ArgumentCalls;
    var part := RestrictLinkage(lk, reach);
    match d
    case ForExpression(e) => CodeRelinks(lk, part, code, NO_LOCALS, e, 0);
    case ForCall(f, args) =>
      QuotesCallNothing(args);
      ArgumentCodeRelinks(lk, part, code, NO_LOCALS, Quote(args), 0);
  }

  lemma QuotesCallNothing(args: seq<ConstValue>)
    requires AllConstant(args)
    ensures ArgumentCalls(Quote(args)) == {}
  {
    if |args| > 0 { QuotesCallNothing(args[1..]); }
  }

  /** An image runs as the part of its program that the driver can reach says, whatever the rest is. */
  lemma ReachIsEnough(cfg: Config, reach: set<string>, lk: Linkage, im: Image, d: Driver)
    requires Linked(lk, im) && Holds(lk, im.code, d) && ClosedUnderCalls(lk.src, reach) && DriverCalls(d) <= reach
    requires Runnable(Restrict(lk.src, reach), d)
    ensures RunImage(cfg, im) == RunOf(cfg, Restrict(lk.src, reach), d)
  {
    hide Linked, Holds, ClosedUnderCalls, Runnable, RunOf, RunImage, DriverCalls;
    LinkedAlone(lk, im, reach);
    HeldAlone(lk, im.code, reach, d);
    ImageRuns(cfg, RestrictLinkage(lk, reach), im, d);
  }

  /** Images of two programs that agree on what a driver can reach run it alike under every limit: wherever each
      function lies, in whatever order constants were pooled, whatever else the programs and the streams hold. */
  lemma UnreachedIsIrrelevant(cfg: Config, reach: set<string>, one: Linkage, im1: Image, two: Linkage, im2: Image,
                              d: Driver)
    requires Linked(one, im1) && Linked(two, im2) && Holds(one, im1.code, d) && Holds(two, im2.code, d)
    requires ClosedUnderCalls(one.src, reach) && DriverCalls(d) <= reach && Restrict(two.src, reach) == Restrict(one.src, reach)
    requires Runnable(Restrict(one.src, reach), d)
    ensures RunImage(cfg, im1) == RunImage(cfg, im2)
  {
    hide Linked, Holds, Runnable, RunOf, RunImage, DriverCalls, BlockCalls;
    ClosedAlike(reach, one.src, two.src);
    ReachIsEnough(cfg, reach, one, im1, d);
    ReachIsEnough(cfg, reach, two, im2, d);
  }

  lemma ClosedAlike(reach: set<string>, one: Source, two: Source)
    requires ClosedUnderCalls(one, reach) && Restrict(two, reach) == Restrict(one, reach)
    ensures ClosedUnderCalls(two, reach)
  {
    hide BlockCalls;
    forall f | f in reach && f in two.functions ensures BlockCalls(two.functions[f].body) <= reach {
      assert f in Restrict(two, reach).functions && two.functions[f] == Restrict(one, reach).functions[f];
    }
  }

  /** A driver compiles for the whole program exactly when it does for the part. */
  lemma ResolvesAlone(src: Source, reach: set<string>, e: Expression)
    requires Calls(e) <= reach
    ensures Resolves(Restrict(src, reach), {}, e) == Resolves(src, {}, e)
  {
    hide Resolves, Calls, Looks;
    ResolveAlike(Restrict(src, reach), src, {}, e);
  }
}
