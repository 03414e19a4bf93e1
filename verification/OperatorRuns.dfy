/** What a driver of one operator on literals gives: the laws of the operators, through the compiler and the machine. */
module OperatorRuns {
  import opened ConstValues
  import opened Arithmetic
  import opened Syntax
  import opened Bytecode
  import opened CodeShape
  import opened FrameSemantics
  import opened Simulation
  import opened ArithmeticLaws
  import opened OperatorLaws

  /** Room for two operands and four instructions. */
  predicate Suffices(cfg: Config) { cfg.maxStackSize >= 2 && cfg.maxIterations >= 4 }

  /** An integer is pushed signed, with 32 bits if it fits them and with 64 otherwise; a truth value and the bits of a
      128-bit integer are pushed as they are. */
  lemma PushedAs(v: ConstValue)
    requires v.IsConstant()
    ensures v.Integer? ==>
      Materialize(v) == Integer(v.intVal, if Representable(v.intVal, 32, true) then 32 else 64, true)
    ensures v.Integer128? ==> Materialize(v) == Integer128(v.int128Val, true)
    ensures v.Bool? ==> Materialize(v) == v
  {
    Pow2Of31();
  }

  lemma Pow2Of31()
    ensures Pow2(31) == 0x8000_0000
  {
    Pow2Twice(1, 2);
    Pow2Twice(2, 4);
    Pow2Twice(4, 16);
    Pow2Twice(8, 256);
    Pow2Twice(16, 0x1_0000);
    Pow2Next(31);
  }

  function Ended(r: OpResult): Outcome {
    match r case Push(v) => Value(v) case Stop(v) => Value(v)
  }

  lemma QuoteIsFine(at: Place, v: ConstValue, height: nat, win: seq<ConstValue>, fuel: nat)
    requires WellFormedSource(at.src) && v.IsConstant() && height < at.cfg.maxStackSize && fuel > 0
    ensures ValueExpression(at.src, QuoteValue(v)) && Resolves(at.src, NO_LOCALS.slots.Keys, QuoteValue(v))
    ensures Declares(QuoteValue(v)) == {}
    ensures Evaluate(at, NO_LOCALS, QuoteValue(v), height, win, fuel) == Yields(Materialize(v), win, fuel - 1)
  {
    hide WellFormedSource;
  }

  /** A literal. */
  lemma LiteralRuns(cfg: Config, src: Source, v: ConstValue)
    requires WellFormedSource(src) && v.IsConstant() && Suffices(cfg)
    ensures ValueExpression(src, QuoteValue(v)) && RunDriver(cfg, src, QuoteValue(v)) == Value(Materialize(v))
  {
    hide WellFormedSource, Evaluate, Materialize;
    QuoteIsFine(Start(cfg, src), v, 0, InitialLocals(cfg), cfg.maxIterations);
  }

  function Operation(l: ConstValue, op: BinaryOp, r: ConstValue, mode: OverflowMode): Expression
    requires l.IsConstant() && r.IsConstant()
  {
    BinaryExpression(QuoteValue(l), op, QuoteValue(r), mode)
  }

  /** A binary operator on two literals: the left operand is the left literal. */
  lemma OperationRuns(cfg: Config, src: Source, l: ConstValue, op: BinaryOp, r: ConstValue, mode: OverflowMode)
    requires WellFormedSource(src) && l.IsConstant() && r.IsConstant() && Suffices(cfg)
    ensures ValueExpression(src, Operation(l, op, r, mode)) && Resolves(src, NO_LOCALS.slots.Keys, Operation(l, op, r, mode))
    ensures RunDriver(cfg, src, Operation(l, op, r, mode)) == Ended(ApplyBinary(op, mode, Materialize(l), Materialize(r)))
  {
    hide WellFormedSource, ApplyBinary, QuoteValue, Materialize;
    var (at, win, n) := (Start(cfg, src), InitialLocals(cfg), cfg.maxIterations);
    QuoteIsFine(at, l, 0, win, n);
    QuoteIsFine(at, r, 1, win, n - 1);
    assert NO_LOCALS.slots.Keys + {} == NO_LOCALS.slots.Keys;
  }

  lemma UnaryRuns(cfg: Config, src: Source, op: UnaryOp, v: ConstValue, mode: OverflowMode)
    requires WellFormedSource(src) && v.IsConstant() && Suffices(cfg)
    ensures var e := UnaryExpression(op, QuoteValue(v), mode);
      ValueExpression(src, e) && RunDriver(cfg, src, e) == Ended(ApplyUnary(op, mode, Materialize(v)))
  {
    hide WellFormedSource, ApplyUnary, QuoteValue, Materialize;
    QuoteIsFine(Start(cfg, src), v, 0, InitialLocals(cfg), cfg.maxIterations);
  }

  function Number(n: int64): ConstValue { Integer(n, 64, true) }

  /** Comparing two integer literals tells the sign of their difference, in every mode, under all limits that suffice and in
      every image that holds the driver. */
  lemma LiteralsCompare(cfg: Config, src: Source, m: int64, op: BinaryOp, n: int64, mode: OverflowMode)
    requires WellFormedSource(src) && IsComparison(op) && Suffices(cfg)
    ensures var e := BinaryExpression(IntegerLiteral(Narrow(m)), op, IntegerLiteral(Narrow(n)), mode);
      ValueExpression(src, e) && RunDriver(cfg, src, e) == Value(Bool(SaysOf(op, n - m))) &&
      forall lk: Linkage, im: Image | lk.src == src && Linked(lk, im) && HoldsDriver(lk, im.code, e) ::
        RunImage(cfg, im) == Value(Bool(SaysOf(op, n - m)))
  {
    hide WellFormedSource, ApplyBinary, Linked, HoldsDriver, RunImage, RunDriver, Resolves, ValueExpression;
    var e := Operation(Number(m), op, Number(n), mode);
    OperationRuns(cfg, src, Number(m), op, Number(n), mode);
    ComparesExactly(op, mode, Materialize(Number(m)), Materialize(Number(n)));
    forall lk: Linkage, im: Image | lk.src == src && Linked(lk, im) && HoldsDriver(lk, im.code, e)
      ensures RunImage(cfg, im) == Value(Bool(SaysOf(op, n - m)))
    {
      DriverRuns(cfg, lk, im, e);
    }
  }

  /** Logic on literals, by its truth tables. */
  lemma LiteralsConnect(cfg: Config, src: Source, x: bool, y: bool, mode: OverflowMode)
    requires WellFormedSource(src) && Suffices(cfg)
    ensures var (l, r) := (BooleanLiteral(x), BooleanLiteral(y));
      ValueExpression(src, l) && ValueExpression(src, r) &&
      RunDriver(cfg, src, BinaryExpression(l, AndAnd, r, mode)) == Value(Bool(x && y)) &&
      RunDriver(cfg, src, BinaryExpression(l, OrOr, r, mode)) == Value(Bool(x || y)) &&
      RunDriver(cfg, src, UnaryExpression(LogicalNot, l, mode)) == Value(Bool(!x))
  {
    hide WellFormedSource, ApplyBinary, ApplyUnary, RunDriver, Resolves;
    OperationRuns(cfg, src, Bool(x), AndAnd, Bool(y), mode);
    OperationRuns(cfg, src, Bool(x), OrOr, Bool(y), mode);
    UnaryRuns(cfg, src, LogicalNot, Bool(x), mode);
    LogicIs(mode, Bool(x), Bool(y));
  }

  /** Adding, subtracting and multiplying integer literals without a mode: the exact result modulo the width its operands are
      pushed with. */
  lemma LiteralsCalculate(cfg: Config, src: Source, m: int64, op: BinaryOp, n: int64)
    requires WellFormedSource(src) && (op.Plus? || op.Minus? || op.Star?) && Suffices(cfg)
    ensures var e := BinaryExpression(IntegerLiteral(Narrow(m)), op, IntegerLiteral(Narrow(n)), NoMode);
      var w: Width := if Representable(m, 32, true) && Representable(n, 32, true) then 32 else 64;
      ValueExpression(src, e) && RunDriver(cfg, src, e).Value? &&
      WrapsTo(Push(RunDriver(cfg, src, e).value), Exact(op, m, n), w, true)
  {
    hide WellFormedSource, ApplyBinary, RunDriver, Resolves, Representable, Exact, Congruent;
    OperationRuns(cfg, src, Number(m), op, Number(n), NoMode);
    PushedAs(Number(m));
    PushedAs(Number(n));
    WrappingIsModular(op, NoMode, Materialize(Number(m)), Materialize(Number(n)));
  }

  /** A named constant gives its pushed value, under its own name or under a name with a dot. */
  lemma NamesRun(cfg: Config, src: Source, x: string, f: string)
    requires WellFormedSource(src) && Suffices(cfg)
    ensures x in src.constants && src.constants[x].IsConstant() ==>
      RunDriver(cfg, src, Identifier(x)) == Value(Materialize(src.constants[x]))
    ensures x + "." + f in src.constants && src.constants[x + "." + f].IsConstant() ==>
      RunDriver(cfg, src, FieldAccess(Identifier(x), f)) == Value(Materialize(src.constants[x + "." + f]))
    ensures x !in src.constants || !src.constants[x].IsConstant() ==> RunDriver(cfg, src, Identifier(x)) == Value(Error)
  {
    hide WellFormedSource, Materialize;
    assert NO_LOCALS.slots.Keys == {};
  }

  /** A cast of a literal keeps the number, in whatever width and sign it is asked for. */
  lemma CastRuns(cfg: Config, src: Source, w: Width, signed: bool, v: ConstValue)
    requires WellFormedSource(src) && v.IsConstant() && Suffices(cfg)
    ensures InInt64(Reading(v).number)
    ensures var e := CastExpression(w, signed, QuoteValue(v));
      ValueExpression(src, e) && RunDriver(cfg, src, e) == Value(Integer(Reading(v).number, w, signed))
  {
    hide WellFormedSource, QuoteValue, Materialize, Reading;
    QuoteIsFine(Start(cfg, src), v, 0, InitialLocals(cfg), cfg.maxIterations);
    PushedReads(v);
  }

  lemma PushedReads(v: ConstValue)
    requires v.IsConstant()
    ensures InInt64(Reading(v).number) && Materialize(v).ToInt() == Reading(v).number
  {
  }
}
