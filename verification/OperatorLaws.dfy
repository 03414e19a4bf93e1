/** What comparisons, shifts, bits and logic compute: against exact integers, single bits and truth tables. */
module OperatorLaws {
  import opened ConstValues
  import opened Arithmetic
  import opened ArithmeticLaws

  // ----- comparisons -----

  /** What each comparison says of the difference of its operands. */
  predicate SaysOf(op: BinaryOp, difference: int)
    requires IsComparison(op)
  {
    match op
    case EqualEqual => difference == 0
    case BangEqual => difference != 0
    case Less => difference > 0
    case LessEqual => difference > 0 || difference == 0
    case Greater => difference < 0
    case GreaterEqual => difference < 0 || difference == 0
  }

  predicate IsComparison(op: BinaryOp) {
    op.EqualEqual? || op.BangEqual? || op.Less? || op.LessEqual? || op.Greater? || op.GreaterEqual?
  }

  predicate Says(op: BinaryOp, mode: OverflowMode, l: ConstValue, r: ConstValue) {
    ApplyBinary(op, mode, l, r) == Push(Bool(true))
  }

  /** Any operands, any mode: a comparison pushes a truth value, which tells the sign of the exact difference. */
  lemma ComparesExactly(op: BinaryOp, mode: OverflowMode, l: ConstValue, r: ConstValue)
    requires IsComparison(op)
    ensures ApplyBinary(op, mode, l, r) == Push(Bool(SaysOf(op, Reading(r).number - Reading(l).number)))
  {
    ReadingIs(l);
    ReadingIs(r);
  }

  lemma SaysExactly(op: BinaryOp, mode: OverflowMode, l: ConstValue, r: ConstValue)
    requires IsComparison(op)
    ensures Says(op, mode, l, r) <==> SaysOf(op, Reading(r).number - Reading(l).number)
  {
    hide ApplyBinary, Reading, SaysOf;
    ComparesExactly(op, mode, l, r);
  }

  /** Exactly one of less, equal and greater; the other three are what these leave; and swapping the operands swaps less and
      greater. */
  lemma ComparisonsAgree(mode: OverflowMode, l: ConstValue, r: ConstValue)
    ensures Says(Less, mode, l, r) || Says(EqualEqual, mode, l, r) || Says(Greater, mode, l, r)
    ensures !(Says(Less, mode, l, r) && Says(EqualEqual, mode, l, r))
    ensures !(Says(Less, mode, l, r) && Says(Greater, mode, l, r))
    ensures !(Says(EqualEqual, mode, l, r) && Says(Greater, mode, l, r))
    ensures Says(LessEqual, mode, l, r) <==> Says(Less, mode, l, r) || Says(EqualEqual, mode, l, r)
    ensures Says(LessEqual, mode, l, r) <==> !Says(Greater, mode, l, r)
    ensures Says(GreaterEqual, mode, l, r) <==> Says(Greater, mode, l, r) || Says(EqualEqual, mode, l, r)
    ensures Says(GreaterEqual, mode, l, r) <==> !Says(Less, mode, l, r)
    ensures Says(BangEqual, mode, l, r) <==> !Says(EqualEqual, mode, l, r)
    ensures Says(Less, mode, l, r) <==> Says(Greater, mode, r, l)
  {
    hide Says, Reading;
    SaysExactly(Less, mode, l, r);
    SaysExactly(EqualEqual, mode, l, r);
    SaysExactly(Greater, mode, l, r);
    SaysExactly(LessEqual, mode, l, r);
    SaysExactly(GreaterEqual, mode, l, r);
    SaysExactly(BangEqual, mode, l, r);
    SaysExactly(Greater, mode, r, l);
  }

  /** They order the values, up to what reads as the same number. */
  lemma ComparisonsOrder(mode: OverflowMode, u: ConstValue, v: ConstValue, w: ConstValue)
    ensures Says(LessEqual, mode, u, v) && Says(LessEqual, mode, v, w) ==> Says(LessEqual, mode, u, w)
    ensures Says(LessEqual, mode, u, v) && Says(LessEqual, mode, v, u) <==> Says(EqualEqual, mode, u, v)
  {
    hide Says, Reading;
    SaysExactly(LessEqual, mode, u, v);
    SaysExactly(LessEqual, mode, v, w);
    SaysExactly(LessEqual, mode, u, w);
    SaysExactly(LessEqual, mode, v, u);
    SaysExactly(EqualEqual, mode, u, v);
  }

  // ----- logic -----

  /** Whether a condition holds of a value: an integer that is not zero in any of its bits, or a truth value that is true. */
  predicate IsTrue(v: ConstValue) {
    (v.Integer? && v.intVal != 0) || (v.Integer128? && (v.int128Val.high != 0 || v.int128Val.low != 0)) || v == Bool(true)
  }

  lemma TruthIs(v: ConstValue)
    ensures v.ToBool() <==> IsTrue(v)
  {
  }

  /** The truth tables, of any operands. */
  lemma LogicIs(mode: OverflowMode, l: ConstValue, r: ConstValue)
    ensures IsTrue(l) && IsTrue(r) ==> ApplyBinary(AndAnd, mode, l, r) == Push(Bool(true))
    ensures !IsTrue(l) || !IsTrue(r) ==> ApplyBinary(AndAnd, mode, l, r) == Push(Bool(false))
    ensures IsTrue(l) || IsTrue(r) ==> ApplyBinary(OrOr, mode, l, r) == Push(Bool(true))
    ensures !IsTrue(l) && !IsTrue(r) ==> ApplyBinary(OrOr, mode, l, r) == Push(Bool(false))
    ensures ApplyUnary(LogicalNot, mode, l) == Push(Bool(!IsTrue(l)))
  {
    TruthIs(l);
    TruthIs(r);
  }

  // ----- shifts -----

  lemma ShiftOperators(mode: OverflowMode, l: ConstValue, r: ConstValue)
    requires 0 <= Reading(r).number < 64
    ensures InInt64(Reading(l).number)
    ensures var (a, p) := (Reading(l).number, Pow2(Reading(r).number));
      ApplyBinary(LessLess, mode, l, r) == Push(MakeInt(Wrap64(a * p))) &&
      ApplyBinary(GreaterGreater, mode, l, r) == Push(MakeInt(Wrap64(a / p)))
  {
    hide Reading, Pow2, Wrap64;
    ReadingIs(l);
    ReadingIs(r);
  }

  /** A shift to the left by less than 64 multiplies by a power of two, modulo 2^64; the result is a signed integer of 32 bits
      by name, whatever it holds. */
  lemma ShiftsLeft(mode: OverflowMode, l: ConstValue, r: ConstValue)
    requires 0 <= Reading(r).number < 64
    ensures var result := ApplyBinary(LessLess, mode, l, r);
      result.Push? && result.value.Integer? && result.value.width == 32 && result.value.signed &&
      Congruent(result.value.intVal, Reading(l).number * Pow2(Reading(r).number), TWO64)
  {
    hide Reading, Congruent, Pow2, Wrap64, ApplyBinary;
    ShiftOperators(mode, l, r);
    var x := Reading(l).number * Pow2(Reading(r).number);
    var k := WrapMoves(x);
    CongruentBy(Wrap64(x), x, TWO64, -k);
  }

  /** A shift to the right by less than 64 divides by a power of two, rounding down. */
  lemma ShiftsRight(mode: OverflowMode, l: ConstValue, r: ConstValue)
    requires 0 <= Reading(r).number < 64
    ensures var (a, p, result) := (Reading(l).number, Pow2(Reading(r).number), ApplyBinary(GreaterGreater, mode, l, r));
      result.Push? && result.value.Integer? && result.value.width == 32 && result.value.signed &&
      result.value.intVal * p <= a < (result.value.intVal + 1) * p
  {
    hide Reading, Pow2, Wrap64, ApplyBinary;
    ShiftOperators(mode, l, r);
    var (a, p) := (Reading(l).number, Pow2(Reading(r).number));
    FloorFits(a, p);
    var _ := WrapMoves(a / p);
  }

  lemma FloorFits(a: int, p: int)
    requires InInt64(a) && p >= 1
    ensures InInt64(a / p) && (a / p) * p <= a < (a / p + 1) * p
  {
    var (q, m) := (a / p, a % p);
    assert a == p * q + m;
    assert (q + 1) * p == p * q + p && q * p == p * q;
    if q >= 1 { MultipleAtLeast(q, p); }
    if q <= -1 { MultipleAtLeast(-q, p); assert -(q * p) == (-q) * p; }
  }

  // ----- bits -----

  /** The i-th bit of a number in 64 bits of two's complement. */
  predicate BitAt(x: int64, i: nat) { (x / Pow2(i)) % 2 == 1 }

  predicate NaturalBit(x: nat, i: nat) { (x / Pow2(i)) % 2 == 1 }

  lemma LowestBit(x: nat)
    ensures NaturalBit(x, 0) <==> x % 2 == 1
  {
    assert Pow2(0) == 1 && x / 1 == x;
  }

  lemma HigherBit(x: nat, i: nat)
    requires i > 0
    ensures NaturalBit(x, i) <==> NaturalBit(x / 2, i - 1)
  {
    var (p, h) := (Pow2(i - 1), x / 2);
    HalvedQuotient(x, p, h / p, h % p);
    assert Pow2(i) == 2 * p;
  }

  lemma HalvedQuotient(x: nat, p: nat, q: int, m: int)
    requires p >= 1 && x / 2 == p * q + m && 0 <= m < p
    ensures x / (2 * p) == q
  {
    assert x == (2 * p) * q + (2 * m + x % 2);
    QuotientIsUnique(x, 2 * p, x / (2 * p), x % (2 * p), q, 2 * m + x % 2);
  }

  lemma {:induction false} NaturalBitwise(op: BitOp, x: nat, y: nat, n: nat, i: nat)
    requires i < n
    ensures NaturalBit(Bitwise(op, x, y, n), i) <==> BitOf(op, NaturalBit(x, i), NaturalBit(y, i))
    decreases n
  {
    hide BitOf, NaturalBit, Bitwise, Pow2;
    var z := Bitwise(op, x, y, n);
    BitwiseParts(op, x, y, n);
    if i == 0 {
      LowestBit(x);
      LowestBit(y);
      LowestBit(z);
    } else {
      NaturalBitwise(op, x / 2, y / 2, n - 1, i - 1);
      HigherBit(x, i);
      HigherBit(y, i);
      HigherBit(z, i);
    }
  }

  lemma BitwiseParts(op: BitOp, x: nat, y: nat, n: nat)
    requires n > 0
    ensures Bitwise(op, x, y, n) / 2 == Bitwise(op, x / 2, y / 2, n - 1)
    ensures Bitwise(op, x, y, n) % 2 == 1 <==> BitOf(op, x % 2 == 1, y % 2 == 1)
  {
    hide BitOf;
  }

  /** The unsigned reading has the same bits. */
  lemma SameBits(x: int64, i: nat)
    requires i < 64
    ensures BitAt(x, i) <==> NaturalBit(Unsigned64(x), i)
  {
    hide Pow2;
    if x < 0 {
      var (p, t) := (Pow2(i), Pow2(63 - i));
      assert TWO64 == p * (2 * t) by {
        Pow2Of63();
        Pow2Add(i, 63 - i);
        Pow2Next(63);
        TwiceProduct(p, t);
      }
      EvenShift(x, p, t, x / p, x % p);
    }
  }

  lemma TwiceProduct(p: int, t: int)
    ensures p * (2 * t) == 2 * (p * t)
  {
  }

  lemma EvenShift(x: int, p: nat, t: int, q: int, m: int)
    requires p >= 1 && x == p * q + m && 0 <= m < p && q == x / p && x + p * (2 * t) >= 0
    ensures (x + p * (2 * t)) / p == q + 2 * t
  {
    assert p * (q + 2 * t) == p * q + p * (2 * t);
    var y := x + p * (2 * t);
    QuotientIsUnique(y, p, y / p, y % p, q + 2 * t, m);
  }

  /** A number is known by its 64 bits. */
  lemma KnownByBits(x: int64, y: int64)
    requires forall i: nat :: i < 64 ==> (BitAt(x, i) <==> BitAt(y, i))
    ensures x == y
  {
    hide BitAt, NaturalBit;
    forall i: nat | i < 64 ensures NaturalBit(Unsigned64(x), i) <==> NaturalBit(Unsigned64(y), i) {
      SameBits(x, i);
      SameBits(y, i);
    }
    Pow2Of63();
    NaturalByBits(Unsigned64(x), Unsigned64(y), 64);
  }

  lemma {:induction false} NaturalByBits(x: nat, y: nat, n: nat)
    requires x < Pow2(n) && y < Pow2(n)
    requires forall i: nat :: i < n ==> (NaturalBit(x, i) <==> NaturalBit(y, i))
    ensures x == y
    decreases n
  {
    hide NaturalBit;
    if n > 0 {
      forall i: nat | i < n - 1 ensures NaturalBit(x / 2, i) <==> NaturalBit(y / 2, i) {
        HigherBit(x, i + 1);
        HigherBit(y, i + 1);
      }
      NaturalByBits(x / 2, y / 2, n - 1);
      LowestBit(x);
      LowestBit(y);
    }
  }

  lemma BitwiseAt(op: BitOp, x: int64, y: int64, i: nat)
    requires i < 64
    ensures BitAt(Bitwise64(op, x, y), i) <==> BitOf(op, BitAt(x, i), BitAt(y, i))
  {
    hide BitAt, NaturalBit, Bitwise, Pow2, BitOf;
    var z := Bitwise(op, Unsigned64(x), Unsigned64(y), 64);
    Pow2Of63();
    NaturalBitwise(op, Unsigned64(x), Unsigned64(y), 64, i);
    SameBits(x, i);
    SameBits(y, i);
    SameBits(Wrap64(z), i);
    assert Unsigned64(Wrap64(z)) == z;
  }

  lemma BitOperators(mode: OverflowMode, l: ConstValue, r: ConstValue)
    ensures InInt64(Reading(l).number) && InInt64(Reading(r).number)
    ensures var (a, b) := (Reading(l).number, Reading(r).number);
      ApplyBinary(Ampersand, mode, l, r) == Push(MakeInt(Bitwise64(BitAnd, a, b))) &&
      ApplyBinary(Pipe, mode, l, r) == Push(MakeInt(Bitwise64(BitOr, a, b))) &&
      ApplyBinary(Caret, mode, l, r) == Push(MakeInt(Bitwise64(BitXor, a, b))) &&
      ApplyUnary(BitwiseNot, mode, l) == Push(MakeInt(-1 - a))
  {
    hide Reading, Bitwise64;
    ReadingIs(l);
    ReadingIs(r);
  }

  /** Each bit of a conjunction, disjunction and exclusive disjunction is that of the bits of the operands there; each bit of
      the complement is the other one.  The results are signed integers of 32 bits by name. */
  lemma BitsAre(mode: OverflowMode, l: ConstValue, r: ConstValue, i: nat)
    requires i < 64
    ensures InInt64(Reading(l).number) && InInt64(Reading(r).number)
    ensures var (x, y) := (BitAt(Reading(l).number, i), BitAt(Reading(r).number, i));
      HasBit(ApplyBinary(Ampersand, mode, l, r), i, x && y) && HasBit(ApplyBinary(Pipe, mode, l, r), i, x || y) &&
      HasBit(ApplyBinary(Caret, mode, l, r), i, x != y) && HasBit(ApplyUnary(BitwiseNot, mode, l), i, !x)
  {
    hide Reading, Bitwise64, BitAt, ApplyBinary, ApplyUnary;
    BitOperators(mode, l, r);
    var (a: int64, b: int64) := (Reading(l).number, Reading(r).number);
    BitwiseAt(BitAnd, a, b, i);
    BitwiseAt(BitOr, a, b, i);
    BitwiseAt(BitXor, a, b, i);
    ComplementAt(a, i);
  }

  predicate HasBit(result: OpResult, i: nat, bit: bool) {
    result.Push? && result.value.Integer? && result.value.width == 32 && result.value.signed &&
    (BitAt(result.value.intVal, i) <==> bit)
  }

  lemma ComplementAt(x: int64, i: nat)
    ensures BitAt(-1 - x, i) <==> !BitAt(x, i)
  {
    hide Pow2;
    ComplementQuotient(x, Pow2(i), x / Pow2(i), x % Pow2(i));
  }

  lemma ComplementQuotient(x: int, p: nat, q: int, m: int)
    requires p >= 1 && x == p * q + m && 0 <= m < p
    ensures (-1 - x) / p == -1 - q
  {
    var y: int := -1 - x;
    assert p * (-1 - q) == 0 - p - p * q;
    QuotientIsUnique(y, p, y / p, y % p, -1 - q, p - 1 - m);
  }
}
