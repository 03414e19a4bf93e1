/** What the bounded operators compute, against exact integer arithmetic. */
module ArithmeticLaws {
  import opened ConstValues
  import opened Arithmetic

  predicate InInt64(x: int) { INT64_MIN <= x <= INT64_MAX }

  function Exact(op: BinaryOp, a: int, b: int): int
    requires op.Plus? || op.Minus? || op.Star?
  {
    if op.Plus? then a + b else if op.Minus? then a - b else a * b
  }

  // ----- the overflow tests -----

  lemma AddOverflowExact(a: int64, b: int64)
    ensures AddOverflows64(a, b) <==> !InInt64(a + b)
    ensures SubOverflows64(a, b) <==> !InInt64(a - b)
  {
  }

  lemma TruncRemainder(r: int, b: int)
    requires b != 0
    ensures Abs(r - b * TruncDiv(r, b)) < Abs(b)
  {
    var m := Abs(r);
    assert m == b * (m / b) + m % b;
    if r < 0 { assert b * TruncDiv(r, b) == -(b * (m / b)); }
  }

  lemma TruncDivUndoesTimes(a: int, b: int)
    requires b != 0
    ensures TruncDiv(a * b, b) == a
  {
    var x := a * b;
    var q := TruncDiv(x, b);
    TruncRemainder(x, b);
    CloseProducts(a, b, q, x);
  }

  lemma CloseProducts(a: int, b: int, q: int, x: int)
    requires b != 0 && x == a * b && Abs(x - b * q) < Abs(b)
    ensures q == a
  {
    var k := a - q;
    assert x - b * q == b * k;
    if b < 0 { assert (-b) * k == -(b * k); }
    MultipleAtLeast(Abs(b), k);
  }

  /** How far wrapping moves a number. */
  lemma WrapMoves(x: int) returns (k: int)
    ensures Wrap64(x) == x - k * TWO64
    ensures InInt64(x) <==> k == 0
  {
    k := (x - INT64_MIN) / TWO64;
  }

  lemma TimesMinimum(b: int)
    requires b != 0
    ensures InInt64(INT64_MIN * b) <==> b == 1
  {
  }

  /** The wrapped-product test tells the truth except that it also rejects the factor 1 of the minimum. */
  lemma MulOverflowExact(a: int64, b: int64)
    ensures MulOverflows64(a, b) <==>
      !InInt64(a * b) || (a == INT64_MIN && b == 1) || (a == 1 && b == INT64_MIN)
  {
    if a == 0 || b == 0 {
      assert a * b == 0;
    } else if a == INT64_MIN {
      TimesMinimum(b);
    } else if b == INT64_MIN {
      TimesMinimum(a);
      assert a * b == INT64_MIN * a;
    } else {
      var k := WrapMoves(a * b);
      if k == 0 { TruncDivUndoesTimes(a, b); } else { MovedQuotient(a, b, Wrap64(a * b), k); }
    }
  }

  /** A product moved by a multiple of 2^64 does not divide back. */
  lemma MovedQuotient(a: int, b: int, r: int, k: int)
    requires a * b == r + k * TWO64 && k != 0 && b != 0 && Abs(b) <= TWO64
    ensures TruncDiv(r, b) != a
  {
    TruncRemainder(r, b);
    MultipleAtLeast(TWO64, k);
  }

  // ----- operands -----

  /** What an operand stands for: a number, and the width and sign it brings to the result. */
  datatype Operand = Operand(number: int, width: Width, signed: bool)

  /** An integer is its own number; of 128 bits the low half counts, with its sign bit; a truth value is one signed bit. */
  function Reading(v: ConstValue): Operand {
    match v
    case Integer(n, w, s) => Operand(n, w, s)
    case Integer128(x, s) => Operand(if x.low >= 0x8000_0000_0000_0000 then x.low - TWO64 else x.low, 128, s)
    case Bool(b) => Operand(if b then 1 else 0, 1, true)
    case _ => Operand(0, 32, true)
  }

  lemma ReadingIs(v: ConstValue)
    ensures Reading(v) == Operand(v.ToInt(), v.BitWidth(), v.IsSigned())
  {
  }

  function Wider(m: Width, n: Width): (w: Width)
    ensures w >= m && w >= n && (w == m || w == n)
  {
    if m > n then m else n
  }

  /** The width and the sign of a result: the wider of the two, and signed only if both operands are. */
  function ResultWidth(l: ConstValue, r: ConstValue): Width { Wider(Reading(l).width, Reading(r).width) }

  predicate ResultSign(l: ConstValue, r: ConstValue) { Reading(l).signed && Reading(r).signed }

  lemma CommonIs(l: ConstValue, r: ConstValue)
    ensures CommonWidth(l, r) == ResultWidth(l, r) && CommonSign(l, r) == ResultSign(l, r)
  {
  }

  // ----- widths -----

  lemma HalfPow2(w: Width)
    requires w <= 64
    ensures Pow2(w) == 2 * Pow2(w - 1)
    ensures Pow2(w - 1) <= 0x8000_0000_0000_0000 && (w < 64 ==> Pow2(w - 1) <= 0x4000_0000_0000_0000)
  {
    Pow2Of63();
    Pow2Next(62);
    Pow2Monotone(w - 1, 63);
    if w < 64 { Pow2Monotone(w - 1, 62); }
  }

  function SignedMin(w: Width): int { 0 - Pow2(w - 1) }

  function SignedMax(w: Width): int { Pow2(w - 1) - 1 }

  predicate FitsSigned(x: int, w: Width) { SignedMin(w) <= x <= SignedMax(w) }

  /** The least and the greatest number of a width and sign; from 64 bits on a number is kept in 64 signed bits. */
  function Least(w: Width, signed: bool): (x: int64) {
    if w >= 64 then INT64_MIN else if signed then HalfPow2(w); SignedMin(w) else 0
  }

  function Greatest(w: Width, signed: bool): (x: int64) {
    if w >= 64 then INT64_MAX else HalfPow2(w); if signed then SignedMax(w) else Pow2(w) - 1
  }

  predicate Representable(x: int, w: Width, signed: bool) { Least(w, signed) <= x <= Greatest(w, signed) }

  function Clamp(x: int, w: Width, signed: bool): (r: int64)
    ensures Representable(r, w, signed) && (Representable(x, w, signed) ==> r == x)
  {
    LeastIsBelow(w, signed);
    if x < Least(w, signed) then Least(w, signed) else if x > Greatest(w, signed) then Greatest(w, signed) else x
  }

  lemma LeastIsBelow(w: Width, signed: bool)
    ensures Least(w, signed) <= 0 <= Greatest(w, signed)
  {
  }

  lemma LimitsAre(w: Width, signed: bool)
    ensures LimitsFor(w, signed).min == Least(w, signed) && LimitsFor(w, signed).max == Greatest(w, signed)
    ensures LimitsFor(w, signed).umax == if w >= 64 then TWO64 - 1 else Pow2(w) - 1
  {
    if w < 64 { HalfPow2(w); }
  }

  /** A value that fits is not changed by wrapping to its width. */
  lemma WrapKeeps(x: int64, w: Width, signed: bool)
    requires Representable(x, w, signed)
    ensures WrapToWidth(x, w, signed) == x
  {
    hide Pow2;
    if w < 64 {
      var p := Pow2(w);
      HalfPow2(w);
      if x >= 0 { SmallMod(x, p); }
      else {
        Pow2Of63();
        Pow2Add(w, 64 - w);
        NegativeMod(x, p, Pow2(64 - w));
      }
    }
  }

  /** A negative number above -p, moved up by a multiple of p, leaves what is above it modulo p. */
  lemma NegativeMod(x: int, p: int, t: int)
    requires -p <= x < 0
    ensures (x + p * t) % p == x + p
  {
    assert x + p * t == (x + p) + (t - 1) * p;
    ModOfMultiple(x + p, t - 1, p);
    SmallMod(x + p, p);
  }

  lemma SmallMod(x: int, m: int)
    requires 0 <= x < m
    ensures x % m == x
  {
  }

  lemma ModOfMultiple(x: int, k: int, m: int)
    requires m > 0
    ensures (x + k * m) % m == x % m
  {
    var q, r := x / m, x % m;
    assert x == m * q + r;
    var q', r' := (x + k * m) / m, (x + k * m) % m;
    assert x + k * m == m * q' + r';
    assert m * (q' - q - k) == r - r';
    MultipleAtLeast(m, q' - q - k);
  }

  /** What a mode makes of a number that was computed in 64 bits, and perhaps overflowed them. */
  lemma FitIs(raw: int64, hint: bool, negative: bool, w: Width, signed: bool, mode: OverflowMode)
    ensures !hint && Representable(raw, w, signed) ==> FitInt(raw, hint, negative, w, signed, mode) == Integer(raw, w, signed)
    ensures mode.NoMode? || mode.Wrapped? ==>
      FitInt(raw, hint, negative, w, signed, mode) == Integer(WrapToWidth(raw, w, signed), w, signed)
    ensures (hint || !Representable(raw, w, signed)) && (mode.Trapped? || mode.Checked?) ==>
      FitInt(raw, hint, negative, w, signed, mode) == Error
    ensures (hint || !Representable(raw, w, signed)) && mode.Saturating? ==>
      FitInt(raw, hint, negative, w, signed, mode) ==
        Integer(if negative then Least(w, signed) else Greatest(w, signed), w, signed)
  {
    hide WrapToWidth, LimitsFor, Least, Greatest;
    LimitsAre(w, signed);
    OutIs(raw, w, signed);
    if Representable(raw, w, signed) { WrapKeeps(raw, w, signed); }
  }

  lemma OutIs(raw: int64, w: Width, signed: bool)
    ensures OutOfLimits(raw, w, signed) <==> !Representable(raw, w, signed)
  {
    hide LimitsFor;
    LimitsAre(w, signed);
    if w < 64 { HalfPow2(w); }
  }

  // ----- sums, differences and products -----

  lemma SignOfProduct(a: int, b: int)
    ensures a * b < 0 ==> (a < 0) != (b < 0)
    ensures a * b > 0 ==> (a < 0) == (b < 0)
  {
  }

  /** The one product whose overflow test is wrong. */
  predicate MisjudgedProduct(op: BinaryOp, a: int, b: int) {
    op.Star? && ((a == INT64_MIN && b == 1) || (a == 1 && b == INT64_MIN))
  }

  predicate Overflows(op: BinaryOp, a: int64, b: int64)
    requires op.Plus? || op.Minus? || op.Star?
  {
    if op.Plus? then AddOverflows64(a, b) else if op.Minus? then SubOverflows64(a, b) else MulOverflows64(a, b)
  }

  /** The sign the operator passes on for an overflow. */
  predicate Negative(op: BinaryOp, a: int64, b: int64)
    requires op.Plus? || op.Minus? || op.Star?
  {
    if op.Plus? then a < 0 && b < 0 else if op.Minus? then a < 0 && b > 0 else (a < 0) != (b < 0)
  }

  lemma OperatorFits(op: BinaryOp, mode: OverflowMode, l: ConstValue, r: ConstValue)
    requires op.Plus? || op.Minus? || op.Star?
    ensures InInt64(Reading(l).number) && InInt64(Reading(r).number)
    ensures var (a, b) := (Reading(l).number, Reading(r).number);
      ApplyBinary(op, mode, l, r) ==
        Push(FitInt(Wrap64(Exact(op, a, b)), Overflows(op, a, b), Negative(op, a, b), ResultWidth(l, r), ResultSign(l, r),
                    mode))
  {
    hide FitInt, AddOverflows64, SubOverflows64, MulOverflows64, Wrap64, Bitwise64, Divide, Remainder, CommonWidth,
      CommonSign, ResultWidth, ResultSign;
    ReadingIs(l);
    ReadingIs(r);
    CommonIs(l, r);
  }

  lemma OverflowExact(op: BinaryOp, a: int64, b: int64)
    requires op.Plus? || op.Minus? || op.Star?
    ensures Overflows(op, a, b) <==> !InInt64(Exact(op, a, b)) || MisjudgedProduct(op, a, b)
  {
    hide AddOverflows64, SubOverflows64, MulOverflows64;
    AddOverflowExact(a, b);
    MulOverflowExact(a, b);
  }

  /** In every mode: a result that its width and sign can represent is exact, except that the trapping modes refuse the
      misjudged product; one that they cannot is the error value when trapped or checked, and the bound on the side that
      the operands suggest when saturating. */
  lemma ResultIsExact(op: BinaryOp, mode: OverflowMode, l: ConstValue, r: ConstValue)
    requires op.Plus? || op.Minus? || op.Star?
    ensures var (a, b, w, s) := (Reading(l).number, Reading(r).number, ResultWidth(l, r), ResultSign(l, r));
      InInt64(a) && InInt64(b) &&
      var x := Exact(op, a, b);
      (Representable(x, w, s) && !MisjudgedProduct(op, a, b) ==> ApplyBinary(op, mode, l, r) == Push(Integer(x, w, s))) &&
      (!Representable(x, w, s) || MisjudgedProduct(op, a, b) ==>
        (mode.Trapped? || mode.Checked? ==> ApplyBinary(op, mode, l, r) == Push(Error)) &&
        (mode.Saturating? ==>
          ApplyBinary(op, mode, l, r) == Push(Integer(if Negative(op, a, b) then Least(w, s) else Greatest(w, s), w, s))))
  {
    hide FitInt, Overflows, ApplyBinary, Exact, Negative, Wrap64, Least, Greatest, ResultWidth, ResultSign, Reading;
    var (a, b, w, s) := (Reading(l).number, Reading(r).number, ResultWidth(l, r), ResultSign(l, r));
    OperatorFits(op, mode, l, r);
    var x := Exact(op, a, b);
    OverflowExact(op, a, b);
    var _ := WrapMoves(x);
    WithinInt64(w, s);
    FitIs(Wrap64(x), Overflows(op, a, b), Negative(op, a, b), w, s, mode);
  }

  lemma WithinInt64(w: Width, signed: bool)
    ensures forall x :: Representable(x, w, signed) ==> InInt64(x)
  {
  }

  /** Trapped and checked mode, any operands: the exact result, or the error value exactly when the width and sign of the
      result cannot represent it or it is the misjudged product. */
  lemma TrappingIsExact(op: BinaryOp, mode: OverflowMode, l: ConstValue, r: ConstValue)
    requires (op.Plus? || op.Minus? || op.Star?) && (mode.Trapped? || mode.Checked?)
    ensures var (a, b, w, s) := (Reading(l).number, Reading(r).number, ResultWidth(l, r), ResultSign(l, r));
      ApplyBinary(op, mode, l, r) ==
        Push(if Representable(Exact(op, a, b), w, s) && !MisjudgedProduct(op, a, b) then Integer(Exact(op, a, b), w, s)
             else Error)
  {
    hide ApplyBinary, Exact, Least, Greatest, ResultWidth, ResultSign, Reading;
    ResultIsExact(op, mode, l, r);
  }

  /** What saturating clamps rightly: whatever fits, a sum of negative numbers below, a difference below of a negative and a
      positive number, a product below, and whatever is above. */
  predicate ClampsRightly(op: BinaryOp, a: int, b: int, w: Width, signed: bool)
    requires op.Plus? || op.Minus? || op.Star?
  {
    Exact(op, a, b) < Least(w, signed) ==>
      op.Star? || (op.Plus? && a < 0 && b < 0) || (op.Minus? && a < 0 && b > 0)
  }

  /** Saturating mode, any operands in range: it clamps the exact result exactly when it is not one that falls below with
      the operands suggesting otherwise; such a one becomes the greatest number. */
  lemma SaturatingClampsIff(op: BinaryOp, l: ConstValue, r: ConstValue)
    requires (op.Plus? || op.Minus? || op.Star?) && InRange(l) && InRange(r)
    ensures var (a, b, w, s) := (l.intVal, r.intVal, Wider(l.width, r.width), l.signed && r.signed);
      ApplyBinary(op, Saturating, l, r) ==
        Push(Integer(if ClampsRightly(op, a, b, w, s) then Clamp(Exact(op, a, b), w, s) else Greatest(w, s), w, s))
  {
    hide ApplyBinary, Least, Greatest;
    var (a, b, w, s) := (l.intVal, r.intVal, Wider(l.width, r.width), l.signed && r.signed);
    ResultIsExact(op, Saturating, l, r);
    SignOfProduct(a, b);
    LeastIsBelow(w, s);
    NegativeTells(op, l, r);
  }

  /** An integer that its own width and sign can represent. */
  predicate InRange(v: ConstValue) { v.Integer? && v.width <= 64 && Representable(v.intVal, v.width, v.signed) }

  lemma NegativeTells(op: BinaryOp, l: ConstValue, r: ConstValue)
    requires (op.Plus? || op.Minus? || op.Star?) && InRange(l) && InRange(r)
    ensures var (a, b, w, s) := (l.intVal, r.intVal, Wider(l.width, r.width), l.signed && r.signed);
      Exact(op, a, b) > Greatest(w, s) ==> !Negative(op, a, b)
  {
    SignOfProduct(l.intVal, r.intVal);
  }

  /** Signed operands in range are always clamped rightly. */
  lemma SaturatingClamps(op: BinaryOp, l: ConstValue, r: ConstValue)
    requires (op.Plus? || op.Minus? || op.Star?) && InRange(l) && InRange(r) && l.signed && r.signed
    ensures var w := Wider(l.width, r.width);
      ApplyBinary(op, Saturating, l, r) == Push(Integer(Clamp(Exact(op, l.intVal, r.intVal), w, true), w, true))
  {
    hide ApplyBinary, Clamp;
    var w: nat := Wider(l.width, r.width);
    SaturatingClampsIff(op, l, r);
    if w < 64 { Pow2Monotone(l.width - 1, w - 1); Pow2Monotone(r.width - 1, w - 1); }
  }

  // ----- wrapping -----

  predicate Congruent(x: int, y: int, m: int)
    requires m > 0
  {
    (x - y) % m == 0
  }

  lemma CongruentBy(x: int, y: int, m: int, k: int)
    requires m > 0 && x - y == k * m
    ensures Congruent(x, y, m)
  {
    ModOfMultiple(0, k, m);
  }

  /** What a width counts modulo; nothing is kept beyond 64 bits. */
  function Modulus(w: Width): (m: int)
    ensures m > 0
  {
    Pow2(if w < 64 then w else 64)
  }

  /** Wrapping a number to 64 bits and then to a narrower width is reduction modulo the width. */
  lemma WrapIsModular(x: int, w: Width, signed: bool)
    ensures Congruent(WrapToWidth(Wrap64(x), w, signed), x, Modulus(w))
    ensures Representable(WrapToWidth(Wrap64(x), w, signed), w, signed)
  {
    hide Congruent, Wrap64, WrapToWidth, Pow2, Least, Greatest;
    var raw := Wrap64(x);
    var k := WrapMoves(x);
    if w >= 64 {
      WideStays(raw, w, signed);
      CongruentBy(raw, x, Modulus(w), -k) by { Pow2Of63(); }
    } else {
      var p, t := Pow2(w), Pow2(64 - w);
      assert TWO64 == p * t by { Pow2Of63(); Pow2Add(w, 64 - w); }
      var q, drop := WrapParts(raw, w, signed);
      var lift := if raw < 0 then 1 else 0;
      var c := WrapToWidth(raw, w, signed);
      MultipleOf(c, x, p, t, q, drop, lift, k);
      CongruentBy(c, x, p, (lift - k) * t - q - drop);
    }
  }

  lemma WideStays(raw: int64, w: Width, signed: bool)
    requires w >= 64
    ensures WrapToWidth(raw, w, signed) == raw && Representable(raw, w, signed)
  {
  }

  lemma WrapParts(raw: int64, w: Width, signed: bool) returns (q: int, drop: int)
    requires w < 64
    ensures Unsigned64(raw) == WrapToWidth(raw, w, signed) + drop * Pow2(w) + Pow2(w) * q
    ensures Representable(WrapToWidth(raw, w, signed), w, signed)
  {
    HalfPow2(w);
    var p, full := Pow2(w), Unsigned64(raw);
    var u := full % p;
    q := full / p;
    assert full == p * q + u;
    drop := if signed && u >= Pow2(w - 1) then 1 else 0;
  }

  lemma MultipleOf(c: int, x: int, p: int, t: int, q: int, drop: int, lift: int, k: int)
    requires x - k * (p * t) + lift * (p * t) == c + drop * p + p * q
    ensures c - x == ((lift - k) * t - q - drop) * p
  {
    assert (lift - k) * (p * t) == ((lift - k) * t) * p;
  }

  /** An integer of this width and sign that is x modulo the width. */
  ghost predicate WrapsTo(result: OpResult, x: int, w: Width, signed: bool) {
    result.Push? && result.value.Integer? && result.value.width == w && result.value.signed == signed &&
    Congruent(result.value.intVal, x, Modulus(w)) && Representable(result.value.intVal, w, signed)
  }

  /** Without a mode and in wrapped mode, any operands: the result has the wider width, is signed only if both operands are,
      is congruent to the exact one and in range, even where the 64-bit operation wrapped. */
  lemma WrappingIsModular(op: BinaryOp, mode: OverflowMode, l: ConstValue, r: ConstValue)
    requires (op.Plus? || op.Minus? || op.Star?) && (mode.NoMode? || mode.Wrapped?)
    ensures WrapsTo(ApplyBinary(op, mode, l, r), Exact(op, Reading(l).number, Reading(r).number), ResultWidth(l, r),
                    ResultSign(l, r))
  {
    hide ApplyBinary, WrapToWidth, Congruent, Representable, Wrap64, ResultWidth, ResultSign, Overflows, Negative, LimitsFor,
      OutOfLimits, Reading;
    OperatorFits(op, mode, l, r);
    WrapIsModular(Exact(op, Reading(l).number, Reading(r).number), ResultWidth(l, r), ResultSign(l, r));
  }

  // ----- division -----

  /** q and m are quotient and remainder of a by b, the quotient cut off toward zero. */
  predicate Truncates(a: int, b: int, q: int, m: int) {
    a == b * q + m && Abs(m) < Abs(b) && (m == 0 || (m < 0) == (a < 0))
  }

  lemma TruncDivTruncates(a: int, b: int)
    requires b != 0
    ensures Truncates(a, b, TruncDiv(a, b), TruncMod(a, b))
  {
    var n := Abs(a);
    assert n == b * (n / b) + n % b;
    if a < 0 { assert b * TruncDiv(a, b) == -(b * (n / b)); }
  }

  lemma NoMultipleBelow(b: int, k: int, d: int)
    requires d == b * k && Abs(d) < Abs(b)
    ensures k == 0 && d == 0
  {
    if b < 0 { assert (-b) * k == -(b * k); }
    MultipleAtLeast(Abs(b), k);
  }

  lemma DifferenceOfProducts(b: int, q: int, q': int, m: int, m': int)
    requires b * q + m == b * q' + m'
    ensures m' - m == b * (q - q')
  {
  }

  /** There is one such quotient and one such remainder. */
  lemma TruncatesOnce(a: int, b: int, q: int, m: int, q': int, m': int)
    requires Truncates(a, b, q, m) && Truncates(a, b, q', m')
    ensures q == q' && m == m'
  {
    DifferenceOfProducts(b, q, q', m, m');
    NoMultipleBelow(b, q - q', m' - m);
  }

  /** They are what the machine computes in 64 bits, but for the one quotient that 64 bits do not hold. */
  lemma TruncatesIs(a: int64, b: int64, q: int, m: int)
    requires Truncates(a, b, q, m)
    ensures b != 0 && q == TruncDiv(a, b) && m == TruncMod(a, b) && InInt64(m) && (InInt64(q) <==> !MinimumByMinusOne(a, b))
    ensures MinimumByMinusOne(a, b) ==> q == INT64_MAX + 1 && m == 0
  {
    hide TruncDiv, TruncMod;
    TruncDivTruncates(a, b);
    TruncatesOnce(a, b, q, m, TruncDiv(a, b), TruncMod(a, b));
    TruncModFits(a, b);
    if MinimumByMinusOne(a, b) { TruncatesOnce(a, b, q, m, INT64_MAX + 1, 0); } else { TruncDivFits(a, b); }
  }

  predicate MinimumByMinusOne(a: int, b: int) { a == INT64_MIN && b == -1 }

  lemma DivideIs(mode: OverflowMode, l: ConstValue, r: ConstValue, q: int, m: int)
    requires var (a, b) := (Reading(l).number, Reading(r).number); Truncates(a, b, q, m)
    ensures var (a, b, w, s) := (Reading(l).number, Reading(r).number, ResultWidth(l, r), ResultSign(l, r));
      InInt64(a) && InInt64(b) && InInt64(m) && (MinimumByMinusOne(a, b) <==> !InInt64(q)) &&
      (if MinimumByMinusOne(a, b) && !mode.NoMode? && !mode.Wrapped? then
         ApplyBinary(Slash, mode, l, r) == if mode.Saturating? then Push(Integer(INT64_MAX, w, s)) else Stop(Error)
       else ApplyBinary(Slash, mode, l, r) == Push(FitInt(Wrap64(q), false, false, w, s, mode))) &&
      ApplyBinary(Percent, mode, l, r) == Push(FitInt(Wrap64(m), false, false, w, s, mode))
  {
    hide Reading, FitInt, CommonWidth, CommonSign, ResultWidth, ResultSign, Truncates, TruncDiv, TruncMod;
    ReadingIs(l);
    ReadingIs(r);
    CommonIs(l, r);
    TruncatesIs(Reading(l).number, Reading(r).number, q, m);
  }

  /** What a mode makes of a result that fits 64 bits and raises no overflow on its way. */
  ghost predicate ModeGives(result: OpResult, x: int, w: Width, signed: bool, mode: OverflowMode) {
    if Representable(x, w, signed) then result == Push(Integer(x, w, signed))
    else if mode.NoMode? || mode.Wrapped? then WrapsTo(result, x, w, signed)
    else result == Push(if mode.Saturating? then Integer(Greatest(w, signed), w, signed) else Error)
  }

  lemma FitGives(x: int, w: Width, signed: bool, mode: OverflowMode)
    requires InInt64(x) || mode.NoMode? || mode.Wrapped?
    ensures ModeGives(Push(FitInt(Wrap64(x), false, false, w, signed, mode)), x, w, signed, mode)
  {
    hide FitInt, WrapToWidth, Congruent, Representable, Least, Greatest;
    var _ := WrapMoves(x);
    WithinInt64(w, signed);
    WrapIsModular(x, w, signed);
    FitIs(Wrap64(x), false, false, w, signed, mode);
  }

  /** Division, any operands and modes.  A zero divisor ends the evaluation, and so does the quotient that 64 bits do not
      hold, when trapped or checked; saturating, that one is the greatest 64-bit number. */
  lemma DivisionIs(mode: OverflowMode, l: ConstValue, r: ConstValue, q: int, m: int)
    requires var (a, b) := (Reading(l).number, Reading(r).number); b != 0 ==> Truncates(a, b, q, m)
    ensures var (a, b, w, s, result) :=
        (Reading(l).number, Reading(r).number, ResultWidth(l, r), ResultSign(l, r), ApplyBinary(Slash, mode, l, r));
      if b == 0 then result == Stop(Error)
      else if MinimumByMinusOne(a, b) && !mode.NoMode? && !mode.Wrapped? then
        result == (if mode.Saturating? then Push(Integer(INT64_MAX, w, s)) else Stop(Error))
      else ModeGives(result, q, w, s, mode)
    ensures var (b, w, s, result) :=
        (Reading(r).number, ResultWidth(l, r), ResultSign(l, r), ApplyBinary(Percent, mode, l, r));
      if b == 0 then result == Stop(Error) else ModeGives(result, m, w, s, mode)
  {
    hide Reading, ResultWidth, ResultSign, Truncates, ModeGives, FitInt, Wrap64;
    ReadingIs(r);
    if Reading(r).number != 0 {
      DivideIs(mode, l, r, q, m);
      FitGives(m, ResultWidth(l, r), ResultSign(l, r), mode);
      if InInt64(q) || mode.NoMode? || mode.Wrapped? { FitGives(q, ResultWidth(l, r), ResultSign(l, r), mode); }
    }
  }

  lemma SameWithin(c: int, d: int, x: int, m: int)
    requires m > 0 && Abs(c - d) < m && Congruent(c, x, m) && Congruent(d, x, m)
    ensures c == d
  {
    var (i, j) := ((c - x) / m, (d - x) / m);
    assert c - x == m * i && d - x == m * j;
    DifferenceOfProducts(m, i, j, d - x, c - x);
    NoMultipleBelow(m, i - j, c - d);
  }

  /** Of two numbers in range that are congruent to a third there is one. */
  lemma ResidueIsUnique(c: int, d: int, x: int, w: Width, signed: bool)
    requires Representable(c, w, signed) && Representable(d, w, signed)
    requires Congruent(c, x, Modulus(w)) && Congruent(d, x, Modulus(w))
    ensures c == d
  {
    hide Congruent, Pow2;
    if w < 64 { HalfPow2(w); } else { Pow2Of63(); }
    SameWithin(c, d, x, Modulus(w));
  }

  lemma NaturalParts(n: int, k: int, r: int, a: int)
    requires a == n * k + r && 0 <= r < n && a >= 0
    ensures 0 <= k <= a && (n >= 2 ==> 2 * k <= a) && (k == 0 <==> a < n) && (a == n ==> k == 1)
  {
    QuotientBound(a, n, k, r);
    MultipleAtLeast(n, k);
    if a == n { QuotientIsUnique(a, n, k, r, 1, 0); }
  }

  /** The sizes divide as the numbers do. */
  lemma SizesDivide(a: int, b: int, q: int, m: int)
    requires Truncates(a, b, q, m)
    ensures Abs(a) == Abs(b) * Abs(q) + Abs(m)
    ensures q != 0 ==> ((q < 0) <==> ((a < 0) != (b < 0)))
  {
    ProductOfSizes(b, q);
    if q != 0 {
      MultipleAtLeast(Abs(b), Abs(q));
      SignOfProduct(b, q);
    }
  }

  lemma QuotientIsSmall(a: int, b: int, q: int, m: int)
    requires Truncates(a, b, q, m)
    ensures Abs(q) <= Abs(a) && (Abs(b) >= 2 ==> 2 * Abs(q) <= Abs(a))
    ensures (q == 0 <==> Abs(a) < Abs(b)) && (q != 0 ==> ((q < 0) <==> ((a < 0) != (b < 0))))
    ensures (b == 1 ==> q == a) && (b == -1 ==> q == -a) && (a == b ==> q == 1)
  {
    SizesDivide(a, b, q, m);
    NaturalParts(Abs(b), Abs(q), Abs(m), Abs(a));
  }

  lemma ProductOfSizes(b: int, q: int)
    ensures Abs(b * q) == Abs(b) * Abs(q)
    ensures b * q < 0 ==> (b < 0) != (q < 0)
    ensures b * q > 0 ==> (b < 0) == (q < 0)
  {
    SignOfProduct(b, q);
    if b < 0 && q < 0 { assert (-b) * (-q) == b * q; }
    else if b < 0 { assert (-b) * q == -(b * q); }
    else if q < 0 { assert b * (-q) == -(b * q); }
  }

  lemma SignedQuotientFits(l: ConstValue, r: ConstValue, q: int, m: int)
    requires InRange(l) && InRange(r) && l.signed && r.signed && Truncates(l.intVal, r.intVal, q, m)
    ensures var w := Wider(l.width, r.width);
      (!Representable(q, w, true) <==> r.intVal == -1 && l.intVal == Least(w, true)) &&
      (!Representable(q, w, true) ==> q == Greatest(w, true) + 1 == Least(w, true) + Modulus(w)) &&
      Representable(m, w, true)
  {
    hide Truncates, Pow2;
    var w: nat := Wider(l.width, r.width);
    QuotientIsSmall(l.intVal, r.intVal, q, m);
    RemainderIsSmall(l.intVal, r.intVal, q, m);
    FitsWider(l, w);
    FitsWider(r, w);
    if w < 64 { HalfPow2(w); } else { Pow2Of63(); }
  }

  lemma FitsWider(v: ConstValue, w: nat)
    requires InRange(v) && v.signed && v.width <= w <= 64
    ensures Representable(v.intVal, w, true)
  {
    Pow2Monotone(v.width - 1, w - 1);
  }

  lemma RemainderIsSmall(a: int, b: int, q: int, m: int)
    requires Truncates(a, b, q, m)
    ensures Abs(m) < Abs(b)
  {
  }

  /** Signed operands in range.  The only quotient that overflows is the minimum by -1: it wraps to the minimum and saturates
      to the maximum; trapped, it stops the evaluation at 64 bits and is the error value below. */
  lemma DivisionClamps(mode: OverflowMode, l: ConstValue, r: ConstValue, q: int, m: int)
    requires InRange(l) && InRange(r) && l.signed && r.signed && Truncates(l.intVal, r.intVal, q, m)
    ensures var w := Wider(l.width, r.width);
      var overflow := r.intVal == -1 && l.intVal == Least(w, true);
      (!overflow <==> Representable(q, w, true)) &&
      ApplyBinary(Slash, mode, l, r) ==
        (if !overflow then Push(Integer(q, w, true))
         else if mode.Saturating? then Push(Integer(Greatest(w, true), w, true))
         else if mode.NoMode? || mode.Wrapped? then Push(Integer(Least(w, true), w, true))
         else if w == 64 then Stop(Error) else Push(Error))
  {
    hide ApplyBinary, Congruent, Truncates, Pow2;
    var (w, result) := (Wider(l.width, r.width), ApplyBinary(Slash, mode, l, r));
    DivisionIs(mode, l, r, q, m);
    SignedQuotientFits(l, r, q, m);
    RemainderIsSmall(l.intVal, r.intVal, q, m);
    LeastIsBelow(w, true);
    HalfPow2(l.width);
    HalfPow2(w);
    if !Representable(q, w, true) && (mode.NoMode? || mode.Wrapped?) {
      CongruentBy(Least(w, true), q, Modulus(w), -1);
      ResidueIsUnique(result.value.intVal, Least(w, true), q, w, true);
    }
  }

  /** Their remainder is exact in every mode: it has the sign of the dividend and completes the quotient. */
  lemma RemainderIsExact(mode: OverflowMode, l: ConstValue, r: ConstValue, q: int, m: int)
    requires InRange(l) && InRange(r) && l.signed && r.signed && Truncates(l.intVal, r.intVal, q, m)
    ensures var w := Wider(l.width, r.width);
      Representable(m, w, true) && ApplyBinary(Percent, mode, l, r) == Push(Integer(m, w, true))
  {
    hide ApplyBinary, Congruent, Truncates, Pow2;
    DivisionIs(mode, l, r, q, m);
    RemainderIsSmall(l.intVal, r.intVal, q, m);
    SignedQuotientFits(l, r, q, m);
  }

  // ----- unsigned division -----

  /** Operands that are not negative and in range, at least one unsigned, in every mode: quotient and remainder are those of
      the division with remainder, unsigned and as wide as the wider operand. */
  lemma UnsignedDivides(mode: OverflowMode, l: ConstValue, r: ConstValue, q: int, m: int)
    requires InRange(l) && InRange(r) && !(l.signed && r.signed) && l.intVal >= 0 && r.intVal > 0
    requires l.intVal == r.intVal * q + m && 0 <= m < r.intVal
    ensures var w := Wider(l.width, r.width);
      Representable(q, w, false) && Representable(m, w, false) &&
      ApplyBinary(Slash, mode, l, r) == Push(Integer(q, w, false)) &&
      ApplyBinary(Percent, mode, l, r) == Push(Integer(m, w, false))
  {
    hide ApplyBinary, Greatest;
    DivisionIs(mode, l, r, q, m);
    NaturalParts(r.intVal, q, m, l.intVal);
    UnsignedFits(l, r, q, m);
  }

  lemma UnsignedFits(l: ConstValue, r: ConstValue, q: int, m: int)
    requires InRange(l) && InRange(r) && !(l.signed && r.signed)
    requires 0 <= q <= l.intVal && 0 <= m < r.intVal
    ensures var w := Wider(l.width, r.width); Representable(q, w, false) && Representable(m, w, false)
  {
    var w: nat := Wider(l.width, r.width);
    if w < 64 {
      Pow2Monotone(l.width, w);
      Pow2Monotone(r.width, w);
      HalfPow2(l.width);
      HalfPow2(r.width);
    }
  }

  /** Unsigned 64-bit operands are kept as signed numbers and divided as such.  Read as unsigned the quotient is right exactly
      when both operands are below 2^63, or the dividend alone and it is smaller than what the divisor lacks to 2^64, or the
      divisor is 1, or the operands are equal. */
  lemma WideUnsignedDividesIff(l: ConstValue, r: ConstValue)
    requires l.Integer? && r.Integer? && l.width == r.width == 64 && !l.signed && !r.signed && r.intVal != 0
    ensures var (a: int, b: int, result) := (l.intVal, r.intVal, ApplyBinary(Slash, NoMode, l, r));
      result.Push? && result.value.Integer? && result.value.width == 64 && !result.value.signed &&
      (Unsigned64(result.value.intVal) == Unsigned64(l.intVal) / Unsigned64(r.intVal) <==>
       (a >= 0 && b > 0) || (a >= 0 && b < 0 && a < -b) || b == 1 || a == b)
  {
    hide ApplyBinary, Congruent, Truncates, TruncDiv, TruncMod, Unsigned64;
    var (a: int, b: int, q, m) := (l.intVal, r.intVal, TruncDiv(l.intVal, r.intVal), TruncMod(l.intVal, r.intVal));
    TruncDivTruncates(a, b);
    TruncatesIs(l.intVal, r.intVal, q, m);
    DivisionIs(NoMode, l, r, q, m);
    var result := ApplyBinary(Slash, NoMode, l, r);
    if MinimumByMinusOne(a, b) {
      CongruentBy(INT64_MIN, q, Modulus(64), -1) by { Pow2Of63(); }
      ResidueIsUnique(result.value.intVal, INT64_MIN, q, 64, false);
    }
    UnsignedQuotientIs(l.intVal, r.intVal, q, m, result.value.intVal);
  }

  lemma UnsignedQuotientIs(a: int64, b: int64, q: int, m: int, result: int64)
    requires Truncates(a, b, q, m) && b != 0 && result == if MinimumByMinusOne(a, b) then INT64_MIN else q
    ensures Unsigned64(result) == Unsigned64(a) / Unsigned64(b) <==>
      (a >= 0 && b > 0) || (a >= 0 && b < 0 && a + b < 0) || b == 1 || a == b
  {
    hide Truncates;
    var (x: int, y: int) := (Unsigned64(a), Unsigned64(b));
    QuotientIsSmall(a, b, q, m);
    if a >= 0 {
      if b > 0 { NaturalQuotient(a, b, q, m); } else { OneQuotient(x, y); }
    } else if b > 1 {
      NaturalParts(y, x / y, x % y, x);
    } else if b < 0 {
      OneQuotient(x, y);
    }
  }

  lemma NaturalQuotient(a: int, b: int, q: int, m: int)
    requires a >= 0 && b > 0 && Truncates(a, b, q, m)
    ensures q == a / b
  {
    TruncDivTruncates(a, b);
    TruncatesOnce(a, b, q, m, TruncDiv(a, b), TruncMod(a, b));
  }

  lemma OneQuotient(m: int, n: int)
    requires n >= 1 && 0 <= m < 2 * n
    ensures m / n == if m < n then 0 else 1
  {
    if m < n { QuotientIsUnique(m, n, m / n, m % n, 0, m); } else { QuotientIsUnique(m, n, m / n, m % n, 1, m - n); }
  }

  // ----- negation -----

  /** The unsigned zero below 64 bits, which the negation takes for its own least number. */
  predicate MisjudgedNegation(x: int, w: Width, signed: bool) { x == 0 && w < 64 && !signed }

  /** Negation, any operand and mode: exact where the width and sign can represent the result, except that it refuses the
      unsigned zero below 64 bits; otherwise it wraps, saturates to the greatest number, or ends the evaluation. */
  lemma NegationIs(mode: OverflowMode, v: ConstValue)
    ensures var (x, w, s, result) := (-Reading(v).number, Reading(v).width, Reading(v).signed, ApplyUnary(Negate, mode, v));
      if mode.NoMode? || mode.Wrapped? then WrapsTo(result, x, w, s)
      else if Representable(x, w, s) && !MisjudgedNegation(x, w, s) then result == Push(Integer(x, w, s))
      else result == if mode.Saturating? then Push(Integer(Greatest(w, s), w, s)) else Stop(Error)
  {
    hide FitInt, WrapToWidth, Congruent, Representable, Least, Greatest, Reading, ApplyUnary, Wrap64;
    var (x, w, s) := (-Reading(v).number, Reading(v).width, Reading(v).signed);
    NegateFits(mode, v);
    WithinInt64(w, s);
    NegatedLeast(x, w, s);
    var _ := WrapMoves(x);
    WrapIsModular(x, w, s);
    FitIs(Wrap64(x), -x == INT64_MIN || (w < 64 && -x == Least(w, s)), false, w, s, mode);
  }

  lemma NegateFits(mode: OverflowMode, v: ConstValue)
    ensures InInt64(Reading(v).number)
    ensures var (x, w, s) := (-Reading(v).number, Reading(v).width, Reading(v).signed);
      var fitted := FitInt(Wrap64(x), -x == INT64_MIN || (w < 64 && -x == Least(w, s)), false, w, s, mode);
      ApplyUnary(Negate, mode, v) == if fitted == Error then Stop(Error) else Push(fitted)
  {
    hide FitInt, LimitsFor, Least, Greatest, Reading;
    ReadingIs(v);
    LimitsAre(Reading(v).width, Reading(v).signed);
    var x: int := v.ToInt();
    assert Wrap64(-x) == if x == INT64_MIN then INT64_MIN else -x;
  }

  lemma NegatedLeast(x: int, w: Width, signed: bool)
    ensures -x == INT64_MIN ==> !Representable(x, w, signed)
    ensures w < 64 && -x == Least(w, signed) ==> !Representable(x, w, signed) || MisjudgedNegation(x, w, signed)
    ensures MisjudgedNegation(x, w, signed) ==> -x == Least(w, signed)
  {
  }

  /** A signed operand in range: negation clamps, or ends the evaluation exactly when the result does not fit. */
  lemma NegationClamps(mode: OverflowMode, v: ConstValue)
    requires InRange(v) && v.signed && (mode.Saturating? || mode.Trapped? || mode.Checked?)
    ensures var x := -(v.intVal as int);
      ApplyUnary(Negate, mode, v) ==
        if mode.Saturating? then Push(Integer(Clamp(x, v.width, true), v.width, true))
        else if Representable(x, v.width, true) then Push(Integer(x, v.width, true)) else Stop(Error)
  {
    hide ApplyUnary;
    NegationIs(mode, v);
  }

  // ----- the type of a result -----

  /** Whatever the operands and the mode, + - * / % push the error value or an integer that is as wide as the wider operand and
      signed only if both are. */
  lemma ResultTypeIs(op: BinaryOp, mode: OverflowMode, l: ConstValue, r: ConstValue)
    requires op.Plus? || op.Minus? || op.Star? || op.Slash? || op.Percent?
    ensures var result := ApplyBinary(op, mode, l, r);
      result.Push? && result.value != Error ==>
        result.value.Integer? && result.value.signed == (Reading(l).signed && Reading(r).signed) &&
        result.value.width >= Reading(l).width && result.value.width >= Reading(r).width &&
        (result.value.width == Reading(l).width || result.value.width == Reading(r).width)
  {
    hide Reading, CommonWidth, CommonSign, LimitsFor, Quotient, TruncMod, AddOverflows64, SubOverflows64, MulOverflows64,
      Wrap64, FitInt;
    CommonIs(l, r);
  }
}
