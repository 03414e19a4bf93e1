/** Bounded arithmetic of the virtual machine: overflow tests, width fitting and the operators. */
module Arithmetic {
  import opened ConstValues

  datatype OverflowMode = NoMode | Wrapped | Trapped | Checked | Saturating

  function ModeCode(m: OverflowMode): nat {
    match m case NoMode => 0 case Wrapped => 1 case Trapped => 2 case Checked => 3 case Saturating => 4
  }

  function DecodeMode(n: nat): OverflowMode {
    if n == 1 then Wrapped else if n == 2 then Trapped else if n == 3 then Checked
    else if n == 4 then Saturating else NoMode
  }

  function Pow2(n: nat): (p: nat)
    ensures p >= 1
  {
    if n == 0 then 1 else 2 * Pow2(n - 1)
  }

  datatype IntLimits = IntLimits(min: int64, max: int64, umax: uint64)

  lemma Pow2Monotone(m: nat, n: nat)
    requires m <= n
    ensures Pow2(m) <= Pow2(n)
  {
  }

  lemma Pow2Of63()
    ensures Pow2(63) == 0x8000_0000_0000_0000
    ensures Pow2(64) == TWO64
  {
    Pow2Twice(1, 2);
    Pow2Twice(2, 4);
    Pow2Twice(4, 16);
    Pow2Twice(8, 256);
    Pow2Twice(16, 0x1_0000);
    Pow2Twice(32, 0x1_0000_0000);
    Pow2Next(63);
  }

  lemma Pow2Next(n: nat)
    ensures Pow2(n + 1) == 2 * Pow2(n)
  {
  }

  lemma Pow2Twice(n: nat, p: nat)
    requires Pow2(n) == p
    ensures Pow2(2 * n) == p * p
  {
    Pow2Add(n, n);
  }

  lemma Pow2Add(m: nat, n: nat)
    ensures Pow2(m + n) == Pow2(m) * Pow2(n)
  {
    if m > 0 {
      Pow2Add(m - 1, n);
    }
  }

  function LimitsFor(bits: Width, isSigned: bool): IntLimits {
    if bits >= 64 then IntLimits(INT64_MIN, INT64_MAX, TWO64 - 1)
    else
      Pow2Monotone(bits, 63); Pow2Of63();
      var mask := Pow2(bits) - 1;
      IntLimits(if isSigned then -(mask / 2) - 1 else 0, if isSigned then mask / 2 else mask, mask)
  }

  predicate AddOverflows64(a: int64, b: int64) {
    (b > 0 && a > INT64_MAX - b) || (b < 0 && a < INT64_MIN - b)
  }

  predicate SubOverflows64(a: int64, b: int64) {
    (b < 0 && a > INT64_MAX + b) || (b > 0 && a < INT64_MIN + b)
  }

  /** Division and remainder truncating toward zero. */
  function TruncDiv(a: int, b: int): int
    requires b != 0
  {
    if a >= 0 then a / b else -((-a) / b)
  }

  function TruncMod(a: int, b: int): int
    requires b != 0
  {
    if a >= 0 then a % b else -((-a) % b)
  }

  predicate MulOverflows64(a: int64, b: int64) {
    if a == 0 || b == 0 then false
    else if a == INT64_MIN || b == INT64_MIN then true
    else TruncDiv(Wrap64(a * b), b) != a
  }

  /** The low `bits` bits of raw, read with the given sign; wider values are left alone. */
  function WrapToWidth(raw: int64, bits: Width, isSigned: bool): int64 {
    if bits >= 64 then raw
    else
      Pow2Monotone(bits, 63); Pow2Of63();
      var u := Unsigned64(raw) % Pow2(bits);
      if isSigned && u >= Pow2(bits - 1) then u - Pow2(bits) else u
  }

  predicate OutOfLimits(raw: int64, bits: Width, isSigned: bool) {
    var lim := LimitsFor(bits, isSigned);
    if isSigned then raw < lim.min || raw > lim.max else Unsigned64(raw) > lim.umax
  }

  /** Fits raw, which may already have wrapped when overflowHint is set, into the width under the mode. */
  function FitInt(raw: int64, overflowHint: bool, negative: bool, bits: Width, isSigned: bool,
                  mode: OverflowMode): (r: ConstValue)
    ensures r == Error || (r.Integer? && r.width == bits && r.signed == isSigned)
  {
    var lim := LimitsFor(bits, isSigned);
    if (overflowHint || OutOfLimits(raw, bits, isSigned)) && !mode.NoMode? && !mode.Wrapped? then
      if mode.Trapped? || mode.Checked? then Error
      else Integer(if negative then lim.min else lim.max, bits, isSigned)
    else Integer(WrapToWidth(raw, bits, isSigned), bits, isSigned)
  }

  datatype BitOp = BitAnd | BitOr | BitXor

  predicate BitOf(op: BitOp, x: bool, y: bool) {
    match op case BitAnd => x && y case BitOr => x || y case BitXor => x != y
  }

  function Bitwise(op: BitOp, x: nat, y: nat, n: nat): (r: nat)
    ensures r < Pow2(n)
  {
    if n == 0 then 0
    else 2 * Bitwise(op, x / 2, y / 2, n - 1) + (if BitOf(op, x % 2 == 1, y % 2 == 1) then 1 else 0)
  }

  function Bitwise64(op: BitOp, x: int64, y: int64): int64 {
    Wrap64(Bitwise(op, Unsigned64(x), Unsigned64(y), 64))
  }

  /** An operator either pushes its result or ends the evaluation with a value. */
  datatype OpResult = Push(value: ConstValue) | Stop(final: ConstValue)

  datatype BinaryOp =
    | Plus | Minus | Star | Slash | Percent
    | EqualEqual | BangEqual | Less | LessEqual | Greater | GreaterEqual
    | LessLess | GreaterGreater | Ampersand | Pipe | Caret | AndAnd | OrOr

  datatype UnaryOp = Negate | LogicalNot | BitwiseNot

  function CommonWidth(l: ConstValue, r: ConstValue): Width {
    if l.BitWidth() >= r.BitWidth() then l.BitWidth() else r.BitWidth()
  }

  predicate CommonSign(l: ConstValue, r: ConstValue) {
    l.IsSigned() && r.IsSigned()
  }

  function Divide(mode: OverflowMode, l: ConstValue, r: ConstValue): OpResult {
    var (a, b) := (l.ToInt(), r.ToInt());
    var (w, s) := (CommonWidth(l, r), CommonSign(l, r));
    if b == 0 then Stop(Error)
    else if a == INT64_MIN && b == -1 && (mode.Trapped? || mode.Checked?) then Stop(Error)
    else if a == INT64_MIN && b == -1 && mode.Saturating? then Push(Integer(INT64_MAX, w, s))
    else Push(FitInt(Quotient(a, b), false, false, w, s, mode))
  }

  /** The 64-bit quotient; the one that does not fit stays at the minimum. */
  function Quotient(a: int64, b: int64): int64
    requires b != 0
  {
    if a == INT64_MIN && b == -1 then INT64_MIN
    else TruncDivFits(a, b); TruncDiv(a, b)
  }

  lemma TruncDivFits(a: int64, b: int64)
    requires b != 0 && !(a == INT64_MIN && b == -1)
    ensures INT64_MIN <= TruncDiv(a, b) <= INT64_MAX
  {
    DivBound(Abs(a), Abs(b));
    if b < 0 { DivNegative(Abs(a), Abs(b)); }
  }

  function Abs(x: int): int { if x >= 0 then x else -x }

  lemma MultipleAtLeast(n: int, k: int)
    requires n >= 1
    ensures k >= 1 ==> n * k >= n
    ensures k <= -1 ==> n * k <= -n
  {
    if k >= 1 { assert n * k == n * (k - 1) + n; }
    if k <= -1 { assert n * k == n * (k + 1) - n; }
  }

  lemma DivBound(m: int, n: int)
    requires m >= 0 && n >= 1
    ensures 0 <= m / n <= m
    ensures n >= 2 ==> 2 * (m / n) <= m
  {
    QuotientBound(m, n, m / n, m % n);
  }

  lemma QuotientBound(m: int, n: int, q: int, r: int)
    requires m >= 0 && n >= 1 && m == n * q + r && 0 <= r < n
    ensures 0 <= q <= m
    ensures n >= 2 ==> 2 * q <= m
  {
    MultipleAtLeast(n, q);
    if q >= 1 {
      MultipleAtLeast(q, n);
      assert n * q == q * n;
      if n >= 3 {
        MultipleAtLeast(q, n - 2);
        assert q * n == q * (n - 2) + 2 * q;
      }
    }
  }

  /** Euclidean division by a negative number is the negation, for a non-negative dividend. */
  lemma DivNegative(m: int, n: int)
    requires m >= 0 && n >= 1
    ensures m / (-n) == -(m / n)
    ensures m % (-n) == m % n
  {
    QuotientIsUnique(m, n, m / n, m % n, -(m / (-n)), m % (-n));
  }

  lemma QuotientIsUnique(m: int, n: int, q: int, r: int, q': int, r': int)
    requires n >= 1 && m == n * q + r && 0 <= r < n && m == n * q' + r' && 0 <= r' < n
    ensures q == q' && r == r'
  {
    assert n * (q - q') == r' - r;
    MultipleAtLeast(n, q - q');
  }

  function Remainder(mode: OverflowMode, l: ConstValue, r: ConstValue): OpResult {
    var (a, b) := (l.ToInt(), r.ToInt());
    if b == 0 then Stop(Error)
    else
      TruncModFits(a, b);
      Push(FitInt(if a == INT64_MIN && b == -1 then 0 else TruncMod(a, b), false, false,
                  CommonWidth(l, r), CommonSign(l, r), mode))
  }

  lemma TruncModFits(a: int64, b: int64)
    requires b != 0
    ensures INT64_MIN < TruncMod(a, b) <= INT64_MAX
  {
  }

  function ApplyBinary(op: BinaryOp, mode: OverflowMode, l: ConstValue, r: ConstValue): OpResult {
    var (a, b) := (l.ToInt(), r.ToInt());
    var (w, s) := (CommonWidth(l, r), CommonSign(l, r));
    match op
    case Plus => Push(FitInt(Wrap64(a + b), AddOverflows64(a, b), a < 0 && b < 0, w, s, mode))
    case Minus => Push(FitInt(Wrap64(a - b), SubOverflows64(a, b), a < 0 && b > 0, w, s, mode))
    case Star => Push(FitInt(Wrap64(a * b), MulOverflows64(a, b), (a < 0) != (b < 0), w, s, mode))
    case Slash => Divide(mode, l, r)
    case Percent => Remainder(mode, l, r)
    case EqualEqual => Push(Bool(a == b))
    case BangEqual => Push(Bool(a != b))
    case Less => Push(Bool(a < b))
    case LessEqual => Push(Bool(a <= b))
    case Greater => Push(Bool(a > b))
    case GreaterEqual => Push(Bool(a >= b))
    case LessLess => Push(MakeInt(Wrap64(a * Pow2(b % 64))))
    case GreaterGreater => Push(MakeInt(Wrap64(a / Pow2(b % 64))))
    case Ampersand => Push(MakeInt(Bitwise64(BitAnd, a, b)))
    case Pipe => Push(MakeInt(Bitwise64(BitOr, a, b)))
    case Caret => Push(MakeInt(Bitwise64(BitXor, a, b)))
    case AndAnd => Push(Bool(l.ToBool() && r.ToBool()))
    case OrOr => Push(Bool(l.ToBool() || r.ToBool()))
  }

  function NegateValue(mode: OverflowMode, v: ConstValue): OpResult {
    var x := v.ToInt();
    var (w, s) := (v.BitWidth(), v.IsSigned());
    var ovf := x == INT64_MIN || (w < 64 && x == LimitsFor(w, s).min);
    var fitted := FitInt(if x == INT64_MIN then INT64_MIN else -x, ovf, false, w, s, mode);
    if fitted.Error? then Stop(fitted) else Push(fitted)
  }

  function ApplyUnary(op: UnaryOp, mode: OverflowMode, v: ConstValue): OpResult {
    match op
    case Negate => NegateValue(mode, v)
    case LogicalNot => Push(Bool(!v.ToBool()))
    case BitwiseNot => Push(MakeInt(-1 - v.ToInt()))
  }
}
