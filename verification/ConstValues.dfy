/** Compile-time values: the tagged value the virtual machine computes with, and its coercions. */
module ConstValues {
  const INT64_MIN: int := -0x8000_0000_0000_0000
  const INT64_MAX: int := 0x7FFF_FFFF_FFFF_FFFF
  const TWO64: int := 0x1_0000_0000_0000_0000

  type int64 = x: int | -0x8000_0000_0000_0000 <= x <= 0x7FFF_FFFF_FFFF_FFFF
  type uint64 = x: int | 0 <= x < 0x1_0000_0000_0000_0000

  /** A bit width: what fits the low sixteen bits of a cast operand, and is not zero. */
  type Width = w: nat | 1 <= w < 0x1_0000 witness 32

  /** Two's complement reading of the low 64 bits of x. */
  function Wrap64(x: int): int64 {
    (x - INT64_MIN) % TWO64 + INT64_MIN
  }

  /** The unsigned 64-bit reading of x, as `static_cast<uint64_t>`. */
  function Unsigned64(x: int64): uint64 {
    if x < 0 then x + TWO64 else x
  }

  datatype Int128 = Int128(high: int64, low: uint64) {
    predicate IsZero() { high == 0 && low == 0 }

    function ToInt64(): int64 { Wrap64(low) }
  }

  datatype ConstValue =
    | Integer(intVal: int64, width: Width, signed: bool)
    | Integer128(int128Val: Int128, wideSigned: bool)
    | Bool(boolVal: bool)
    | Void
    | Thrown(errorName: string)
    | Error
  {
    function BitWidth(): Width {
      match this
      case Integer(_, w, _) => w
      case Integer128(_, _) => 128
      case Bool(_) => 1
      case _ => 32
    }

    predicate IsSigned() {
      match this
      case Integer(_, _, s) => s
      case Integer128(_, s) => s
      case _ => true
    }

    function ToInt(): int64 {
      match this
      case Integer(v, _, _) => v
      case Integer128(v, _) => v.ToInt64()
      case Bool(b) => if b then 1 else 0
      case _ => 0
    }

    predicate ToBool() {
      match this
      case Integer(v, _, _) => v != 0
      case Integer128(v, _) => !v.IsZero()
      case Bool(b) => b
      case _ => false
    }

    /** Kinds that can be pushed back as a constant. */
    predicate IsConstant() {
      Integer? || Integer128? || Bool?
    }
  }

  function MakeInt(v: int64): ConstValue { Integer(v, 32, true) }

  const ZERO: ConstValue := Integer(0, 32, true)

  /** What pushing an integer constant yields: the width follows the magnitude, the sign is signed. */
  function PushedInt(v: int64): ConstValue {
    Integer(v, if -0x8000_0000 <= v <= 0x7FFF_FFFF then 32 else 64, true)
  }

  /** What a constant becomes when it goes through the constant pools: width and sign are not kept. */
  function Materialize(v: ConstValue): ConstValue
    requires v.IsConstant()
  {
    match v
    case Integer(i, _, _) => PushedInt(i)
    case Integer128(w, _) => Integer128(w, true)
    case Bool(b) => Bool(b)
  }
}
