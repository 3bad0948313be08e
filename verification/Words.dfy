/**
 Machine words. Integers in Dafny are unbounded, so the widths the node relies on
 are written out: subset types for the ranges, and one function for each of the
 saturating, wrapping and casting operators that the Rust code names.
 */
module Words {

  const U64_MAX: int := 0xFFFF_FFFF_FFFF_FFFF
  const I64_MAX: int := 0x7FFF_FFFF_FFFF_FFFF
  const I64_MIN: int := -0x8000_0000_0000_0000
  const U128_MAX: int := 0xFFFF_FFFF_FFFF_FFFF_FFFF_FFFF_FFFF_FFFF
  const U256_MAX: int := U128_MAX * (U128_MAX + 2)

  type U64 = x: int | 0 <= x <= U64_MAX
  type I64 = x: int | I64_MIN <= x <= I64_MAX
  type U128 = x: int | 0 <= x <= U128_MAX
  type U256 = x: int | 0 <= x <= U256_MAX

  datatype Option<+T> = None | Some(value: T)

  function Min(a: int, b: int): int { if a < b then a else b }

  function Max(a: int, b: int): int { if a > b then a else b }

  /** `u64::saturating_add` */
  function SatAdd(a: U64, b: U64): U64 { Min(a + b, U64_MAX) }

  /** `u64::saturating_sub` */
  function SatSub(a: U64, b: U64): U64 { Max(a - b, 0) }

  /** `u64::wrapping_sub` */
  function WrapSub(a: U64, b: U64): U64 { if b <= a then a - b else a - b + U64_MAX + 1 }

  /** `i64::saturating_add` and, with a negated argument, `i64::saturating_sub` */
  function SatSigned(a: I64, b: int): I64 { Max(I64_MIN, Min(a + b, I64_MAX)) }

  /** `u64::saturating_add_signed` */
  function SatAddSigned(a: U64, b: I64): U64 { Max(0, Min(a + b, U64_MAX)) }

  /** `x as i64` for a `u64` */
  function AsI64(x: U64): int { if x <= I64_MAX then x else x - U64_MAX - 1 }

  /** `i64::wrapping_add` */
  function WrapAdd(a: I64, b: I64): I64 {
    if a + b > I64_MAX then a + b - U64_MAX - 1 else if a + b < I64_MIN then a + b + U64_MAX + 1 else a + b
  }

  lemma MulMono(a: nat, b: nat, c: nat)
    requires a <= b
    ensures a * c <= b * c && c * a <= c * b
  {
  }

  /** The wrapping operators and the cast give the one value of their range that differs from the
      exact one by a multiple of 2^64. */
  lemma WrapsModulo(a: I64, b: I64, x: U64, y: U64)
    ensures WrapAdd(a, b) - (a + b) in {-0x1_0000_0000_0000_0000, 0, 0x1_0000_0000_0000_0000}
    ensures WrapSub(x, y) - (x - y) in {0, 0x1_0000_0000_0000_0000}
    ensures AsI64(x) - x in {-0x1_0000_0000_0000_0000, 0} && I64_MIN <= AsI64(x) <= I64_MAX
  {
  }
}
