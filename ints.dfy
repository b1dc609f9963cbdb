/**
 * Fixed-width integers of the Rust code and the `as` casts between them.
 * Rust's `as` between integer types keeps the low bits (two's complement):
 * these functions write that out on unbounded integers.
 */
module Ints {

  const TWO_31: int := 0x8000_0000
  const TWO_32: int := 0x1_0000_0000
  const TWO_63: int := 0x8000_0000_0000_0000
  const TWO_64: int := 0x1_0000_0000_0000_0000

  type I32 = x: int | -TWO_31 <= x < TWO_31
  type I64 = x: int | -TWO_63 <= x < TWO_63
  type U64 = x: int | 0 <= x < TWO_64

  /** `v as u64` for an `i32`: sign extension, then reinterpretation. */
  function I32AsU64(v: I32): (r: U64)
    ensures r % TWO_32 == v % TWO_32
    ensures v >= 0 <==> r < TWO_31
  {
    if v >= 0 then v else v + TWO_64
  }

  /** `u as i64` for a `u64`: the top bit becomes the sign. */
  function U64AsI64(u: U64): (r: I64)
    ensures r % TWO_64 == u % TWO_64
    ensures u < TWO_63 ==> r == u
  {
    if u < TWO_63 then u else u - TWO_64
  }

  /** `u as i32` for a `u64`: truncation to the low 32 bits, read as signed. */
  function U64AsI32(u: U64): (r: I32)
    ensures r % TWO_32 == u % TWO_32
    ensures u < TWO_31 ==> r == u
  {
    var low := u % TWO_32;
    if low < TWO_31 then low else low - TWO_32
  }

  /** `n as usize` for an `i64` on a 64-bit target. */
  function I64AsU64(n: I64): (r: U64)
    ensures r % TWO_64 == n % TWO_64
    ensures n >= 0 ==> r == n
  {
    if n >= 0 then n else n + TWO_64
  }

  /** An `i32` survives `as u64` followed by `as i64`. */
  lemma I32ThroughU64ToI64(v: I32)
    ensures U64AsI64(I32AsU64(v)) == v
  {
  }

  /** An `i32` survives `as u64` followed by `as i32`. */
  lemma I32ThroughU64ToI32(v: I32)
    ensures U64AsI32(I32AsU64(v)) == v
  {
    if v < 0 {
      var u := v + TWO_64;
      assert u % TWO_32 == v + TWO_32 by {
        assert u == (v + TWO_32) + (TWO_32 - 1) * TWO_32;
      }
    }
  }

  /** A `u64` no larger than `i32::MAX` survives `as i32` followed by `as u64`. */
  lemma SmallU64ThroughI32(u: U64)
    requires u < TWO_31
    ensures I32AsU64(U64AsI32(u)) == u
  {
  }
}
