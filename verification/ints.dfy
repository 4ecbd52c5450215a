/** Rust's fixed-width integer behaviour, written out over unbounded integers:
    two's-complement wrap-around of release builds (`as` between integer
    types, `+`/`-` without overflow checks), the saturating float-to-integer
    `as` casts, and `f32::round` (half away from zero) over exact reals. */
module Ints {

  const TWO_32: nat := 0x1_0000_0000
  const U32_MAX: nat := 0xFFFF_FFFF
  const U16_MAX: nat := 0xFFFF
  const I32_MIN: int := -0x8000_0000
  const I32_MAX: int := 0x7FFF_FFFF

  /** The `i32` with the same low 32 bits as `x`. */
  function WrapI32(x: int): (r: int)
    ensures I32_MIN <= r <= I32_MAX
    ensures (r - x) % TWO_32 == 0
    ensures I32_MIN <= x <= I32_MAX ==> r == x
  {
    (x - I32_MIN) % TWO_32 + I32_MIN
  }

  /** The `u32` with the same low 32 bits as `x`. */
  function WrapU32(x: int): (r: nat)
    ensures r <= U32_MAX
    ensures (r - x) % TWO_32 == 0
    ensures 0 <= x <= U32_MAX ==> r == x
  {
    x % TWO_32
  }

  /** A float-to-`u32` `as` cast of an integral value: clamps into range. */
  function SatU32(x: int): (r: nat)
    ensures r <= U32_MAX
    ensures 0 <= x <= U32_MAX ==> r == x
    ensures x < 0 ==> r == 0
    ensures x > U32_MAX ==> r == U32_MAX
  {
    if x < 0 then 0 else if x > U32_MAX then U32_MAX else x
  }

  /** A float-to-`i32` `as` cast of an integral value. */
  function SatI32(x: int): (r: int)
    ensures I32_MIN <= r <= I32_MAX
    ensures I32_MIN <= x <= I32_MAX ==> r == x
  {
    if x < I32_MIN then I32_MIN else if x > I32_MAX then I32_MAX else x
  }

  /** A float-to-`u16` `as` cast of an integral value. */
  function SatU16(x: int): (r: nat)
    ensures r <= U16_MAX
    ensures 0 <= x <= U16_MAX ==> r == x
  {
    if x < 0 then 0 else if x > U16_MAX then U16_MAX else x
  }

  /** `f32::round`: the nearest integer, halves rounded away from zero. */
  function Round(x: real): (r: int)
    ensures x >= 0.0 ==> r as real - 0.5 <= x < r as real + 0.5
    ensures x < 0.0 ==> r as real - 0.5 < x <= r as real + 0.5
  {
    if x >= 0.0 then (x + 0.5).Floor else -((-x + 0.5).Floor)
  }

  /** Values congruent modulo 2^32 have the same `u32` bits. */
  lemma WrapU32Congruent(x: int, y: int)
    requires (x - y) % TWO_32 == 0
    ensures WrapU32(x) == WrapU32(y)
  {
    var q := (x - y) / TWO_32;
    assert x == y + q * TWO_32;
  }

  /** Multiples of 2^32 add up to a multiple of 2^32. */
  lemma MultipleAdd(x: int, y: int)
    requires x % TWO_32 == 0 && y % TWO_32 == 0
    ensures (x + y) % TWO_32 == 0
  {
    var p := x / TWO_32;
    var q := y / TWO_32;
    assert x + y == (p + q) * TWO_32;
  }

  /** Rounding an integral value gives it back. */
  lemma RoundIntegral(n: int)
    ensures Round(n as real) == n
  {
  }

  /** Halving `2k + d` with `d` in {0, 1} and flooring gives `k`. */
  lemma HalfFloor(k: int, d: nat)
    requires d < 2
    ensures ((2 * k + d) as real / 2.0).Floor == k
  {
    var x := (2 * k + d) as real / 2.0;
    assert x == k as real + d as real / 2.0;
    assert k as real <= x < k as real + 1.0;
  }

  /** `n / n` is exactly 1. */
  lemma SelfRatio(n: nat)
    requires n > 0
    ensures n as real / n as real == 1.0
  {
  }

  /** `2n / n` is exactly 2. */
  lemma DoubleRatio(n: nat)
    requires n > 0
    ensures (2 * n) as real / n as real == 2.0
  {
    var r := n as real;
    assert r / r == 1.0;
    assert (2 * n) as real == r + r;
    assert (r + r) / r == r / r + r / r;
    assert r / r + r / r == 2.0;
  }

  function Max(a: int, b: int): int {
    if a >= b then a else b
  }

  function Min(a: int, b: int): int {
    if a <= b then a else b
  }

  /** `usize::saturating_sub`: the difference, or 0 when it would be negative. */
  function SatSub(a: nat, b: nat): (r: nat)
    ensures a >= b ==> r + b == a
    ensures a < b ==> r == 0
  {
    if a >= b then a - b else 0
  }
}
