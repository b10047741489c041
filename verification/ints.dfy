/** Fixed-width integer behaviour of the Rust engine, written out over
    Dafny's unbounded `int`: the `i16`/`i32` ranges, truncating division,
    the wrapping `as i16` cast, `i16::saturating_sub` and `f32::round`. */
module Ints {

  const I16_MIN: int := -0x8000
  const I16_MAX: int := 0x7FFF
  const I32_MIN: int := -0x8000_0000
  const I32_MAX: int := 0x7FFF_FFFF

  predicate InI16(x: int) { I16_MIN <= x <= I16_MAX }
  predicate InI32(x: int) { I32_MIN <= x <= I32_MAX }

  type i16 = x: int | InI16(x)
  type i32 = x: int | InI32(x)

  /** Rust's `/` on signed integers with a positive divisor: the quotient is
      truncated toward zero, so the remainder takes the sign of the dividend
      (Dafny's own `/` is Euclidean and disagrees on negative dividends). */
  function TruncDiv(a: int, b: int): (q: int)
    requires b > 0
    ensures -b < a - q * b < b
    ensures a >= 0 ==> a - q * b >= 0
    ensures a <= 0 ==> a - q * b <= 0
  {
    if a >= 0 then a / b else -((-a) / b)
  }

  /** `x as i16` for an `i32` value: keeps the low 16 bits, read as two's
      complement. */
  function WrapI16(x: int): (r: i16)
    ensures (x - r) % 0x1_0000 == 0
    ensures InI16(x) ==> r == x
  {
    (x - I16_MIN) % 0x1_0000 + I16_MIN
  }

  /** `a.saturating_sub(b)` on `i16`: the representable value closest to the
      exact difference. It saturates at the type's bounds, not at zero. */
  function SatSub16(a: i16, b: i16): (r: i16)
    ensures forall v :: InI16(v) ==> Dist(r, a - b) <= Dist(v, a - b)
    ensures InI16(a - b) ==> r == a - b
  {
    if a - b > I16_MAX then I16_MAX
    else if a - b < I16_MIN then I16_MIN
    else a - b
  }

  function Dist(x: int, y: int): nat
  {
    if x <= y then y - x else x - y
  }

  /** `f32::round`: to the nearest integer, halves away from zero. */
  function RoundHalfAway(x: real): (r: int)
    ensures x >= 0.0 ==> r as real - 0.5 <= x < r as real + 0.5
    ensures x < 0.0 ==> r as real - 0.5 < x <= r as real + 0.5
  {
    if x >= 0.0 then (x + 0.5).Floor else -((-x + 0.5).Floor)
  }
}
