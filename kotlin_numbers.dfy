/** The pieces of Kotlin and JVM number semantics the core relies on:
    `Double.MAX_VALUE`, `Double.MIN_VALUE`, `kotlin.math.round`,
    `Double.toInt()` and 32-bit `Int` addition. Doubles are modelled as
    reals, so IEEE rounding, NaN and infinities are not represented. */
module KotlinNumbers {

  const IntMin: int := -0x8000_0000
  const IntMax: int := 0x7fff_ffff

  /** A value that fits a Kotlin `Int`. */
  predicate IsInt32(i: int) { IntMin <= i <= IntMax }

  /** `Double.MAX_VALUE` = (2^53 - 1) * 2^971, the largest finite double. */
  const DoubleMaxValue: real := 179769313486231570814527423731704356798070567525844996598917476803157260780028538760589558632766878171540458953514382464234321326889464182768467546703537516986049910576551282076245490090389328944075868508455133942304583236903222948165808559332123348274797826204144723168738177180919299881250404026184124858368.0

  /** 2^1074. */
  const TwoPow1074: int := 202402253307310618352495346718917307049556649764142118356901358027430339567995346891960383701437124495187077864316811911389808737385793476867013399940738509921517424276566361364466907742093216341239767678472745068562007483424692698618103355649159556340810056512358769552333414615230502532186327508646006263307707741093494784

  /** `Double.MIN_VALUE` = 2^-1074: the smallest POSITIVE double, not the most
      negative one. */
  const DoubleMinValue: real := 1.0 / (TwoPow1074 as real)

  /** `kotlin.math.round(x)`: the nearest integer, ties to the even one. */
  function Round(x: real): (r: int)
    ensures x - 0.5 <= r as real <= x + 0.5
    ensures x - 0.5 == r as real || x + 0.5 == r as real ==> r % 2 == 0
  {
    var f := x.Floor;
    var frac := x - f as real;
    if frac < 0.5 then f
    else if frac > 0.5 then f + 1
    else if f % 2 == 0 then f else f + 1
  }

  /** `round` leaves an integral value unchanged. */
  lemma {:induction false} RoundIntegral(n: int)
    ensures Round(n as real) == n
  {
    assert (n as real).Floor == n;
  }

  /** `Double.toInt()`: truncation toward zero, saturating at the `Int`
      bounds. Applied here only to values that are already integral. */
  function SaturateToInt(i: int): (r: int)
    ensures IsInt32(r)
    ensures IsInt32(i) ==> r == i
    ensures i < IntMin ==> r == IntMin
    ensures i > IntMax ==> r == IntMax
  {
    if i < IntMin then IntMin else if i > IntMax then IntMax else i
  }

  /** `round(x).toInt()`. */
  function RoundToInt(x: real): (r: int)
    ensures IsInt32(r)
    ensures IsInt32(Round(x)) ==> r == Round(x)
    ensures Round(x) < IntMin ==> r == IntMin
  {
    SaturateToInt(Round(x))
  }

  /** Kotlin `Int + Int`: two's-complement wrap-around at 32 bits. */
  function AddInt32(a: int, b: int): (r: int)
    requires IsInt32(a) && IsInt32(b)
    ensures IsInt32(r)
    ensures IsInt32(a + b) ==> r == a + b
    ensures a + b > IntMax ==> r == a + b - 0x1_0000_0000
  {
    var s := a + b;
    if s > IntMax then s - 0x1_0000_0000 else if s < IntMin then s + 0x1_0000_0000 else s
  }
}
