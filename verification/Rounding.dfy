// The rounding operators of the source: decimal half-up (Python `ROUND_HALF_UP`), Python's half-to-even `round`
// and JavaScript's `Math.round`, together with the conversion between seconds and whole microseconds.
module Rounding {
  const MICROS: real := 1000000.0

  /** Python `Decimal.quantize(1, ROUND_HALF_UP)`: to the nearest integer, ties away from zero. */
  function HalfUp(x: real): int {
    if x >= 0.0 then (x + 0.5).Floor else -((0.5 - x).Floor)
  }

  /** Python `round(x)`: to the nearest integer, ties to the even one. */
  function HalfEven(x: real): int {
    var low := x.Floor;
    var rest := x - low as real;
    if rest < 0.5 || (rest == 0.5 && low % 2 == 0) then low else low + 1
  }

  /** JavaScript `Math.round(x)`: to the nearest integer, ties towards positive infinity. */
  function MathRound(x: real): int {
    (x + 0.5).Floor
  }

  function ToMicros(seconds: real): int {
    HalfUp(seconds * MICROS)
  }

  function ToSeconds(micros: int): real {
    micros as real / MICROS
  }

  /** Python `round(x, 6)` on seconds. */
  function Round6(seconds: real): real {
    HalfEven(seconds * MICROS) as real / MICROS
  }

  /** A time that is a whole number of microseconds. */
  predicate Aligned(seconds: real) {
    ToSeconds(ToMicros(seconds)) == seconds
  }

  /** Each operator, by the numbers it rounds to a given integer. */
  lemma RoundedNumbers(x: real, n: int)
    ensures HalfUp(x) == n <==>
      if x >= 0.0 then n as real - 0.5 <= x < n as real + 0.5 else n as real - 0.5 < x <= n as real + 0.5
    ensures MathRound(x) == n <==> n as real - 0.5 <= x < n as real + 0.5
    ensures HalfEven(x) == n <==>
      && n as real - 0.5 <= x <= n as real + 0.5
      && (x == n as real - 0.5 || x == n as real + 0.5 ==> n % 2 == 0)
  {
  }

  lemma HalfUpIsNear(x: real)
    ensures x - 0.5 <= HalfUp(x) as real <= x + 0.5
  {
  }

  lemma ToMicrosIsNear(x: real)
    ensures x * MICROS - 0.5 <= ToMicros(x) as real <= x * MICROS + 0.5
  {
    HalfUpIsNear(x * MICROS);
  }

  lemma HalfEvenMonotone(x: real, y: real)
    requires x <= y
    ensures HalfEven(x) <= HalfEven(y)
  {
    assert x.Floor < y.Floor || x.Floor == y.Floor;
  }

  lemma Round6Monotone(x: real, y: real)
    requires x <= y
    ensures Round6(x) <= Round6(y)
  {
    HalfEvenMonotone(x * MICROS, y * MICROS);
  }

  lemma Round6Aligned(x: real)
    ensures Aligned(x) ==> Round6(x) == x
    ensures Aligned(Round6(x))
  {
    RoundTrip(ToMicros(x));
    RoundTrip(HalfEven(x * MICROS));
  }

  lemma ToMicrosMonotone(x: real, y: real)
    requires x <= y
    ensures ToMicros(x) <= ToMicros(y)
  {
  }

  /** Whole microseconds survive the trip through seconds. */
  lemma RoundTrip(micros: int)
    ensures ToMicros(ToSeconds(micros)) == micros
    ensures ToSeconds(micros) * MICROS == micros as real
  {
  }
}
