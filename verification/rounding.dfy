/** PHP's `round()` (half away from zero) at the scales the engine uses. */
module Rounding {

  /** round(n / 10): the nearest integer, ties away from zero. */
  function RoundTenths(n: int): (r: int)
    ensures n >= 0 ==> -10 <= 2 * (n - 10 * r) < 10
    ensures n < 0 ==> -10 < 2 * (n - 10 * r) <= 10
  {
    if n >= 0 then (n + 5) / 10 else -((-n + 5) / 10)
  }

  /** round(n / 100): the nearest integer, ties away from zero. */
  function RoundHundredths(n: int): (r: int)
    ensures n >= 0 ==> -100 <= 2 * (n - 100 * r) < 100
    ensures n < 0 ==> -100 < 2 * (n - 100 * r) <= 100
  {
    if n >= 0 then (n + 50) / 100 else -((-n + 50) / 100)
  }

  /** round(x): the integer nearest to the real x, ties away from zero. */
  function RoundReal(x: real): (r: int)
    ensures x >= 0.0 ==> r as real - 0.5 <= x < r as real + 0.5
    ensures x < 0.0 ==> r as real - 0.5 < x <= r as real + 0.5
  {
    if x >= 0.0 then (x + 0.5).Floor else -((-x + 0.5).Floor)
  }

  /** Rounding never reverses the order of two values. */
  lemma RoundRealMonotone(x: real, y: real)
    requires x <= y
    ensures RoundReal(x) <= RoundReal(y)
  {
  }
}
