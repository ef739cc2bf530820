/** Conversions of include/util/math.hpp, over exact reals instead of binary doubles. */
module Numbers {

  const FEET_2_M := 0.3048

  /** Round to the nearest integer, halves away from zero. */
  function DoubleToInt(value: real): int
  {
    if value >= 0.0 then (value + 0.5).Floor else -(0.5 - value).Floor
  }

  /** It is the nearest integer, and of two that are equally near the one farther from zero. */
  lemma NearestAwayFromZero(value: real, n: int)
    ensures value >= 0.0 ==> (DoubleToInt(value) == n <==> n as real - 0.5 <= value < n as real + 0.5)
    ensures DoubleToInt(-value) == -DoubleToInt(value)
    ensures -0.5 <= DoubleToInt(value) as real - value <= 0.5
  {
  }

  function Abs(r: real): (a: real)
    ensures a >= 0.0 && (a == r || a == -r)
  {
    if r < 0.0 then -r else r
  }

  /** Degrees and minutes in one number (dddmm.mmmm) to degrees. */
  function DmToDeg(degMin: real): real
  {
    var absDm := Abs(degMin / 100.0);
    var d := absDm.Floor as real;
    d + (absDm - d) * 100.0 / 60.0
  }
}
