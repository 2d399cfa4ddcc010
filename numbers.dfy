/**
 * JavaScript number operations the dashboard relies on, over unbounded
 * integers and exact reals: Math.round, Number.prototype.toFixed(2) and the
 * ToInt32 conversion behind `h |= 0`.
 */
module Numbers {

  /** Math.round: the nearest integer, halves rounded towards +infinity. */
  function Round(x: real): (r: int)
    ensures x - 1.0 / 2.0 < r as real <= x + 1.0 / 2.0
  {
    (x + 1.0 / 2.0).Floor
  }

  /** Rounding never leaves an integer interval that contains the argument. */
  lemma RoundWithin(x: real, lo: int, hi: int)
    requires lo as real <= x <= hi as real
    ensures lo <= Round(x) <= hi
  {
  }

  /** Rounding an exact integer gives it back. */
  lemma RoundOfInt(n: int)
    ensures Round(n as real) == n
  {
  }

  /**
   * The whole number of hundredths toFixed(2) prints for x: halves are
   * rounded away from zero, as the decimal algorithm of toFixed does on
   * exact values.
   */
  function Hundredths(x: real): (h: int)
    ensures -1.0 / 2.0 <= h as real - x * 100.0 <= 1.0 / 2.0
  {
    if x >= 0.0 then Round(x * 100.0) else -Round(-x * 100.0)
  }

  /** toFixed(2) read back as a number: the value rounded to hundredths. */
  function ToFixed2(x: real): (r: real)
    ensures -1.0 / 200.0 <= r - x <= 1.0 / 200.0
  {
    Hundredths(x) as real / 100.0
  }

  /** Rounding to hundredths keeps a value inside [0, hi] when hi is a whole number of hundredths. */
  lemma ToFixed2Within(x: real, hiHundredths: nat)
    requires 0.0 <= x <= hiHundredths as real / 100.0
    ensures 0.0 <= ToFixed2(x) <= hiHundredths as real / 100.0
  {
    RoundWithin(x * 100.0, 0, hiHundredths);
  }

  const TwoTo32: int := 0x1_0000_0000
  const TwoTo31: int := 0x8000_0000

  /** The ECMAScript ToInt32 conversion of an integral number. */
  function ToInt32(x: int): (r: int)
    ensures -TwoTo31 <= r < TwoTo31
    ensures (r - x) % TwoTo32 == 0
  {
    var m := x % TwoTo32;
    if m >= TwoTo31 then m - TwoTo32 else m
  }

  /** ToInt32 leaves a value that already fits in 32 signed bits unchanged. */
  lemma ToInt32OfInt32(x: int)
    requires -TwoTo31 <= x < TwoTo31
    ensures ToInt32(x) == x
  {
  }
}
