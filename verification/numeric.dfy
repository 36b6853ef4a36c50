/** Number handling shared by every endpoint: Python's `round(x, 2)`, applied
    to a value only when it is emitted as JSON. */
module Numeric {

  /** Python's `round(x)` on an exact value: the nearest integer, a tie going
      to the even neighbour. */
  function RoundHalfEven(x: real): (n: int)
    ensures x - 0.5 <= n as real <= x + 0.5
  {
    var f := x.Floor;
    var frac := x - f as real;
    if frac < 0.5 then f
    else if frac > 0.5 then f + 1
    else if f % 2 == 0 then f
    else f + 1
  }

  /** The rounding is half to even: it takes the nearer integer, and a value
      exactly halfway between two integers goes to the even one. */
  lemma RoundHalfEvenNearest(x: real)
    ensures x - x.Floor as real < 0.5 ==> RoundHalfEven(x) == x.Floor
    ensures x - x.Floor as real > 0.5 ==> RoundHalfEven(x) == x.Floor + 1
    ensures x - x.Floor as real == 0.5 ==> RoundHalfEven(x) % 2 == 0 && RoundHalfEven(x) - x.Floor in {0, 1}
  {
  }

  lemma RoundHalfEvenMonotone(x: real, y: real)
    requires x <= y
    ensures RoundHalfEven(x) <= RoundHalfEven(y)
  {
    var fx, fy := x.Floor, y.Floor;
    assert fx <= fy;
    if fx == fy {
      assert x - fx as real <= y - fy as real;
    }
  }

  /** `round(x, 2)`: `x` to two decimal places. */
  function Round2(x: real): (r: real)
    ensures x - 0.005 <= r <= x + 0.005
    ensures OnCentGrid(r)
  {
    var n := RoundHalfEven(x * 100.0);
    assert (n as real / 100.0) * 100.0 == n as real;
    n as real / 100.0
  }

  /** A value with at most two decimal places, such as every DECIMAL(5,2) value. */
  predicate OnCentGrid(x: real) {
    (x * 100.0).Floor as real == x * 100.0
  }

  /** Rounding leaves a two-decimal value as it is. */
  lemma Round2Fixes(x: real)
    requires OnCentGrid(x)
    ensures Round2(x) == x
  {
    var k := (x * 100.0).Floor;
    assert RoundHalfEven(x * 100.0) == k;
  }

  lemma Round2Monotone(x: real, y: real)
    requires x <= y
    ensures Round2(x) <= Round2(y)
  {
    RoundHalfEvenMonotone(x * 100.0, y * 100.0);
  }

  /** A value between two bounds that have two decimals still lies between
      them after rounding (rounding never leaves [0, 100], say). */
  lemma {:induction false} Round2Within(x: real, lo: real, hi: real)
    requires lo <= x <= hi
    requires OnCentGrid(lo) && OnCentGrid(hi)
    ensures lo <= Round2(x) <= hi
  {
    Round2Monotone(lo, x);
    Round2Monotone(x, hi);
    Round2Fixes(lo);
    Round2Fixes(hi);
  }

  /** `lo <= x <= hi` or `hi <= x <= lo`: `x` is a convex combination of the two. */
  predicate Between(x: real, a: real, b: real) {
    (a <= x <= b) || (b <= x <= a)
  }
}
