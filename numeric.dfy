/**
 * The float arithmetic of the scorers, over exact reals: `max(lo, min(hi, x))`
 * and Python's `round(x, n)`, which rounds half to even.
 */
module Numeric {

  /** `max(1, n)`, the denominator of every ratio. */
  function Max1(n: nat): (r: nat)
    ensures r >= 1 && r >= n
    ensures n >= 1 ==> r == n
  {
    if n < 1 then 1 else n
  }

  /** `max(lo, min(hi, x))`. */
  function Clamp(lo: real, hi: real, x: real): (r: real)
    requires lo <= hi
    ensures lo <= r <= hi
    ensures lo <= x <= hi ==> r == x
    ensures x < lo ==> r == lo
    ensures x > hi ==> r == hi
  {
    if x < lo then lo else if x > hi then hi else x
  }

  lemma ClampMonotone(lo: real, hi: real, x: real, y: real)
    requires lo <= hi && x <= y
    ensures Clamp(lo, hi, x) <= Clamp(lo, hi, y)
  {
  }

  /** The integer nearest to `y`, ties going to the even neighbour. */
  function RoundToInt(y: real): (n: int)
    ensures y - 0.5 <= n as real <= y + 0.5
  {
    var f := y.Floor;
    var frac := y - f as real;
    if frac > 0.5 then f + 1
    else if frac < 0.5 then f
    else if f % 2 == 0 then f
    else f + 1
  }

  lemma {:induction false} RoundToIntMonotone(x: real, y: real)
    requires x <= y
    ensures RoundToInt(x) <= RoundToInt(y)
  {
    var fx, fy := x.Floor, y.Floor;
    assert fx <= fy;
    if fx == fy {
      assert x - fx as real <= y - fy as real;
    } else {
      assert fx + 1 <= fy;
    }
  }

  /** An integer at or below `y` stays at or below its rounding; likewise above. */
  lemma {:induction false} RoundToIntBetween(y: real, lo: int, hi: int)
    requires lo as real <= y <= hi as real
    ensures lo <= RoundToInt(y) <= hi
  {
    var f := y.Floor;
    assert lo <= f;
    if f < hi {
      assert f + 1 <= hi;
    } else {
      assert y == f as real;
    }
  }

  /** `round(x, 1)`. */
  function Round1(x: real): real {
    RoundToInt(x * 10.0) as real / 10.0
  }

  /** `round(x, 2)`. */
  function Round2(x: real): real {
    RoundToInt(x * 100.0) as real / 100.0
  }

  /** `round(x, 4)`. */
  function Round4(x: real): real {
    RoundToInt(x * 10000.0) as real / 10000.0
  }

  /** Rounding to one place keeps a value inside bounds that are multiples of 0.1. */
  lemma Round1Within(x: real, lo: int, hi: int)
    requires lo as real / 10.0 <= x <= hi as real / 10.0
    ensures lo as real / 10.0 <= Round1(x) <= hi as real / 10.0
  {
    RoundToIntBetween(x * 10.0, lo, hi);
  }

  /** Rounding to two places keeps a value inside bounds that are multiples of 0.01. */
  lemma Round2Within(x: real, lo: int, hi: int)
    requires lo as real / 100.0 <= x <= hi as real / 100.0
    ensures lo as real / 100.0 <= Round2(x) <= hi as real / 100.0
  {
    RoundToIntBetween(x * 100.0, lo, hi);
  }

  lemma Round2Monotone(x: real, y: real)
    requires x <= y
    ensures Round2(x) <= Round2(y)
  {
    RoundToIntMonotone(x * 100.0, y * 100.0);
  }

  /** A multiple of 0.01: what `round(_, 2)` returns. */
  predicate OnGrid2(x: real) {
    (x * 100.0).Floor as real == x * 100.0
  }

  lemma Round2OnGrid(x: real)
    ensures OnGrid2(Round2(x))
  {
    var n := RoundToInt(x * 100.0);
    assert Round2(x) * 100.0 == n as real;
  }

  /** A value already on the grid of 0.01 is left alone by `round(_, 2)`. */
  lemma Round2FixesGrid(x: real)
    requires OnGrid2(x)
    ensures Round2(x) == x
  {
    var n := (x * 100.0).Floor;
    assert RoundToInt(n as real) == n;
  }
}
