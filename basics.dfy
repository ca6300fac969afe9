/** Values shared by the other modules: an option type, the minimum and
    maximum of two reals, and a bound on a real quotient. */
module Basics {

  datatype Option<+T> = None | Some(value: T)

  /** `Math.min(a, b)` on reals. */
  function RealMin(a: real, b: real): real
  {
    if a <= b then a else b
  }

  /** `Math.max(a, b)` on reals. */
  function RealMax(a: real, b: real): real
  {
    if a >= b then a else b
  }

  /** A quotient of `s` by `n > 0` lies in `[lo, hi]` when `s` lies in
      `[n * lo, n * hi]`. */
  lemma QuotientBetween(s: real, n: real, lo: real, hi: real)
    requires n > 0.0 && n * lo <= s <= n * hi
    ensures lo <= s / n <= hi
  {
    var q := s / n;
    assert q * n == s;
  }
}
