/// Facts about multiplication, division and remainder by a positive number
/// that the solver does not find unaided.
module Arith {
  /** A digit below `p` after `q < n` whole units of `p` stays below `n` units. */
  lemma MulLess(q: nat, r: nat, p: nat, n: nat)
    requires r < p && q < n
    ensures q * p + r < n * p
  {
    assert q * p + p == (q + 1) * p;
    assert (q + 1) * p <= n * p;
  }

  /** A non-zero multiple of `p` is at least `p` away from zero. */
  lemma MulBounds(d: int, p: nat)
    ensures d >= 1 ==> d * p >= p
    ensures d <= -1 ==> d * p + p <= 0
  {
  }

  /** Quotient and remainder are unique: `q * p + r` with `0 <= r < p` divides back to `q`, `r`. */
  lemma DivMod(q: int, r: nat, p: nat)
    requires r < p
    ensures (q * p + r) / p == q && (q * p + r) % p == r
  {
    var x := q * p + r;
    var d := x / p - q;
    assert d * p == r - x % p;
    MulBounds(d, p);
  }

  /** A position below `n * p` splits into a quotient below `n` and a remainder. */
  lemma DivBound(off: nat, p: nat, n: nat)
    requires off < n * p
    ensures p > 0 && off / p < n && off == off / p * p + off % p
  {
    assert p != 0;
    MulBounds(off / p - n, p);
    assert (off / p - n) * p == off / p * p - n * p;
  }
}
