/** Python's `round` applied to an exact rational: the nearest integer, with
    a value exactly half-way between two integers going to the even one. */
module Rounding {

  function Abs(n: int): int
  {
    if n < 0 then -n else n
  }

  /** `round(p / q)` for a positive denominator. */
  function RoundDiv(p: int, q: int): (r: int)
    requires q > 0
    ensures 2 * p - q <= 2 * (q * r) <= 2 * p + q
    ensures 2 * (q * r) == 2 * p - q || 2 * (q * r) == 2 * p + q ==> r % 2 == 0
  {
    var f := p / q;
    var rem := p % q;
    assert q * f == p - rem;
    assert q * (f + 1) == p - rem + q;
    if 2 * rem < q then f
    else if 2 * rem > q then f + 1
    else if f % 2 == 0 then f
    else f + 1
  }

  /** `round(p / q)` for any non-zero denominator. */
  function RoundRatio(p: int, q: int): (r: int)
    requires q != 0
    ensures -Abs(q) <= 2 * (r * q - p) <= Abs(q)
    ensures 2 * Abs(r * q - p) == Abs(q) ==> r % 2 == 0
  {
    if q > 0 then RoundDiv(p, q)
    else
      var r := RoundDiv(-p, -q);
      assert r * q == -(-q * r);
      r
  }

  lemma {:induction false} MulMonotonic(q: int, a: int, b: int)
    requires q > 0 && a <= b
    ensures q * a <= q * b
  {
    assert q * b - q * a == q * (b - a);
  }

  /** Cancelling a positive factor from an inequality between products. */
  lemma {:induction false} MulCancel(q: int, u: int, v: int)
    requires q > 0 && q * u <= q * v
    ensures u <= v
  {
    if u > v {
      MulMonotonic(q, v + 1, u);
      assert false;
    }
  }

  /** Rounding is monotonic in the numerator. */
  lemma {:induction false} RoundDivMonotonic(p: int, p': int, q: int)
    requires q > 0
    requires p <= p'
    ensures RoundDiv(p, q) <= RoundDiv(p', q)
  {
    var r, r' := RoundDiv(p, q), RoundDiv(p', q);
    assert q * (r' + 1) == q * r' + q;
    MulCancel(q, r, r' + 1);
    if r == r' + 1 {
      assert false;
    }
  }

  /** An exact quotient is returned unchanged. */
  lemma {:induction false} RoundDivExact(k: int, q: int)
    requires q > 0
    ensures RoundDiv(k * q, q) == k
  {
    var r := RoundDiv(k * q, q);
    assert k * q == q * k;
    if r > k {
      assert q * r == q * k + q * (r - k);
      MulMonotonic(q, 1, r - k);
      assert false;
    } else if r < k {
      assert q * k == q * r + q * (k - r);
      MulMonotonic(q, 1, k - r);
      assert false;
    }
  }

  /** Rounding a quotient no larger than `k` gives at most `k`. */
  lemma {:induction false} RoundDivAtMost(p: int, q: int, k: int)
    requires q > 0
    requires p <= k * q
    ensures RoundDiv(p, q) <= k
  {
    RoundDivMonotonic(p, k * q, q);
    RoundDivExact(k, q);
  }

  /** Rounding a quotient no smaller than `k` gives at least `k`. */
  lemma {:induction false} RoundDivAtLeast(p: int, q: int, k: int)
    requires q > 0
    requires k * q <= p
    ensures k <= RoundDiv(p, q)
  {
    RoundDivMonotonic(k * q, p, q);
    RoundDivExact(k, q);
  }
}
