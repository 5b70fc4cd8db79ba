/** Facts about row-major (flat) indices that the solver does not find on its
    own because they involve multiplication by a variable. */
module Arith {

  lemma MulMonotone(a: int, b: int, d: int)
    requires 0 <= d && a <= b
    ensures a * d <= b * d
  {
    assert b * d - a * d == (b - a) * d;
  }

  /** Euclidean division recovers the quotient and remainder of `q * d + r`. */
  lemma DivModOfFlat(q: int, d: int, r: int)
    requires 0 < d && 0 <= r < d
    ensures (q * d + r) / d == q
    ensures (q * d + r) % d == r
  {
    var x := q * d + r;
    var q' := x / d;
    var r' := x % d;
    assert x == q' * d + r';
    assert (q - q') * d == r' - r;
    if q > q' {
      MulMonotone(1, q - q', d);
    } else if q < q' {
      MulMonotone(1, q' - q, d);
    }
  }

  /** A cell `r` of channel `q` lies inside the `n` channels of length `d`. */
  lemma FlatBound(q: int, n: int, r: int, d: int)
    requires 0 <= q < n && 0 <= r < d
    ensures 0 <= q * d + r < n * d
  {
    MulMonotone(q + 1, n, d);
    MulMonotone(0, q, d);
  }

  /** Distinct (channel, cell) pairs have distinct flat indices. */
  lemma FlatInjective(q1: int, r1: int, q2: int, r2: int, d: int)
    requires 0 <= r1 < d && 0 <= r2 < d
    requires q1 * d + r1 == q2 * d + r2
    ensures q1 == q2 && r1 == r2
  {
    DivModOfFlat(q1, d, r1);
    DivModOfFlat(q2, d, r2);
  }

  /** Splitting an index into quotient and remainder and putting it back together. */
  lemma FlatOfDivMod(x: int, d: int)
    requires 0 < d
    ensures x == (x / d) * d + x % d
    ensures 0 <= x % d < d
  {
  }

  /** A non-empty product of naturals has a positive right factor. */
  lemma FactorPositive(k: int, n: int, d: int)
    requires 0 <= n && 0 <= d && 0 <= k < n * d
    ensures 0 < d
  {
  }

  /** Every index below `n * d` is the flat index of some (channel, cell) pair. */
  lemma Unflatten(x: int, n: int, d: int) returns (q: int, r: int)
    requires 0 <= n && 0 <= d && 0 <= x < n * d
    ensures 0 <= q < n && 0 <= r < d && x == q * d + r
  {
    FactorPositive(x, n, d);
    q, r := x / d, x % d;
    FlatOfDivMod(x, d);
    if q >= n {
      MulMonotone(n, q, d);
    }
  }
}
