/** Multiplication and division of natural numbers. */
module Arithmetic {

  lemma MulAtMost(x: nat, y: nat, d: nat)
    requires x <= y
    ensures x * d <= y * d
  {
  }

  /** Quotient and remainder are unique. */
  lemma Division(q: nat, d: nat, r: nat)
    requires r < d
    ensures (q * d + r) / d == q && (q * d + r) % d == r
  {
    var n := q * d + r;
    assert n == n / d * d + n % d;
    if n / d < q {
      MulAtMost(n / d + 1, q, d);
    } else if q < n / d {
      MulAtMost(q + 1, n / d, d);
    }
  }
}
