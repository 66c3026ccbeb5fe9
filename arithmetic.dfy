/**
  Facts about natural-number multiplication and Euclidean division shared by
  the grid layout (flattened indices) and the tiling (wrapped indices).
 */
module Arithmetic {

  lemma MulMonotone(m: nat, a: nat, b: nat)
    requires a <= b
    ensures m * a <= m * b
  {
  }

  /** `k = d * q + r` with `r < d` fixes the quotient and the remainder. */
  lemma DivModUnique(k: nat, d: nat, q: nat, r: nat)
    requires r < d && k == d * q + r
    ensures k / d == q && k % d == r
  {
    var q', r' := k / d, k % d;
    assert k == d * q' + r';
    assert d * (q + 1) == d * q + d;
    assert d * (q' + 1) == d * q' + d;
    if q' > q {
      MulMonotone(d, q + 1, q');
    } else if q' < q {
      MulMonotone(d, q' + 1, q);
    }
  }
}
