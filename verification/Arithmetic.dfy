/** Division with remainder by a variable divisor. */
module Arithmetic {
  lemma {:induction false} MulGap(a: nat, b: nat, m: nat)
    ensures a < b ==> a * m + m <= b * m
  {
    if a < b {
      assert (a + 1) * m <= b * m;
    }
  }

  /** Quotient and remainder are determined by their defining equation. */
  lemma {:induction false} DivModUnique(n: nat, m: nat, q: nat, r: nat)
    requires r < m && n == q * m + r
    ensures n / m == q && n % m == r
  {
    var q', r' := n / m, n % m;
    assert n == q' * m + r';
    MulGap(q, q', m);
    MulGap(q', q, m);
  }
}
