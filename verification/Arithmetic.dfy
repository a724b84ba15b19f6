/** Nonlinear facts about natural numbers that the solver needs one step at a time. */
module Arithmetic {

  /** Division with remainder is unique. */
  lemma DivModUnique(x: int, m: nat, q: int, r: nat)
    requires x == q * m + r && r < m
    ensures x / m == q && x % m == r
  {
    var k, s := x / m, x % m;
    assert x == k * m + s;
    assert (q - k) * m == s - r;
    if q > k {
      MulAtLeast(q - k, m);
    } else if q < k {
      assert (k - q) * m == r - s;
      MulAtLeast(k - q, m);
    }
  }

  lemma MulAtLeast(a: nat, m: nat)
    requires a >= 1
    ensures a * m >= m
  {
  }

  lemma SmallMod(a: nat, m: nat)
    requires a < m
    ensures a % m == a
  {
  }
}
