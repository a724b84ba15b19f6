/** Powers, congruences and primes: the number theory behind SRP. */
module Modular {
  import opened Arithmetic

  function Pow(b: nat, e: nat): nat {
    if e == 0 then 1 else b * Pow(b, e - 1)
  }

  /** BN_mod_exp */
  function ModExp(b: nat, e: nat, m: nat): (r: nat)
    requires m > 0
    ensures r < m
  {
    Pow(b, e) % m
  }

  // ----- powers -----

  lemma MulAssociates(a: nat, b: nat, c: nat)
    ensures a * (b * c) == a * b * c
  {
  }

  lemma PowNext(b: nat, e: nat)
    requires e > 0
    ensures Pow(b, e) == b * Pow(b, e - 1)
  {
  }

  lemma {:induction false} PowAdd(b: nat, d: nat, e: nat)
    ensures Pow(b, d + e) == Pow(b, d) * Pow(b, e)
  {
    if d > 0 {
      hide Pow;
      PowAdd(b, d - 1, e);
      PowNext(b, d + e);
      PowNext(b, d);
      MulAssociates(b, Pow(b, d - 1), Pow(b, e));
    }
  }

  lemma {:induction false} PowPow(b: nat, d: nat, e: nat)
    ensures Pow(Pow(b, d), e) == Pow(b, d * e)
  {
    if e == 0 {
      assert d * e == 0;
    } else {
      PowPow(b, d, e - 1);
      PowAdd(b, d, d * (e - 1));
      assert d + d * (e - 1) == d * e;
    }
  }

  // ----- congruence -----

  ghost predicate Congruent(a: int, b: int, m: nat)
    requires m > 0
  {
    exists k: int :: a - b == k * m
  }

  lemma CongruentMod(a: int, m: nat)
    requires m > 0
    ensures Congruent(a, a % m, m) && Congruent(a % m, a, m)
  {
    assert a - a % m == a / m * m;
    assert a % m - a == (-(a / m)) * m;
  }

  /** Congruent numbers leave the same remainder. */
  lemma CongruentRemainders(a: int, b: int, m: nat)
    requires m > 0 && Congruent(a, b, m)
    ensures a % m == b % m
  {
    var k: int :| a - b == k * m;
    var q := b / m + k;
    assert a == q * m + b % m;
    DivModUnique(a, m, q, b % m);
  }

  lemma CongruentTransitive(a: int, b: int, c: int, m: nat)
    requires m > 0 && Congruent(a, b, m) && Congruent(b, c, m)
    ensures Congruent(a, c, m)
  {
    var k: int :| a - b == k * m;
    var l: int :| b - c == l * m;
    assert a - c == (k + l) * m;
  }

  lemma CongruentSum(a: int, b: int, c: int, d: int, m: nat)
    requires m > 0 && Congruent(a, b, m) && Congruent(c, d, m)
    ensures Congruent(a + c, b + d, m) && Congruent(a - c, b - d, m)
  {
    var k: int :| a - b == k * m;
    var l: int :| c - d == l * m;
    assert a + c - (b + d) == (k + l) * m;
    assert a - c - (b - d) == (k - l) * m;
  }

  lemma CongruentProduct(a: int, b: int, c: int, d: int, m: nat)
    requires m > 0 && Congruent(a, b, m) && Congruent(c, d, m)
    ensures Congruent(a * c, b * d, m)
  {
    var k: int :| a - b == k * m;
    var l: int :| c - d == l * m;
    calc {
      a * c - b * d;
      (a - b) * c + b * (c - d);
      k * m * c + b * (l * m);
      (k * c + b * l) * m;
    }
    assert a * c - b * d == (k * c + b * l) * m;
  }

  lemma {:induction false} CongruentPow(a: nat, b: nat, e: nat, m: nat)
    requires m > 0 && Congruent(a, b, m)
    ensures Congruent(Pow(a, e), Pow(b, e), m)
  {
    if e == 0 {
      assert 1 - 1 == 0 * m;
    } else {
      CongruentPow(a, b, e - 1, m);
      CongruentProduct(a, b, Pow(a, e - 1), Pow(b, e - 1), m);
    }
  }

  // ----- primes -----

  predicate Prime(p: nat) {
    p > 1 && forall d :: 1 < d < p ==> p % d != 0
  }

  lemma MultipleMod(k: int, m: nat)
    requires m > 0
    ensures (k * m) % m == 0
  {
    assert k * m - 0 == k * m;
    CongruentRemainders(k * m, 0, m);
  }

  /** Euclid's lemma, for a factor below the prime. */
  lemma {:induction false} EuclidBelow(p: nat, a: nat, b: nat)
    requires Prime(p) && 0 < a < p && (a * b) % p == 0
    ensures b % p == 0
    decreases a
  {
    if a > 1 {
      var q, r := p / a, p % a;
      assert p == q * a + r && r != 0;
      var k := a * b / p;
      assert a * b == k * p;
      calc {
        r * b;
        (p - q * a) * b;
        p * b - q * (a * b);
        p * b - q * (k * p);
        (b - q * k) * p;
      }
      MultipleMod(b - q * k, p);
      EuclidBelow(p, r, b);
    } else {
      assert a * b == b;
    }
  }

  /** Euclid's lemma: a product of numbers the prime does not divide is not divided by it. */
  lemma Euclid(p: nat, a: nat, b: nat)
    requires Prime(p) && a % p != 0 && b % p != 0
    ensures (a * b) % p != 0
  {
    if (a * b) % p == 0 {
      CongruentMod(a, p);
      assert b - b == 0 * p;
      CongruentProduct(a % p, a, b, b, p);
      CongruentRemainders(a % p * b, a * b, p);
      EuclidBelow(p, a % p, b);
    }
  }

  lemma {:induction false} PowNotDivided(p: nat, b: nat, e: nat)
    requires Prime(p) && b % p != 0
    ensures Pow(b, e) % p != 0
  {
    if e > 0 {
      PowNotDivided(p, b, e - 1);
      Euclid(p, b, Pow(b, e - 1));
    }
  }

  /** Reduced powers of a number the prime does not divide are never zero. */
  lemma ModExpNotZero(b: nat, e: nat, p: nat)
    requires Prime(p) && b % p != 0
    ensures ModExp(b, e, p) != 0 && ModExp(b, e, p) % p != 0
  {
    hide Pow;
    PowNotDivided(p, b, e);
    SmallMod(ModExp(b, e, p), p);
  }
}
