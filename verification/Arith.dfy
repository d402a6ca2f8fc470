// Facts about products and quotients.
module Arith {

  lemma TimesOrder(n: nat, a: int, b: int)
    requires a <= b
    ensures n * a <= n * b
  {
  }

  lemma Division(x: nat, d: nat)
    requires d > 0
    ensures x == d * (x / d) + x % d && 0 <= x % d < d && x / d >= 0
  {
    if x / d < 0 {
      TimesOrder(d, x / d, -1);
    }
  }

  // A quotient is below the factor that exceeds it.
  lemma QuotientBelow(x: nat, d: nat, k: nat)
    requires d > 0 && x < d * k
    ensures x / d < k
  {
    Division(x, d);
    if k <= x / d {
      TimesOrder(d, k, x / d);
    }
  }

  lemma QuotientIs(x: nat, d: nat, q: nat, r: nat)
    requires d > 0 && x == d * q + r && r < d
    ensures x / d == q && x % d == r
  {
    assert d * (q + 1) == d * q + d;
    QuotientBelow(x, d, q + 1);
    if x / d < q {
      TimesOrder(d, x / d + 1, q);
    }
    Division(x, d);
  }

  function Pow2(n: nat): (p: nat)
    ensures p > 0
  {
    if n == 0 then 1 else 2 * Pow2(n - 1)
  }

  // x >> n
  function Shifted(x: nat, n: nat): nat {
    Division(x, Pow2(n));
    x / Pow2(n)
  }

  lemma {:induction false} Pow2Sum(m: nat, n: nat)
    ensures Pow2(m + n) == Pow2(m) * Pow2(n)
  {
    if m > 0 {
      Pow2Sum(m - 1, n);
      assert Pow2(m) * Pow2(n) == 2 * (Pow2(m - 1) * Pow2(n));
    }
  }

  lemma {:induction false} Pow2Order(m: nat, n: nat)
    requires m <= n
    ensures Pow2(m) <= Pow2(n)
    decreases n - m
  {
    if m < n {
      Pow2Order(m + 1, n);
    }
  }
}
