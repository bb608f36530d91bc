/** Products of natural numbers, and powers of two. */
module Arithmetic {

  lemma TimesKeepsOrder(p: nat, x: nat, y: nat)
    requires x <= y
    ensures p * x <= p * y
  {
    var d := y - x;
    assert p * y == p * (x + d) == p * x + p * d;
  }

  /** Multiples of a number that differ are at least that far apart. */
  lemma MultiplesApart(p: nat, x: nat, y: nat)
    requires x < y
    ensures p * x + p <= p * y
  {
    TimesKeepsOrder(p, x + 1, y);
    assert p * (x + 1) == p * x + p;
  }

  lemma TimesOrder(p: nat, x: nat, y: nat)
    requires p > 0
    ensures p * x <= p * y <==> x <= y
    ensures p * x == p * y <==> x == y
  {
    if x < y {
      MultiplesApart(p, x, y);
    } else if y < x {
      MultiplesApart(p, y, x);
    }
  }

  /** Quotient and remainder are determined. */
  lemma Remainder(m: nat, q: nat, r: nat)
    requires r < m
    ensures (m * q + r) % m == r && (m * q + r) / m == q
  {
    var v := m * q + r;
    SameQuotient(m, q, r, v / m, v % m);
  }

  lemma SameQuotient(m: nat, q: nat, r: nat, q': nat, r': nat)
    requires r < m && r' < m && m * q + r == m * q' + r'
    ensures q == q' && r == r'
  {
    if q < q' {
      MultiplesApart(m, q, q');
    } else if q' < q {
      MultiplesApart(m, q', q);
    }
  }

  function Pow2(n: nat): (p: nat)
    ensures p > 0
  {
    if n == 0 then 1 else 2 * Pow2(n - 1)
  }

  lemma {:induction false} Pow2Adds(a: nat, b: nat)
    ensures Pow2(a + b) == Pow2(a) * Pow2(b)
  {
    if a > 0 {
      Pow2Adds(a - 1, b);
    }
  }

  lemma {:induction false} Pow2Grows(a: nat, b: nat)
    requires a < b
    ensures 2 * Pow2(a) <= Pow2(b)
  {
    if a + 1 < b {
      Pow2Grows(a, b - 1);
    }
  }

  lemma Pow2Below(a: nat, b: nat)
    requires a <= b
    ensures Pow2(a) <= Pow2(b)
  {
    if a < b {
      Pow2Grows(a, b);
    }
  }
}
