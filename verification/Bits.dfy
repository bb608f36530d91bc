/** Slices of the binary representation, and sums modulo a power of two. */
module Bits {
  import opened Arithmetic

  /** Multiples of the divisor come out of a quotient and vanish from a remainder. */
  lemma AddMultiple(m: nat, k: nat, y: nat)
    requires m > 0
    ensures (m * k + y) / m == k + y / m && (m * k + y) % m == y % m
  {
    assert m * k + y == m * (k + y / m) + y % m;
    Remainder(m, k + y / m, y % m);
  }

  lemma Spread(a: nat, b: nat, q: nat, r: nat)
    ensures a * (b * q + r) == a * b * q + a * r
  {
    assert a * (b * q) == a * b * q;
  }

  lemma DigitsFit(a: nat, b: nat, r: nat, s: nat)
    requires r < b && s < a
    ensures a * r + s < a * b
  {
    TimesKeepsOrder(a, r + 1, b);
    assert a * (r + 1) == a * r + a;
  }

  /** Dividing in two steps: the quotient, and the two digits of the remainder. */
  lemma TwoDigits(x: nat, a: nat, b: nat, q: nat, r: nat, s: nat)
    requires r < b && s < a && x == a * (b * q + r) + s
    ensures a * b > 0 && x / (a * b) == q && x % (a * b) == a * r + s
  {
    var rest := a * r + s;
    DigitsFit(a, b, r, s);
    Spread(a, b, q, r);
    Remainder(a * b, q, rest);
  }

  lemma Digits(x: nat, a: nat, b: nat)
    requires a > 0 && b > 0
    ensures a * b > 0 && x / (a * b) == x / a / b
    ensures x % (a * b) == a * (x / a % b) + x % a
  {
    var u := x / a;
    QuotientOf(x, a);
    QuotientOf(u, b);
    TwoDigits(x, a, b, u / b, u % b, x % a);
  }

  lemma QuotientOf(x: nat, a: nat)
    requires a > 0
    ensures x == a * (x / a) + x % a && x % a < a
  {
  }

  /** The bits from `off` on, `w` of them. */
  function Slice(x: nat, off: nat, w: nat): nat {
    x / Pow2(off) % Pow2(w)
  }

  /** A number above another of `low` bits. */
  function Above(x: nat, y: nat, low: nat): nat {
    Pow2(low) * x + y
  }

  lemma SliceAbove(x: nat, y: nat, low: nat, off: nat, w: nat)
    requires y < Pow2(low) && off >= low
    ensures Slice(Above(x, y, low), off, w) == Slice(x, off - low, w)
  {
    hide Pow2;
    Pow2Adds(low, off - low);
    Digits(Above(x, y, low), Pow2(low), Pow2(off - low));
    Remainder(Pow2(low), x, y);
  }

  lemma Regroup(p: nat, q: nat, r: nat, x: nat)
    ensures p * (q * r) * x == p * (q * (r * x))
  {
    assert p * (q * r) * x == p * (q * r * x);
    assert q * r * x == q * (r * x);
  }

  lemma SliceBelow(x: nat, y: nat, low: nat, off: nat, w: nat)
    requires y < Pow2(low) && off + w <= low
    ensures Slice(Above(x, y, low), off, w) == Slice(y, off, w)
  {
    hide Pow2;
    var p, q, r := Pow2(off), Pow2(w), Pow2(low - off - w);
    Pow2Adds(off, low - off);
    Pow2Adds(w, low - off - w);
    Regroup(p, q, r, x);
    BelowMultiple(p, q, r * x, y);
  }

  lemma BelowMultiple(p: nat, q: nat, k: nat, y: nat)
    requires p > 0 && q > 0
    ensures (p * (q * k) + y) / p % q == y / p % q
  {
    AddMultiple(p, q * k, y);
    AddMultiple(q, k, y / p);
  }

  lemma SliceAcross(x: nat, y: nat, low: nat, off: nat, w: nat)
    requires y < Pow2(low) && off < low < off + w
    ensures var d := low - off; Slice(Above(x, y, low), off, w) == Above(Slice(x, 0, w - d), Slice(y, off, d), d)
  {
    var d := low - off;
    var v := Above(x, y, low);
    SlicesJoin(v, off, d, w - d);
    SliceAbove(x, y, low, low, w - d);
    SliceBelow(x, y, low, off, d);
  }

  lemma SlicesJoin(x: nat, off: nat, w: nat, v: nat)
    ensures Above(Slice(x, off + w, v), Slice(x, off, w), w) == Slice(x, off, w + v)
  {
    hide Pow2;
    Pow2Adds(w, v);
    Pow2Adds(off, w);
    Digits(x / Pow2(off), Pow2(w), Pow2(v));
    Digits(x, Pow2(off), Pow2(w));
  }

  lemma SliceSmall(x: nat, w: nat)
    requires x < Pow2(w)
    ensures Slice(x, 0, w) == x
  {
    var m := Pow2(w);
    assert Pow2(0) == 1;
    hide Pow2;
    Remainder(m, 0, x);
  }

  lemma AboveBounded(x: nat, y: nat, low: nat, w: nat)
    requires low <= w && x < Pow2(w - low) && y < Pow2(low)
    ensures Above(x, y, low) < Pow2(w)
  {
    hide Pow2;
    Pow2Adds(low, w - low);
    MultiplesApart(Pow2(low), x, Pow2(w - low));
  }

  // ---------------------------------------------------------------- sums

  lemma Apart(m: nat, q: int, p: int)
    requires q < p
    ensures m * q + m <= m * p
  {
    TimesKeepsOrder(m, 1, p - q);
    assert m * (p - q) == m * p - m * q;
  }

  lemma UniqueRemainder(m: nat, q: int, r: nat, p: int, s: nat)
    requires r < m && s < m && m * q + r == m * p + s
    ensures q == p && r == s
  {
    if q < p {
      Apart(m, q, p);
    } else if p < q {
      Apart(m, p, q);
    }
  }

  function Mod(x: int, m: nat): nat
    requires m > 0
  {
    x % m
  }

  lemma SmallMod(x: nat, m: nat)
    requires x < m
    ensures Mod(x, m) == x
  {
  }

  /** Adding a multiple of the modulus changes no remainder. */
  lemma Shifted(m: nat, k: int, y: int)
    requires m > 0
    ensures Mod(y + m * k, m) == Mod(y, m)
  {
    var v := y + m * k;
    assert v == m * (y / m + k) + y % m;
    UniqueRemainder(m, v / m, v % m, y / m + k, y % m);
  }

  lemma SplitOff(m: nat, a: int) returns (k: int)
    requires m > 0
    ensures a == Mod(a, m) + m * k
  {
    k := a / m;
  }

  lemma ReduceFirst(m: nat, a: int, b: int)
    requires m > 0
    ensures Mod(Mod(a, m) + b, m) == Mod(a + b, m)
  {
    hide Mod;
    var k := SplitOff(m, a);
    Shifted(m, k, Mod(a, m) + b);
  }

  lemma ReduceSecond(m: nat, a: int, b: int)
    requires m > 0
    ensures Mod(a + Mod(b, m), m) == Mod(a + b, m) && Mod(a - Mod(b, m), m) == Mod(a - b, m)
  {
    hide Mod;
    var k := SplitOff(m, b);
    Shifted(m, k, a + Mod(b, m));
    Shifted(m, -k, a - Mod(b, m));
    assert m * -k == -(m * k);
  }

  function Plus(x: int, y: int, w: nat): nat {
    Mod(x + y, Pow2(w))
  }

  function Minus(x: int, y: int, w: nat): nat {
    Mod(x - y, Pow2(w))
  }

  lemma PlusPlus(k: int, a: int, b: int, w: nat)
    ensures Plus(Plus(k, a, w), b, w) == Plus(k, Plus(a, b, w), w) == Plus(a, Plus(k, b, w), w)
  {
    hide Pow2, Mod;
    var m := Pow2(w);
    ReduceFirst(m, k + a, b);
    ReduceSecond(m, k, a + b);
    ReduceSecond(m, a, k + b);
  }

  lemma PlusMinus(k: int, a: int, b: int, w: nat)
    ensures Plus(Minus(k, a, w), b, w) == Plus(k, Minus(b, a, w), w) == Plus(b, Minus(k, a, w), w)
    ensures Minus(Plus(k, b, w), a, w) == Plus(k, Minus(b, a, w), w)
  {
    hide Pow2, Mod;
    var m := Pow2(w);
    ReduceFirst(m, k - a, b);
    ReduceSecond(m, k, b - a);
    ReduceSecond(m, b, k - a);
    ReduceFirst(m, k + b, -a);
  }

  lemma MinusMinus(k: int, a: int, b: int, w: nat)
    ensures Minus(Minus(k, a, w), b, w) == Minus(k, Plus(a, b, w), w) == Minus(Minus(k, b, w), a, w)
  {
    hide Pow2, Mod;
    var m := Pow2(w);
    ReduceFirst(m, k - a, -b);
    ReduceFirst(m, k - b, -a);
    ReduceSecond(m, k, a + b);
  }

  lemma MinusOfMinus(a: int, k: int, b: int, w: nat)
    ensures Minus(a, Minus(k, b, w), w) == Plus(Minus(a, k, w), b, w) == Minus(Plus(a, b, w), k, w)
  {
    hide Pow2, Mod;
    var m := Pow2(w);
    ReduceSecond(m, a, k - b);
    ReduceFirst(m, a - k, b);
    ReduceFirst(m, a + b, -k);
  }
}
