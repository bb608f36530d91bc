/** How a bin of the allocator lays out its slots: slot numbers and positions determine each other,
    and two slots never come closer than the slot size. */
module AllocSlots {
  import opened Arithmetic

  /** The number of significant bits; the width less the leading zeroes. */
  function BitLength(x: nat): (n: nat)
    requires x > 0
    ensures n > 0 && Pow2(n - 1) <= x < Pow2(n)
  {
    if x == 1 then 1 else 1 + BitLength(x / 2)
  }

  lemma BitLengthUnique(x: nat, n: nat)
    requires n > 0 && Pow2(n - 1) <= x < Pow2(n)
    ensures BitLength(x) == n
  {
    var m := BitLength(x);
    if m < n {
      Pow2Below(m, n - 1);
    } else if n < m {
      Pow2Below(n, m - 1);
    }
  }

  function Shr(x: nat, n: nat): nat {
    if n == 0 then x else Shr(x / 2, n - 1)
  }

  /** The number of trailing zeroes. */
  function Ctz(x: nat): nat
    requires x > 0
  {
    if x % 2 == 1 then 0 else 1 + Ctz(x / 2)
  }

  lemma ProductHalves(a: nat, k: nat)
    requires a > 0
    ensures Pow2(a) * k == 2 * (Pow2(a - 1) * k) && Pow2(a) * k / 2 == Pow2(a - 1) * k && Pow2(a) * k % 2 == 0
  {
  }

  lemma {:induction false} ShrOfProduct(a: nat, k: nat)
    ensures Shr(Pow2(a) * k, a) == k
  {
    if a > 0 {
      ProductHalves(a, k);
      ShrOfProduct(a - 1, k);
    }
  }

  lemma {:induction false} ShrOnce(x: nat, n: nat)
    ensures Shr(x, n + 1) == Shr(x, n) / 2
  {
    if n > 0 {
      ShrOnce(x / 2, n - 1);
    }
  }

  lemma {:induction false} CtzOfProduct(a: nat, m: nat)
    ensures Pow2(a) * (2 * m + 1) > 0
    ensures Ctz(Pow2(a) * (2 * m + 1)) == a && Shr(Pow2(a) * (2 * m + 1), a + 1) == m
  {
    if a > 0 {
      ProductHalves(a, 2 * m + 1);
      CtzOfProduct(a - 1, m);
    }
  }

  /** Every positive number is an odd multiple of a power of two. */
  lemma {:induction false} CtzSplits(x: nat)
    requires x > 0
    ensures x == Pow2(Ctz(x)) * (2 * Shr(x, Ctz(x) + 1) + 1)
  {
    if x % 2 == 0 {
      CtzSplits(x / 2);
      ProductHalves(Ctz(x), 2 * Shr(x, Ctz(x) + 1) + 1);
    }
  }

  // ---------------------------------------------------------------- slot numbers and positions

  /** The layer of a slot; the slots of a layer are twice as dense as those of the one before. */
  function Layer(index: nat): (l: nat)
    ensures l > 0 && Pow2(l - 1) <= index + 1 < Pow2(l)
  {
    BitLength(index + 1)
  }

  /** The distance between neighbouring slots of the layer, in a bin of 2^n bytes. */
  function Spacing(n: nat, index: nat): nat {
    Shr(Pow2(n), Layer(index))
  }

  function Index2Pos(n: nat, index: nat): nat {
    Spacing(n, index) * ((index + 1 - Pow2(Layer(index) - 1)) * 2 + 1)
  }

  function Pos2Index(n: nat, pos: nat): int
    requires 0 < pos && Ctz(pos) < n
  {
    var layerIndex := Shr(pos, Ctz(pos) + 1);
    Pow2(n - (Ctz(pos) + 1)) + layerIndex - 1
  }

  lemma SpacingIsPower(n: nat, index: nat)
    requires Layer(index) <= n
    ensures Spacing(n, index) == Pow2(n - Layer(index))
  {
    Pow2Adds(Layer(index), n - Layer(index));
    ShrOfProduct(Layer(index), Pow2(n - Layer(index)));
  }

  /** A slot lies in the bin exactly if its layer does. */
  lemma {:induction false} ShrToZero(n: nat, l: nat)
    requires n < l
    ensures Shr(Pow2(n), l) == 0
  {
    if n == 0 {
      ShrZero(l - 1);
    } else {
      ShrToZero(n - 1, l - 1);
    }
  }

  lemma {:induction false} ShrZero(l: nat)
    ensures Shr(0, l) == 0
  {
    if l > 0 {
      ShrZero(l - 1);
    }
  }

  lemma RedZoneBoundsLayer(n: nat, index: nat)
    requires Spacing(n, index) > 0
    ensures Layer(index) <= n
  {
    if n < Layer(index) {
      ShrToZero(n, Layer(index));
    }
  }

  /** The slots of a layer lie in the order of their numbers, two spacings apart. */
  lemma LayerAscends(n: nat, i: nat, j: nat)
    requires i <= j && Layer(i) == Layer(j)
    ensures Spacing(n, i) == Spacing(n, j) && Index2Pos(n, j) == Index2Pos(n, i) + 2 * (j - i) * Spacing(n, i)
  {
    hide Shr, Pow2;
    var d, k := Spacing(n, i), (i + 1 - Pow2(Layer(i) - 1)) * 2 + 1;
    assert d * (k + 2 * (j - i)) == d * k + 2 * (j - i) * d;
  }

  /** From a slot number to its position and back. */
  lemma IndexRoundTrip(n: nat, index: nat)
    requires Spacing(n, index) > 0
    ensures var pos := Index2Pos(n, index);
            0 < pos < Pow2(n) && Ctz(pos) < n && Pos2Index(n, pos) == index
  {
    hide Ctz, Shr, BitLength;
    RedZoneBoundsLayer(n, index);
    SpacingIsPower(n, index);
    var a, m := n - Layer(index), index + 1 - Pow2(Layer(index) - 1);
    CtzOfProduct(a, m);
    PositionInside(a, Layer(index), m);
  }

  lemma PositionInside(a: nat, l: nat, m: nat)
    requires l > 0 && m < Pow2(l - 1)
    ensures Pow2(a) <= Pow2(a) * (2 * m + 1) <= Pow2(a + l) - Pow2(a)
  {
    Pow2Adds(a, l);
    assert 2 * m + 1 <= Pow2(l) - 1;
    TimesKeepsOrder(Pow2(a), 1, 2 * m + 1);
    TimesKeepsOrder(Pow2(a), 2 * m + 1, Pow2(l) - 1);
  }

  /** From a position to its slot number and back. */
  lemma PosRoundTrip(n: nat, pos: nat)
    requires 0 < pos < Pow2(n)
    ensures Ctz(pos) < n && 0 <= Pos2Index(n, pos) && Index2Pos(n, Pos2Index(n, pos)) == pos
    ensures Layer(Pos2Index(n, pos)) == n - Ctz(pos)
  {
    hide Pow2, Ctz, Shr, Index2Pos, Layer;
    var a := Ctz(pos);
    var m := Shr(pos, a + 1);
    CtzSplits(pos);
    OddMultipleBelow(n, a, m);
    SlotOfLayer(n, n - a, m);
  }

  /** The m-th slot of a layer. */
  lemma SlotOfLayer(n: nat, l: nat, m: nat)
    requires 0 < l <= n && m < Pow2(l - 1)
    ensures var index := Pow2(l - 1) + m - 1; Layer(index) == l && Index2Pos(n, index) == Pow2(n - l) * (2 * m + 1)
  {
    hide Shr;
    var index := Pow2(l - 1) + m - 1;
    BitLengthUnique(index + 1, l);
    SpacingIsPower(n, index);
  }

  lemma OddMultipleBelow(n: nat, a: nat, m: nat)
    requires Pow2(a) * (2 * m + 1) < Pow2(n)
    ensures a < n && m < Pow2(n - a - 1)
  {
    TimesKeepsOrder(Pow2(a), 1, 2 * m + 1);
    if a >= n {
      Pow2Below(n, a);
    } else if m >= Pow2(n - a - 1) {
      Pow2Adds(a, n - a);
      TimesKeepsOrder(Pow2(a), Pow2(n - a), 2 * m + 1);
    }
  }

  // ---------------------------------------------------------------- red zones

  /** The position of a slot counted in spacings of a denser layer. */
  function Steps(index: nat, b: nat): nat
    requires Layer(index) <= b
  {
    Pow2(b - Layer(index)) * ((index + 1 - Pow2(Layer(index) - 1)) * 2 + 1)
  }

  /** The position is a multiple of the spacing of its layer, and of every denser one. */
  lemma PositionMultiple(n: nat, index: nat, b: nat)
    requires Layer(index) <= b <= n
    ensures Index2Pos(n, index) == Pow2(n - b) * Steps(index, b)
  {
    hide Shr, BitLength;
    SpacingIsPower(n, index);
    var l := Layer(index);
    Pow2Adds(n - b, b - l);
    assert (n - b) + (b - l) == n - l;
    Associative(Pow2(n - b), Pow2(b - l), (index + 1 - Pow2(l - 1)) * 2 + 1);
  }

  lemma Associative(x: nat, y: nat, z: nat)
    ensures (x * y) * z == x * (y * z)
  {
  }

  /** Two different slots with a red zone are further apart than the slot size. */
  lemma SlotsApart(n: nat, slotSize: nat, i: nat, j: nat)
    requires i != j && Spacing(n, i) > slotSize && Spacing(n, j) > slotSize
    ensures var p, q := Index2Pos(n, i), Index2Pos(n, j); p + slotSize < q || q + slotSize < p
  {
    RedZoneBoundsLayer(n, i);
    RedZoneBoundsLayer(n, j);
    if Layer(i) <= Layer(j) {
      DenserApart(n, slotSize, i, j);
    } else {
      DenserApart(n, slotSize, j, i);
    }
  }

  lemma DenserApart(n: nat, slotSize: nat, i: nat, j: nat)
    requires i != j && Layer(i) <= Layer(j) <= n && Spacing(n, j) > slotSize
    ensures var p, q := Index2Pos(n, i), Index2Pos(n, j); p + slotSize < q || q + slotSize < p
  {
    hide Index2Pos, Spacing, Steps, Layer, Pow2, Ctz, Shr;
    var b := Layer(j);
    SpacingIsPower(n, j);
    PositionMultiple(n, i, b);
    PositionMultiple(n, j, b);
    DifferentPositions(n, i, j);
    var x, y := Steps(i, b), Steps(j, b);
    if x < y {
      MultiplesApart(Pow2(n - b), x, y);
    } else if y < x {
      MultiplesApart(Pow2(n - b), y, x);
    }
  }

  lemma DifferentPositions(n: nat, i: nat, j: nat)
    requires i != j && Layer(i) <= n && Layer(j) <= n
    ensures Index2Pos(n, i) != Index2Pos(n, j)
  {
    hide Index2Pos, Ctz, Shr, Layer;
    SpacingIsPower(n, i);
    SpacingIsPower(n, j);
    IndexRoundTrip(n, i);
    IndexRoundTrip(n, j);
  }

  /** A slot with a red zone keeps clear of both ends of its bin. */
  lemma SlotInside(n: nat, slotSize: nat, i: nat)
    requires Spacing(n, i) > slotSize
    ensures slotSize < Index2Pos(n, i) && Index2Pos(n, i) + slotSize < Pow2(n)
  {
    RedZoneBoundsLayer(n, i);
    SpacingIsPower(n, i);
    PositionInside(n - Layer(i), Layer(i), i + 1 - Pow2(Layer(i) - 1));
  }

  /** Lower slot numbers have wider red zones: if one fits, so do all before it. */
  lemma {:induction false} SpacingShrinks(n: nat, i: nat, j: nat)
    requires i <= j
    ensures Spacing(n, j) <= Spacing(n, i)
  {
    if Layer(j) < Layer(i) {
      Pow2Below(Layer(j), Layer(i) - 1);
    }
    ShrShrinks(Pow2(n), Layer(i), Layer(j));
  }

  lemma {:induction false} ShrShrinks(x: nat, a: nat, b: nat)
    requires a <= b
    ensures Shr(x, b) <= Shr(x, a)
  {
    if a < b {
      ShrOnce(x, b - 1);
      ShrShrinks(x, a, b - 1);
    }
  }
}
