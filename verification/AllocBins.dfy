/** How the allocator cuts its mapping into bins and picks the bin for a request. */
module AllocBins {
  import opened Arithmetic
  import opened AllocSlots
  import opened AllocTiling

  const SLOT_SIZES: seq<nat> := [1, 4, 8, 16, 32, 64, 256, 1024, 4096]

  /** The first bin whose slots are large enough; past the last one, the large object heap. */
  method Size2Bin(size: nat) returns (bin: nat)
    ensures bin <= |SLOT_SIZES|
    ensures bin < |SLOT_SIZES| ==> size <= SLOT_SIZES[bin]
    ensures forall j :: 0 <= j < bin ==> SLOT_SIZES[j] < size
    ensures bin == |SLOT_SIZES| <==> size > PAGE
  {
    for i := 0 to |SLOT_SIZES|
      invariant forall j :: 0 <= j < i ==> SLOT_SIZES[j] < size
    {
      if SLOT_SIZES[i] >= size {
        return i;
      }
    }
    assert SLOT_SIZES[8] < size;
    return |SLOT_SIZES|;
  }

  /** The bins lie one directly after the other from the start of the mapping, the largest power of two
      in size that leaves as much over, and the rest up to its end is for large objects. */
  method Layout(base: nat, size: nat) returns (bins: seq<nat>, order: nat, loh: nat, lohSize: nat)
    requires size > |SLOT_SIZES| + 1
    ensures |bins| == |SLOT_SIZES|
    ensures bins[0] == base && forall i :: 0 <= i < |bins| - 1 ==> bins[i + 1] == bins[i] + Pow2(order)
    ensures loh == bins[|bins| - 1] + Pow2(order) && loh + lohSize == base + size && lohSize >= Pow2(order)
    ensures forall i :: 0 <= i < |bins| ==> base <= bins[i] && bins[i] + Pow2(order) <= loh
    ensures forall i, j :: 0 <= i < j < |bins| ==> bins[i] + Pow2(order) <= bins[j]
    ensures (|SLOT_SIZES| + 1) * Pow2(order) <= size < 2 * (|SLOT_SIZES| + 1) * Pow2(order)
    ensures base % PAGE == 0 && size % PAGE == 0 && order >= 12 ==> loh % PAGE == 0 && lohSize % PAGE == 0
  {
    hide Pow2, BitLength;
    var share := size / (|SLOT_SIZES| + 1);
    order := BitLength(share) - 1;
    var binSize := Pow2(order);
    Share(size, share, order);
    bins := [];
    var total := 0;
    for i := 0 to |SLOT_SIZES|
      invariant |bins| == i && total == i * binSize && (i == 0 ==> total == 0)
      invariant i > 0 ==> bins[0] == base && bins[i - 1] + binSize == base + total
      invariant forall k :: 0 <= k < i - 1 ==> bins[k + 1] == bins[k] + binSize
    {
      bins := bins + [base + total];
      total := total + binSize;
      assert total <= size by { PartFits(binSize, i + 1, size); }
    }
    InRow(bins, binSize);
    loh, lohSize := base + total, size - total;
    if order >= 12 && base % PAGE == 0 && size % PAGE == 0 {
      WholePages(order);
      WholePagesLeft(base, size, binSize, total);
    }
  }

  lemma PartFits(binSize: nat, n: nat, size: nat)
    requires n <= 9 && 10 * binSize <= size
    ensures n * binSize <= size && (n - 1) * binSize + binSize == n * binSize
  {
  }

  /** In a row, everything before comes earlier by at least one step. */
  lemma {:induction false} InRow(bins: seq<nat>, step: nat)
    requires forall k :: 0 <= k < |bins| - 1 ==> bins[k + 1] == bins[k] + step
    ensures forall i, j :: 0 <= i < j < |bins| ==> bins[i] + step <= bins[j]
  {
    if |bins| > 0 {
      var n := |bins| - 1;
      InRow(bins[..n], step);
      if n > 0 {
        assert forall i :: 0 <= i < n - 1 ==> bins[..n][i] + step <= bins[..n][n - 1];
      }
    }
  }

  lemma WholePagesLeft(base: nat, size: nat, binSize: nat, total: nat)
    requires base % PAGE == 0 && size % PAGE == 0 && binSize % PAGE == 0 && total == 9 * binSize <= size
    ensures (base + total) % PAGE == 0 && (size - total) % PAGE == 0
  {
  }

  lemma Share(size: nat, share: nat, order: nat)
    requires share == size / 10 && share > 0 && order == BitLength(share) - 1
    ensures 10 * Pow2(order) <= size < 20 * Pow2(order)
  {
    assert Pow2(order + 1) == 2 * Pow2(order);
  }

  lemma WholePages(order: nat)
    requires order >= 12
    ensures Pow2(order) % PAGE == 0
  {
    Pow2Adds(12, order - 12);
    assert Pow2(12) == PAGE;
    Multiple(Pow2(order - 12));
  }

  lemma Multiple(k: nat)
    ensures PAGE * k % PAGE == 0
  {
  }
}
