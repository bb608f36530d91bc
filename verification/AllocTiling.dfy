/** The address range of the large object heap as a row of blocks, free and used in turn. */
module AllocTiling {

  const PAGE: nat := 4096

  datatype Block = Free(pos: nat, size: nat) | Used(pos: nat, size: nat)

  function End(b: Block): nat {
    b.pos + b.size
  }

  /** The next block starts where the k-th ends. */
  ghost predicate Linked(bs: seq<Block>, k: nat) {
    k + 1 < |bs| ==> bs[k + 1].pos == End(bs[k])
  }

  /** The k-th block is of the kind its place asks for, and consists of whole pages. */
  ghost predicate Fitting(bs: seq<Block>, k: nat) {
    k < |bs| ==>
      && (bs[k].Free? <==> k % 2 == 0)
      && bs[k].size % PAGE == 0 && (bs[k].Used? ==> bs[k].size > 0)
  }

  /** The blocks follow each other from `lo` to `hi`, alternate, begin and end with a free one, and
      consist of whole pages; a used one is not empty. */
  ghost predicate Tiles(bs: seq<Block>, lo: nat, hi: nat) {
    && |bs| % 2 == 1
    && bs[0].pos == lo && End(bs[|bs| - 1]) == hi
    && (forall k :: 0 <= k < |bs| ==> Linked(bs, k))
    && (forall k :: 0 <= k < |bs| ==> Fitting(bs, k))
  }

  /** Every free gap is at least a page wide. */
  ghost predicate Spaced(bs: seq<Block>) {
    forall b :: b in bs && b.Free? ==> b.size >= PAGE
  }

  lemma {:induction false} InOrder(bs: seq<Block>, lo: nat, hi: nat, i: nat, j: nat)
    requires Tiles(bs, lo, hi) && i < j < |bs|
    ensures End(bs[i]) <= bs[j].pos
    decreases j
  {
    hide Fitting;
    assert Linked(bs, j - 1);
    if i + 1 < j {
      InOrder(bs, lo, hi, i, j - 1);
    }
  }

  /** A later block of the same kind starts strictly later. */
  lemma LaterStartsLater(bs: seq<Block>, lo: nat, hi: nat, i: nat, j: nat)
    requires Tiles(bs, lo, hi) && i < j < |bs| && (bs[i].Free? <==> bs[j].Free?)
    ensures bs[i].pos < bs[j].pos
  {
    InOrder(bs, lo, hi, i, j);
    assert Fitting(bs, i) && Fitting(bs, i + 1) && Fitting(bs, j);
    if bs[i].Free? {
      InOrder(bs, lo, hi, i, i + 1);
      InOrder(bs, lo, hi, i + 1, j);
    }
  }

  lemma Place(bs: seq<Block>, lo: nat, hi: nat, k: nat)
    requires Tiles(bs, lo, hi) && k < |bs|
    ensures (bs[k].Free? <==> k % 2 == 0) && |bs| % 2 == 1 && bs[0].pos == lo && End(bs[|bs| - 1]) == hi && bs[k] in bs
  {
    assert Fitting(bs, k);
  }

  /** Used blocks are inside the range and apart from each other, with a free block in between. */
  lemma UsedApart(bs: seq<Block>, lo: nat, hi: nat, i: nat, j: nat)
    requires Tiles(bs, lo, hi) && i < j < |bs| && bs[i].Used? && bs[j].Used?
    ensures lo <= bs[i].pos && End(bs[j]) <= hi
    ensures End(bs[i]) + bs[i + 1].size <= bs[j].pos && bs[i + 1].Free?
    ensures Spaced(bs) ==> End(bs[i]) + PAGE <= bs[j].pos && lo + PAGE <= bs[i].pos
  {
    hide Tiles, Linked, Fitting;
    Place(bs, lo, hi, 0);
    Place(bs, lo, hi, i);
    Place(bs, lo, hi, i + 1);
    Place(bs, lo, hi, j);
    Place(bs, lo, hi, |bs| - 1);
    InOrder(bs, lo, hi, i, i + 1);
    InOrder(bs, lo, hi, 0, i);
    InOrder(bs, lo, hi, j, |bs| - 1);
    assert i + 1 < j;
    InOrder(bs, lo, hi, i + 1, j);
  }

  // ---------------------------------------------------------------- splitting and merging

  /** Takes `size` bytes out of the i-th block, leaving `left` bytes before them. */
  function Split(bs: seq<Block>, i: nat, left: nat, size: nat): seq<Block>
    requires i < |bs| && left + size <= bs[i].size
  {
    var b := bs[i];
    bs[..i]
    + [Free(b.pos, left), Used(b.pos + left, size), Free(b.pos + left + size, b.size - left - size)]
    + bs[i + 1..]
  }

  /** Gives the i-th block back, together with its neighbours. */
  function Merge(bs: seq<Block>, i: nat): seq<Block>
    requires 0 < i < |bs| - 1
  {
    bs[..i - 1] + [Free(bs[i - 1].pos, bs[i - 1].size + bs[i].size + bs[i + 1].size)] + bs[i + 2..]
  }

  /** Where the blocks of a row come from after a split. */
  lemma SplitAt(bs: seq<Block>, i: nat, left: nat, size: nat, k: nat)
    requires i < |bs| && left + size <= bs[i].size && k < |bs| + 2
    ensures |Split(bs, i, left, size)| == |bs| + 2
    ensures var b := bs[i];
            Split(bs, i, left, size)[k] ==
            if k < i then bs[k]
            else if k == i then Free(b.pos, left)
            else if k == i + 1 then Used(b.pos + left, size)
            else if k == i + 2 then Free(b.pos + left + size, b.size - left - size)
            else bs[k - 2]
  {
  }

  lemma SplitTiles(bs: seq<Block>, lo: nat, hi: nat, i: nat, left: nat, size: nat)
    requires Tiles(bs, lo, hi) && i < |bs| && bs[i].Free? && left + size <= bs[i].size
    requires left % PAGE == 0 && size % PAGE == 0 && size > 0
    ensures Tiles(Split(bs, i, left, size), lo, hi)
  {
    hide Split;
    var cs := Split(bs, i, left, size);
    forall k | 0 <= k < |bs| + 2
      ensures Linked(cs, k) && Fitting(cs, k)
    {
      SplitAt(bs, i, left, size, k);
      if k + 1 < |bs| + 2 {
        SplitAt(bs, i, left, size, k + 1);
      }
      var o := if k < i then k else if k <= i + 2 then i else k - 2;
      assert Linked(bs, o) && Fitting(bs, o) && Fitting(bs, i);
    }
    SplitAt(bs, i, left, size, 0);
    SplitAt(bs, i, left, size, |bs| + 1);
  }

  lemma MergeAt(bs: seq<Block>, i: nat, k: nat)
    requires 0 < i < |bs| - 1 && k < |bs| - 2
    ensures |Merge(bs, i)| == |bs| - 2
    ensures Merge(bs, i)[k] ==
            if k < i - 1 then bs[k]
            else if k == i - 1 then Free(bs[i - 1].pos, bs[i - 1].size + bs[i].size + bs[i + 1].size)
            else bs[k + 2]
  {
  }

  lemma MergeTiles(bs: seq<Block>, lo: nat, hi: nat, i: nat)
    requires Tiles(bs, lo, hi) && i < |bs| && bs[i].Used?
    ensures 0 < i < |bs| - 1 && Tiles(Merge(bs, i), lo, hi)
  {
    hide Merge;
    assert Fitting(bs, i) && Fitting(bs, 0) && Fitting(bs, |bs| - 1);
    var cs := Merge(bs, i);
    forall k | 0 <= k < |bs| - 2
      ensures Linked(cs, k) && Fitting(cs, k)
    {
      MergeAt(bs, i, k);
      if k + 1 < |bs| - 2 {
        MergeAt(bs, i, k + 1);
      }
      assert Linked(bs, k) && Linked(bs, k + 1) && Linked(bs, k + 2);
      assert Fitting(bs, k) && Fitting(bs, k + 1) && Fitting(bs, k + 2);
    }
    MergeAt(bs, i, 0);
    MergeAt(bs, i, |bs| - 3);
    assert Linked(bs, i - 1) && Linked(bs, i);
  }

  /** Giving back what was just taken undoes it. */
  lemma MergeUndoesSplit(bs: seq<Block>, i: nat, left: nat, size: nat)
    requires i < |bs| && bs[i].Free? && left + size <= bs[i].size
    ensures Merge(Split(bs, i, left, size), i + 1) == bs
  {
    var cs := Split(bs, i, left, size);
    assert cs[..i] == bs[..i];
    assert cs[i + 3..] == bs[i + 1..];
    assert bs == bs[..i] + [bs[i]] + bs[i + 1..];
  }

  /** What a split changes, block by block. */
  lemma SplitEffect(bs: seq<Block>, lo: nat, hi: nat, i: nat, left: nat, size: nat)
    requires Tiles(bs, lo, hi) && i < |bs| && bs[i].Free? && left + size <= bs[i].size
    requires left % PAGE == 0 && size % PAGE == 0 && size > 0
    ensures var cs, o := Split(bs, i, left, size), bs[i];
            && Tiles(cs, lo, hi)
            && (forall p, z :: Free(p, z) in cs <==>
                  (Free(p, z) in bs && p != o.pos) || (p == o.pos && z == left)
                    || (p == o.pos + left + size && z == o.size - left - size))
            && (forall p, z :: Used(p, z) in cs <==> Used(p, z) in bs || (p == o.pos + left && z == size))
            && (forall b :: b in bs && b.Free? ==> b.pos != o.pos + left + size)
            && (forall b :: b in bs && b.Used? ==> b.pos != o.pos + left)
  {
    hide Tiles;
    var cs, o := Split(bs, i, left, size), bs[i];
    SplitTiles(bs, lo, hi, i, left, size);
    forall k | 0 <= k < |bs| && k != i
      ensures bs[k].Free? ==> bs[k].pos != o.pos && bs[k].pos != o.pos + left + size
      ensures bs[k].Used? ==> bs[k].pos != o.pos + left
      ensures bs[k] in cs
    {
      SplitKeeps(bs, lo, hi, i, left, size, k);
    }
    forall b | b in bs && b != o
      ensures b.Free? ==> b.pos != o.pos && b.pos != o.pos + left + size
      ensures b.Used? ==> b.pos != o.pos + left
      ensures b in cs
    {
      var k :| 0 <= k < |bs| && bs[k] == b;
    }
  }

  lemma SplitKeeps(bs: seq<Block>, lo: nat, hi: nat, i: nat, left: nat, size: nat, k: nat)
    requires Tiles(bs, lo, hi) && i < |bs| && bs[i].Free? && left + size <= bs[i].size && size > 0 && k < |bs| && k != i
    requires Tiles(Split(bs, i, left, size), lo, hi)
    ensures var o := bs[i];
            && (bs[k].Free? ==> bs[k].pos != o.pos && bs[k].pos != o.pos + left + size)
            && (bs[k].Used? ==> bs[k].pos != o.pos + left)
            && bs[k] in Split(bs, i, left, size)
  {
    hide Tiles, Split;
    var cs := Split(bs, i, left, size);
    var k' := if k < i then k else k + 2;
    SplitAt(bs, i, left, size, k');
    SplitAt(bs, i, left, size, i + 1);
    SplitAt(bs, i, left, size, i + 2);
    if k < i {
      LaterIfSame(cs, lo, hi, k', i + 1);
      LaterIfSame(cs, lo, hi, k', i + 2);
      LaterIfSame(bs, lo, hi, k, i);
    } else {
      LaterIfSame(cs, lo, hi, i + 1, k');
      LaterIfSame(cs, lo, hi, i + 2, k');
      LaterIfSame(bs, lo, hi, i, k);
    }
    assert cs[k'] in cs;
  }

  lemma LaterIfSame(bs: seq<Block>, lo: nat, hi: nat, i: nat, j: nat)
    requires Tiles(bs, lo, hi) && i < j < |bs|
    ensures (bs[i].Free? <==> bs[j].Free?) ==> bs[i].pos < bs[j].pos
  {
    hide Tiles;
    if bs[i].Free? == bs[j].Free? {
      LaterStartsLater(bs, lo, hi, i, j);
    }
  }

  /** What a merge changes, block by block. */
  lemma MergeEffect(bs: seq<Block>, lo: nat, hi: nat, i: nat)
    requires Tiles(bs, lo, hi) && i < |bs| && bs[i].Used?
    ensures 0 < i < |bs| - 1
    ensures var cs, l, u, r := Merge(bs, i), bs[i - 1], bs[i], bs[i + 1];
            && Tiles(cs, lo, hi) && l.Free? && r.Free? && End(l) == u.pos && End(u) == r.pos && u.size > 0
            && (forall p, z :: Free(p, z) in cs <==>
                  (Free(p, z) in bs && p != l.pos && p != r.pos) || (p == l.pos && z == l.size + u.size + r.size))
            && (forall p, z :: Used(p, z) in cs <==> Used(p, z) in bs && p != u.pos)
            && (forall b :: b in bs && b.Free? && b.pos <= u.pos ==> b.pos <= l.pos)
            && (forall b :: b in bs && b.Free? && b.pos > u.pos ==> b.pos >= r.pos)
  {
    hide Tiles, Merge;
    MergeTiles(bs, lo, hi, i);
    Around(bs, lo, hi, i);
    var cs, l, u, r := Merge(bs, i), bs[i - 1], bs[i], bs[i + 1];
    forall b | b in bs && b != l && b != u && b != r
      ensures b in cs && (b.Used? ==> b.pos != u.pos) && (b.Free? ==> b.pos < l.pos || b.pos > r.pos)
    {
      var k :| 0 <= k < |bs| && bs[k] == b;
      MergeKeeps(bs, lo, hi, i, k);
    }
    forall b | b in cs
      ensures b == Free(l.pos, l.size + u.size + r.size)
              || (b in bs && (b.Used? ==> b.pos != u.pos) && (b.Free? ==> b.pos != l.pos && b.pos != r.pos))
    {
      MergeComesFrom(bs, lo, hi, i, b);
    }
    MergeAt(bs, i, i - 1);
    assert cs[i - 1] in cs;
  }

  /** A used block and its neighbours. */
  lemma Around(bs: seq<Block>, lo: nat, hi: nat, i: nat)
    requires Tiles(bs, lo, hi) && 0 < i < |bs| - 1 && bs[i].Used?
    ensures var l, u, r := bs[i - 1], bs[i], bs[i + 1];
            l.Free? && r.Free? && End(l) == u.pos && End(u) == r.pos && u.size > 0
  {
    assert Fitting(bs, i - 1) && Fitting(bs, i) && Fitting(bs, i + 1) && Linked(bs, i - 1) && Linked(bs, i);
  }

  lemma MergeComesFrom(bs: seq<Block>, lo: nat, hi: nat, i: nat, b: Block)
    requires Tiles(bs, lo, hi) && 0 < i < |bs| - 1 && bs[i].Used? && bs[i - 1].Free? && bs[i + 1].Free?
    requires b in Merge(bs, i)
    ensures var l, u, r := bs[i - 1], bs[i], bs[i + 1];
            b == Free(l.pos, l.size + u.size + r.size)
            || (b in bs && (b.Used? ==> b.pos != u.pos) && (b.Free? ==> b.pos != l.pos && b.pos != r.pos))
  {
    hide Tiles, Merge;
    var cs := Merge(bs, i);
    MergeAt(bs, i, 0);
    var k :| 0 <= k < |cs| && cs[k] == b;
    MergeAt(bs, i, k);
    LaterIfSame(bs, lo, hi, i - 1, i + 1);
    if k != i - 1 {
      MergeKeeps(bs, lo, hi, i, if k < i - 1 then k else k + 2);
    }
  }

  lemma MergeKeeps(bs: seq<Block>, lo: nat, hi: nat, i: nat, k: nat)
    requires Tiles(bs, lo, hi) && 0 < i < |bs| - 1 && bs[i].Used? && k < |bs| && (k < i - 1 || k > i + 1)
    requires bs[i - 1].Free? && bs[i + 1].Free?
    ensures bs[k] in Merge(bs, i) && (bs[k].Used? ==> bs[k].pos != bs[i].pos)
    ensures bs[k].Free? ==> bs[k].pos < bs[i - 1].pos || bs[k].pos > bs[i + 1].pos
  {
    hide Tiles, Merge;
    var k' := if k < i - 1 then k else k - 2;
    MergeAt(bs, i, k');
    assert Merge(bs, i)[k'] in Merge(bs, i);
    if k < i - 1 {
      LaterIfSame(bs, lo, hi, k, i - 1);
      LaterIfSame(bs, lo, hi, k, i);
    } else {
      LaterIfSame(bs, lo, hi, i + 1, k);
      LaterIfSame(bs, lo, hi, i, k);
    }
  }

  // ---------------------------------------------------------------- conservation

  function Bytes(bs: seq<Block>, free: bool): nat {
    if bs == [] then 0 else (if bs[0].Free? == free then bs[0].size else 0) + Bytes(bs[1..], free)
  }

  /** Free and used bytes together always make up the whole range. */
  lemma Conserved(bs: seq<Block>, lo: nat, hi: nat)
    requires Tiles(bs, lo, hi)
    ensures Bytes(bs, true) + Bytes(bs, false) == hi - lo
  {
    Adjacent(bs);
  }

  lemma {:induction false} Adjacent(bs: seq<Block>)
    requires bs != [] && forall k :: 0 <= k < |bs| ==> Linked(bs, k)
    ensures bs[0].pos <= End(bs[|bs| - 1])
    ensures Bytes(bs, true) + Bytes(bs, false) == End(bs[|bs| - 1]) - bs[0].pos
  {
    if |bs| > 1 {
      var rest := bs[1..];
      forall k | 0 <= k < |rest|
        ensures Linked(rest, k)
      {
        assert Linked(bs, k + 1);
      }
      assert Linked(bs, 0);
      Adjacent(rest);
    } else {
      assert bs[1..] == [];
    }
  }

  lemma MoreThanOne(bs: seq<Block>, lo: nat, hi: nat)
    requires Tiles(bs, lo, hi) && |bs| > 1
    ensures exists b :: b in bs && b.Used?
  {
    assert Fitting(bs, 1) && bs[1] in bs;
  }

  /** With nothing in use, the range is one free block again. */
  lemma NothingUsed(bs: seq<Block>, lo: nat, hi: nat)
    requires Tiles(bs, lo, hi) && forall b :: b in bs ==> b.Free?
    ensures |bs| == 1 && bs[0].Free? && bs[0].pos == lo && End(bs[0]) == hi
  {
    if |bs| > 1 {
      MoreThanOne(bs, lo, hi);
    }
    assert bs[0] in bs;
  }
}
