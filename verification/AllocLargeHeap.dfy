/** The large object heap: two maps over the free regions, kept inverse to each other through every
    split and merge. */
module AllocLargeHeap {
  import opened Lists
  import opened Options
  import opened Extrema
  import opened AllocQuarantine
  import opened AllocTiling

  // ---------------------------------------------------------------- sizes

  const WORD: nat := 0x1_0000_0000_0000_0000

  /** Up to the next multiple of the page size; zero wraps around to zero. */
  function RoundUp(x: nat): (r: nat)
    ensures r % PAGE == 0 && x <= r < x + PAGE
  {
    if x == 0 then 0 else ((x - 1) / PAGE + 1) * PAGE
  }

  /** Where the object goes in a region of `range` bytes, as the machine computes it. */
  function Offset(range: nat, size: nat): nat {
    RoundUp((range + WORD - size) % WORD / 2) % WORD
  }

  function RightSize(range: nat, size: nat): nat
    requires range < WORD && size < WORD
  {
    (range + WORD + WORD - Offset(range, size) - size) % WORD
  }

  /** The check that guards a split: "Zero (or below) red zone size!". */
  predicate Guard(range: nat, size: nat) {
    range + 2 * PAGE >= size
  }

  /** The three parts make up the region exactly if the object fits. */
  lemma SplitSound(range: nat, size: nat)
    requires range % PAGE == 0 && size % PAGE == 0 && 0 < size < WORD / 4 && range < WORD / 4
    ensures size <= range <==> Offset(range, size) + size + RightSize(range, size) == range
  {
    var d := (range + WORD - size) % WORD;
    if size <= range {
      assert d == range - size;
      SplitAdds(range, size, d);
    } else {
      assert d == range + WORD - size;
    }
  }

  /** Half of what is spare, up to a page boundary, is no more than it. */
  lemma SplitAdds(range: nat, size: nat, d: nat)
    requires range % PAGE == 0 && size % PAGE == 0 && size <= range < WORD / 4 && d == range - size
    requires d == (range + WORD - size) % WORD
    ensures Offset(range, size) + size + RightSize(range, size) == range
  {
    hide RoundUp;
    var left := RoundUp(d / 2);
    HalfFits(d);
    NoWrap(left);
    var right := d - left;
    assert range + WORD + WORD - left - size == right + WORD + WORD;
    TwoWraps(right);
  }

  lemma NoWrap(x: nat)
    requires x < WORD
    ensures x % WORD == x
  {
  }

  lemma TwoWraps(x: nat)
    requires x < WORD
    ensures (x + WORD + WORD) % WORD == x
  {
  }

  lemma HalfFits(d: nat)
    requires d % PAGE == 0
    ensures RoundUp(d / 2) <= d
  {
    if d > 0 {
      assert d >= PAGE;
    }
  }

  /** The object goes to the middle, an odd page to the left of it.  There is a page of red zone on
      both sides exactly if the region has two pages to spare.  The guard is not that condition: it
      compares the wrong way round. */
  lemma RedZonesExact(range: nat, size: nat)
    requires range % PAGE == 0 && size % PAGE == 0 && 0 < size <= range < WORD / 4
    ensures Offset(range, size) >= PAGE && RightSize(range, size) >= PAGE <==> range >= size + 2 * PAGE
    ensures Offset(range, size) % PAGE == 0 && RightSize(range, size) == range - size - Offset(range, size)
    ensures Offset(range, size) == RightSize(range, size) || Offset(range, size) == RightSize(range, size) + PAGE
  {
    hide RoundUp, Offset;
    SplitSound(range, size);
    var m, odd := (range - size) / PAGE / 2, (range - size) / PAGE % 2;
    assert range - size == 2 * m * PAGE + odd * PAGE;
    OffsetIs(range, size, m, odd);
  }

  /** Of the pages to spare, the larger half goes to the left. */
  lemma OffsetIs(range: nat, size: nat, m: nat, odd: nat)
    requires size <= range < WORD / 4 && range - size == 2 * m * PAGE + odd * PAGE && odd < 2
    ensures Offset(range, size) == m * PAGE + odd * PAGE
  {
    hide RoundUp;
    assert (range + WORD - size) % WORD == range - size;
    assert (range - size) / 2 == m * PAGE + odd * (PAGE / 2);
    RoundHalf(m, odd);
  }

  lemma RoundHalf(m: nat, odd: nat)
    requires odd < 2
    ensures RoundUp(m * PAGE + odd * (PAGE / 2)) == m * PAGE + odd * PAGE
  {
  }

  /** Objects the guard lets through although nothing, or not even the object, fits. */
  lemma GuardTooWeak()
    ensures Guard(4 * PAGE, 4 * PAGE) && Offset(4 * PAGE, 4 * PAGE) == 0 && RightSize(4 * PAGE, 4 * PAGE) == 0
    ensures Guard(3 * PAGE, 4 * PAGE)
    ensures Offset(3 * PAGE, 4 * PAGE) + 4 * PAGE + RightSize(3 * PAGE, 4 * PAGE) != 3 * PAGE
  {
    SplitSound(3 * PAGE, 4 * PAGE);
  }

  // ---------------------------------------------------------------- free regions by size

  /** Region `p` of size `z` is listed. */
  ghost predicate Listed(m: map<nat, seq<nat>>, p: nat, z: nat) {
    z in m && p in m[z]
  }

  /** Region `p` has size `z`. */
  ghost predicate Sized(m: map<nat, nat>, p: nat, z: nat) {
    p in m && m[p] == z
  }

  ghost predicate Indexed(m: map<nat, seq<nat>>) {
    forall z :: z in m ==> m[z] != [] && NoRepeats(m[z])
  }

  /** The regions of one size, the one that was put there last at the end. */
  function OfSize(m: map<nat, seq<nat>>, z: nat): seq<nat> {
    if z in m then m[z] else []
  }

  /** Only the regions of size `z` are others. */
  ghost predicate OthersKept(m: map<nat, seq<nat>>, m': map<nat, seq<nat>>, z: nat) {
    forall y :: y != z ==> OfSize(m', y) == OfSize(m, y)
  }

  method Push(m: map<nat, seq<nat>>, z: nat, p: nat) returns (m': map<nat, seq<nat>>)
    requires Indexed(m) && !Listed(m, p, z)
    ensures Indexed(m') && forall q, y :: Listed(m', q, y) <==> Listed(m, q, y) || (q == p && y == z)
    ensures OfSize(m', z) == OfSize(m, z) + [p] && OthersKept(m, m', z)
  {
    var v := if z in m then m[z] else [];
    m' := m[z := v + [p]];
  }

  function Without(m: map<nat, seq<nat>>, z: nat, v: seq<nat>): map<nat, seq<nat>> {
    if v == [] then map y | y in m && y != z :: m[y] else m[z := v]
  }

  /** The last of the regions of the largest size. */
  method TakeLargest(m: map<nat, seq<nat>>) returns (m': map<nat, seq<nat>>, z: nat, p: nat)
    requires Indexed(m) && m != map[]
    ensures Indexed(m') && Listed(m, p, z) && p == m[z][|m[z]| - 1] && forall y :: y in m ==> y <= z
    ensures forall q, y :: Listed(m', q, y) <==> Listed(m, q, y) && !(q == p && y == z)
    ensures OfSize(m, z) == OfSize(m', z) + [p] && OthersKept(m, m', z)
  {
    z := MaxOf(m.Keys);
    var v := m[z];
    p := v[|v| - 1];
    var w := v[..|v| - 1];
    assert forall q :: q in v <==> q in w || q == p;
    m' := Without(m, z, w);
  }

  method Find(v: seq<nat>, first: nat, last: nat, p: nat) returns (i: nat)
    requires first <= last <= |v| && exists k :: first <= k < last && v[k] == p
    ensures first <= i < last && v[i] == p
  {
    i := first;
    while v[i] != p
      invariant first <= i < last && exists k :: i <= k < last && v[k] == p
      decreases last - i
    {
      i := i + 1;
    }
  }

  /** Overwrites the i-th entry with the last one and drops that. */
  function SwapPop(v: seq<nat>, i: nat): seq<nat>
    requires i < |v|
  {
    v[i := v[|v| - 1]][..|v| - 1]
  }

  lemma SwapPopRemoves(v: seq<nat>, i: nat)
    requires i < |v| && NoRepeats(v)
    ensures NoRepeats(SwapPop(v, i)) && forall q :: q in SwapPop(v, i) <==> q in v && q != v[i]
  {
    var w := SwapPop(v, i);
    forall q | q in v && q != v[i]
      ensures q in w
    {
      var k :| 0 <= k < |v| && v[k] == q;
      assert q == if k == |v| - 1 then w[i] else w[k];
    }
    forall q | q in w
      ensures q in v && q != v[i]
    {
      var k :| 0 <= k < |w| && w[k] == q;
      assert q == if k == i then v[|v| - 1] else v[k];
    }
  }

  function IndexOf(v: seq<nat>, p: nat): (i: nat)
    requires p in v
    ensures i < |v| && v[i] == p && forall k :: 0 <= k < i ==> v[k] != p
  {
    if v[0] == p then 0 else 1 + IndexOf(v[1..], p)
  }

  /** Without `p`: the last entry takes its place. */
  function Dropped(v: seq<nat>, p: nat): seq<nat> {
    if p in v then SwapPop(v, IndexOf(v, p)) else v
  }

  /** Without either, the one that comes first dropped first. */
  function DroppedBoth(v: seq<nat>, p: nat, q: nat): seq<nat> {
    if p in v && q in v && IndexOf(v, q) < IndexOf(v, p) then Dropped(Dropped(v, q), p) else Dropped(Dropped(v, p), q)
  }

  lemma IndexUnique(v: seq<nat>, i: nat)
    requires i < |v| && NoRepeats(v)
    ensures v[i] in v && IndexOf(v, v[i]) == i
  {
  }

  method Remove(m: map<nat, seq<nat>>, z: nat, p: nat) returns (m': map<nat, seq<nat>>)
    requires Indexed(m) && Listed(m, p, z)
    ensures Indexed(m') && forall q, y :: Listed(m', q, y) <==> Listed(m, q, y) && !(q == p && y == z)
    ensures OfSize(m', z) == Dropped(OfSize(m, z), p) && OthersKept(m, m', z)
  {
    var v := m[z];
    var i := Find(v, 0, |v|, p);
    SwapPopRemoves(v, i);
    IndexUnique(v, i);
    m' := Without(m, z, SwapPop(v, i));
  }

  lemma DroppedRemoves(v: seq<nat>, p: nat)
    requires NoRepeats(v)
    ensures NoRepeats(Dropped(v, p)) && forall q :: q in Dropped(v, p) <==> q in v && q != p
  {
    hide SwapPop, NoRepeats;
    if p in v {
      SwapPopRemoves(v, IndexOf(v, p));
    }
  }

  lemma BothRemoved(v: seq<nat>, p: nat, q: nat)
    requires NoRepeats(v)
    ensures NoRepeats(DroppedBoth(v, p, q)) && forall x :: x in DroppedBoth(v, p, q) <==> x in v && x != p && x != q
  {
    hide NoRepeats, Dropped;
    DroppedRemoves(v, p);
    DroppedRemoves(v, q);
    DroppedRemoves(Dropped(v, p), q);
    DroppedRemoves(Dropped(v, q), p);
  }

  /** Overwrites the first of two entries with the last one, the other with the one before that, and
      drops the two. */
  method PopPair(v: seq<nat>, p: nat, q: nat) returns (r: seq<nat>)
    requires NoRepeats(v) && p in v && q in v && p != q
    ensures r == DroppedBoth(v, p, q)
  {
    var i := 0;
    while v[i] != p && v[i] != q
      invariant i < |v| && (forall k :: 0 <= k < i ==> v[k] != p && v[k] != q)
      decreases |v| - i
    {
      i := i + 1;
    }
    var other := if v[i] == p then q else p;
    var n := |v|;
    PairPop(v, i, other);
    var w := v[i := v[n - 1]];
    var j := Find(w, i, n - 1, other);
    PairPopAt(v, i, j);
    FirstDropped(v, i, j, other);
    w := w[j := w[n - 2]];
    r := w[..n - 2];
  }

  lemma FirstDropped(v: seq<nat>, i: nat, j: nat, other: nat)
    requires NoRepeats(v) && i <= j < |v| - 1 && other in v && v[i] != other && forall k :: 0 <= k < i ==> v[k] != other
    requires v[i := v[|v| - 1]][j] == other
    ensures SwapPop(SwapPop(v, i), j) == Dropped(Dropped(v, v[i]), other)
    ensures IndexOf(v, v[i]) == i < IndexOf(v, other)
  {
    SwapPopRemoves(v, i);
    IndexUnique(v, i);
    assert SwapPop(v, i)[j] == other;
    IndexUnique(SwapPop(v, i), j);
  }

  /** Removes two regions of one size in a single pass over their vector. */
  method RemovePair(m: map<nat, seq<nat>>, z: nat, p: nat, q: nat) returns (m': map<nat, seq<nat>>)
    requires Indexed(m) && Listed(m, p, z) && Listed(m, q, z) && p != q
    ensures Indexed(m') && forall x, y :: Listed(m', x, y) <==> Listed(m, x, y) && !(y == z && (x == p || x == q))
    ensures OfSize(m', z) == DroppedBoth(OfSize(m, z), p, q) && OthersKept(m, m', z)
  {
    hide DroppedBoth;
    var v := PopPair(m[z], p, q);
    BothRemoved(m[z], p, q);
    m' := Without(m, z, v);
  }

  lemma PairPop(v: seq<nat>, i: nat, other: nat)
    requires i < |v| && NoRepeats(v) && other in v && v[i] != other && forall k :: 0 <= k < i ==> v[k] != other
    ensures |v| >= 2 && i < |v| - 1
    ensures var w := v[i := v[|v| - 1]]; exists k :: i <= k < |v| - 1 && w[k] == other
  {
    var k :| 0 <= k < |v| && v[k] == other;
    assert k > i;
    var w := v[i := v[|v| - 1]];
    assert w[if k == |v| - 1 then i else k] == other;
  }

  lemma PairPopAt(v: seq<nat>, i: nat, j: nat)
    requires |v| >= 2 && i <= j < |v| - 1 && NoRepeats(v)
    ensures var n := |v|; var w := v[i := v[n - 1]]; w[j := w[n - 2]][..n - 2] == SwapPop(SwapPop(v, i), j)
  {
  }

  // ---------------------------------------------------------------- the order of insertion

  /** The size `range` has lost its last region; `p` has been put behind those of size `left`, and then
      `q` behind those of size `right`. */
  ghost predicate SplitLists(m: map<nat, seq<nat>>, m': map<nat, seq<nat>>, range: nat, left: nat, p: nat, right: nat,
      q: nat)
  {
    && OfSize(m, range) != []
    && forall y ::
        OfSize(m', y) ==
        (if y == range then OfSize(m, y)[..|OfSize(m, y)| - 1] else OfSize(m, y))
        + (if y == left then [p] else []) + (if y == right then [q] else [])
  }

  /** The regions `p` and `q` have been dropped, and `p` has been put behind those of size `z`. */
  ghost predicate MergeLists(m: map<nat, seq<nat>>, m': map<nat, seq<nat>>, p: nat, q: nat, z: nat) {
    forall y :: OfSize(m', y) == DroppedBoth(OfSize(m, y), p, q) + (if y == z then [p] else [])
  }

  /** The region that is taken when `z` is the largest size. */
  ghost function Latest(m: map<nat, seq<nat>>, z: nat): nat
    requires OfSize(m, z) != []
  {
    OfSize(m, z)[|OfSize(m, z)| - 1]
  }

  /** After a split each part is the latest of its size, of two equal parts the right one. */
  lemma LatestAfterSplit(m: map<nat, seq<nat>>, m': map<nat, seq<nat>>, range: nat, left: nat, p: nat, right: nat,
      q: nat)
    requires SplitLists(m, m', range, left, p, right, q)
    ensures OfSize(m', left) != [] && OfSize(m', right) != []
    ensures Latest(m', right) == q && Latest(m', left) == if left == right then q else p
  {
  }

  /** After a merge the merged region is the latest of its size. */
  lemma LatestAfterMerge(m: map<nat, seq<nat>>, m': map<nat, seq<nat>>, p: nat, q: nat, z: nat)
    requires MergeLists(m, m', p, q, z)
    ensures OfSize(m', z) != [] && Latest(m', z) == p
  {
    hide DroppedBoth;
  }

  // ---------------------------------------------------------------- the heap

  /** The two maps are inverse to each other and hold exactly the free blocks. */
  ghost predicate Match(m1: map<nat, seq<nat>>, m2: map<nat, nat>, bs: seq<Block>) {
    && Indexed(m1)
    && (forall p, z :: Listed(m1, p, z) <==> Sized(m2, p, z))
    && (forall p, z :: Free(p, z) in bs <==> Sized(m2, p, z))
  }

  lemma NotListed(m1: map<nat, seq<nat>>, m2: map<nat, nat>, bs: seq<Block>, p: nat)
    requires Match(m1, m2, bs) && forall b :: b in bs && b.Free? ==> b.pos != p
    ensures p !in m2 && forall z :: !Listed(m1, p, z)
  {
    forall z: nat
      ensures !Sized(m2, p, z) && !Listed(m1, p, z)
    {
      assert Free(p, z) !in bs;
    }
    assert p in m2 ==> Sized(m2, p, m2[p]);
  }

  /** An object that does not fit but passes the guard takes half the address space. */
  lemma TooLarge(range: nat, size: nat)
    requires range % PAGE == 0 && size % PAGE == 0 && range < size && Guard(range, size) && range < WORD / 4
    ensures WORD / 4 < Offset(range, size) <= WORD / 2
  {
    var d := (range + WORD - size) % WORD;
    assert d == WORD - PAGE || d == WORD - 2 * PAGE;
  }

  /** A region beyond the range is part of no row of blocks. */
  lemma NoSuchTiling(m1: map<nat, seq<nat>>, m2: map<nat, nat>, lo: nat, hi: nat, p: nat, z: nat)
    requires Sized(m2, p, z) && z > hi
    ensures forall cs :: Tiles(cs, lo, hi) ==> !Match(m1, m2, cs)
  {
    hide Tiles;
    forall cs: seq<Block> | Tiles(cs, lo, hi)
      ensures !Match(m1, m2, cs)
    {
      forall k | 0 <= k < |cs|
        ensures cs[k].size <= hi
      {
        InRange(cs, lo, hi, k);
      }
      assert Free(p, z) !in cs;
    }
  }

  lemma StartsInside(bs: seq<Block>, lo: nat, hi: nat)
    requires Tiles(bs, lo, hi)
    ensures forall b :: b in bs ==> b.pos <= hi
  {
    hide Tiles;
    forall b | b in bs
      ensures b.pos <= hi
    {
      var k :| 0 <= k < |bs| && bs[k] == b;
      InRange(bs, lo, hi, k);
    }
  }

  /** Splits the last of the largest free regions around an object of `size` bytes.  When the object
      does not fit, the maps no longer describe any row of blocks. */
  method SplitLargest(m1: map<nat, seq<nat>>, m2: map<nat, nat>, size: nat, ghost bs: seq<Block>, ghost lo: nat,
      ghost hi: nat)
    returns (m1': map<nat, seq<nat>>, m2': map<nat, nat>, ptr: nat, ghost i: nat)
    requires Tiles(bs, lo, hi) && hi < WORD / 4 && Match(m1, m2, bs) && m1 != map[]
    requires size % PAGE == 0 && 0 < size && Guard(MaxOf(m1.Keys), size)
    ensures i < |bs| && bs[i].Free? && bs[i].size == MaxOf(m1.Keys) < WORD / 4
    ensures var z := bs[i].size; z in m1 && OfSize(m1, z) != [] && bs[i].pos == Latest(m1, z)
    ensures size <= MaxOf(m1.Keys) ==>
              var left := Offset(bs[i].size, size);
              && left % PAGE == 0 && left + size <= bs[i].size && ptr == bs[i].pos + left
              && RightSize(bs[i].size, size) == bs[i].size - left - size
              && Match(m1', m2', Split(bs, i, left, size))
              && SplitLists(m1, m1', bs[i].size, left, bs[i].pos, bs[i].size - left - size, bs[i].pos + left + size)
    ensures size > MaxOf(m1.Keys) ==> forall cs :: Tiles(cs, lo, hi) ==> !Match(m1', m2', cs)
  {
    hide Tiles, Indexed, Offset, RightSize, Split, MaxOf, Listed, SplitLists, OthersKept;
    var range, rangePos;
    m1', range, rangePos := TakeLargest(m1);
    LargestIs(m1, range);
    assert Sized(m2, rangePos, range);
    i :| 0 <= i < |bs| && bs[i] == Free(rangePos, range);
    InRange(bs, lo, hi, i);
    var left, right := Offset(range, size), RightSize(range, size);
    var rightPos := (rangePos + left + size) % WORD;
    ptr := (rangePos + left) % WORD;
    RightOfObject(bs, lo, hi, i, size);
    NotListed(m1, m2, bs, rightPos);
    ListedOnce(m1, m2, rangePos);
    ghost var taken := m1';
    m1' := Push(m1', left, rangePos);
    ghost var half := m1';
    m1' := Push(m1', right, rightPos);
    PushedTwice(m1, taken, half, m1', range, left, rangePos, right, rightPos);
    m2' := m2[rangePos := left];
    m2' := m2'[rightPos := right];
    if size > range {
      TooLarge(range, size);
      NoSuchTiling(m1', m2', lo, hi, rangePos, left);
    } else {
      RedZonesExact(range, size);
      SplitEffect(bs, lo, hi, i, left, size);
      SplitMatch(m1, m2, bs, i, left, size, m1', m2');
    }
  }

  lemma PushedTwice(m: map<nat, seq<nat>>, taken: map<nat, seq<nat>>, half: map<nat, seq<nat>>, m': map<nat, seq<nat>>,
      range: nat, left: nat, p: nat, right: nat, q: nat)
    requires OfSize(m, range) == OfSize(taken, range) + [p] && OthersKept(m, taken, range)
    requires OfSize(half, left) == OfSize(taken, left) + [p] && OthersKept(taken, half, left)
    requires OfSize(m', right) == OfSize(half, right) + [q] && OthersKept(half, m', right)
    ensures SplitLists(m, m', range, left, p, right, q) && Latest(m, range) == p
  {
    hide OfSize;
    forall y
      ensures OfSize(taken, y) == if y == range then OfSize(m, y)[..|OfSize(m, y)| - 1] else OfSize(m, y)
    {
    }
  }

  /** No address wraps around, and nothing free begins behind the object. */
  lemma RightOfObject(bs: seq<Block>, lo: nat, hi: nat, i: nat, size: nat)
    requires Tiles(bs, lo, hi) && hi < WORD / 4 && i < |bs| && bs[i].Free?
    requires size % PAGE == 0 && size > 0 && Guard(bs[i].size, size)
    ensures var p, left := bs[i].pos, Offset(bs[i].size, size);
            && p + left + size < WORD
            && (p + left + size) % WORD == p + left + size && (p + left) % WORD == p + left
            && forall b :: b in bs && b.Free? ==> b.pos != p + left + size
  {
    hide Tiles, Offset;
    InRange(bs, lo, hi, i);
    if size <= bs[i].size {
      RightInside(bs, lo, hi, i, size);
    } else {
      TooLarge(bs[i].size, size);
      StartsInside(bs, lo, hi);
    }
    NoWrap(bs[i].pos + Offset(bs[i].size, size));
    NoWrap(bs[i].pos + Offset(bs[i].size, size) + size);
  }

  lemma RightInside(bs: seq<Block>, lo: nat, hi: nat, i: nat, size: nat)
    requires Tiles(bs, lo, hi) && hi < WORD / 4 && i < |bs| && bs[i].Free? && size % PAGE == 0
    requires 0 < size <= bs[i].size < WORD / 4
    ensures var left := Offset(bs[i].size, size);
            left + size <= bs[i].size && forall b :: b in bs && b.Free? ==> b.pos != bs[i].pos + left + size
  {
    hide Tiles, Offset, RightSize, Split;
    InRange(bs, lo, hi, i);
    RedZonesExact(bs[i].size, size);
    SplitEffect(bs, lo, hi, i, Offset(bs[i].size, size), size);
  }

  lemma SplitMatch(
    m1: map<nat, seq<nat>>, m2: map<nat, nat>, bs: seq<Block>, i: nat, left: nat, size: nat,
    m1': map<nat, seq<nat>>, m2': map<nat, nat>)
    requires Match(m1, m2, bs) && i < |bs| && bs[i].Free? && left + size <= bs[i].size && Indexed(m1')
    requires var o, right := bs[i], bs[i].size - left - size;
             && (forall q, y :: Listed(m1', q, y) <==>
                   || (Listed(m1, q, y) && !(q == o.pos && y == o.size))
                   || (q == o.pos && y == left) || (q == o.pos + left + size && y == right))
             && m2' == m2[o.pos := left][o.pos + left + size := right]
             && (forall p, z :: Free(p, z) in Split(bs, i, left, size) <==>
                   || (Free(p, z) in bs && p != o.pos)
                   || (p == o.pos && z == left) || (p == o.pos + left + size && z == right))
             && o.pos + left + size !in m2 && size > 0
    ensures Match(m1', m2', Split(bs, i, left, size))
  {
    hide Split, Indexed, Listed;
    assert Free(bs[i].pos, bs[i].size) in bs;
    ListedOnce(m1, m2, bs[i].pos);
  }

  /** Takes two regions out of both maps and puts the one that spans them in. */
  method Rejoin(m1: map<nat, seq<nat>>, m2: map<nat, nat>, p: nat, q: nat, size: nat)
    returns (m1': map<nat, seq<nat>>, m2': map<nat, nat>)
    requires Indexed(m1) && (forall x, y :: Listed(m1, x, y) <==> Sized(m2, x, y)) && p in m2 && q in m2 && p != q
    ensures Indexed(m1')
    ensures var z := m2[p] + size + m2[q];
            && m2' == m2[p := z] - {q} && MergeLists(m1, m1', p, q, z)
            && forall x, y :: Listed(m1', x, y) <==> (Listed(m1, x, y) && x != p && x != q) || (x == p && y == z)
  {
    hide Indexed, Listed, Sized, MergeLists, OthersKept, DroppedBoth, OfSize;
    var y, z := m2[p], m2[q];
    ListedOnce(m1, m2, p);
    ListedOnce(m1, m2, q);
    var dropped := RemoveBoth(m1, y, p, z, q);
    var combined := y + size + z;
    m1' := Push(dropped, combined, p);
    DroppedThenPushed(m1, dropped, m1', p, q, combined);
    m2' := m2[p := combined];
    m2' := m2' - {q};
  }

  /** The last region at or before an address and the first one behind it. */
  method Surrounding(m: map<nat, nat>, ptr: nat, ghost l: nat, ghost r: nat) returns (left: nat, right: nat)
    requires Surround(m, ptr, l, r)
    ensures left == l && right == r
  {
    right :| right in m && right > ptr && forall k :: k in m && k > ptr ==> right <= k;
    left :| left in m && left <= ptr && forall k :: k in m && k <= ptr ==> k <= left;
  }

  ghost predicate Surround(m: map<nat, nat>, ptr: nat, l: nat, r: nat) {
    && l in m && l <= ptr && (forall k :: k in m && k <= ptr ==> k <= l)
    && r in m && r > ptr && (forall k :: k in m && k > ptr ==> r <= k)
  }

  lemma SurroundApart(m: map<nat, nat>, ptr: nat, l: nat, r: nat)
    requires Surround(m, ptr, l, r)
    ensures l in m && r in m && l < r
  {
  }

  /** Gives the i-th block back and joins it with the free regions on both sides. */
  method MergeAround(m1: map<nat, seq<nat>>, m2: map<nat, nat>, ptr: nat, size: nat, ghost bs: seq<Block>,
      ghost lo: nat, ghost hi: nat, ghost i: nat)
    returns (m1': map<nat, seq<nat>>, m2': map<nat, nat>)
    requires Tiles(bs, lo, hi) && Match(m1, m2, bs) && i < |bs| && bs[i] == Used(ptr, size)
    ensures 0 < i < |bs| - 1 && Match(m1', m2', Merge(bs, i))
    ensures MergeLists(m1, m1', bs[i - 1].pos, bs[i + 1].pos, bs[i - 1].size + size + bs[i + 1].size)
  {
    hide Tiles, Merge, Match, MergeLists, Listed, Sized, Indexed, Surround;
    NearestInMap(m1, m2, bs, lo, hi, i);
    var leftPos, rightPos := Surrounding(m2, ptr, bs[i - 1].pos, bs[i + 1].pos);
    MatchLists(m1, m2, bs);
    assert leftPos in m2 && rightPos in m2 && leftPos != rightPos by { SurroundApart(m2, ptr, leftPos, rightPos); }
    m1', m2' := Rejoin(m1, m2, leftPos, rightPos, size);
    RejoinedMatch(m1, m2, bs, lo, hi, i, m1', m2');
  }

  lemma MatchLists(m1: map<nat, seq<nat>>, m2: map<nat, nat>, bs: seq<Block>)
    requires Match(m1, m2, bs)
    ensures Indexed(m1) && forall p, z :: Listed(m1, p, z) <==> Sized(m2, p, z)
  {
  }

  lemma NearestInMap(m1: map<nat, seq<nat>>, m2: map<nat, nat>, bs: seq<Block>, lo: nat, hi: nat, i: nat)
    requires Tiles(bs, lo, hi) && Match(m1, m2, bs) && i < |bs| && bs[i].Used?
    ensures 0 < i < |bs| - 1
    ensures var l, r, ptr := bs[i - 1], bs[i + 1], bs[i].pos;
            Surround(m2, ptr, l.pos, r.pos) && m2[l.pos] == l.size && m2[r.pos] == r.size
  {
    hide Tiles, Merge, Match;
    MergeEffect(bs, lo, hi, i);
    Neighbours(m1, m2, bs, bs[i - 1], bs[i + 1], bs[i].pos);
  }

  lemma RejoinedMatch(m1: map<nat, seq<nat>>, m2: map<nat, nat>, bs: seq<Block>, lo: nat, hi: nat, i: nat,
      m1': map<nat, seq<nat>>, m2': map<nat, nat>)
    requires Tiles(bs, lo, hi) && Match(m1, m2, bs) && 0 < i < |bs| - 1 && bs[i].Used? && Indexed(m1')
    requires var l, r := bs[i - 1], bs[i + 1];
             var z := l.size + bs[i].size + r.size;
             && m2' == m2[l.pos := z] - {r.pos}
             && forall q, y :: Listed(m1', q, y) <==>
                  (Listed(m1, q, y) && q != l.pos && q != r.pos) || (q == l.pos && y == z)
    ensures Match(m1', m2', Merge(bs, i))
  {
    hide Tiles, Merge, Match, Listed, Indexed;
    MergeEffect(bs, lo, hi, i);
    MergeMatch(m1, m2, bs, bs[i - 1], bs[i + 1], bs[i].size, m1', m2', Merge(bs, i));
  }

  lemma DroppedThenPushed(m: map<nat, seq<nat>>, dropped: map<nat, seq<nat>>, m': map<nat, seq<nat>>, p: nat, q: nat,
      z: nat)
    requires forall y :: OfSize(dropped, y) == DroppedBoth(OfSize(m, y), p, q)
    requires OfSize(m', z) == OfSize(dropped, z) + [p] && OthersKept(dropped, m', z)
    ensures MergeLists(m, m', p, q, z)
  {
    hide OfSize, DroppedBoth;
  }

  lemma MergeMatch(
    m1: map<nat, seq<nat>>, m2: map<nat, nat>, bs: seq<Block>, l: Block, r: Block, size: nat,
    m1': map<nat, seq<nat>>, m2': map<nat, nat>, cs: seq<Block>)
    requires Match(m1, m2, bs) && Indexed(m1') && l.pos != r.pos
    requires Free(l.pos, l.size) in bs && Free(r.pos, r.size) in bs
    requires var z := l.size + size + r.size;
             && (forall q, y :: Listed(m1', q, y) <==>
                   (Listed(m1, q, y) && q != l.pos && q != r.pos) || (q == l.pos && y == z))
             && m2' == m2[l.pos := z] - {r.pos}
             && (forall p, y :: Free(p, y) in cs <==>
                   (Free(p, y) in bs && p != l.pos && p != r.pos) || (p == l.pos && y == z))
    ensures Match(m1', m2', cs)
  {
    hide Listed, Sized, Indexed;
    assert Sized(m2, l.pos, l.size) && Sized(m2, r.pos, r.size);
    SizedKeys(m2, l.pos, l.size);
    SizedKeys(m2, r.pos, r.size);
    ListedOnce(m1, m2, l.pos);
    ListedOnce(m1, m2, r.pos);
    SizedAfter(m2, l.pos, r.pos, l.size + size + r.size, m2');
  }

  lemma SizedKeys(m: map<nat, nat>, p: nat, z: nat)
    requires Sized(m, p, z)
    ensures p in m && m[p] == z
  {
  }

  /** The free regions next to a used block are the nearest ones in the map. */
  lemma Neighbours(m1: map<nat, seq<nat>>, m2: map<nat, nat>, bs: seq<Block>, l: Block, r: Block, ptr: nat)
    requires Match(m1, m2, bs) && l in bs && r in bs && l.Free? && r.Free? && l.pos <= ptr < r.pos
    requires forall b :: b in bs && b.Free? && b.pos <= ptr ==> b.pos <= l.pos
    requires forall b :: b in bs && b.Free? && b.pos > ptr ==> b.pos >= r.pos
    ensures l.pos in m2 && m2[l.pos] == l.size && r.pos in m2 && m2[r.pos] == r.size
    ensures Listed(m1, l.pos, l.size) && Listed(m1, r.pos, r.size)
    ensures forall k :: k in m2 && k > ptr ==> r.pos <= k
    ensures forall k :: k in m2 && k <= ptr ==> k <= l.pos
  {
    assert Free(l.pos, l.size) in bs && Free(r.pos, r.size) in bs;
    assert Sized(m2, l.pos, l.size) && Sized(m2, r.pos, r.size);
    KeysAreFree(m1, m2, bs);
  }

  /** A region is listed under its size and no other. */
  lemma ListedOnce(m1: map<nat, seq<nat>>, m2: map<nat, nat>, p: nat)
    requires (forall q, z :: Listed(m1, q, z) <==> Sized(m2, q, z)) && p in m2
    ensures forall z :: Listed(m1, p, z) <==> z == m2[p]
  {
    assert forall z :: Sized(m2, p, z) <==> z == m2[p];
  }

  lemma SizedAfter(m: map<nat, nat>, p: nat, q: nat, z: nat, m': map<nat, nat>)
    requires p != q && m' == m[p := z] - {q}
    ensures forall k, y :: Sized(m', k, y) <==> (Sized(m, k, y) && k != p && k != q) || (k == p && y == z)
  {
  }

  method RemoveBoth(m: map<nat, seq<nat>>, y: nat, p: nat, z: nat, q: nat) returns (m': map<nat, seq<nat>>)
    requires Indexed(m) && p != q && forall w :: (Listed(m, p, w) <==> w == y) && (Listed(m, q, w) <==> w == z)
    ensures Indexed(m')
    ensures forall x, w :: Listed(m', x, w) <==> Listed(m, x, w) && !(x == p && w == y) && !(x == q && w == z)
    ensures forall w :: OfSize(m', w) == DroppedBoth(OfSize(m, w), p, q)
  {
    hide Indexed, DroppedBoth, Dropped;
    if y == z {
      m' := RemovePair(m, y, p, q);
    } else {
      m' := Remove(m, y, p);
      m' := Remove(m', z, q);
    }
    forall w
      ensures OfSize(m', w) == DroppedBoth(OfSize(m, w), p, q)
    {
      assert (Listed(m, p, w) <==> w == y) && (Listed(m, q, w) <==> w == z);
      OneDropped(OfSize(m, w), p, q);
    }
  }

  lemma OneDropped(v: seq<nat>, p: nat, q: nat)
    requires p != q
    ensures p !in v ==> DroppedBoth(v, p, q) == Dropped(v, q)
    ensures q !in v ==> DroppedBoth(v, p, q) == Dropped(v, p)
    ensures p !in v && q !in v ==> DroppedBoth(v, p, q) == v
  {
  }

  lemma KeysAreFree(m1: map<nat, seq<nat>>, m2: map<nat, nat>, bs: seq<Block>)
    requires Match(m1, m2, bs)
    ensures forall k :: k in m2 ==> exists b :: b in bs && b.Free? && b.pos == k
  {
    forall k | k in m2
      ensures exists b :: b in bs && b.Free? && b.pos == k
    {
      assert Sized(m2, k, m2[k]);
      assert Free(k, m2[k]) in bs;
    }
  }

  ghost predicate HeldAs(held: seq<(nat, nat)>, p: nat, z: nat) {
    exists h :: h in held && h.0 == p && RoundUp(h.1) == z
  }

  ghost predicate OwnedBy(live: map<nat, nat>, held: seq<(nat, nat)>, p: nat, z: nat) {
    (p in live && z == RoundUp(live[p])) || HeldAs(held, p, z)
  }

  /** The used blocks are those of the objects in use or in quarantine, each there once. */
  ghost predicate Accounted(bs: seq<Block>, live: map<nat, nat>, held: seq<(nat, nat)>) {
    && (forall p, z :: Used(p, z) in bs <==> OwnedBy(live, held, p, z))
    && (forall h :: h in held ==> h.0 !in live)
    && (forall k, l :: 0 <= k < l < |held| ==> held[k].0 != held[l].0)
  }

  lemma NotOwned(bs: seq<Block>, live: map<nat, nat>, held: seq<(nat, nat)>, p: nat)
    requires Accounted(bs, live, held) && forall b :: b in bs && b.Used? ==> b.pos != p
    ensures p !in live && forall h :: h in held ==> h.0 != p
  {
    hide RoundUp;
    assert p in live ==> OwnedBy(live, held, p, RoundUp(live[p]));
    forall h | h in held
      ensures h.0 != p
    {
      assert HeldAs(held, h.0, RoundUp(h.1));
      assert OwnedBy(live, held, h.0, RoundUp(h.1));
      assert Used(h.0, RoundUp(h.1)) in bs;
    }
  }

  lemma AccountMore(bs: seq<Block>, cs: seq<Block>, live: map<nat, nat>, held: seq<(nat, nat)>, p: nat, size: nat)
    requires Accounted(bs, live, held) && forall b :: b in bs && b.Used? ==> b.pos != p
    requires forall q, z :: Used(q, z) in cs <==> Used(q, z) in bs || (q == p && z == RoundUp(size))
    ensures p !in live && Accounted(cs, live[p := size], held)
  {
    hide RoundUp;
    NotOwned(bs, live, held, p);
    forall q, z
      ensures OwnedBy(live[p := size], held, q, z) <==> OwnedBy(live, held, q, z) || (q == p && z == RoundUp(size))
    {
    }
  }

  /** An object that is freed stays accounted for while it is in quarantine. */
  lemma AccountMoves(bs: seq<Block>, live: map<nat, nat>, held: seq<(nat, nat)>, p: nat)
    requires Accounted(bs, live, held) && p in live
    ensures Accounted(bs, live - {p}, held + [(p, live[p])])
  {
    hide RoundUp;
    var live', held' := live - {p}, held + [(p, live[p])];
    forall q, z
      ensures OwnedBy(live', held', q, z) <==> OwnedBy(live, held, q, z)
    {
      HeldMore(held, (p, live[p]), q, z);
    }
  }

  lemma HeldMore(held: seq<(nat, nat)>, h: (nat, nat), q: nat, z: nat)
    ensures HeldAs(held + [h], q, z) <==> HeldAs(held, q, z) || (q == h.0 && z == RoundUp(h.1))
  {
    hide RoundUp;
    assert forall g :: g in held + [h] <==> g in held || g == h;
  }

  lemma HeldFirst(h: (nat, nat), held: seq<(nat, nat)>, q: nat, z: nat)
    ensures HeldAs([h] + held, q, z) <==> HeldAs(held, q, z) || (q == h.0 && z == RoundUp(h.1))
  {
    hide RoundUp;
    assert forall g :: g in [h] + held <==> g in held || g == h;
  }

  /** What leaves the quarantine is no longer accounted for once its block is gone. */
  lemma AccountLess(bs: seq<Block>, cs: seq<Block>, live: map<nat, nat>, h: (nat, nat), held: seq<(nat, nat)>)
    requires Accounted(bs, live, [h] + held)
    requires forall q, z :: Used(q, z) in cs <==> Used(q, z) in bs && q != h.0
    ensures Accounted(cs, live, held)
    ensures Used(h.0, RoundUp(h.1)) in bs
  {
    hide RoundUp, HeldAs;
    var all := [h] + held;
    FirstApart(h, held);
    HeldFirst(h, held, h.0, RoundUp(h.1));
    assert OwnedBy(live, all, h.0, RoundUp(h.1));
    forall q, z
      ensures OwnedBy(live, held, q, z) <==> OwnedBy(live, all, q, z) && q != h.0
    {
      HeldFirst(h, held, q, z);
      HeldElsewhere(held, h.0, z);
    }
  }

  /** The first of a list without repeats, and the rest. */
  lemma FirstApart(h: (nat, nat), held: seq<(nat, nat)>)
    requires var all := [h] + held; forall k, l :: 0 <= k < l < |all| ==> all[k].0 != all[l].0
    ensures h in [h] + held && (forall g :: g in held ==> g in [h] + held && g.0 != h.0)
    ensures forall k, l :: 0 <= k < l < |held| ==> held[k].0 != held[l].0
  {
    var all := [h] + held;
    assert all[0] == h && forall k :: 0 <= k < |held| ==> held[k] == all[k + 1];
  }

  lemma HeldElsewhere(held: seq<(nat, nat)>, p: nat, z: nat)
    requires forall g :: g in held ==> g.0 != p
    ensures !HeldAs(held, p, z)
  {
  }

  class LargeObjectHeap {
    ghost const lo: nat
    ghost const hi: nat
    const quarantine: Quarantine<(nat, nat)>
    /** Size to the regions of that size. */
    var map1: map<nat, seq<nat>>
    /** Region to its size. */
    var map2: map<nat, nat>
    /** The whole range in address order. */
    ghost var blocks: seq<Block>
    /** The objects in use, with the sizes they were allocated with. */
    ghost var live: map<nat, nat>

    ghost predicate Valid()
      reads this, quarantine, quarantine.data
    {
      && quarantine.Valid() && quarantine.capacity <= UNLIMITED
      && hi < WORD / 4
      && Tiles(blocks, lo, hi)
      && Match(map1, map2, blocks)
      && Accounted(blocks, live, quarantine.Held())
    }

    constructor (base: nat, size: nat, quarantineSize: nat)
      requires base % PAGE == 0 && size % PAGE == 0 && base + size < WORD / 4 && quarantineSize <= UNLIMITED
      ensures Valid() && live == map[] && quarantine.Held() == [] && lo == base && hi == base + size
              && fresh(quarantine)
      ensures map1 == map[size := [base]] && map2 == map[base := size]
      ensures size >= PAGE ==> Spaced(blocks)
    {
      lo, hi := base, base + size;
      quarantine := new Quarantine<(nat, nat)>(quarantineSize);
      map1 := map[size := [base]];
      map2 := map[base := size];
      blocks := [Free(base, size)];
      live := map[];
    }

    /** The largest free region. */
    ghost function Largest(): (z: nat)
      requires Valid()
      reads this, quarantine, quarantine.data
    {
      SomeFree();
      MaxOf(map1.Keys)
    }

    /** Of the largest free regions the one that was put there last: the next to be taken. */
    ghost function Next(): (p: nat)
      requires Valid()
      reads this, quarantine, quarantine.data
      ensures Sized(map2, p, Largest())
    {
      SomeFree();
      assert Largest() in map1 && OfSize(map1, Largest()) != [];
      assert Listed(map1, Latest(map1, Largest()), Largest());
      Latest(map1, Largest())
    }

    lemma SomeFree()
      requires Valid()
      ensures map1.Keys != {}
    {
      assert Fitting(blocks, 0);
      assert Free(blocks[0].pos, blocks[0].size) in blocks;
      assert Listed(map1, blocks[0].pos, blocks[0].size);
    }

    /** Nothing in use and nothing in quarantine: the two maps are as they were initially. */
    lemma EverythingFreed()
      requires Valid() && live == map[] && quarantine.Held() == []
      ensures lo <= hi && map2 == map[lo := hi - lo] && map1 == map[hi - lo := [lo]]
    {
      forall b | b in blocks
        ensures b.Free?
      {
        assert b.Used? ==> Used(b.pos, b.size) in blocks;
        assert !OwnedBy(live, quarantine.Held(), b.pos, b.size);
      }
      NothingUsed(blocks, lo, hi);
      var b := blocks[0];
      assert blocks == [b];
      assert forall p, z :: Sized(map2, p, z) <==> Free(p, z) == b;
      OneRegion(map1, map2, lo, b.size);
    }

    /** Takes an object out of the middle of the largest free region.  The guard of the code lets
        objects through that do not fit; after them the maps describe no row of blocks. */
    method Allocate(size: nat) returns (ptr: nat, ghost i: nat)
      requires Valid() && size > PAGE && Guard(Largest(), RoundUp(size))
      modifies this`map1, this`map2, this`blocks, this`live
      ensures RoundUp(size) <= old(Largest()) ==>
                && Valid()
                && i < |old(blocks)| && old(blocks)[i].Free? && old(blocks)[i].size == old(Largest())
                && old(blocks)[i].pos == old(Next())
                && (var range, left := old(Largest()), Offset(old(Largest()), RoundUp(size));
                    var right := range - left - RoundUp(size);
                    && right >= 0 && ptr == old(blocks)[i].pos + left
                    && blocks == Split(old(blocks), i, left, RoundUp(size))
                    && SplitLists(old(map1), map1, range, left, old(Next()), right, ptr + RoundUp(size)))
                && ptr !in old(live) && live == old(live)[ptr := size]
                && (old(Spaced(blocks)) ==> (Spaced(blocks) <==> old(Largest()) >= RoundUp(size) + 2 * PAGE))
      ensures RoundUp(size) > old(Largest()) ==> forall cs :: Tiles(cs, lo, hi) ==> !Match(map1, map2, cs)
    {
      hide Tiles, Match, Accounted, Offset, RightSize, RoundUp, Split, MaxOf, Spaced, SplitLists;
      SomeFree();
      ghost var bs := blocks;
      map1, map2, ptr, i := SplitLargest(map1, map2, RoundUp(size), bs, lo, hi);
      if RoundUp(size) <= bs[i].size {
        ghost var left := Offset(bs[i].size, RoundUp(size));
        InRange(bs, lo, hi, i);
        RedZonesExact(bs[i].size, RoundUp(size));
        SplitEffect(bs, lo, hi, i, left, RoundUp(size));
        if Spaced(bs) {
          SpacedAfter(bs, i, left, RoundUp(size));
        }
        AccountMore(bs, Split(bs, i, left, RoundUp(size)), live, quarantine.Held(), ptr, size);
        blocks := Split(bs, i, left, RoundUp(size));
        live := live[ptr := size];
      }
    }

    /** Frees an object: it goes through the quarantine, and the block of whatever comes out is
        merged with its neighbours. */
    method Deallocate(ptr: nat, size: nat) returns (r: Option<(nat, nat)>, ghost i: nat)
      requires Valid() && ptr in live && live[ptr] == size
      modifies this`map1, this`map2, this`blocks, this`live, quarantine, quarantine.data
      ensures Valid() && live == old(live) - {ptr}
      ensures old(quarantine.Held()) + [(ptr, size)] == (if r.Some? then [r.value] else []) + quarantine.Held()
      ensures r.Some? <==> quarantine.capacity < UNLIMITED && |old(quarantine.Held())| == quarantine.capacity
      ensures r.None? ==> blocks == old(blocks) && map1 == old(map1) && map2 == old(map2)
      ensures r.Some? ==>
                && 0 < i < |old(blocks)| - 1 && old(blocks)[i] == Used(r.value.0, RoundUp(r.value.1))
                && blocks == Merge(old(blocks), i)
                && (var left, right := old(blocks)[i - 1], old(blocks)[i + 1];
                    MergeLists(old(map1), map1, left.pos, right.pos, left.size + RoundUp(r.value.1) + right.size))
      ensures old(Spaced(blocks)) ==> Spaced(blocks)
    {
      hide Tiles, Match, Accounted, RoundUp, Merge, StillHeld, Spaced, MergeLists;
      ghost var bs, held := blocks, quarantine.Held();
      AccountMoves(bs, live, held, ptr);
      live := live - {ptr};
      i := 0;
      r := quarantine.Deallocate((ptr, size));
      if r.None? {
        assert [] + quarantine.Held() == quarantine.Held();
        return;
      }
      i := UsedAt(bs, live, r.value, quarantine.Held());
      MergeEffect(bs, lo, hi, i);
      if Spaced(bs) {
        SpacedMerge(bs, lo, hi, i);
      }
      AccountLess(bs, Merge(bs, i), live, r.value, quarantine.Held());
      map1, map2 := MergeAround(map1, map2, r.value.0, RoundUp(r.value.1), bs, lo, hi, i);
      blocks := Merge(bs, i);
    }
  }

  /** Two regions of equal size are left over, and the one on the right goes first. */
  method TakeRightFirst() returns (first: nat, second: nat)
    ensures first == 65536 + 7 * PAGE && second == 65536 + 12 * PAGE
  {
    hide SplitLists, Offset, RightSize, Tiles, Accounted, Split, Spaced, RoundUp, MaxOf;
    ghost var i;
    var h := new LargeObjectHeap(65536, 16 * PAGE, 0);
    TwoPages();
    LargestIs(h.map1, 16 * PAGE);
    ghost var before := h.map1;
    first, i := h.Allocate(2 * PAGE);
    EqualParts(before, h.map1, 16 * PAGE, 65536, 7 * PAGE, 65536 + 9 * PAGE);
    LargestIs(h.map1, 7 * PAGE);
    second, i := h.Allocate(2 * PAGE);
  }

  lemma TwoPages()
    ensures RoundUp(2 * PAGE) == 2 * PAGE && Offset(16 * PAGE, 2 * PAGE) == 7 * PAGE
    ensures Offset(7 * PAGE, 2 * PAGE) == 3 * PAGE
  {
  }

  lemma EqualParts(m: map<nat, seq<nat>>, m': map<nat, seq<nat>>, range: nat, p: nat, half: nat, q: nat)
    requires m == map[range := [p]] && SplitLists(m, m', range, half, p, half, q) && Indexed(m')
    ensures half in m' && OfSize(m', half) == [p, q] && forall y :: y in m' ==> y == half
  {
    assert OfSize(m', half) == [] + [p] + [q];
    forall y | y in m'
      ensures y == half
    {
      assert OfSize(m', y) != [];
    }
  }

  lemma UsedAt(bs: seq<Block>, live: map<nat, nat>, h: (nat, nat), held: seq<(nat, nat)>) returns (i: nat)
    requires Accounted(bs, live, [h] + held)
    ensures i < |bs| && bs[i] == Used(h.0, RoundUp(h.1))
  {
    hide RoundUp;
    HeldFirst(h, held, h.0, RoundUp(h.1));
    assert OwnedBy(live, [h] + held, h.0, RoundUp(h.1));
    i :| 0 <= i < |bs| && bs[i] == Used(h.0, RoundUp(h.1));
  }

  lemma LargestIs(m: map<nat, seq<nat>>, z: nat)
    requires z in m && forall y :: y in m ==> y <= z
    ensures MaxOf(m.Keys) == z
  {
  }

  lemma InRange(bs: seq<Block>, lo: nat, hi: nat, i: nat)
    requires Tiles(bs, lo, hi) && i < |bs|
    ensures End(bs[i]) <= hi && bs[i].size % PAGE == 0
  {
    assert Fitting(bs, i);
    if i < |bs| - 1 {
      InOrder(bs, lo, hi, i, |bs| - 1);
    }
  }

  lemma SpacedAfter(bs: seq<Block>, i: nat, left: nat, size: nat)
    requires i < |bs| && bs[i].Free? && left + size <= bs[i].size && Spaced(bs)
    ensures Spaced(Split(bs, i, left, size)) <==> left >= PAGE && bs[i].size - left - size >= PAGE
  {
    var cs := Split(bs, i, left, size);
    assert cs[i] == Free(bs[i].pos, left) && cs[i] in cs;
    assert cs[i + 2] == Free(bs[i].pos + left + size, bs[i].size - left - size) && cs[i + 2] in cs;
    assert forall b :: b in cs ==> b in bs || b == cs[i] || b == cs[i + 1] || b == cs[i + 2];
  }

  /** Giving a block back keeps the gaps at least a page wide. */
  lemma SpacedMerge(bs: seq<Block>, lo: nat, hi: nat, i: nat)
    requires Tiles(bs, lo, hi) && i < |bs| && bs[i].Used? && Spaced(bs)
    ensures 0 < i < |bs| - 1 && Spaced(Merge(bs, i))
  {
    hide Tiles;
    MergeEffect(bs, lo, hi, i);
    var cs := Merge(bs, i);
    forall b | b in cs && b.Free?
      ensures b.size >= PAGE
    {
      assert Free(b.pos, b.size) in cs;
      assert bs[i - 1] in bs && bs[i - 1].size >= PAGE;
    }
  }

  lemma OneElement(v: seq<nat>, p: nat)
    requires v != [] && NoRepeats(v) && forall k :: 0 <= k < |v| ==> v[k] == p
    ensures v == [p]
  {
    if |v| > 1 {
      Different(v, 0, 1);
    }
  }

  lemma Different(v: seq<nat>, i: nat, j: nat)
    requires NoRepeats(v) && i < j < |v|
    ensures v[i] != v[j]
  {
  }

  lemma OneRegion(m1: map<nat, seq<nat>>, m2: map<nat, nat>, p: nat, z: nat)
    requires Indexed(m1) && (forall q, y :: Listed(m1, q, y) <==> Sized(m2, q, y))
    requires forall q, y :: Sized(m2, q, y) <==> q == p && y == z
    ensures m2 == map[p := z] && m1 == map[z := [p]]
  {
    assert Sized(m2, p, z);
    forall q | q in m2
      ensures q == p
    {
      assert Sized(m2, q, m2[q]);
    }
    forall y | y in m1
      ensures y == z && m1[y] == [p]
    {
      assert Listed(m1, m1[y][0], y);
      forall k | 0 <= k < |m1[y]|
        ensures m1[y][k] == p
      {
        assert Listed(m1, m1[y][k], y);
      }
      OneElement(m1[y], p);
    }
    assert Listed(m1, p, z);
  }
}
