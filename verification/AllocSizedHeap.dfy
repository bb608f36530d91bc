/** A bin of equally sized slots: a bitmap of free slots, a finger that skips full words, and a
    quarantine.  A 64-bit word is the set of its one bits. */
module AllocSizedHeap {
  import opened Options
  import opened Extrema
  import opened Arithmetic
  import opened AllocSlots
  import opened AllocQuarantine

  type Word = set<nat>

  const ALL_ONES: Word := set b: nat | 0 <= b < 64

  /** A slot is taken when its bit is there and zero. */
  predicate Taken(bitmap: seq<Word>, i: nat) {
    i / 64 < |bitmap| && i % 64 !in bitmap[i / 64]
  }

  /** The lowest slot that is not taken. */
  ghost predicate IsLowestFree(bitmap: seq<Word>, i: nat) {
    !Taken(bitmap, i) && forall j :: 0 <= j < i ==> Taken(bitmap, j)
  }

  /** Whatever the bitmap, there is exactly one: the result depends on the taken slots only. */
  lemma {:induction false} LowestFreeUnique(a: seq<Word>, b: seq<Word>, i: nat, j: nat)
    requires (forall k: nat :: Taken(a, k) <==> Taken(b, k)) && IsLowestFree(a, i) && IsLowestFree(b, j)
    ensures i == j
  {
  }

  ghost predicate WellFormed(bitmap: seq<Word>, finger: nat) {
    && finger <= |bitmap|
    && (forall k :: 0 <= k < |bitmap| ==> bitmap[k] <= ALL_ONES)
    && (forall k :: 0 <= k < finger ==> bitmap[k] == {})
    && (bitmap != [] ==> bitmap[|bitmap| - 1] != ALL_ONES)
  }

  /** Finds the lowest free slot and takes it. */
  method TakeLowest(bitmap: seq<Word>, finger: nat) returns (bitmap': seq<Word>, finger': nat, i: nat)
    requires WellFormed(bitmap, finger)
    ensures WellFormed(bitmap', finger') && IsLowestFree(bitmap, i)
    ensures forall j: nat :: Taken(bitmap', j) <==> Taken(bitmap, j) || j == i
  {
    finger' := finger;
    while finger' < |bitmap| && bitmap[finger'] == {}
      invariant finger' <= |bitmap|
      invariant forall k :: 0 <= k < finger' ==> bitmap[k] == {}
    {
      finger' := finger' + 1;
    }
    if finger' < |bitmap| {
      var shift := MinOf(bitmap[finger']);
      i := finger' * 64 + shift;
      TakeInWord(bitmap, finger', shift);
      bitmap' := bitmap[finger' := bitmap[finger'] - {shift}];
    } else {
      i := finger' * 64;
      TakeInNewWord(bitmap, finger');
      bitmap' := bitmap + [ALL_ONES - {0}];
    }
  }

  lemma TakeInWord(bitmap: seq<Word>, f: nat, shift: nat)
    requires f < |bitmap| && bitmap[f] <= ALL_ONES && shift in bitmap[f] && (forall x :: x in bitmap[f] ==> shift <= x)
    requires forall k :: 0 <= k < f ==> bitmap[k] == {}
    ensures shift < 64 && IsLowestFree(bitmap, f * 64 + shift)
    ensures forall j: nat :: Taken(bitmap[f := bitmap[f] - {shift}], j) <==> Taken(bitmap, j) || j == f * 64 + shift
  {
    var i := f * 64 + shift;
    assert i / 64 == f && i % 64 == shift;
    forall j | 0 <= j < i
      ensures Taken(bitmap, j)
    {
      assert j / 64 <= f;
      assert j / 64 == f ==> j % 64 < shift;
    }
  }

  lemma TakeInNewWord(bitmap: seq<Word>, f: nat)
    requires f == |bitmap| && forall k :: 0 <= k < f ==> bitmap[k] == {}
    ensures IsLowestFree(bitmap, f * 64)
    ensures forall j: nat :: Taken(bitmap + [ALL_ONES - {0}], j) <==> Taken(bitmap, j) || j == f * 64
  {
    var bitmap' := bitmap + [ALL_ONES - {0}];
    forall j: nat
      ensures Taken(bitmap', j) <==> Taken(bitmap, j) || j == f * 64
    {
      assert j % 64 in ALL_ONES;
      if j / 64 == f {
        assert j == f * 64 + j % 64;
      }
    }
  }

  /** Frees a taken slot. */
  method Release(bitmap: seq<Word>, finger: nat, i: nat) returns (bitmap': seq<Word>, finger': nat)
    requires WellFormed(bitmap, finger) && Taken(bitmap, i)
    ensures WellFormed(bitmap', finger')
    ensures forall j: nat :: Taken(bitmap', j) <==> Taken(bitmap, j) && j != i
  {
    var loc, shift := i / 64, i % 64;
    finger' := if loc < finger then loc else finger;
    bitmap' := bitmap[loc := bitmap[loc] + {shift}];
    assert forall j: nat :: Taken(bitmap', j) <==> Taken(bitmap, j) && j != i by {
      FreeInWord(bitmap, i);
    }
    if loc + 1 == |bitmap'| {
      while bitmap' != [] && bitmap'[|bitmap'| - 1] == ALL_ONES
        invariant finger' <= |bitmap'|
        invariant forall k :: 0 <= k < |bitmap'| ==> bitmap'[k] <= ALL_ONES
        invariant forall k :: 0 <= k < finger' ==> bitmap'[k] == {}
        invariant forall j: nat :: Taken(bitmap', j) <==> Taken(bitmap, j) && j != i
        decreases |bitmap'|
      {
        DropWord(bitmap');
        NotBoth();
        bitmap' := bitmap'[..|bitmap'| - 1];
      }
    }
  }

  lemma NotBoth()
    ensures ALL_ONES != {}
  {
    assert 0 in ALL_ONES;
  }

  lemma FreeInWord(bitmap: seq<Word>, i: nat)
    requires i / 64 < |bitmap|
    ensures forall j: nat :: Taken(bitmap[i / 64 := bitmap[i / 64] + {i % 64}], j) <==> Taken(bitmap, j) && j != i
  {
    forall j: nat | j / 64 == i / 64 && j % 64 == i % 64
      ensures j == i
    {
    }
  }

  /** A last word of ones says nothing. */
  lemma DropWord(bitmap: seq<Word>)
    requires bitmap != [] && bitmap[|bitmap| - 1] == ALL_ONES
    ensures forall j: nat :: Taken(bitmap[..|bitmap| - 1], j) <==> Taken(bitmap, j)
  {
    assert forall j: nat :: j % 64 in ALL_ONES;
  }

  class SizedHeap {
    const base: nat
    /** The bin has 2^order bytes. */
    const order: nat
    const slotSize: nat
    const quarantine: Quarantine<nat>
    var bitmap: seq<Word>
    var finger: nat
    /** The slots that are in use. */
    ghost var live: set<nat>

    ghost function Address(i: nat): nat {
      base + Index2Pos(order, i)
    }

    /** In use, or freed and still in quarantine. */
    ghost predicate InUse(i: nat)
      reads this, quarantine
    {
      i in live || Address(i) in quarantine.Held()
    }

    /** A slot with a red zone. */
    ghost predicate Fits(i: nat) {
      Spacing(order, i) > slotSize
    }

    ghost predicate Valid()
      reads this, quarantine, quarantine.data
    {
      && quarantine.Valid() && quarantine.capacity <= UNLIMITED
      && WellFormed(bitmap, finger)
      && (forall i: nat :: Taken(bitmap, i) <==> InUse(i))
      && (forall i :: i in live ==> Fits(i) && Address(i) !in quarantine.Held())
      && HeldAreSlots(quarantine.Held())
      && (forall k, l :: 0 <= k < l < |quarantine.Held()| ==> quarantine.Held()[k] != quarantine.Held()[l])
    }

    ghost predicate IsSlot(p: nat) {
      exists i: nat :: Fits(i) && p == Address(i)
    }

    ghost predicate HeldAreSlots(held: seq<nat>) {
      forall p :: p in held ==> IsSlot(p)
    }

    constructor (base: nat, order: nat, slotSize: nat, quarantineSize: nat)
      requires quarantineSize <= UNLIMITED
      ensures Valid() && live == {} && quarantine.Held() == [] && fresh(quarantine)
      ensures this.base == base && this.order == order && this.slotSize == slotSize
      ensures quarantine.capacity == quarantineSize && quarantine.data == null
    {
      this.base, this.order, this.slotSize := base, order, slotSize;
      quarantine := new Quarantine<nat>(quarantineSize);
      bitmap, finger, live := [], 0, {};
    }

    lemma AddressUnique(i: nat, j: nat)
      requires Fits(i) && Address(i) == Address(j)
      ensures i == j
    {
      hide Ctz, Shr, Pow2;
      IndexRoundTrip(order, i);
      if Spacing(order, j) > 0 {
        IndexRoundTrip(order, j);
      }
    }

    /** Two slots in use or in quarantine never come closer than the slot size. */
    lemma InUseApart(i: nat, j: nat)
      requires Valid() && InUse(i) && InUse(j) && i != j
      ensures Address(i) + slotSize < Address(j) || Address(j) + slotSize < Address(i)
      ensures base + slotSize < Address(i) && Address(i) + slotSize < base + Pow2(order)
    {
      InUseFits(i);
      InUseFits(j);
      SlotsApart(order, slotSize, i, j);
      SlotInside(order, slotSize, i);
    }

    lemma InUseFits(i: nat)
      requires Valid() && InUse(i)
      ensures Fits(i)
    {
      if i !in live {
        assert IsSlot(Address(i));
        var k: nat :| Fits(k) && Address(i) == Address(k);
        AddressUnique(k, i);
      }
    }

    /** Hands out the lowest free slot; its red zone must not be used up. */
    method Allocate() returns (ptr: nat, ghost i: nat)
      requires Valid() && forall k :: IsLowestFree(bitmap, k) ==> Fits(k)
      modifies this`bitmap, this`finger, this`live
      ensures Valid() && IsLowestFree(old(bitmap), i) && !old(InUse(i)) && ptr == Address(i) && Fits(i)
      ensures forall j :: 0 <= j < i ==> old(InUse(j))
      ensures live == old(live) + {i}
    {
      hide Index2Pos, Spacing, WellFormed, IsLowestFree, Taken;
      var index;
      bitmap, finger, index := TakeLowest(bitmap, finger);
      LowestFreeFacts(old(bitmap), index);
      i := index;
      live := live + {i};
      ptr := base + Index2Pos(order, index);
    }

    /** Frees a slot: it goes through the quarantine, and whatever comes out becomes available. */
    method Deallocate(ptr: nat, ghost i: nat) returns (r: Option<nat>)
      requires Valid() && i in live && ptr == Address(i)
      modifies this`bitmap, this`finger, this`live, quarantine, quarantine.data
      ensures Valid() && live == old(live) - {i}
      ensures old(quarantine.Held()) + [ptr] == (if r.Some? then [r.value] else []) + quarantine.Held()
      ensures r.Some? <==> quarantine.capacity < UNLIMITED && |old(quarantine.Held())| == quarantine.capacity
    {
      hide Index2Pos, Spacing, WellFormed, Taken, StillHeld, Pos2Index, Ctz, Shr, Pow2;
      ghost var held := quarantine.Held();
      r := quarantine.Deallocate(ptr);
      ghost var held' := quarantine.Held();
      live := live - {i};
      QueueFacts(held, ptr, r, held');
      assert IsSlot(ptr);
      SameSlot(i);
      if r.None? {
        return;
      }
      assert IsSlot(r.value);
      ghost var out: nat :| Fits(out) && r.value == Address(out);
      assert Taken(bitmap, out) by {
        assert old(InUse(out));
      }
      SlotOfAddress(out);
      SameSlot(out);
      var index := Pos2Index(order, r.value - base);
      assert index == out;
      bitmap, finger := Release(bitmap, finger, index);
    }

    /** The slot number is recovered from the address. */
    lemma SlotOfAddress(i: nat)
      requires Fits(i)
      ensures var pos := Index2Pos(order, i); 0 < pos && Ctz(pos) < order && Pos2Index(order, pos) == i
    {
      IndexRoundTrip(order, i);
    }

    lemma SameSlot(i: nat)
      requires Fits(i)
      ensures forall j: nat :: Address(j) == Address(i) ==> j == i
    {
      forall j: nat | Address(j) == Address(i)
        ensures j == i
      {
        AddressUnique(i, j);
      }
    }

    /** Whether a pointer may be freed: its slot is taken and not in quarantine.  An unlimited
        quarantine keeps no list, so there a slot that was freed before passes as well. */
    method MayDeallocate(ptr: nat) returns (ok: bool)
      requires Valid() && base < ptr < base + Pow2(order)
      ensures ok <==>
              || (exists i :: i in live && Address(i) == ptr)
              || (quarantine.capacity == UNLIMITED && ptr in quarantine.Held())
    {
      hide Index2Pos, Spacing, WellFormed, StillHeld, Pos2Index, Ctz, Shr, Pow2;
      PosRoundTrip(order, ptr - base);
      var index := Pos2Index(order, ptr - base);
      assert Address(index) == ptr;
      OnlySlot(index);
      if quarantine.capacity < UNLIMITED {
        var found := quarantine.AnyOf(ptr);
        if found {
          return false;
        }
      }
      assert Taken(bitmap, index) <==> InUse(index);
      return index / 64 < |bitmap| && index % 64 !in bitmap[index / 64];
    }

    lemma OnlySlot(i: nat)
      requires Valid()
      ensures (exists j :: j in live && Address(j) == Address(i)) <==> i in live
    {
      hide Index2Pos, Spacing;
      forall j | j in live && Address(j) == Address(i)
        ensures j == i
      {
        AddressUnique(j, i);
      }
    }
  }

  lemma FirstSlot(bitmap: seq<Word>)
    requires !Taken(bitmap, 0)
    ensures forall k :: IsLowestFree(bitmap, k) ==> k == 0
    ensures Spacing(12, 0) > 16
  {
    assert Pow2(0) == 1 && Pow2(6) == 64 && Pow2(11) == 2048 by {
      assert Pow2(3) == 8;
      assert Pow2(9) == 512;
    }
    assert Layer(0) == 1;
  }

  /** An unlimited quarantine does not recognise a slot that is freed twice. */
  method FreedTwice() returns (ok: bool)
    ensures ok
  {
    hide Index2Pos, Spacing, WellFormed, StillHeld, Pos2Index, Ctz, Shr, Pow2, IsLowestFree, Taken;
    var heap := new SizedHeap(0, 12, 16, UNLIMITED);
    assert !heap.InUse(0);
    FirstSlot(heap.bitmap);
    var ptr, i := heap.Allocate();
    SlotInside(12, 16, i);
    var r := heap.Deallocate(ptr, i);
    ghost var held := heap.quarantine.Held();
    assert ptr in held by {
      assert r.None? && [] + held == held;
    }
    ok := heap.MayDeallocate(ptr);
  }

  /** One step of a first-in first-out queue without repeats. */
  lemma QueueFacts(held: seq<nat>, ptr: nat, r: Option<nat>, held': seq<nat>)
    requires held + [ptr] == (if r.Some? then [r.value] else []) + held'
    requires ptr !in held && forall k, l :: 0 <= k < l < |held| ==> held[k] != held[l]
    ensures forall k, l :: 0 <= k < l < |held'| ==> held'[k] != held'[l]
    ensures forall p :: p in held || p == ptr <==> (r.Some? && p == r.value) || p in held'
    ensures r.Some? ==> r.value !in held'
  {
    var all := held + [ptr];
    assert forall k, l :: 0 <= k < l < |all| ==> all[k] != all[l];
    var d := if r.Some? then 1 else 0;
    assert held' == all[d..];
    forall k | 0 <= k < |held'|
      ensures r.Some? ==> held'[k] != r.value
    {
      assert held'[k] == all[k + d];
      assert r.Some? ==> all[0] == r.value;
    }
    forall p
      ensures p in held || p == ptr <==> (r.Some? && p == r.value) || p in held'
    {
      assert p in all <==> p in held || p == ptr;
      assert p in all <==> (r.Some? && p == r.value) || p in held' by {
        assert all == (if r.Some? then [r.value] else []) + held';
      }
    }
  }

  lemma LowestFreeFacts(bitmap: seq<Word>, i: nat)
    requires IsLowestFree(bitmap, i)
    ensures !Taken(bitmap, i) && forall j :: 0 <= j < i ==> Taken(bitmap, j)
  {
  }
}
