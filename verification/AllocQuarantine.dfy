/** The quarantine of the deterministic allocator: a ring buffer that delays deallocations. */
module AllocQuarantine {
  import opened Options

  const UNLIMITED: nat := 0xFFFF_FFFF

  /** Of everything put in, oldest first, what is still in quarantine. */
  ghost function StillHeld<T>(pushed: seq<T>, capacity: nat): (h: seq<T>)
    ensures capacity < UNLIMITED ==> |h| <= capacity
  {
    if capacity >= UNLIMITED || |pushed| <= capacity then pushed else pushed[|pushed| - capacity..]
  }

  /** The ring's entries in the order in which they will be replaced. */
  ghost function Entry<T>(pushed: seq<T>, capacity: nat, i: nat): Option<T>
    requires i < capacity
  {
    if |pushed| + i < capacity then None else Some(pushed[|pushed| + i - capacity])
  }

  ghost predicate IsRing<T>(ring: seq<Option<T>>, pos: nat, pushed: seq<T>) {
    && pos < |ring|
    && (forall i :: pos <= i < |ring| ==> ring[i] == Entry(pushed, |ring|, i - pos))
    && (forall i :: 0 <= i < pos ==> ring[i] == Entry(pushed, |ring|, i + |ring| - pos))
  }

  /** Putting something in moves the oldest out as soon as the quarantine is full. */
  lemma FirstInFirstOut<T>(pushed: seq<T>, ptr: T, capacity: nat)
    requires capacity < UNLIMITED
    ensures StillHeld(pushed, capacity) + [ptr] ==
            (if |pushed| < capacity then [] else [(pushed + [ptr])[|pushed| - capacity]])
            + StillHeld(pushed + [ptr], capacity)
    ensures |pushed| >= capacity <==> |StillHeld(pushed, capacity)| == capacity
  {
  }

  lemma EntryMoves<T>(pushed: seq<T>, ptr: T, capacity: nat, i: nat)
    requires 0 < i < capacity
    ensures Entry(pushed, capacity, i) == Entry(pushed + [ptr], capacity, i - 1)
  {
  }

  lemma RingMoves<T>(ring: seq<Option<T>>, pos: nat, pushed: seq<T>, ptr: T)
    requires IsRing(ring, pos, pushed)
    ensures pos < |ring| && ring[pos] == Entry(pushed, |ring|, 0)
    ensures IsRing(ring[pos := Some(ptr)], if pos + 1 == |ring| then 0 else pos + 1, pushed + [ptr])
  {
    var n := |ring|;
    var ring' := ring[pos := Some(ptr)];
    assert Entry(pushed + [ptr], n, n - 1) == Some(ptr);
    forall i | 0 < i < n
      ensures Entry(pushed, n, i) == Entry(pushed + [ptr], n, i - 1)
    {
      EntryMoves(pushed, ptr, n, i);
    }
    assert forall i :: pos < i < n ==> ring'[i] == Entry(pushed + [ptr], n, i - pos - 1);
    assert forall i :: 0 <= i < pos ==> ring'[i] == Entry(pushed + [ptr], n, i + n - pos - 1);
  }

  lemma NothingHeld<T>(pushed: seq<T>)
    ensures StillHeld(pushed, 0) == []
  {
  }

  lemma AllHeld<T>(pushed: seq<T>)
    ensures StillHeld(pushed, UNLIMITED) == pushed
  {
  }

  lemma OldestEntry<T>(pushed: seq<T>, capacity: nat)
    requires capacity > 0
    ensures Entry(pushed, capacity, 0) == if |pushed| < capacity then None else Some(pushed[|pushed| - capacity])
  {
  }

  lemma EmptyRing<T>(ring: seq<Option<T>>)
    requires |ring| > 0 && forall i :: 0 <= i < |ring| ==> ring[i] == None
    ensures IsRing(ring, 0, [])
  {
  }

  /** What is held is what sits in the ring. */
  lemma HeldInRing<T>(ring: seq<Option<T>>, pos: nat, pushed: seq<T>, ptr: T)
    requires IsRing(ring, pos, pushed) && |ring| < UNLIMITED
    ensures ptr in StillHeld(pushed, |ring|) <==> Some(ptr) in ring
  {
    var n := |ring|;
    var held := StillHeld(pushed, n);
    if ptr in held {
      var k :| 0 <= k < |held| && held[k] == ptr;
      var i := k + n - |held|;
      assert Entry(pushed, n, i) == Some(ptr);
      var j := if i + pos < n then i + pos else i + pos - n;
      assert ring[j] == Some(ptr);
    }
    if Some(ptr) in ring {
      var j :| 0 <= j < n && ring[j] == Some(ptr);
      var i := if j >= pos then j - pos else j + n - pos;
      assert Entry(pushed, n, i) == Some(ptr);
      assert pushed[|pushed| + i - n] == ptr;
      assert held[|held| + i - n] == ptr;
    }
  }

  class Quarantine<T(==)> {
    const capacity: nat
    var data: array?<Option<T>>
    var pos: nat
    /** Everything ever put in, oldest first. */
    ghost var pushed: seq<T>

    ghost function Held(): (h: seq<T>)
      reads this
    {
      StillHeld(pushed, capacity)
    }

    ghost predicate Valid()
      reads this, data
    {
      && (data == null ==> pos == 0 && (0 < capacity < UNLIMITED ==> pushed == []))
      && (data != null ==> 0 < capacity < UNLIMITED && data.Length == capacity && IsRing(data[..], pos, pushed))
    }

    constructor (capacity: nat)
      requires capacity <= UNLIMITED
      ensures Valid() && Held() == [] && this.capacity == capacity && data == null
    {
      this.capacity := capacity;
      data := null;
      pos := 0;
      pushed := [];
    }

    /** First in, first out: what comes out, if anything, is the oldest, and nothing is lost. */
    method Deallocate(ptr: T) returns (r: Option<T>)
      requires Valid() && capacity <= UNLIMITED
      modifies this, data
      ensures Valid() && (data == old(data) || fresh(data))
      ensures old(Held()) + [ptr] == (if r.Some? then [r.value] else []) + Held()
      ensures r.Some? <==> capacity < UNLIMITED && |old(Held())| == capacity
    {
      hide IsRing, Entry, StillHeld;
      ghost var before := pushed;
      pushed := pushed + [ptr];
      FirstInFirstOut(before, ptr, if capacity < UNLIMITED then capacity else 0);
      if capacity == 0 {
        NothingHeld(pushed);
        return Some(ptr);
      }
      if capacity == UNLIMITED {
        AllHeld(before);
        AllHeld(pushed);
        return None;
      }
      if data == null {
        data := new Option<T>[capacity](_ => None);
        EmptyRing(data[..]);
      }
      RingMoves(data[..], pos, before, ptr);
      OldestEntry(before, capacity);
      r := data[pos];
      ghost var ring := data[..];
      data[pos] := Some(ptr);
      assert data[..] == ring[pos := Some(ptr)];
      pos := pos + 1;
      if pos == capacity {
        pos := 0;
      }
    }

    method AnyOf(ptr: T) returns (found: bool)
      requires Valid() && capacity < UNLIMITED
      ensures found <==> ptr in Held()
    {
      if data == null {
        return false;
      }
      for i := 0 to data.Length
        invariant forall j :: 0 <= j < i ==> data[j] != Some(ptr)
      {
        if data[i] == Some(ptr) {
          HeldInRing(data[..], pos, pushed, ptr);
          return true;
        }
      }
      HeldInRing(data[..], pos, pushed, ptr);
      return false;
    }
  }
}
