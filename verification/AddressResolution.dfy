/** Finding the objects a pointer may point to.  The solver is the non-empty set of values the pointer
    can have; it never times out. */
module AddressResolution {
  import opened Lists
  import opened Options
  import opened Extrema

  datatype Object = Object(address: nat, size: nat)

  /** The bounds check; a zero-sized object has its address and no other. */
  predicate InBounds(o: Object, p: nat) {
    if o.size == 0 then p == o.address else o.address <= p < o.address + o.size
  }

  /** In address order and disjoint, counting a zero-sized object as one address. */
  ghost predicate Disjoint(objects: seq<Object>) {
    forall i, j :: 0 <= i < j < |objects| ==>
      objects[i].address < objects[j].address && objects[i].address + objects[i].size <= objects[j].address
  }

  predicate MayBeIn(o: Object, values: set<nat>) {
    exists p | p in values :: InBounds(o, p)
  }

  predicate MustBeIn(o: Object, values: set<nat>) {
    forall p | p in values :: InBounds(o, p)
  }

  predicate MustBeAtLeast(values: set<nat>, base: nat) {
    forall p | p in values :: p >= base
  }

  predicate MustBeBelow(values: set<nat>, base: nat) {
    forall p | p in values :: p < base
  }

  /** No address is in two objects. */
  lemma OneObject(objects: seq<Object>, i: nat, j: nat, p: nat)
    requires Disjoint(objects) && i < |objects| && j < |objects| && InBounds(objects[i], p) && InBounds(objects[j], p)
    ensures i == j
  {
  }

  /** The first object behind an address. */
  method UpperBound(objects: seq<Object>, address: nat) returns (k: nat)
    requires Disjoint(objects)
    ensures k <= |objects|
    ensures forall i :: 0 <= i < k ==> objects[i].address <= address
    ensures forall i :: k <= i < |objects| ==> address < objects[i].address
  {
    k := 0;
    while k < |objects| && objects[k].address <= address
      invariant k <= |objects|
      invariant forall i :: 0 <= i < k ==> objects[i].address <= address
    {
      k := k + 1;
    }
  }

  /** Finds the object an address is in. */
  method ResolveConstant(objects: seq<Object>, address: nat) returns (r: Option<Object>)
    requires Disjoint(objects)
    ensures r.Some? ==> r.value in objects && InBounds(r.value, address)
    ensures r.None? ==> forall o :: o in objects ==> !InBounds(o, address)
  {
    var k := UpperBound(objects, address);
    if k == 0 {
      return None;
    }
    var o := objects[k - 1];
    if (o.size == 0 && address == o.address) || (o.address <= address && address - o.address < o.size) {
      return Some(o);
    }
    return None;
  }

  /** How many objects begin at or before an address. */
  ghost function Behind(objects: seq<Object>, address: nat): (k: nat)
    ensures k <= |objects|
  {
    if objects == [] || address < objects[0].address then 0 else 1 + Behind(objects[1..], address)
  }

  lemma {:induction false} BehindExact(objects: seq<Object>, address: nat, k: nat)
    requires k <= |objects| && (forall i :: 0 <= i < k ==> objects[i].address <= address)
    requires forall i :: k <= i < |objects| ==> address < objects[i].address
    ensures Behind(objects, address) == k
  {
    if k > 0 {
      BehindExact(objects[1..], address, k - 1);
    }
  }

  /** The objects the pointer may be in, from `start` down to `i`. */
  ghost function Down(objects: seq<Object>, values: set<nat>, start: nat, i: nat): seq<Object>
    requires i <= start <= |objects|
    decreases start - i
  {
    if i == start then []
    else Down(objects, values, start, i + 1) + if MayBeIn(objects[i], values) then [objects[i]] else []
  }

  /** From `start` up to `i`. */
  ghost function Up(objects: seq<Object>, values: set<nat>, start: nat, i: nat): seq<Object>
    requires start <= i <= |objects|
  {
    if i == start then []
    else Up(objects, values, start, i - 1) + if MayBeIn(objects[i - 1], values) then [objects[i - 1]] else []
  }

  /** All of them, in the order of the search: from the example downwards, and then from there upwards. */
  ghost function Searched(objects: seq<Object>, values: set<nat>, example: nat): seq<Object> {
    var start := Behind(objects, example);
    Down(objects, values, start, 0) + Up(objects, values, start, |objects|)
  }

  lemma {:induction false} DownSkips(objects: seq<Object>, values: set<nat>, start: nat, i: nat, j: nat)
    requires j <= i <= start <= |objects| && forall k :: j <= k < i ==> !MayBeIn(objects[k], values)
    ensures Down(objects, values, start, j) == Down(objects, values, start, i)
    decreases i - j
  {
    hide MayBeIn;
    if j < i {
      DownSkips(objects, values, start, i, j + 1);
    }
  }

  lemma {:induction false} UpSkips(objects: seq<Object>, values: set<nat>, start: nat, i: nat, j: nat)
    requires start <= i <= j <= |objects| && forall k :: i <= k < j ==> !MayBeIn(objects[k], values)
    ensures Up(objects, values, start, j) == Up(objects, values, start, i)
    decreases j - i
  {
    hide MayBeIn;
    if i < j {
      UpSkips(objects, values, start, i, j - 1);
    }
  }

  lemma {:induction false} DownStarts(objects: seq<Object>, values: set<nat>, start: nat, i: nat, j: nat)
    requires j <= i <= start <= |objects|
    ensures Down(objects, values, start, i) <= Down(objects, values, start, j)
    decreases i - j
  {
    hide MayBeIn;
    if j < i {
      DownStarts(objects, values, start, i, j + 1);
    }
  }

  lemma {:induction false} UpStarts(objects: seq<Object>, values: set<nat>, start: nat, i: nat, j: nat)
    requires start <= i <= j <= |objects|
    ensures Up(objects, values, start, i) <= Up(objects, values, start, j)
    decreases j - i
  {
    hide MayBeIn;
    if i < j {
      UpStarts(objects, values, start, i, j - 1);
    }
  }

  /** Finds one object the pointer may be in, if there is any: the first one in the order of the search.
      The solver provides an example. */
  method ResolveOne(objects: seq<Object>, values: set<nat>, example: nat) returns (r: Option<Object>)
    requires Disjoint(objects) && example in values
    ensures r.Some? ==> r.value in objects && MayBeIn(r.value, values)
    ensures r.None? ==> forall o :: o in objects ==> !MayBeIn(o, values)
    ensures var hits := Searched(objects, values, example); r == if hits == [] then None else Some(hits[0])
  {
    hide MayBeIn, Disjoint, Down, Up;
    var start := UpperBound(objects, example);
    BehindExact(objects, example, start);
    if start > 0 {
      var o := objects[start - 1];
      if example - o.address < o.size {
        Contains(o, values, example);
        HitBelow(objects, values, example, start - 1);
        return Some(o);
      }
    }
    var i := start;
    while i > 0
      invariant 0 <= i <= start
      invariant forall k :: i <= k < start ==> !MayBeIn(objects[k], values)
    {
      i := i - 1;
      if MayBeIn(objects[i], values) {
        HitBelow(objects, values, example, i);
        return Some(objects[i]);
      }
      if MustBeAtLeast(values, objects[i].address) {
        NothingBelow(objects, values, i);
        break;
      }
    }
    assert forall k :: 0 <= k < start ==> !MayBeIn(objects[k], values);
    i := start;
    while i < |objects|
      invariant start <= i <= |objects|
      invariant forall k :: 0 <= k < i ==> !MayBeIn(objects[k], values)
    {
      if MustBeBelow(values, objects[i].address) {
        NothingAbove(objects, values, i);
        break;
      }
      if MayBeIn(objects[i], values) {
        HitAbove(objects, values, example, i);
        return Some(objects[i]);
      }
      i := i + 1;
    }
    NoHit(objects, values, example);
    return None;
  }

  lemma Contains(o: Object, values: set<nat>, p: nat)
    requires p in values && o.address <= p < o.address + o.size
    ensures MayBeIn(o, values)
  {
    assert InBounds(o, p);
  }

  lemma HitBelow(objects: seq<Object>, values: set<nat>, example: nat, i: nat)
    requires i < Behind(objects, example) && MayBeIn(objects[i], values)
    requires forall k :: i < k < Behind(objects, example) ==> !MayBeIn(objects[k], values)
    ensures Searched(objects, values, example) != [] && Searched(objects, values, example)[0] == objects[i]
  {
    hide MayBeIn;
    var start := Behind(objects, example);
    DownSkips(objects, values, start, start, i + 1);
    assert Down(objects, values, start, i) == [] + [objects[i]];
    DownStarts(objects, values, start, i, 0);
    assert Down(objects, values, start, 0)[0] == objects[i];
  }

  lemma HitAbove(objects: seq<Object>, values: set<nat>, example: nat, i: nat)
    requires Behind(objects, example) <= i < |objects| && MayBeIn(objects[i], values)
    requires forall k :: 0 <= k < i ==> !MayBeIn(objects[k], values)
    ensures Searched(objects, values, example) != [] && Searched(objects, values, example)[0] == objects[i]
  {
    hide MayBeIn;
    var start := Behind(objects, example);
    DownSkips(objects, values, start, start, 0);
    UpSkips(objects, values, start, start, i);
    assert Up(objects, values, start, i + 1) == [] + [objects[i]];
    UpStarts(objects, values, start, i + 1, |objects|);
    assert Up(objects, values, start, |objects|)[0] == objects[i];
  }

  lemma NoHit(objects: seq<Object>, values: set<nat>, example: nat)
    requires forall k :: 0 <= k < |objects| ==> !MayBeIn(objects[k], values)
    ensures Searched(objects, values, example) == []
  {
    hide MayBeIn;
    var start := Behind(objects, example);
    DownSkips(objects, values, start, start, 0);
    UpSkips(objects, values, start, start, |objects|);
  }

  lemma NothingBelow(objects: seq<Object>, values: set<nat>, i: nat)
    requires Disjoint(objects) && i < |objects| && MustBeAtLeast(values, objects[i].address)
    ensures forall k :: 0 <= k < i ==> !MayBeIn(objects[k], values)
  {
  }

  lemma NothingAbove(objects: seq<Object>, values: set<nat>, i: nat)
    requires Disjoint(objects) && i < |objects| && MustBeBelow(values, objects[i].address)
    ensures forall k :: i <= k < |objects| ==> !MayBeIn(objects[k], values)
  {
  }

  // ---------------------------------------------------------------- all objects

  ghost function Hits(objects: seq<Object>, values: set<nat>): set<Object> {
    set o | o in objects && MayBeIn(o, values)
  }

  /** `rl` lists the objects between `lo` and `hi` that the pointer may be in. */
  ghost predicate Found(objects: seq<Object>, values: set<nat>, rl: seq<Object>, lo: nat, hi: nat)
    requires lo <= hi <= |objects|
  {
    NoRepeats(rl) && forall o :: o in rl <==> exists k :: lo <= k < hi && objects[k] == o && MayBeIn(o, values)
  }

  datatype Verdict = Complete | Incomplete | Continue

  /** Adds an object the pointer may be in; stops when the pointer is always in the first one, or
      when there are enough. */
  method CheckPointerInObject(o: Object, values: set<nat>, rl: seq<Object>, max: nat)
      returns (v: Verdict, rl': seq<Object>)
    ensures rl' == if MayBeIn(o, values) then rl + [o] else rl
    ensures v.Complete? <==> MayBeIn(o, values) && rl == [] && MustBeIn(o, values)
    ensures v.Incomplete? <==> MayBeIn(o, values) && |rl| > 0 && |rl| + 1 == max
  {
    rl' := rl;
    if MayBeIn(o, values) {
      rl' := rl + [o];
      if |rl'| == 1 {
        if MustBeIn(o, values) {
          return Complete, rl';
        }
      } else if |rl'| == max {
        return Incomplete, rl';
      }
    }
    return Continue, rl';
  }

  lemma FoundBelow(objects: seq<Object>, values: set<nat>, rl: seq<Object>, i: nat, hi: nat)
    requires Disjoint(objects) && i < hi <= |objects| && Found(objects, values, rl, i + 1, hi)
    ensures Found(objects, values, if MayBeIn(objects[i], values) then rl + [objects[i]] else rl, i, hi)
  {
    assert forall k :: i < k < hi ==> objects[k] != objects[i];
  }

  lemma FoundAbove(objects: seq<Object>, values: set<nat>, rl: seq<Object>, lo: nat, i: nat)
    requires Disjoint(objects) && lo <= i < |objects| && Found(objects, values, rl, lo, i)
    ensures Found(objects, values, if MayBeIn(objects[i], values) then rl + [objects[i]] else rl, lo, i + 1)
  {
    assert forall k :: lo <= k < i ==> objects[k] != objects[i];
  }

  lemma FoundSkips(objects: seq<Object>, values: set<nat>, rl: seq<Object>, lo: nat, hi: nat, lo': nat, hi': nat)
    requires lo' <= lo <= hi <= hi' <= |objects| && Found(objects, values, rl, lo, hi)
    requires forall k :: lo' <= k < lo || hi <= k < hi' ==> !MayBeIn(objects[k], values)
    ensures Found(objects, values, rl, lo', hi')
  {
    forall o
      ensures o in rl <==> exists k :: lo' <= k < hi' && objects[k] == o && MayBeIn(o, values)
    {
    }
  }

  /** When the pointer is always in one object it is in no other. */
  lemma OnlyOne(objects: seq<Object>, values: set<nat>, i: nat)
    requires Disjoint(objects) && i < |objects| && values != {} && MustBeIn(objects[i], values)
    ensures forall k :: 0 <= k < |objects| && k != i ==> !MayBeIn(objects[k], values)
    ensures MayBeIn(objects[i], values) && Found(objects, values, [objects[i]], 0, |objects|)
  {
    var p :| p in values;
    assert InBounds(objects[i], p);
    forall k | 0 <= k < |objects| && MayBeIn(objects[k], values)
      ensures k == i
    {
      var q :| q in values && InBounds(objects[k], q);
      OneObject(objects, k, i, q);
    }
  }

  /** The objects below an address, from there downwards. */
  method SearchBackwards(objects: seq<Object>, values: set<nat>, start: nat, max: nat)
      returns (v: Verdict, rl: seq<Object>)
    requires Disjoint(objects) && values != {} && start <= |objects|
    ensures v.Complete? ==> Found(objects, values, rl, 0, |objects|)
    ensures v.Incomplete? ==>
              max >= 2 && |rl| == max && exists i: nat :: i <= start && Found(objects, values, rl, i, start)
    ensures v.Continue? ==> Found(objects, values, rl, 0, start) && (max >= 2 ==> |rl| < max)
    ensures v.Complete? ==> |rl| == 1
    ensures v.Complete? ==> rl == Down(objects, values, start, 0) + Up(objects, values, start, |objects|)
    ensures v.Incomplete? ==> rl <= Down(objects, values, start, 0)
    ensures v.Continue? ==> rl == Down(objects, values, start, 0)
  {
    hide MayBeIn, MustBeIn, Disjoint, Found;
    rl, v := [], Continue;
    FoundNothing(objects, values, start);
    var i := start;
    while i > 0
      invariant 0 <= i <= start && Found(objects, values, rl, i, start) && (max >= 2 ==> |rl| < max)
      invariant rl == Down(objects, values, start, i)
    {
      i := i - 1;
      FoundBelow(objects, values, rl, i, start);
      v, rl := CheckPointerInObject(objects[i], values, rl, max);
      if v.Complete? {
        OnlyOne(objects, values, i);
        assert rl == [objects[i]];
        DownSkips(objects, values, start, i, 0);
        UpSkips(objects, values, start, start, |objects|);
        return;
      }
      if v.Incomplete? {
        DownStarts(objects, values, start, i, 0);
        return;
      }
      if MustBeAtLeast(values, objects[i].address) {
        NothingBelow(objects, values, i);
        DownSkips(objects, values, start, i, 0);
        FoundSkips(objects, values, rl, i, start, 0, start);
        return;
      }
    }
    v := Continue;
  }

  lemma FoundNothing(objects: seq<Object>, values: set<nat>, i: nat)
    requires i <= |objects|
    ensures Found(objects, values, [], i, i)
  {
  }

  /** The objects behind an address, from there upwards, after those that were found below. */
  method SearchForwards(objects: seq<Object>, values: set<nat>, start: nat, max: nat, below: seq<Object>)
      returns (rl: seq<Object>, incomplete: bool)
    requires Disjoint(objects) && values != {} && start <= |objects|
    requires Found(objects, values, below, 0, start) && (max >= 2 ==> |below| < max)
    ensures exists i :: start <= i <= |objects| && Found(objects, values, rl, 0, i) && (!incomplete ==> i == |objects|)
    ensures if incomplete then max >= 2 && |rl| == max else max >= 2 ==> |rl| < max
    ensures var all := below + Up(objects, values, start, |objects|); if incomplete then rl <= all else rl == all
  {
    hide MayBeIn, MustBeIn, Disjoint, Found, Up;
    rl := below;
    var i := start;
    UpNothing(objects, values, start);
    while i < |objects|
      invariant start <= i <= |objects| && Found(objects, values, rl, 0, i) && (max >= 2 ==> |rl| < max)
      invariant rl == below + Up(objects, values, start, i)
    {
      if MustBeBelow(values, objects[i].address) {
        NothingAbove(objects, values, i);
        UpSkips(objects, values, start, i, |objects|);
        FoundSkips(objects, values, rl, 0, i, 0, |objects|);
        return rl, false;
      }
      FoundAbove(objects, values, rl, 0, i);
      UpOne(objects, values, start, i);
      UpStarts(objects, values, start, i + 1, |objects|);
      var v;
      v, rl := CheckPointerInObject(objects[i], values, rl, max);
      if v.Complete? {
        OnlyOne(objects, values, i);
        assert rl == [objects[i]];
        UpSkips(objects, values, start, i + 1, |objects|);
        return rl, false;
      }
      if v.Incomplete? {
        return rl, true;
      }
      i := i + 1;
    }
    return rl, false;
  }

  /** Finds all objects the pointer may be in, or `max` of them when `max` is two or more, in the order of
      the search. */
  method Resolve(objects: seq<Object>, values: set<nat>, example: nat, max: nat)
      returns (rl: seq<Object>, incomplete: bool)
    requires Disjoint(objects) && example in values
    ensures Resolved(objects, values, max, rl, incomplete)
    ensures var hits := Searched(objects, values, example);
            if incomplete then max <= |hits| && rl == hits[..max] else rl == hits
  {
    hide MayBeIn, Disjoint, Found, Down, Up, Hits;
    var start := UpperBound(objects, example);
    BehindExact(objects, example, start);
    var v;
    v, rl := SearchBackwards(objects, values, start, max);
    if v.Complete? {
      FoundAreHits(objects, values, rl, 0, |objects|);
      return rl, false;
    }
    if v.Incomplete? {
      ghost var i: nat :| i <= start && Found(objects, values, rl, i, start);
      FoundAreHits(objects, values, rl, i, start);
      return rl, true;
    }
    rl, incomplete := SearchForwards(objects, values, start, max, rl);
    ghost var i: nat :|
      start <= i <= |objects| && Found(objects, values, rl, 0, i) && (!incomplete ==> i == |objects|);
    FoundAreHits(objects, values, rl, 0, i);
  }

  lemma UpOne(objects: seq<Object>, values: set<nat>, start: nat, i: nat)
    requires start <= i < |objects|
    ensures Up(objects, values, start, i + 1) ==
            Up(objects, values, start, i) + if MayBeIn(objects[i], values) then [objects[i]] else []
  {
  }

  lemma UpNothing(objects: seq<Object>, values: set<nat>, start: nat)
    requires start <= |objects|
    ensures Up(objects, values, start, start) == []
  {
  }

  lemma FoundAreHits(objects: seq<Object>, values: set<nat>, rl: seq<Object>, lo: nat, hi: nat)
    requires lo <= hi <= |objects| && Found(objects, values, rl, lo, hi)
    ensures NoRepeats(rl) && forall o :: o in rl ==> o in Hits(objects, values)
    ensures lo == 0 && hi == |objects| ==> forall o :: o in Hits(objects, values) ==> o in rl
  {
  }

  /** What a call promises about its result. */
  ghost predicate Resolved(objects: seq<Object>, values: set<nat>, max: nat, rl: seq<Object>, incomplete: bool) {
    && NoRepeats(rl) && (forall o :: o in rl ==> o in Hits(objects, values))
    && (!incomplete ==> forall o :: o in Hits(objects, values) ==> o in rl)
    && (incomplete ==> max >= 2 && |rl| == max)
    && (max >= 2 && !incomplete ==> |rl| < max)
  }

  lemma {:induction false} SameSize(rl: seq<Object>, hits: set<Object>)
    requires NoRepeats(rl) && forall o :: o in rl <==> o in hits
    ensures |rl| == |hits|
  {
    if rl == [] {
      assert hits == {};
    } else {
      var n := |rl| - 1;
      var last := rl[n];
      assert rl == rl[..n] + [last];
      SameSize(rl[..n], hits - {last});
    }
  }

  /** The limit is kept exactly if it is not one, or no more than one object can be hit: a limit of
      one is never checked. */
  lemma LimitKept(objects: seq<Object>, values: set<nat>, max: nat, rl: seq<Object>, incomplete: bool)
    requires Resolved(objects, values, max, rl, incomplete) && max > 0
    ensures |rl| <= max <==> max != 1 || |Hits(objects, values)| <= 1
    ensures incomplete <==> max >= 2 && |Hits(objects, values)| >= max
  {
    var hits := Hits(objects, values);
    if !incomplete {
      SameSize(rl, hits);
    } else {
      var found := set o | o in rl;
      SameSize(rl, found);
      SubsetSize(found, hits);
    }
  }

  /** Two neighbouring objects, a pointer into either, a limit of one: both are returned. */
  lemma LimitOfOneExceeded(rl: seq<Object>, incomplete: bool)
    requires Resolved([Object(0, 8), Object(8, 8)], {0, 8}, 1, rl, incomplete)
    ensures |rl| == 2
  {
    var objects := [Object(0, 8), Object(8, 8)];
    var hits := Hits(objects, {0, 8});
    assert InBounds(objects[0], 0) && InBounds(objects[1], 8);
    assert hits == {objects[0], objects[1]};
    SameSize(rl, hits);
  }
}
