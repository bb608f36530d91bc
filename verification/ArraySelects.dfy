/** Replacing a read of a constant array by a chain of selects over runs of equal values. */
module ArraySelects {
  import opened Options
  import opened Extrema
  import opened Arithmetic

  /** From `lo` up to but excluding `hi`. */
  datatype Range = Range(lo: nat, hi: nat)

  /** A number of `w` bits read as a signed one. */
  function Signed(x: nat, w: nat): int
    requires w > 0
  {
    if x < Pow2(w - 1) then x else x - Pow2(w)
  }

  /** The condition on the index: an equality for a single element, else two signed comparisons. */
  predicate Hit(r: Range, i: nat, w: nat)
    requires w > 0
  {
    if r.lo + 1 == r.hi then i == r.lo else Signed(i, w) >= Signed(r.lo, w) && Signed(i, w) < Signed(r.hi, w)
  }

  predicate In(r: Range, i: nat) {
    r.lo <= i < r.hi
  }

  /** Several elements that reach the sign bit from below. */
  predicate Straddles(r: Range, w: nat)
    requires w > 0
  {
    r.lo + 1 != r.hi && r.lo < Pow2(w - 1) <= r.hi
  }

  /** A range that straddles the sign bit is never hit; every other is hit exactly by its elements. */
  lemma HitExact(r: Range, i: nat, w: nat)
    requires w > 0 && r.lo < r.hi <= Pow2(w) && i < Pow2(w)
    ensures Hit(r, i, w) <==> In(r, i) && !Straddles(r, w)
  {
    assert Pow2(w) == 2 * Pow2(w - 1);
  }

  ghost predicate Covered(ranges: seq<Range>, i: nat) {
    exists k :: 0 <= k < |ranges| && In(ranges[k], i)
  }

  /** In a range whose test works. */
  ghost predicate Kept(ranges: seq<Range>, i: nat, w: nat)
    requires w > 0
  {
    exists k :: 0 <= k < |ranges| && In(ranges[k], i) && !Straddles(ranges[k], w)
  }

  /** No neighbour is equal. */
  predicate Alone<T(==)>(s: seq<T>, k: nat)
    requires k < |s|
  {
    && (k == 0 || s[k - 1] != s[k])
    && (k + 1 == |s| || s[k + 1] != s[k])
  }

  /** The range cannot be made longer within the first `n` elements. */
  ghost predicate Maximal<T>(s: seq<T>, n: nat, r: Range)
    requires r.lo < r.hi <= n <= |s|
  {
    && (r.lo > 0 ==> s[r.lo - 1] != s[r.lo])
    && (r.hi < n ==> s[r.hi - 1] != s[r.hi])
  }

  /** The run of the last element below the sign bit straddles it unless it is a single element. */
  lemma StraddlingRun<T>(s: seq<T>, r: Range, w: nat)
    requires w > 0 && 0 < Pow2(w - 1) <= |s| && r.lo < r.hi <= |s| && In(r, Pow2(w - 1) - 1) && Maximal(s, |s|, r)
    requires forall i :: r.lo <= i < r.hi ==> s[i] == s[r.lo]
    ensures Straddles(r, w) <==> !Alone(s, Pow2(w - 1) - 1)
  {
    hide Pow2;
    var k := Pow2(w - 1) - 1;
    if k > 0 && s[k - 1] == s[k] {
      assert r.lo != k;
    }
    if k + 1 < |s| && s[k + 1] == s[k] {
      assert r.hi != k + 1;
    }
  }

  /** All elements from the one to the other are equal. */
  predicate SameRun<T(==)>(s: seq<T>, i: nat, j: nat)
    requires i < |s| && j < |s|
  {
    forall k | 0 <= k < |s| && (i <= k <= j || j <= k <= i) :: s[k] == s[i]
  }

  /** In the run of the last element below the sign bit, when that is not a single element. */
  predicate Lost<T(==)>(s: seq<T>, w: nat, i: nat)
    requires w > 0 && i < |s|
  {
    var h := Pow2(w - 1);
    h <= |s| && !Alone(s, h - 1) && SameRun(s, i, h - 1)
  }

  lemma RunInside<T>(s: seq<T>, r: Range, i: nat, j: nat)
    requires r.lo < r.hi <= |s| && Maximal(s, |s|, r) && In(r, i) && j < |s| && SameRun(s, i, j)
    ensures In(r, j)
  {
  }

  /** The elements whose range test is lost. */
  lemma CoverLost<T>(s: seq<T>, r: Range, i: nat, w: nat)
    requires w > 0 && r.lo < r.hi <= |s| && Maximal(s, |s|, r) && In(r, i)
    requires forall k :: r.lo <= k < r.hi ==> s[k] == s[r.lo]
    ensures Straddles(r, w) <==> Lost(s, w, i)
  {
    hide Pow2, Alone, Maximal;
    var k := Pow2(w - 1) - 1;
    if Straddles(r, w) {
      StraddlingRun(s, r, w);
    } else if Lost(s, w, i) {
      RunInside(s, r, i, k);
      StraddlingRun(s, r, w);
    }
  }

  // ---------------------------------------------------------------- runs

  /** The ranges follow each other and each holds the elements of one run. */
  ghost predicate Runs(values: seq<nat>, n: nat, ranges: seq<Range>, vals: seq<nat>)
    requires n <= |values|
  {
    && |ranges| == |vals|
    && (forall k :: 0 <= k < |ranges| ==> ranges[k].lo < ranges[k].hi <= n)
    && (forall k, i: nat :: 0 <= k < |ranges| && In(ranges[k], i) ==> values[i] == vals[k])
    && (forall i :: 0 <= i < n ==> Covered(ranges, i))
    && (forall k, l :: 0 <= k < l < |ranges| ==> ranges[k].hi <= ranges[l].lo)
    && (forall k :: 0 <= k < |ranges| ==> Maximal(values, n, ranges[k]))
  }

  function Distinct(values: seq<nat>): set<nat> {
    set v | v in values
  }

  /** The values that are counted as different: the last element is not looked at unless it is the
      only one. */
  function Counted(values: seq<nat>): set<nat>
    requires values != []
  {
    Distinct(values[..if |values| == 1 then 1 else |values| - 1])
  }

  /** That is the number of different values exactly if the last one occurs before, */
  lemma CountedExactly(values: seq<nat>)
    requires values != []
    ensures Counted(values) == Distinct(values) <==> |values| == 1 || values[|values| - 1] in values[..|values| - 1]
  {
    var n := |values| - 1;
    assert values == values[..n] + [values[n]];
    if n == 0 {
      assert values[..1] == values;
    } else if values[n] !in values[..n] {
      assert values[n] in Distinct(values) && values[n] !in Counted(values);
    } else {
      assert forall v :: v in values <==> v in values[..n];
    }
  }

  /** which it need not do. */
  lemma LastNotCounted()
    ensures Counted([0, 1]) == {0} && Distinct([0, 1]) == {0, 1}
  {
    var values: seq<nat> := [0, 1];
    assert values[..1] == [0];
  }

  lemma CountOne(values: seq<nat>, i: nat)
    requires i < |values|
    ensures Distinct(values[..1]) == {values[0]}
    ensures i > 0 ==> Distinct(values[..i]) == Distinct(values[..i - 1]) + {values[i - 1]}
    ensures i == 1 ==> Distinct(values[..i]) == {values[0]}
  {
    assert values[..1] == [values[0]];
    if i > 0 {
      assert values[..i] == values[..i - 1] + [values[i - 1]];
    }
  }

  /** Splits the array into its maximal runs. */
  method FindRuns(values: seq<nat>) returns (ranges: seq<Range>, vals: seq<nat>, counted: set<nat>)
    requires values != []
    ensures counted == Counted(values) && |ranges| == |vals|
    ensures Runs(values, |values|, ranges, vals) && ranges != []
    ensures ranges[0].lo == 0 && ranges[|ranges| - 1].hi == |values|
  {
    hide Runs, Distinct;
    var n := |values|;
    var at, val := 0, values[0];
    NoRuns(values);
    ranges, vals, counted := [], [], {};
    for i := 0 to n
      invariant |ranges| == |vals|
      invariant counted == if i == 0 then {} else Distinct(values[..if i == 1 then 1 else i - 1])
      invariant at <= i && (i > 0 ==> at < i || i == n) && (i < n ==> at < n)
      invariant i < n ==>
                Runs(values, at, ranges, vals) && (forall k :: at <= k < i ==> values[k] == val) && val == values[at]
      invariant i < n ==> (at > 0 ==> values[at - 1] != values[at])
      invariant i < n ==>
                (ranges == [] <==> at == 0) && (ranges != [] ==> ranges[0].lo == 0 && ranges[|ranges| - 1].hi == at)
      invariant i == n ==>
                Runs(values, n, ranges, vals) && ranges != [] && ranges[0].lo == 0 && ranges[|ranges| - 1].hi == n
    {
      var temp := values[i];
      CountOne(values, i);
      counted := counted + {val};
      if temp != val {
        MoreRuns(values, at, ranges, vals, i);
        ranges, vals := ranges + [Range(at, i)], vals + [val];
        val, at := temp, i;
        if i == n - 1 {
          MoreRuns(values, at, ranges, vals, i + 1);
          ranges, vals := ranges + [Range(at, i + 1)], vals + [val];
        }
      } else if i == n - 1 {
        MoreRuns(values, at, ranges, vals, i + 1);
        ranges, vals := ranges + [Range(at, i + 1)], vals + [val];
      }
    }
  }

  lemma NoRuns(values: seq<nat>)
    ensures Runs(values, 0, [], [])
  {
  }

  lemma MoreRuns(values: seq<nat>, at: nat, ranges: seq<Range>, vals: seq<nat>, end: nat)
    requires at < end <= |values| && Runs(values, at, ranges, vals)
    requires forall k :: at <= k < end ==> values[k] == values[at]
    requires at > 0 ==> values[at - 1] != values[at]
    ensures Runs(values, end, ranges + [Range(at, end)], vals + [values[at]])
  {
    var rs, vs := ranges + [Range(at, end)], vals + [values[at]];
    assert forall k :: 0 <= k < |ranges| ==> rs[k] == ranges[k];
    forall i | 0 <= i < end
      ensures Covered(rs, i)
    {
      if i >= at {
        assert In(rs[|ranges|], i);
      } else {
        assert Covered(ranges, i);
        var k :| 0 <= k < |ranges| && In(ranges[k], i);
        assert In(rs[k], i);
      }
    }
  }

  // ---------------------------------------------------------------- constant arrays

  /** A chain of selects; each level tests the ranges of one value. */
  datatype Chain = Base(value: nat) | Select(ranges: seq<Range>, value: nat, otherwise: Chain)

  predicate AnyHit(ranges: seq<Range>, i: nat, w: nat)
    requires w > 0
  {
    exists k | 0 <= k < |ranges| :: Hit(ranges[k], i, w)
  }

  function EvalChain(c: Chain, i: nat, w: nat): nat
    requires w > 0
  {
    match c
    case Base(v) => v
    case Select(ranges, v, otherwise) => if AnyHit(ranges, i, w) then v else EvalChain(otherwise, i, w)
  }

  /** The ranges of every value. */
  ghost predicate Grouped(m: map<nat, seq<Range>>, ranges: seq<Range>, vals: seq<nat>, n: nat)
    requires n <= |ranges| == |vals|
  {
    && (forall v :: v in m ==> m[v] != [])
    && (forall v, r :: v in m && r in m[v] ==> exists k :: 0 <= k < n && ranges[k] == r && vals[k] == v)
    && (forall k :: 0 <= k < n ==> vals[k] in m && ranges[k] in m[vals[k]])
  }

  method Group(ranges: seq<Range>, vals: seq<nat>) returns (m: map<nat, seq<Range>>)
    requires |ranges| == |vals|
    ensures Grouped(m, ranges, vals, |ranges|)
  {
    m := map[];
    for i := 0 to |ranges|
      invariant Grouped(m, ranges, vals, i)
    {
      var rs := if vals[i] in m then m[vals[i]] else [];
      GroupOne(m, ranges, vals, i, rs + [ranges[i]]);
      m := m[vals[i] := rs + [ranges[i]]];
    }
  }

  lemma GroupOne(m: map<nat, seq<Range>>, ranges: seq<Range>, vals: seq<nat>, i: nat, rs: seq<Range>)
    requires i < |ranges| == |vals| && Grouped(m, ranges, vals, i)
    requires rs == (if vals[i] in m then m[vals[i]] else []) + [ranges[i]]
    ensures Grouped(m[vals[i] := rs], ranges, vals, i + 1)
  {
    var m' := m[vals[i] := rs];
    forall v, r | v in m' && r in m'[v]
      ensures exists k :: 0 <= k < i + 1 && ranges[k] == r && vals[k] == v
    {
      if !(v == vals[i] && r == ranges[i]) {
        assert v in m && r in m[v];
      }
    }
    assert forall r :: vals[i] in m && r in m[vals[i]] ==> r in rs;
    assert ranges[i] in rs;
  }

  /** The chain yields the values put in so far where their tests work, and the least value
      elsewhere. */
  ghost predicate Chained(c: Chain, values: seq<nat>, m: map<nat, seq<Range>>, done: set<nat>, least: nat, w: nat)
    requires w > 0 && done <= m.Keys
  {
    forall i :: 0 <= i < |values| ==>
      EvalChain(c, i, w) == if values[i] in done && Kept(m[values[i]], i, w) then values[i] else least
  }

  /** The run of the last element below the sign bit is a single element or has the least value. */
  predicate SignSafe(values: seq<nat>, w: nat)
    requires w > 0
  {
    var h := Pow2(w - 1);
    || |values| < h
    || (forall v | v in values :: values[h - 1] <= v)
    || Alone(values, h - 1)
  }

  /** What the chain yields: the element, or the least value where the test is lost. */
  function Selected(values: seq<nat>, w: nat, i: nat): nat
    requires w > 0 && i < |values|
  {
    assert values[i] in Distinct(values);
    if Lost(values, w, i) then MinOf(Distinct(values)) else values[i]
  }

  /** A whole array is right exactly under the condition above. */
  lemma SelectedExactly(values: seq<nat>, w: nat)
    requires w > 0
    ensures (forall i :: 0 <= i < |values| ==> Selected(values, w, i) == values[i]) <==> SignSafe(values, w)
  {
    hide Pow2, Alone;
    var k: nat := Pow2(w - 1) - 1;
    forall i: nat | i < |values| && SignSafe(values, w)
      ensures Selected(values, w, i) == values[i]
    {
      if Lost(values, w, i) {
        assert values[k] == values[i];
        assert values[i] in Distinct(values);
        assert MinOf(Distinct(values)) in values;
      }
    }
    if !SignSafe(values, w) {
      assert SameRun(values, k, k);
      assert Lost(values, w, k);
      var v :| v in values && values[k] > v;
      assert v in Distinct(values);
    }
  }

  /** An array for which it fails: 2^31 equal elements and a smaller one. */
  lemma SignLost()
    ensures var values := seq(Pow2(31), i => 1) + [0];
            |values| <= Pow2(32) && !SignSafe(values, 32) && Selected(values, 32, 0) == 0 && values[0] == 1
  {
    hide MinOf;
    var values: seq<nat> := seq(Pow2(31), i => 1) + [0];
    var h := Pow2(31);
    assert h >= 2 by {
      assert Pow2(31) == 2 * Pow2(30);
    }
    assert values[h] == 0 && values[h - 2] == values[h - 1] == 1;
    assert 0 in values && 0 in Distinct(values);
    assert Lost(values, 32, 0);
  }

  /** Builds the chain for the array, or nothing when it has too many different values.  The ratio is
      compared in floating point. */
  method BuildConstantSelect(values: seq<nat>, w: nat, ratio: real) returns (c: Option<Chain>)
    requires values != [] && w > 0 && |values| <= Pow2(w)
    ensures c.None? <==> (|Counted(values)| as real) / (|values| as real) >= ratio
    ensures c.Some? ==> forall i :: 0 <= i < |values| ==> EvalChain(c.value, i, w) == Selected(values, w, i)
    ensures c.Some? ==>
            ((forall i :: 0 <= i < |values| ==> EvalChain(c.value, i, w) == values[i]) <==> SignSafe(values, w))
  {
    hide Runs, Grouped, Chained, EvalChain, Pow2, SignSafe, Located, Selected;
    var ranges, vals, counted := FindRuns(values);
    if (|counted| as real) / (|values| as real) >= ratio {
      return None;
    }
    var m := Group(ranges, vals);
    ValuesGrouped(values, ranges, vals, m);
    var least := MinOf(m.Keys);
    var chain := Base(least);
    var rest := m.Keys - {least};
    assert m.Keys - rest == {least};
    StartChain(values, m, least, w);
    while rest != {}
      invariant rest <= m.Keys
      invariant Chained(chain, values, m, m.Keys - rest, least, w)
      decreases |rest|
    {
      var v := MinOf(rest);
      ExtendChain(chain, values, m.Keys - rest, least, w, m, v);
      chain := Select(m[v], v, chain);
      assert m.Keys - rest + {v} == m.Keys - (rest - {v});
      rest := rest - {v};
    }
    assert m.Keys - rest == m.Keys;
    ChainDone(chain, values, m, w);
    SelectedExactly(values, w);
    return Some(chain);
  }

  lemma StartChain(values: seq<nat>, m: map<nat, seq<Range>>, least: nat, w: nat)
    requires w > 0 && least in m
    ensures Chained(Base(least), values, m, {least}, least, w)
  {
  }

  lemma KeysAreValues(values: seq<nat>, m: map<nat, seq<Range>>)
    requires Located(m, values)
    ensures m.Keys == Distinct(values)
  {
    forall v | v in m.Keys
      ensures v in values
    {
      var r := m[v][0];
      assert r in m[v] && In(m[v][0], r.lo) && Covered(m[v], r.lo);
      assert values[r.lo] == v;
    }
    assert forall u :: u in values ==> u in m.Keys;
  }

  lemma ChainDone(c: Chain, values: seq<nat>, m: map<nat, seq<Range>>, w: nat)
    requires w > 0 && Located(m, values) && m.Keys != {} && Chained(c, values, m, m.Keys, MinOf(m.Keys), w)
    ensures forall i :: 0 <= i < |values| ==> EvalChain(c, i, w) == Selected(values, w, i)
  {
    hide Pow2, EvalChain, Located, Kept, Lost;
    KeysAreValues(values, m);
    forall i: nat | i < |values|
      ensures EvalChain(c, i, w) == Selected(values, w, i)
    {
      KeptUnlessLost(values, m, i, w);
    }
  }

  lemma KeptUnlessLost(values: seq<nat>, m: map<nat, seq<Range>>, i: nat, w: nat)
    requires w > 0 && Located(m, values) && i < |values|
    ensures values[i] in m && (Kept(m[values[i]], i, w) <==> !Lost(values, w, i))
  {
    hide Pow2, Lost, Located, Straddles, Maximal;
    var v := values[i];
    var first := RangeOf(m, values, i);
    forall k | 0 <= k < |m[v]| && In(m[v][k], i)
      ensures Straddles(m[v][k], w) <==> Lost(values, w, i)
    {
      RunOf(m, values, v, m[v][k]);
      CoverLost(values, m[v][k], i, w);
    }
  }

  lemma RangeOf(m: map<nat, seq<Range>>, values: seq<nat>, i: nat) returns (k: nat)
    requires Located(m, values) && i < |values|
    ensures values[i] in m && k < |m[values[i]]| && In(m[values[i]][k], i)
  {
    assert Covered(m[values[i]], i);
    k :| k < |m[values[i]]| && In(m[values[i]][k], i);
  }

  lemma RunOf(m: map<nat, seq<Range>>, values: seq<nat>, v: nat, r: Range)
    requires Located(m, values) && v in m && r in m[v]
    ensures r.lo < r.hi <= |values| && Maximal(values, |values|, r)
    ensures forall i :: r.lo <= i < r.hi ==> values[i] == v
  {
    forall i | r.lo <= i < r.hi
      ensures values[i] == v
    {
      var k :| 0 <= k < |m[v]| && m[v][k] == r;
      assert In(m[v][k], i) && Covered(m[v], i);
    }
  }

  /** Every element's value has its ranges, and they are where the value is. */
  ghost predicate Located(m: map<nat, seq<Range>>, values: seq<nat>) {
    && (forall i :: 0 <= i < |values| ==> values[i] in m)
    && (forall v :: v in m ==> m[v] != [])
    && (forall v, r :: v in m && r in m[v] ==> r.lo < r.hi <= |values| && Maximal(values, |values|, r))
    && (forall v, i: nat :: v in m && i < |values| ==> (Covered(m[v], i) <==> values[i] == v))
  }

  lemma ValuesGrouped(values: seq<nat>, ranges: seq<Range>, vals: seq<nat>, m: map<nat, seq<Range>>)
    requires values != [] && Runs(values, |values|, ranges, vals) && Grouped(m, ranges, vals, |ranges|)
    ensures Located(m, values) && m.Keys != {}
  {
    forall i: nat | i < |values|
      ensures values[i] in m && Covered(m[values[i]], i)
    {
      assert Covered(ranges, i);
      var k :| 0 <= k < |ranges| && In(ranges[k], i);
      var rs := m[vals[k]];
      var l :| 0 <= l < |rs| && rs[l] == ranges[k];
      assert In(rs[l], i);
    }
    forall v, i: nat | v in m && i < |values| && Covered(m[v], i)
      ensures values[i] == v
    {
      var l :| 0 <= l < |m[v]| && In(m[v][l], i);
      assert m[v][l] in m[v];
      var k :| 0 <= k < |ranges| && ranges[k] == m[v][l] && vals[k] == v;
    }
    forall v, r | v in m && r in m[v]
      ensures r.lo < r.hi <= |values| && Maximal(values, |values|, r)
    {
      var k :| 0 <= k < |ranges| && ranges[k] == r && vals[k] == v;
    }
    assert values[0] in m.Keys;
  }

  lemma ExtendChain(c: Chain, values: seq<nat>, done: set<nat>, least: nat, w: nat, m: map<nat, seq<Range>>, v: nat)
    requires w > 0 && |values| <= Pow2(w) && Located(m, values) && v in m && v !in done && done <= m.Keys
    requires Chained(c, values, m, done, least, w)
    ensures Chained(Select(m[v], v, c), values, m, done + {v}, least, w)
  {
    hide Signed, Pow2, Maximal, Straddles;
    forall i: nat | i < |values|
      ensures AnyHit(m[v], i, w) <==> values[i] == v && Kept(m[v], i, w)
    {
      HitsAreKept(m[v], i, w, |values|);
      assert Kept(m[v], i, w) ==> Covered(m[v], i);
    }
  }

  lemma HitsAreKept(ranges: seq<Range>, i: nat, w: nat, n: nat)
    requires w > 0 && i < n <= Pow2(w) && forall r :: r in ranges ==> r.lo < r.hi <= n
    ensures AnyHit(ranges, i, w) <==> Kept(ranges, i, w)
  {
    hide Signed, Pow2, Straddles;
    forall k | 0 <= k < |ranges|
      ensures Hit(ranges[k], i, w) <==> In(ranges[k], i) && !Straddles(ranges[k], w)
    {
      assert ranges[k] in ranges;
      HitExact(ranges[k], i, w);
    }
  }

  // ---------------------------------------------------------------- partly symbolic arrays

  /** A concrete value, or something only a read can tell. */
  datatype Element = Element(value: nat, concrete: bool)

  datatype Mixed =
    | Value(value: nat)
    | ReadAt(hole: nat)
    | SelectRange(range: Range, value: nat, otherwise: Mixed)
    | SelectHole(hole: nat, otherwise: Mixed)

  /** The chain for the i-th element, where `read` is the original read. */
  function EvalMixed(c: Mixed, i: nat, w: nat, read: nat -> nat): nat
    requires w > 0
  {
    match c
    case Value(v) => v
    case ReadAt(h) => read(h)
    case SelectRange(r, v, o) => if Hit(r, i, w) then v else EvalMixed(o, i, w, read)
    case SelectHole(h, o) => if i == h then read(h) else EvalMixed(o, i, w, read)
  }

  /** The ranges hold exactly the concrete elements before `n`, each with their value. */
  ghost predicate MixedRuns(values: seq<Element>, n: nat, ranges: seq<Range>, vals: seq<nat>)
    requires n <= |values|
  {
    && |ranges| == |vals|
    && (forall k :: 0 <= k < |ranges| ==> ranges[k].lo < ranges[k].hi <= n)
    && (forall k, i: nat :: 0 <= k < |ranges| && In(ranges[k], i) ==> values[i] == Element(vals[k], true))
    && (forall i: nat :: i < n && values[i].concrete ==> Covered(ranges, i))
    && (forall k :: 0 <= k < |ranges| ==> Maximal(values, n, ranges[k]))
  }

  lemma MoreMixed(values: seq<Element>, at: nat, ranges: seq<Range>, vals: seq<nat>, end: nat, v: nat)
    requires at < end <= |values| && MixedRuns(values, at, ranges, vals)
    requires forall k :: at <= k < end ==> values[k] == Element(v, true)
    requires at > 0 ==> values[at - 1] != values[at]
    ensures MixedRuns(values, end, ranges + [Range(at, end)], vals + [v])
  {
    var rs := ranges + [Range(at, end)];
    assert forall k :: 0 <= k < |ranges| ==> rs[k] == ranges[k];
    forall i: nat | i < end && values[i].concrete
      ensures Covered(rs, i)
    {
      if i >= at {
        assert In(rs[|ranges|], i);
      } else {
        assert Covered(ranges, i);
        var k :| 0 <= k < |ranges| && In(ranges[k], i);
        assert In(rs[k], i);
      }
    }
  }

  lemma SkipHole(values: seq<Element>, i: nat, ranges: seq<Range>, vals: seq<nat>)
    requires i < |values| && !values[i].concrete && MixedRuns(values, i, ranges, vals)
    ensures MixedRuns(values, i + 1, ranges, vals)
  {
    forall k | 0 <= k < |ranges|
      ensures Maximal(values, i + 1, ranges[k])
    {
      assert In(ranges[k], ranges[k].hi - 1);
    }
  }

  lemma NoMixed(values: seq<Element>)
    ensures MixedRuns(values, 0, [], [])
  {
  }

  /** The holes before `n`, the first one in front. */
  ghost predicate Holes(values: seq<Element>, n: nat, holes: seq<nat>)
    requires n <= |values|
  {
    && (forall i: nat :: i in holes <==> i < n && !values[i].concrete)
    && (holes != [] ==> forall j :: 0 <= j < holes[0] < |values| ==> values[j].concrete)
  }

  lemma HolesMore(values: seq<Element>, i: nat, holes: seq<nat>)
    requires i < |values| && Holes(values, i, holes)
    ensures Holes(values, i + 1, if values[i].concrete then holes else holes + [i])
    ensures var more := if values[i].concrete then {values[i].value} else {};
            Concretes(values[..i + 1]) == Concretes(values[..i]) + more
  {
    assert values[..i + 1] == values[..i] + [values[i]];
    if holes == [] {
      assert forall j: nat :: j < i ==> j !in holes;
    }
  }

  lemma NoHoles(values: seq<Element>)
    ensures Holes(values, 0, []) && Concretes(values[..0]) == {} && values[..|values|] == values
  {
  }

  predicate AllConcrete(values: seq<Element>) {
    forall e | e in values :: e.concrete
  }

  function FirstHole(values: seq<Element>): (h: nat)
    requires !AllConcrete(values)
    ensures h < |values| && !values[h].concrete && forall j :: 0 <= j < h ==> values[j].concrete
  {
    if !values[0].concrete then 0
    else
      assert values == [values[0]] + values[1..];
      1 + FirstHole(values[1..])
  }

  /** Separates the concrete runs from the holes.  After a hole it looks at the element behind it; at
      the end of the array that is `past` the end, and whatever lies `beyond`. */
  method FindMixedRuns(values: seq<Element>, beyond: nat)
      returns (ranges: seq<Range>, vals: seq<nat>, holes: seq<nat>, counted: set<nat>, past: bool)
    requires values != []
    ensures past <==> !values[|values| - 1].concrete
    ensures MixedRuns(values, |values|, ranges, vals) && Holes(values, |values|, holes) && counted == Concretes(values)
    ensures ranges != [] && values[0].concrete ==> ranges[0].lo == 0
  {
    hide MixedRuns, Holes, Concretes;
    var n := |values|;
    var at: nat, val: nat, empty := 0, values[0].value, true;
    ranges, vals, holes, counted, past := [], [], [], {}, false;
    NoMixed(values);
    NoHoles(values);
    for i := 0 to n
      invariant past <==> i == n && !values[n - 1].concrete
      invariant counted == Concretes(values[..i])
      invariant |ranges| == |vals| && Holes(values, i, holes)
      invariant values[0].concrete ==> if ranges == [] then at == 0 else ranges[0].lo == 0
      invariant i < n ==> at <= i && (empty <==> at == i) && MixedRuns(values, at, ranges, vals)
      invariant i < n ==> (forall k :: at <= k < i ==> values[k] == Element(val, true))
      invariant i < n && at > 0 && values[at].concrete ==> values[at - 1] != values[at]
      invariant i < n && empty && values[i].concrete ==> values[i].value == val
      invariant i == n ==> MixedRuns(values, n, ranges, vals)
    {
      HolesMore(values, i, holes);
      if values[i].concrete {
        empty := false;
        var temp := values[i].value;
        counted := counted + {temp};
        if temp != val {
          MoreMixed(values, at, ranges, vals, i, val);
          ranges, vals := ranges + [Range(at, i)], vals + [val];
          val, at := temp, i;
          if i == n - 1 {
            MoreMixed(values, at, ranges, vals, at + 1, val);
            ranges, vals := ranges + [Range(at, at + 1)], vals + [val];
          }
        } else if i == n - 1 {
          MoreMixed(values, at, ranges, vals, i + 1, val);
          ranges, vals := ranges + [Range(at, i + 1)], vals + [val];
        }
      } else {
        holes := holes + [i];
        if !empty {
          MoreMixed(values, at, ranges, vals, i, val);
          ranges, vals := ranges + [Range(at, i)], vals + [val];
        }
        SkipHole(values, i, ranges, vals);
        past := i + 1 == n;
        val, at := if past then beyond else values[i + 1].value, i + 1;
        empty := true;
      }
    }
  }

  /** It does look past the end when the last element is symbolic. */
  method LooksPast() returns (past: bool)
    ensures past
  {
    var ranges, vals, holes, counted;
    ranges, vals, holes, counted, past := FindMixedRuns([Element(7, true), Element(0, false)], 9);
  }

  /** The concrete values. */
  function Concretes(values: seq<Element>): set<nat> {
    set e | e in values && e.concrete :: e.value
  }

  /** What the chain has to yield. */
  ghost function Meaning(e: Element, i: nat, read: nat -> nat): nat {
    if e.concrete then e.value else read(i)
  }

  /** The chain yields what it has to on the holes and where the tests of the first `n` ranges work,
      and `other` elsewhere. */
  ghost predicate Right(c: Mixed, values: seq<Element>, ranges: seq<Range>, n: nat, w: nat, read: nat -> nat,
      other: nat)
    requires w > 0 && n <= |ranges|
  {
    forall i: nat :: i < |values| ==>
      EvalMixed(c, i, w, read)
      == if Kept(ranges[..n], i, w) || !values[i].concrete then Meaning(values[i], i, read) else other
  }

  lemma RightMore(c: Mixed, values: seq<Element>, ranges: seq<Range>, vals: seq<nat>, n: nat, w: nat, read: nat -> nat,
      other: nat)
    requires w > 0 && |values| <= Pow2(w) && MixedRuns(values, |values|, ranges, vals) && n < |ranges|
    requires Right(c, values, ranges, n, w, read, other)
    ensures Right(SelectRange(ranges[n], vals[n], c), values, ranges, n + 1, w, read, other)
  {
    hide Signed, Pow2, Straddles, Maximal;
    forall i: nat | i < |values|
      ensures EvalMixed(SelectRange(ranges[n], vals[n], c), i, w, read)
              == if Kept(ranges[..n + 1], i, w) || !values[i].concrete then Meaning(values[i], i, read) else other
    {
      HitExact(ranges[n], i, w);
      KeptMore(ranges, n, i, w);
    }
  }

  lemma KeptMore(ranges: seq<Range>, n: nat, i: nat, w: nat)
    requires n < |ranges| && w > 0
    ensures Kept(ranges[..n + 1], i, w) <==> Kept(ranges[..n], i, w) || (In(ranges[n], i) && !Straddles(ranges[n], w))
  {
    assert forall k :: 0 <= k < n ==> ranges[..n + 1][k] == ranges[..n][k];
    assert ranges[..n + 1][n] == ranges[n];
  }

  method ReadHoles(holes: seq<nat>) returns (c: Mixed)
    requires holes != []
    ensures forall i, w, read :: w > 0 ==> EvalMixed(c, i, w, read) == read(if i in holes then i else holes[0])
  {
    c := ReadAt(holes[0]);
    for k := 1 to |holes|
      invariant forall i, w, read :: w > 0 ==> EvalMixed(c, i, w, read) == read(if i in holes[..k] then i else holes[0])
    {
      assert holes[..k + 1] == holes[..k] + [holes[k]];
      c := SelectHole(holes[k], c);
    }
    assert holes[..|holes|] == holes;
  }

  /** The run of the last element below the sign bit is a single element, or there are no holes and
      it has the value the chain starts with. */
  predicate MixedSafe(values: seq<Element>, w: nat)
    requires w > 0
  {
    var h := Pow2(w - 1);
    || |values| < h
    || !values[h - 1].concrete
    || Alone(values, h - 1)
    || (values[h - 1] == values[0] && AllConcrete(values))
  }

  /** What the chain starts with: the first element, or the read of the first hole. */
  function Fallback(values: seq<Element>, read: nat -> nat): nat
    requires values != []
  {
    if AllConcrete(values) then values[0].value else read(FirstHole(values))
  }

  /** What the chain yields: the element, or what it starts with where the test is lost. */
  ghost function Yielded(values: seq<Element>, w: nat, i: nat, read: nat -> nat): nat
    requires w > 0 && i < |values|
  {
    if values[i].concrete && Lost(values, w, i) then Fallback(values, read) else Meaning(values[i], i, read)
  }

  /** A whole array is right exactly under the condition above. */
  lemma YieldedExactly(values: seq<Element>, w: nat)
    requires w > 0
    ensures (forall i: nat, read :: i < |values| ==> Yielded(values, w, i, read) == Meaning(values[i], i, read)) <==>
            MixedSafe(values, w)
  {
    hide Pow2, Alone, FirstHole, AllConcrete;
    var k: nat := Pow2(w - 1) - 1;
    forall i: nat, read: nat -> nat | i < |values| && MixedSafe(values, w)
      ensures Yielded(values, w, i, read) == Meaning(values[i], i, read)
    {
      if Lost(values, w, i) {
        assert values[k] == values[i];
      }
    }
    if !MixedSafe(values, w) {
      assert SameRun(values, k, k);
      assert Lost(values, w, k);
      var wrong := values[k].value + 1;
      var read: nat -> nat := x => wrong;
      FirstIsConcrete(values);
      assert Yielded(values, w, k, read) != Meaning(values[k], k, read);
    }
  }

  lemma FirstIsConcrete(values: seq<Element>)
    ensures AllConcrete(values) && values != [] ==> values[0].concrete
  {
  }

  /** An array for which it fails: a hole and 2^31 equal elements. */
  lemma MixedLost(read: nat -> nat)
    ensures var values := [Element(0, false)] + seq(Pow2(31), i => Element(1, true));
            |values| <= Pow2(32) && !MixedSafe(values, 32)
            && Yielded(values, 32, 1, read) == read(0) && values[1] == Element(1, true)
  {
    var values: seq<Element> := [Element(0, false)] + seq(Pow2(31), i => Element(1, true));
    var h := Pow2(31);
    assert h >= 2 by {
      assert Pow2(31) == 2 * Pow2(30);
    }
    hide Pow2;
    assert Pow2(32) == 2 * h by {
      Pow2Adds(1, 31);
      OneBit();
    }
    assert values[0] == Element(0, false) && values[0] in values;
    assert values[h] == values[h - 1] == Element(1, true);
    assert !MixedSafe(values, 32);
    hide AllConcrete;
    assert Lost(values, 32, 1);
    assert FirstHole(values) == 0;
  }

  lemma OneBit()
    ensures Pow2(1) == 2
  {
    assert Pow2(0) == 1;
  }

  /** What the chain starts with. */
  function Start(vals: seq<nat>, holes: seq<nat>, read: nat -> nat): nat
    requires vals != []
  {
    if holes == [] then vals[0] else read(holes[0])
  }

  /** Builds the chain for a partly symbolic array, or nothing when it has too many different
      values. */
  method BuildMixedSelect(values: seq<Element>, w: nat, ratio: real, beyond: nat) returns (c: Option<Mixed>)
    requires Concretes(values) != {} && w > 0 && |values| <= Pow2(w)
    ensures c.Some? <==> (|Concretes(values)| as real) / (|values| as real) <= ratio
    ensures c.Some? ==> forall i: nat, read :: i < |values| ==>
                          EvalMixed(c.value, i, w, read) == Yielded(values, w, i, read)
    ensures c.Some? ==>
              ((forall i: nat, read :: i < |values| ==>
                EvalMixed(c.value, i, w, read) == Meaning(values[i], i, read)) <==> MixedSafe(values, w))
  {
    hide MixedRuns, EvalMixed, Right, Pow2, Meaning, MixedSafe, Start, Kept, Yielded;
    var ranges, vals, holes, counted, past := FindMixedRuns(values, beyond);
    SomeRange(values, ranges, vals);
    if (|counted| as real) / (|values| as real) > ratio {
      return None;
    }
    var first := 0;
    var chain;
    if holes == [] {
      chain := Value(vals[0]);
      first := 1;
      StartWithValue(values, ranges, vals, holes, w);
    } else {
      chain := ReadHoles(holes);
      StartWithReads(chain, values, ranges, vals, holes, w);
    }
    for n := first to |ranges|
      invariant forall read: nat -> nat :: Right(chain, values, ranges, n, w, read, Start(vals, holes, read))
    {
      var next, m := SelectRange(ranges[n], vals[n], chain), n + 1;
      forall read: nat -> nat
        ensures Right(next, values, ranges, m, w, read, Start(vals, holes, read))
      {
        RightMore(chain, values, ranges, vals, n, w, read, Start(vals, holes, read));
      }
      chain := next;
    }
    MixedDone(chain, values, ranges, vals, holes, w);
    YieldedExactly(values, w);
    return Some(chain);
  }

  lemma SomeRange(values: seq<Element>, ranges: seq<Range>, vals: seq<nat>)
    requires Concretes(values) != {} && MixedRuns(values, |values|, ranges, vals)
    ensures values != [] && |ranges| == |vals| > 0
  {
    var v :| v in Concretes(values);
    var i :| 0 <= i < |values| && values[i].concrete;
    assert Covered(ranges, i);
  }

  lemma StartWithValue(values: seq<Element>, ranges: seq<Range>, vals: seq<nat>, holes: seq<nat>, w: nat)
    requires w > 0 && MixedRuns(values, |values|, ranges, vals) && Holes(values, |values|, holes) && holes == []
             && ranges != []
    ensures forall read: nat -> nat :: Right(Value(vals[0]), values, ranges, 1, w, read, Start(vals, holes, read))
  {
    hide Maximal, Straddles;
    forall read: nat -> nat, i: nat | i < |values|
      ensures Kept(ranges[..1], i, w) || !values[i].concrete ==> Meaning(values[i], i, read) == vals[0]
    {
      assert i !in holes;
      assert Kept(ranges[..1], i, w) ==> In(ranges[0], i);
    }
  }

  lemma StartWithReads(c: Mixed, values: seq<Element>, ranges: seq<Range>, vals: seq<nat>, holes: seq<nat>, w: nat)
    requires w > 0 && MixedRuns(values, |values|, ranges, vals) && Holes(values, |values|, holes) && holes != []
             && vals != []
    requires forall i, w, read :: w > 0 ==> EvalMixed(c, i, w, read) == read(if i in holes then i else holes[0])
    ensures forall read: nat -> nat :: Right(c, values, ranges, 0, w, read, Start(vals, holes, read))
  {
    hide Maximal, Straddles;
    assert forall i :: !Kept(ranges[..0], i, w);
  }

  lemma MixedDone(c: Mixed, values: seq<Element>, ranges: seq<Range>, vals: seq<nat>, holes: seq<nat>, w: nat)
    requires w > 0 && MixedRuns(values, |values|, ranges, vals) && Holes(values, |values|, holes) && values != []
             && vals != []
    requires values[0].concrete ==> ranges[0].lo == 0
    requires forall read: nat -> nat :: Right(c, values, ranges, |ranges|, w, read, Start(vals, holes, read))
    ensures forall i: nat, read :: i < |values| ==> EvalMixed(c, i, w, read) == Yielded(values, w, i, read)
  {
    hide MixedRuns, Pow2, EvalMixed, Kept, Lost, Start, Fallback;
    assert ranges[..|ranges|] == ranges;
    forall i: nat, read: nat -> nat | i < |values|
      ensures EvalMixed(c, i, w, read) == Yielded(values, w, i, read)
    {
      assert Right(c, values, ranges, |ranges|, w, read, Start(vals, holes, read));
      if values[i].concrete {
        MixedKept(values, ranges, vals, i, w);
      }
      StartsWith(values, ranges, vals, holes, read);
    }
  }

  lemma MixedKept(values: seq<Element>, ranges: seq<Range>, vals: seq<nat>, i: nat, w: nat)
    requires w > 0 && MixedRuns(values, |values|, ranges, vals) && i < |values| && values[i].concrete
    ensures Kept(ranges, i, w) <==> !Lost(values, w, i)
  {
    hide Pow2, Lost, MixedRuns, Straddles, Maximal;
    var first := MixedRangeOf(values, ranges, vals, i);
    forall k | 0 <= k < |ranges| && In(ranges[k], i)
      ensures Straddles(ranges[k], w) <==> Lost(values, w, i)
    {
      MixedRunOf(values, ranges, vals, k);
      CoverLost(values, ranges[k], i, w);
    }
  }

  lemma MixedRangeOf(values: seq<Element>, ranges: seq<Range>, vals: seq<nat>, i: nat) returns (k: nat)
    requires MixedRuns(values, |values|, ranges, vals) && i < |values| && values[i].concrete
    ensures k < |ranges| && In(ranges[k], i)
  {
    assert Covered(ranges, i);
    k :| k < |ranges| && In(ranges[k], i);
  }

  lemma StartsWith(values: seq<Element>, ranges: seq<Range>, vals: seq<nat>, holes: seq<nat>, read: nat -> nat)
    requires MixedRuns(values, |values|, ranges, vals) && Holes(values, |values|, holes) && vals != [] && values != []
    requires values[0].concrete ==> ranges[0].lo == 0
    ensures Start(vals, holes, read) == Fallback(values, read)
  {
    hide Maximal;
    if holes != [] {
      assert holes[0] in holes;
      assert values[holes[0]] in values && !values[holes[0]].concrete;
    } else {
      forall i | 0 <= i < |values|
        ensures values[i].concrete
      {
        assert i !in holes;
      }
      assert In(ranges[0], 0);
    }
  }

  lemma MixedRunOf(values: seq<Element>, ranges: seq<Range>, vals: seq<nat>, k: nat)
    requires MixedRuns(values, |values|, ranges, vals) && k < |ranges|
    ensures ranges[k].lo < ranges[k].hi <= |values| && Maximal(values, |values|, ranges[k])
    ensures forall i :: ranges[k].lo <= i < ranges[k].hi ==> values[i] == Element(vals[k], true)
  {
    forall i | ranges[k].lo <= i < ranges[k].hi
      ensures values[i] == Element(vals[k], true)
    {
      assert In(ranges[k], i);
    }
  }
}
