/** Replacing the condition on an array read by a condition on its index: the indices that satisfy
    it, as a disjunction of ranges, or their complement when that is shorter. */
module ArrayRewriter {
  import opened Options
  import opened Arithmetic
  import opened Extrema

  /** Conditions on one index; a range includes both ends. */
  datatype Cond = IsAt(at: nat) | Between(first: nat, last: nat)

  predicate Meets(c: Cond, i: nat) {
    match c
    case IsAt(at) => at == i
    case Between(first, last) => first <= i <= last
  }

  ghost predicate AnyMeets(cs: seq<Cond>, i: nat) {
    exists c :: c in cs && Meets(c, i)
  }

  /** The slots whose bit is wanted. */
  predicate Wanted(bits: seq<bool>, invert: bool, k: nat) {
    k < |bits| && bits[k] != invert
  }

  function MakeCond(start: nat, end: nat, width: nat): Cond
    requires start < end
  {
    if end - start == 1 then IsAt(width * start) else Between(width * start, width * (end - 1))
  }

  lemma MakeCondMeets(start: nat, end: nat, width: nat, k: nat)
    requires start < end && width > 0
    ensures Meets(MakeCond(start, end, width), width * k) <==> start <= k < end
  {
    TimesOrder(width, start, k);
    TimesOrder(width, k, end - 1);
  }

  /** The conditions cover exactly the wanted slots below `n`. */
  ghost predicate Covers(cs: seq<Cond>, bits: seq<bool>, invert: bool, width: nat, n: nat) {
    forall k: nat :: AnyMeets(cs, width * k) <==> k < n && Wanted(bits, invert, k)
  }

  lemma AddRange(cs: seq<Cond>, bits: seq<bool>, invert: bool, width: nat, start: nat, end: nat)
    requires Covers(cs, bits, invert, width, start) && start < end && width > 0
    requires forall k :: start <= k < end ==> Wanted(bits, invert, k)
    ensures Covers(cs + [MakeCond(start, end, width)], bits, invert, width, end)
  {
    hide Wanted;
    var c := MakeCond(start, end, width);
    forall k: nat
      ensures AnyMeets(cs + [c], width * k) <==> k < end && Wanted(bits, invert, k)
    {
      MakeCondMeets(start, end, width, k);
      AnyMeetsMore(cs, c, width * k);
    }
  }

  lemma AnyMeetsMore(cs: seq<Cond>, c: Cond, i: nat)
    ensures AnyMeets(cs + [c], i) <==> AnyMeets(cs, i) || Meets(c, i)
  {
    assert forall d :: d in cs + [c] <==> d in cs || d == c;
  }

  /** Collects the runs of wanted slots. */
  method CollectRuns(bits: seq<bool>, invert: bool, width: nat) returns (cs: seq<Cond>)
    requires width > 0
    ensures Covers(cs, bits, invert, width, |bits|)
  {
    hide Covers;
    cs := [];
    var start: Option<nat> := None;
    NothingCovered(bits, invert, width);
    for i := 0 to |bits|
      invariant start.Some? ==> start.value < i && (forall k :: start.value <= k < i ==> Wanted(bits, invert, k))
      invariant Covers(cs, bits, invert, width, if start.Some? then start.value else i)
    {
      if (!invert && bits[i]) || (invert && !bits[i]) {
        if start.None? {
          start := Some(i);
        }
      } else {
        if start.Some? {
          AddRange(cs, bits, invert, width, start.value, i);
          cs := cs + [MakeCond(start.value, i, width)];
          start := None;
        }
        SkipOne(cs, bits, invert, width, i);
      }
    }
    if start.Some? {
      AddRange(cs, bits, invert, width, start.value, |bits|);
      cs := cs + [MakeCond(start.value, |bits|, width)];
    }
  }

  lemma NothingCovered(bits: seq<bool>, invert: bool, width: nat)
    ensures Covers([], bits, invert, width, 0)
  {
  }

  lemma SkipOne(cs: seq<Cond>, bits: seq<bool>, invert: bool, width: nat, i: nat)
    requires Covers(cs, bits, invert, width, i) && !Wanted(bits, invert, i)
    ensures Covers(cs, bits, invert, width, i + 1)
  {
  }

  predicate Aligned(v: nat, width: nat) {
    width > 0 && v % width == 0
  }

  function Slot(v: nat, width: nat): nat
    requires width > 0
  {
    v / width
  }

  lemma SlotOf(v: nat, width: nat, k: nat)
    requires width > 0 && Aligned(v, width)
    ensures Slot(v, width) == k <==> v == width * k
  {
    assert v == width * (v / width) + v % width;
    TimesOrder(width, v / width, k);
  }

  /** One bit for every slot that holds a solution. */
  ghost predicate BitsOf(bits: seq<bool>, solutions: seq<nat>, width: nat, n: nat)
    requires width > 0 && n <= |solutions|
  {
    forall k :: 0 <= k < |bits| ==> (bits[k] <==> exists j :: 0 <= j < n && Slot(solutions[j], width) == k)
  }

  method SetBits(solutions: seq<nat>, width: nat, n: nat) returns (bits: seq<bool>, count: nat)
    requires width > 0 && forall j :: 0 <= j < |solutions| ==> Slot(solutions[j], width) < n
    ensures |bits| == n && BitsOf(bits, solutions, width, |solutions|) && count == |solutions|
  {
    hide Slot;
    bits, count := seq(n, _ => false), 0;
    for i := 0 to |solutions|
      invariant |bits| == n && count == i && BitsOf(bits, solutions, width, i)
    {
      bits := bits[Slot(solutions[i], width) := true];
      count := count + 1;
    }
  }

  lemma CoversAt(cs: seq<Cond>, bits: seq<bool>, invert: bool, width: nat, k: nat)
    requires Covers(cs, bits, invert, width, |bits|) && k < |bits|
    ensures AnyMeets(cs, width * k) <==> bits[k] != invert
  {
  }

  lemma SlotIsSolution(solutions: seq<nat>, width: nat, k: nat)
    requires width > 0 && forall j :: 0 <= j < |solutions| ==> Aligned(solutions[j], width)
    ensures (exists j :: 0 <= j < |solutions| && Slot(solutions[j], width) == k) <==> width * k in solutions
  {
    hide Slot, Aligned;
    forall j | 0 <= j < |solutions|
      ensures Slot(solutions[j], width) == k <==> solutions[j] == width * k
    {
      SlotOf(solutions[j], width, k);
    }
  }

  ghost function UnsetSlot(bits: seq<bool>, solutions: seq<nat>, width: nat): (k: nat)
    requires width > 0 && BitsOf(bits, solutions, width, |solutions|) && |solutions| < |bits|
    ensures k < |bits| && !bits[k]
  {
    Pigeonhole(bits, solutions, width);
    var k :| 0 <= k < |bits| && !bits[k];
    k
  }

  lemma Pigeonhole(bits: seq<bool>, solutions: seq<nat>, width: nat)
    requires width > 0 && BitsOf(bits, solutions, width, |solutions|) && |solutions| < |bits|
    ensures exists k :: 0 <= k < |bits| && !bits[k]
  {
    hide Slot;
    var slots := Slots(solutions, width);
    if forall k :: 0 <= k < |bits| ==> bits[k] {
      forall k | k in Upto(|bits|)
        ensures k in slots
      {
        assert bits[k];
      }
      SubsetSize(Upto(|bits|), slots);
    }
  }

  function Slots(solutions: seq<nat>, width: nat): (s: set<nat>)
    requires width > 0
    ensures |s| <= |solutions| && forall j :: 0 <= j < |solutions| ==> Slot(solutions[j], width) in s
  {
    if solutions == [] then {} else {Slot(solutions[0], width)} + Slots(solutions[1..], width)
  }

  // ---------------------------------------------------------------- several indices

  /** An index of an array, and its values that satisfy the condition.  Whether most slots hold one is
      decided by comparing floating-point numbers, here `mostlySet`. */
  datatype Search = Search(index: nat, solutions: seq<nat>, size: nat, width: nat, mostlySet: bool)

  function SlotCount(q: Search): nat {
    if q.width == 0 then 0 else q.size / q.width
  }

  ghost predicate Sound(q: Search) {
    q.width > 0 && forall v :: v in q.solutions ==> Aligned(v, q.width) && Slot(v, q.width) < SlotCount(q)
  }

  /** A value the index may have: aligned and inside the array. */
  ghost predicate Fits(q: Search, v: nat) {
    Aligned(v, q.width) && Slot(v, q.width) < SlotCount(q)
  }

  type Values = nat -> nat

  /** Searches without solutions are passed over, so nothing is asked of their indices. */
  ghost predicate FitsAll(qs: seq<Search>, x: Values) {
    forall k :: 0 <= k < |qs| && qs[k].solutions != [] ==> Fits(qs[k], x(qs[k].index))
  }

  /** A condition on one of the indices. */
  datatype Clause = Clause(index: nat, cond: Cond)

  ghost predicate AnyHolds(cs: seq<Clause>, x: Values) {
    exists c :: c in cs && Meets(c.cond, x(c.index))
  }

  /** The rewritten condition: some clause holds, or none does. */
  datatype Rewritten = Rewritten(clauses: seq<Clause>, invert: bool)

  ghost predicate Holds(r: Rewritten, x: Values) {
    AnyHolds(r.clauses, x) != r.invert
  }

  /** The flag for inversion is shared: it stays as the last search left it that decided. */
  function FlagAfter(qs: seq<Search>, n: nat): bool
    requires n <= |qs|
  {
    if n == 0 then false
    else
      var q := qs[n - 1];
      if 1 < |q.solutions| < SlotCount(q) then q.mostlySet else FlagAfter(qs, n - 1)
  }

  /** The clauses of a search are those of the values that are not solutions.  A search that does not
      decide, because all values are solutions, inherits the flag of an earlier one. */
  predicate Inverted(qs: seq<Search>, k: nat)
    requires k < |qs|
  {
    |qs[k].solutions| > 1 && FlagAfter(qs, k + 1)
  }

  /** The clauses of a search hold: its index is a solution, or is not when they are inverted. */
  ghost predicate Turned(qs: seq<Search>, k: nat, x: Values)
    requires k < |qs|
  {
    qs[k].solutions != [] && ((x(qs[k].index) in qs[k].solutions) != Inverted(qs, k))
  }

  ghost predicate AnyTurned(qs: seq<Search>, n: nat, x: Values)
    requires n <= |qs|
  {
    exists k :: 0 <= k < n && Turned(qs, k, x)
  }

  function Clauses(index: nat, cs: seq<Cond>): seq<Clause> {
    seq(|cs|, k requires 0 <= k < |cs| => Clause(index, cs[k]))
  }

  lemma AnyOfBoth(a: seq<Clause>, index: nat, cs: seq<Cond>, x: Values)
    ensures AnyHolds(a + Clauses(index, cs), x) <==> AnyHolds(a, x) || AnyMeets(cs, x(index))
  {
    var b := Clauses(index, cs);
    assert forall c :: c in a + b <==> c in a || c in b;
    if AnyMeets(cs, x(index)) {
      var c :| c in cs && Meets(c, x(index));
      var k :| 0 <= k < |cs| && cs[k] == c;
      assert b[k] in b && Meets(b[k].cond, x(b[k].index));
    }
  }

  /** The conditions of one search, for values the index may have. */
  lemma OneSearch(q: Search, bits: seq<bool>, invert: bool, cs: seq<Cond>, v: nat)
    requires Sound(q) && Fits(q, v) && |bits| == SlotCount(q)
    requires BitsOf(bits, q.solutions, q.width, |q.solutions|) && Covers(cs, bits, invert, q.width, |bits|)
    ensures AnyMeets(cs, v) <==> (v in q.solutions) != invert
  {
    hide Slot, Aligned, Covers;
    var k := Slot(v, q.width);
    SlotOf(v, q.width, k);
    SlotIsSolution(q.solutions, q.width, k);
    CoversAt(cs, bits, invert, q.width, k);
  }

  /** Turns the solutions of all searches into one condition on the indices. */
  method Rewrite(qs: seq<Search>) returns (r: Option<Rewritten>)
    requires forall k :: 0 <= k < |qs| ==> Sound(qs[k])
    ensures r.None? ==> forall x :: FitsAll(qs, x) ==> !AnyTurned(qs, |qs|, x)
    ensures r.Some? ==> forall x :: FitsAll(qs, x) ==>
                          (Holds(r.value, x) <==> AnyTurned(qs, |qs|, x) != FlagAfter(qs, |qs|))
  {
    hide Slot, Aligned, Covers, Fits, Turned, AnyTurned, AnyHolds, SlotCount, Clauses;
    var clauses: seq<Clause> := [];
    var invert := false;
    NothingTurned(qs);
    for n := 0 to |qs|
      invariant invert == FlagAfter(qs, n)
      invariant forall x :: FitsAll(qs, x) ==> (AnyHolds(clauses, x) <==> AnyTurned(qs, n, x))
    {
      var q := qs[n];
      var cs := [];
      if |q.solutions| == 1 {
        cs := [IsAt(q.solutions[0])];
      } else if |q.solutions| > 1 {
        SlotsInside(q);
        var bits, count := SetBits(q.solutions, q.width, SlotCount(q));
        if 0 < count < SlotCount(q) {
          invert := q.mostlySet;
        }
        cs := CollectRuns(bits, invert, q.width);
        forall v | Fits(q, v)
          ensures AnyMeets(cs, v) <==> (v in q.solutions) != invert
        {
          OneSearch(q, bits, invert, cs, v);
        }
      }
      forall x | FitsAll(qs, x)
        ensures AnyHolds(clauses + Clauses(q.index, cs), x) <==> AnyTurned(qs, n + 1, x)
      {
        AnyOfBoth(clauses, q.index, cs, x);
        TurnedMore(qs, n, x, cs);
      }
      clauses := clauses + Clauses(q.index, cs);
    }
    if clauses == [] {
      NothingHolds();
      return None;
    }
    return Some(Rewritten(clauses, invert));
  }

  lemma SlotsInside(q: Search)
    requires Sound(q)
    ensures forall j :: 0 <= j < |q.solutions| ==> Slot(q.solutions[j], q.width) < SlotCount(q)
  {
  }

  lemma NothingHolds()
    ensures forall x :: !AnyHolds([], x)
  {
  }

  lemma NothingTurned(qs: seq<Search>)
    requires forall k :: 0 <= k < |qs| ==> Sound(qs[k])
    ensures forall x :: !AnyTurned(qs, 0, x) && !AnyHolds([], x)
  {
  }

  lemma TurnedMore(qs: seq<Search>, n: nat, x: Values, cs: seq<Cond>)
    requires n < |qs| && (forall k :: 0 <= k < |qs| ==> Sound(qs[k])) && FitsAll(qs, x)
    requires var q := qs[n];
             if q.solutions == [] then cs == []
             else if |q.solutions| == 1 then cs == [IsAt(q.solutions[0])]
             else forall v :: Fits(q, v) ==> (AnyMeets(cs, v) <==> (v in q.solutions) != FlagAfter(qs, n + 1))
    ensures AnyTurned(qs, n + 1, x) <==> AnyTurned(qs, n, x) || AnyMeets(cs, x(qs[n].index))
  {
    hide Slot, Aligned, SlotCount;
    var q := qs[n];
    var v := x(q.index);
    assert q.solutions != [] ==> Fits(q, v);
    if |q.solutions| == 1 {
      AnyMeetsMore([], IsAt(q.solutions[0]), v);
      assert [] + [IsAt(q.solutions[0])] == [IsAt(q.solutions[0])];
      assert v in q.solutions <==> v == q.solutions[0];
    }
    assert AnyMeets(cs, v) <==> Turned(qs, n, x);
  }

  // ---------------------------------------------------------------- when the shared flag is right

  /** Some index is a solution. */
  ghost predicate SomeSolution(qs: seq<Search>, x: Values) {
    exists k :: 0 <= k < |qs| && x(qs[k].index) in qs[k].solutions
  }

  ghost predicate Different(qs: seq<Search>) {
    forall j, k :: 0 <= j < k < |qs| ==> qs[j].index != qs[k].index
  }

  /** Every value the index may have is a solution. */
  ghost predicate Full(q: Search) {
    forall v :: Fits(q, v) ==> v in q.solutions
  }

  /** The rewritten condition is the disjunction that is meant. */
  ghost predicate Right(qs: seq<Search>) {
    forall x :: FitsAll(qs, x) ==> (AnyTurned(qs, |qs|, x) != FlagAfter(qs, |qs|) <==> SomeSolution(qs, x))
  }

  /** Exactly one search has solutions. */
  ghost predicate OneFound(qs: seq<Search>) {
    exists d :: 0 <= d < |qs| && qs[d].solutions != []
                && forall k :: 0 <= k < |qs| && k != d ==> qs[k].solutions == []
  }

  /** Some search is not inverted and has all values as solutions. */
  ghost predicate PlainFull(qs: seq<Search>) {
    exists k :: 0 <= k < |qs| && qs[k].solutions != [] && !Inverted(qs, k) && Full(qs[k])
  }

  /** For searches over different indices the shared flag is right exactly if it ends up set and only
      one search has solutions, or it ends up cleared and no search was inverted on the way, unless
      some other search is met by every value anyway. */
  lemma SharedFlagExact(qs: seq<Search>)
    requires (forall k :: 0 <= k < |qs| ==> Sound(qs[k])) && Different(qs)
    ensures Right(qs) <==>
            if FlagAfter(qs, |qs|) then OneFound(qs)
            else PlainFull(qs) || forall k :: 0 <= k < |qs| ==> !Inverted(qs, k)
  {
    hide Sound, Turned, AnyTurned, SomeSolution, FitsAll, FlagAfter, Inverted, Full, Right, PlainFull, Different;
    if FlagAfter(qs, |qs|) {
      var d := Decider(qs, |qs|);
      if OneFound(qs) {
        OnlyDecider(qs, d);
      } else {
        var i :| 0 <= i < |qs| && i != d && qs[i].solutions != [];
        AnotherSearch(qs, d, i);
      }
    } else if forall k :: 0 <= k < |qs| ==> !Inverted(qs, k) {
      NoneInverted(qs);
    } else if PlainFull(qs) {
      AlwaysMet(qs);
    } else {
      var j :| 0 <= j < |qs| && Inverted(qs, j);
      SomeInverted(qs, j);
    }
  }

  /** The search that set the flag. */
  lemma {:induction false} Decider(qs: seq<Search>, n: nat) returns (d: nat)
    requires n <= |qs| && (forall k :: 0 <= k < |qs| ==> Sound(qs[k])) && FlagAfter(qs, n)
    ensures d < n && qs[d].solutions != [] && Inverted(qs, d) && !Full(qs[d])
    decreases n
  {
    hide Sound, Full;
    var q := qs[n - 1];
    if 1 < |q.solutions| < SlotCount(q) {
      NotFull(q);
      d := n - 1;
    } else {
      d := Decider(qs, n - 1);
    }
  }

  lemma NotFull(q: Search)
    requires Sound(q) && |q.solutions| < SlotCount(q)
    ensures !Full(q)
  {
    SlotsInside(q);
    var bits: seq<bool> := BitsFor(q.solutions, q.width, SlotCount(q));
    var k := UnsetSlot(bits, q.solutions, q.width);
    SlotIsSolution(q.solutions, q.width, k);
    MultipleFits(q.width, k);
    assert Fits(q, q.width * k);
  }

  ghost function BitsFor(solutions: seq<nat>, width: nat, n: nat): (bits: seq<bool>)
    requires width > 0
    ensures |bits| == n && BitsOf(bits, solutions, width, |solutions|)
  {
    seq(n, k => exists j :: 0 <= j < |solutions| && Slot(solutions[j], width) == k)
  }

  lemma MultipleFits(width: nat, k: nat)
    requires width > 0
    ensures Aligned(width * k, width) && Slot(width * k, width) == k
  {
    Remainder(width, k, 0);
  }

  lemma OnlyDecider(qs: seq<Search>, d: nat)
    requires d < |qs| && qs[d].solutions != [] && Inverted(qs, d) && FlagAfter(qs, |qs|) && OneFound(qs)
    ensures Right(qs)
  {
    hide FlagAfter, Inverted;
    forall x | FitsAll(qs, x)
      ensures AnyTurned(qs, |qs|, x) <==> !SomeSolution(qs, x)
    {
      assert Turned(qs, d, x) <==> x(qs[d].index) !in qs[d].solutions;
    }
  }

  lemma NoneInverted(qs: seq<Search>)
    requires !FlagAfter(qs, |qs|) && forall k :: 0 <= k < |qs| ==> !Inverted(qs, k)
    ensures Right(qs)
  {
    hide FlagAfter, Inverted;
    forall x | FitsAll(qs, x)
      ensures AnyTurned(qs, |qs|, x) <==> SomeSolution(qs, x)
    {
      assert forall k :: 0 <= k < |qs| ==> (Turned(qs, k, x) <==> x(qs[k].index) in qs[k].solutions);
    }
  }

  lemma AlwaysMet(qs: seq<Search>)
    requires !FlagAfter(qs, |qs|) && PlainFull(qs)
    ensures Right(qs)
  {
    hide FlagAfter, Inverted;
    var k :| 0 <= k < |qs| && qs[k].solutions != [] && !Inverted(qs, k) && Full(qs[k]);
    forall x | FitsAll(qs, x)
      ensures AnyTurned(qs, |qs|, x) && SomeSolution(qs, x)
    {
      assert Fits(qs[k], x(qs[k].index));
      assert Turned(qs, k, x);
    }
  }

  /** Values for all indices: solutions for the searches that are chosen, others for the rest. */
  lemma {:induction false} Choices(qs: seq<Search>, chosen: set<nat>, n: nat) returns (x: Values)
    requires n <= |qs| && (forall k :: 0 <= k < |qs| ==> Sound(qs[k])) && Different(qs)
    requires forall k :: 0 <= k < n && qs[k].solutions != [] && k !in chosen ==> !Full(qs[k])
    ensures forall k :: 0 <= k < n && qs[k].solutions != [] ==>
              Fits(qs[k], x(qs[k].index)) && (x(qs[k].index) in qs[k].solutions <==> k in chosen)
    decreases n
  {
    hide Fits;
    if n == 0 {
      x := i => 0;
    } else {
      var y := Choices(qs, chosen, n - 1);
      var q := qs[n - 1];
      var v: nat := 0;
      if q.solutions != [] {
        if n - 1 in chosen {
          v := q.solutions[0];
          SolutionFits(q);
        } else {
          v :| Fits(q, v) && v !in q.solutions;
        }
      }
      x := i => if i == q.index then v else y(i);
    }
  }

  lemma SolutionFits(q: Search)
    requires Sound(q) && q.solutions != []
    ensures Fits(q, q.solutions[0])
  {
  }

  /** The flag is set, but another search has solutions too: let the search that set it miss and all
      others hit. */
  lemma AnotherSearch(qs: seq<Search>, d: nat, i: nat)
    requires (forall k :: 0 <= k < |qs| ==> Sound(qs[k])) && Different(qs) && FlagAfter(qs, |qs|)
    requires d < |qs| && qs[d].solutions != [] && Inverted(qs, d) && !Full(qs[d])
    requires i < |qs| && i != d && qs[i].solutions != []
    ensures !Right(qs)
  {
    hide FlagAfter, Inverted, Sound, Full, Fits;
    var x := Choices(qs, Upto(|qs|) - {d}, |qs|);
    assert FitsAll(qs, x);
    assert Turned(qs, d, x) && x(qs[i].index) in qs[i].solutions;
  }

  /** The flag is cleared, but a search was inverted: let the inverted ones hit and all others miss. */
  lemma SomeInverted(qs: seq<Search>, j: nat)
    requires (forall k :: 0 <= k < |qs| ==> Sound(qs[k])) && Different(qs) && !FlagAfter(qs, |qs|)
    requires j < |qs| && Inverted(qs, j) && !PlainFull(qs)
    ensures !Right(qs)
  {
    hide FlagAfter, Sound, Full, Fits;
    var chosen := set k: nat | k < |qs| && Inverted(qs, k);
    var x := Choices(qs, chosen, |qs|);
    assert FitsAll(qs, x);
    assert j in chosen && x(qs[j].index) in qs[j].solutions;
    assert forall k :: 0 <= k < |qs| ==> !Turned(qs, k, x);
  }

  /** A single search is always right, whatever its solutions. */
  lemma OnlyOne(qs: seq<Search>)
    requires |qs| == 1
    ensures Right(qs)
  {
    assert FlagAfter(qs, 0) == false;
    forall x | FitsAll(qs, x)
      ensures AnyTurned(qs, 1, x) != FlagAfter(qs, 1) <==> SomeSolution(qs, x)
    {
      assert AnyTurned(qs, 1, x) <==> Turned(qs, 0, x);
      assert SomeSolution(qs, x) <==> x(qs[0].index) in qs[0].solutions;
    }
  }

  ghost predicate Admissible(qs: seq<Search>) {
    (forall k :: 0 <= k < |qs| ==> Sound(qs[k])) && Different(qs)
  }

  const TwoOfThree := Search(0, [0, 1], 3, 1, true)

  /** Two of three values of one index are solutions, so its clauses are inverted.  Then a second index
      makes the result wrong whether it leaves the flag, clears it or, with all values as solutions,
      inherits it; */
  lemma SharedFlagFails()
    ensures var qs := [TwoOfThree, Search(1, [0], 3, 1, false)]; Admissible(qs) && !Right(qs)
    ensures var qs := [TwoOfThree, Search(1, [0, 1], 5, 1, false)]; Admissible(qs) && !Right(qs)
    ensures var qs := [TwoOfThree, Search(1, [0, 1, 2], 3, 1, true)]; Admissible(qs) && !Right(qs)
  {
    FailsWith(Search(1, [0], 3, 1, false));
    FailsWith(Search(1, [0, 1], 5, 1, false));
    FailsWith(Search(1, [0, 1, 2], 3, 1, true));
  }

  lemma FailsWith(q: Search)
    requires Sound(q) && q.index == 1 && q.solutions != [] && (1 < |q.solutions| < SlotCount(q) ==> !q.mostlySet)
    ensures Admissible([TwoOfThree, q]) && !Right([TwoOfThree, q])
  {
    var qs := [TwoOfThree, q];
    FlagAfterFirst(q);
    assert Inverted(qs, 0);
    if |q.solutions| < SlotCount(q) {
      NotFull(q);
    }
    assert qs[0].solutions != [] && qs[1].solutions != [];
    SharedFlagExact(qs);
  }

  lemma FlagAfterFirst(q: Search)
    ensures var qs := [TwoOfThree, q];
            FlagAfter(qs, 1) && FlagAfter(qs, 2) == (1 < |q.solutions| < SlotCount(q) ==> q.mostlySet)
  {
  }

  /** one without solutions does no harm. */
  lemma SharedFlagHarmless()
    ensures var qs := [TwoOfThree, Search(1, [], 3, 1, true)]; Admissible(qs) && Right(qs)
  {
    var qs := [TwoOfThree, Search(1, [], 3, 1, true)];
    FlagAfterFirst(qs[1]);
    assert qs[0].solutions != [] && qs[1].solutions == [];
    SharedFlagExact(qs);
  }

  // ---------------------------------------------------------------- searches that share indices

  /** What the searches over index `i` say about a value: it may be the index, it is a solution of one
      of them, it meets the clauses of one of them. */
  ghost predicate May(qs: seq<Search>, i: nat, v: nat) {
    forall k :: 0 <= k < |qs| && qs[k].index == i && qs[k].solutions != [] ==> Fits(qs[k], v)
  }

  ghost predicate Hits(qs: seq<Search>, i: nat, v: nat) {
    exists k :: 0 <= k < |qs| && qs[k].index == i && v in qs[k].solutions
  }

  ghost predicate Turns(qs: seq<Search>, i: nat, v: nat) {
    exists k :: 0 <= k < |qs| && qs[k].index == i && qs[k].solutions != []
                && (v in qs[k].solutions) != Inverted(qs, k)
  }

  ghost predicate AlwaysHits(qs: seq<Search>, i: nat) {
    forall v :: May(qs, i, v) ==> Hits(qs, i, v)
  }

  ghost predicate NeverHits(qs: seq<Search>, i: nat) {
    forall v :: May(qs, i, v) ==> !Hits(qs, i, v)
  }

  ghost predicate AlwaysTurns(qs: seq<Search>, i: nat) {
    forall v :: May(qs, i, v) ==> Turns(qs, i, v)
  }

  ghost predicate NeverTurns(qs: seq<Search>, i: nat) {
    forall v :: May(qs, i, v) ==> !Turns(qs, i, v)
  }

  ghost predicate Same(qs: seq<Search>, i: nat) {
    forall v :: May(qs, i, v) ==> (Turns(qs, i, v) <==> Hits(qs, i, v))
  }

  ghost predicate Opposite(qs: seq<Search>, i: nat) {
    forall v :: May(qs, i, v) ==> (Turns(qs, i, v) <==> !Hits(qs, i, v))
  }

  /** With the flag set: the clauses are never met while something is always a solution, or the other
      way round, or one index decides both, in opposite ways. */
  ghost predicate RightWhenSet(qs: seq<Search>) {
    || ((forall i :: NeverTurns(qs, i)) && exists i :: AlwaysHits(qs, i))
    || ((forall i :: NeverHits(qs, i)) && exists i :: AlwaysTurns(qs, i))
    || exists i :: Opposite(qs, i) && forall j :: j != i ==> NeverHits(qs, j) && NeverTurns(qs, j)
  }

  /** With the flag cleared: index by index the clauses are met by the solutions, or both are met by
      every value of some index. */
  ghost predicate RightWhenCleared(qs: seq<Search>) {
    (forall i :: Same(qs, i)) || ((exists i :: AlwaysHits(qs, i)) && exists i :: AlwaysTurns(qs, i))
  }

  /** For arbitrary searches, one index at a time decides whether the shared flag is right. */
  lemma SharedIndexExact(qs: seq<Search>)
    requires forall k :: 0 <= k < |qs| ==> Sound(qs[k])
    ensures Right(qs) <==> if FlagAfter(qs, |qs|) then RightWhenSet(qs) else RightWhenCleared(qs)
  {
    hide Sound, FlagAfter, Right, RightWhenSet, RightWhenCleared;
    if FlagAfter(qs, |qs|) {
      if RightWhenSet(qs) {
        SetIsRight(qs);
      } else {
        SetIsWrong(qs);
      }
    } else if RightWhenCleared(qs) {
      ClearedIsRight(qs);
    } else {
      ClearedIsWrong(qs);
    }
  }

  /** The three statements about all indices, index by index. */
  lemma ByIndex(qs: seq<Search>, x: Values)
    ensures FitsAll(qs, x) <==> forall i :: May(qs, i, x(i))
    ensures AnyTurned(qs, |qs|, x) <==> exists i :: Turns(qs, i, x(i))
    ensures SomeSolution(qs, x) <==> exists i :: Hits(qs, i, x(i))
  {
    hide Fits, Inverted;
    if AnyTurned(qs, |qs|, x) {
      var k :| 0 <= k < |qs| && Turned(qs, k, x);
      assert Turns(qs, qs[k].index, x(qs[k].index));
    }
    if i :| Turns(qs, i, x(i)) {
      var k :| 0 <= k < |qs| && qs[k].index == i && qs[k].solutions != []
               && (x(i) in qs[k].solutions) != Inverted(qs, k);
      assert Turned(qs, k, x);
    }
    if SomeSolution(qs, x) {
      var k :| 0 <= k < |qs| && x(qs[k].index) in qs[k].solutions;
      assert Hits(qs, qs[k].index, x(qs[k].index));
    }
    if forall i :: May(qs, i, x(i)) {
      forall k | 0 <= k < |qs| && qs[k].solutions != []
        ensures Fits(qs[k], x(qs[k].index))
      {
        assert May(qs, qs[k].index, x(qs[k].index));
      }
    }
  }

  lemma ZeroMay(qs: seq<Search>, i: nat)
    requires forall k :: 0 <= k < |qs| ==> Sound(qs[k])
    ensures May(qs, i, 0)
  {
    forall k | 0 <= k < |qs| && qs[k].solutions != []
      ensures Fits(qs[k], 0)
    {
      assert qs[k].solutions[0] in qs[k].solutions;
    }
  }

  lemma ClearedIsRight(qs: seq<Search>)
    requires !FlagAfter(qs, |qs|) && RightWhenCleared(qs)
    ensures Right(qs)
  {
    hide FlagAfter, FitsAll, AnyTurned, SomeSolution, May, Hits, Turns;
    forall x | FitsAll(qs, x)
      ensures AnyTurned(qs, |qs|, x) <==> SomeSolution(qs, x)
    {
      ByIndex(qs, x);
      if forall i :: Same(qs, i) {
        forall i: nat
          ensures Turns(qs, i, x(i)) <==> Hits(qs, i, x(i))
        {
          assert Same(qs, i);
        }
      } else {
        var i, j :| AlwaysHits(qs, i) && AlwaysTurns(qs, j);
        assert Hits(qs, i, x(i)) && Turns(qs, j, x(j));
      }
    }
  }

  lemma SetIsRight(qs: seq<Search>)
    requires FlagAfter(qs, |qs|) && RightWhenSet(qs)
    ensures Right(qs)
  {
    hide FlagAfter, FitsAll, AnyTurned, SomeSolution, May, Hits, Turns;
    forall x | FitsAll(qs, x)
      ensures AnyTurned(qs, |qs|, x) <==> !SomeSolution(qs, x)
    {
      ByIndex(qs, x);
      if (forall i :: NeverTurns(qs, i)) && exists i :: AlwaysHits(qs, i) {
        var i :| AlwaysHits(qs, i);
        assert Hits(qs, i, x(i)) && forall j :: NeverTurns(qs, j) ==> !Turns(qs, j, x(j));
      } else if (forall i :: NeverHits(qs, i)) && exists i :: AlwaysTurns(qs, i) {
        var i :| AlwaysTurns(qs, i);
        assert Turns(qs, i, x(i)) && forall j :: NeverHits(qs, j) ==> !Hits(qs, j, x(j));
      } else {
        var i :| Opposite(qs, i) && forall j :: j != i ==> NeverHits(qs, j) && NeverTurns(qs, j);
        assert Turns(qs, i, x(i)) <==> !Hits(qs, i, x(i));
        assert forall j :: j != i ==> !Hits(qs, j, x(j)) && !Turns(qs, j, x(j)) by {
          forall j: nat | j != i
            ensures !Hits(qs, j, x(j)) && !Turns(qs, j, x(j))
          {
            assert NeverHits(qs, j) && NeverTurns(qs, j);
          }
        }
      }
    }
  }

  /** A value that may be the index and, if possible, is no solution, or meets no clause. */
  ghost function Avoiding(qs: seq<Search>, hits: bool, i: nat): (v: nat)
    requires forall k :: 0 <= k < |qs| ==> Sound(qs[k])
    ensures May(qs, i, v)
    ensures hits && !AlwaysHits(qs, i) ==> !Hits(qs, i, v)
    ensures !hits && !AlwaysTurns(qs, i) ==> !Turns(qs, i, v)
  {
    ZeroMay(qs, i);
    if hits && !AlwaysHits(qs, i) then
      var v: nat :| May(qs, i, v) && !Hits(qs, i, v);
      v
    else if !hits && !AlwaysTurns(qs, i) then
      var v: nat :| May(qs, i, v) && !Turns(qs, i, v);
      v
    else 0
  }

  /** Values that avoid solutions, or clauses, everywhere but at one index. */
  lemma Avoid(qs: seq<Search>, hits: bool, i: nat, v: nat) returns (x: Values)
    requires (forall k :: 0 <= k < |qs| ==> Sound(qs[k])) && May(qs, i, v)
    ensures FitsAll(qs, x) && x(i) == v
    ensures forall j :: j != i && hits && !AlwaysHits(qs, j) ==> !Hits(qs, j, x(j))
    ensures forall j :: j != i && !hits && !AlwaysTurns(qs, j) ==> !Turns(qs, j, x(j))
  {
    hide May, Hits, Turns, AlwaysHits, AlwaysTurns, Sound, FitsAll;
    x := j => if j == i then v else Avoiding(qs, hits, j);
    ByIndex(qs, x);
  }

  lemma ClearedIsWrong(qs: seq<Search>)
    requires (forall k :: 0 <= k < |qs| ==> Sound(qs[k])) && !FlagAfter(qs, |qs|) && !RightWhenCleared(qs)
    ensures !Right(qs)
  {
    hide May, Hits, Turns, AlwaysHits, AlwaysTurns, Sound, FitsAll, FlagAfter, AnyTurned, SomeSolution;
    var i, v :| May(qs, i, v) && Turns(qs, i, v) != Hits(qs, i, v);
    var x;
    if forall j :: !AlwaysHits(qs, j) {
      if Turns(qs, i, v) {
        x := Avoid(qs, true, i, v);
      } else if j :| AlwaysTurns(qs, j) {
        x := Avoid(qs, true, j, Avoiding(qs, true, j));
        AlwaysTurned(qs, j, x);
      } else {
        x := Avoid(qs, false, i, v);
      }
    } else {
      var j :| AlwaysHits(qs, j);
      x := Avoid(qs, false, j, Avoiding(qs, false, j));
      AlwaysHit(qs, j, x);
    }
    ByIndex(qs, x);
  }

  lemma AlwaysHit(qs: seq<Search>, j: nat, x: Values)
    requires AlwaysHits(qs, j) && FitsAll(qs, x)
    ensures Hits(qs, j, x(j))
  {
    ByIndex(qs, x);
  }

  lemma AlwaysTurned(qs: seq<Search>, j: nat, x: Values)
    requires AlwaysTurns(qs, j) && FitsAll(qs, x)
    ensures Turns(qs, j, x(j))
  {
    ByIndex(qs, x);
  }

  /** Values with two of them given. */
  lemma Both(qs: seq<Search>, i: nat, v: nat, j: nat, u: nat) returns (x: Values)
    requires (forall k :: 0 <= k < |qs| ==> Sound(qs[k])) && May(qs, i, v) && May(qs, j, u) && i != j
    ensures FitsAll(qs, x) && x(i) == v && x(j) == u
  {
    hide May, Sound, FitsAll;
    x := k => if k == i then v else if k == j then u else 0;
    forall k
      ensures May(qs, k, x(k))
    {
      ZeroMay(qs, k);
    }
    ByIndex(qs, x);
  }

  lemma SetIsWrong(qs: seq<Search>)
    requires (forall k :: 0 <= k < |qs| ==> Sound(qs[k])) && FlagAfter(qs, |qs|) && !RightWhenSet(qs)
    ensures !Right(qs)
  {
    hide May, Hits, Turns, AlwaysHits, AlwaysTurns, Sound, FitsAll, FlagAfter, AnyTurned, SomeSolution;
    var x;
    if j :| AlwaysHits(qs, j) {
      var i, v :| May(qs, i, v) && Turns(qs, i, v);
      x := Avoid(qs, true, i, v);
      AlwaysHit(qs, j, x);
    } else if i, v :| May(qs, i, v) && Hits(qs, i, v) {
      x := SomeHit(qs, i, v);
    } else {
      x := Avoid(qs, false, 0, Avoiding(qs, false, 0));
      NothingHit(qs, x);
    }
    ByIndex(qs, x);
  }

  lemma NothingHit(qs: seq<Search>, x: Values)
    requires FitsAll(qs, x) && forall i, v :: May(qs, i, v) ==> !Hits(qs, i, v)
    ensures forall i :: !Hits(qs, i, x(i))
  {
    ByIndex(qs, x);
  }

  lemma SomeHit(qs: seq<Search>, i: nat, v: nat) returns (x: Values)
    requires (forall k :: 0 <= k < |qs| ==> Sound(qs[k])) && !RightWhenSet(qs)
    requires (forall j :: !AlwaysHits(qs, j)) && May(qs, i, v) && Hits(qs, i, v)
    ensures FitsAll(qs, x) && ((exists j :: Turns(qs, j, x(j))) <==> exists j :: Hits(qs, j, x(j)))
  {
    hide May, Hits, Turns, AlwaysHits, AlwaysTurns, Sound, FitsAll;
    if j, u :| j != i && May(qs, j, u) && Turns(qs, j, u) {
      x := Both(qs, i, v, j, u);
    } else if j, u :| j != i && May(qs, j, u) && Hits(qs, j, u) {
      if w :| May(qs, i, w) && Turns(qs, i, w) {
        x := Both(qs, i, w, j, u);
      } else {
        x := Avoid(qs, true, i, Avoiding(qs, true, i));
        NothingTurns(qs, x);
      }
    } else {
      assert !Opposite(qs, i) by {
        assert forall j :: j != i ==> NeverHits(qs, j) && NeverTurns(qs, j);
      }
      var w :| May(qs, i, w) && (Turns(qs, i, w) <==> Hits(qs, i, w));
      x := Avoid(qs, true, i, w);
      OthersSilent(qs, i, x);
    }
  }

  lemma NothingTurns(qs: seq<Search>, x: Values)
    requires FitsAll(qs, x) && forall i, v :: May(qs, i, v) ==> !Turns(qs, i, v)
    ensures forall i :: !Turns(qs, i, x(i))
  {
    ByIndex(qs, x);
  }

  lemma OthersSilent(qs: seq<Search>, i: nat, x: Values)
    requires FitsAll(qs, x)
    requires forall j, v :: j != i && May(qs, j, v) ==> !Turns(qs, j, v) && !Hits(qs, j, v)
    ensures forall j :: j != i ==> !Turns(qs, j, x(j)) && !Hits(qs, j, x(j))
  {
    ByIndex(qs, x);
  }
}
