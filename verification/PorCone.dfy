/** Cones: for a set of causes, the deepest event of every thread.  They decide causality, and
    which waits of a history nobody has notified yet. */
module PorCone {
  import opened Lists
  import opened Options
  import opened PorEvents
  import opened PorConfig
  import opened PorProtocol
  import opened PorInvariant
  import opened PorSteps
  import opened PorRuns
  import opened PorTheorems
  import opened PorCommute
  import opened PorSubruns
  import opened PorConflicts

  type Cone = map<Tid, Event>

  /** The depth, without the contract of `Depth`: what is said below about the order of depths needs
      nothing else. */
  function Level(e: Event): nat {
    Depth(e)
  }

  /** Every thread with an event among `events` is there, with its deepest one. */
  ghost predicate IsCone(m: Cone, events: set<Event>) {
    && (forall t :: t in m ==> m[t] in events && TidOf(m[t]) == t && !m[t].ProgramInit?)
    && (forall x :: x in events && !x.ProgramInit? ==> TidOf(x) in m && Level(x) <= Level(m[TidOf(x)]))
  }

  /** `r` has, for every thread of the two cones, the deeper event. */
  ghost predicate Merged(m: Cone, causes: Cone, done: set<Tid>, events: set<Event>, r: Cone) {
    && (forall t :: t in r ==> r[t] in events && TidOf(r[t]) == t && !r[t].ProgramInit?)
    && (forall t :: t in m ==> t in r && Level(m[t]) <= Level(r[t]))
    && (forall t :: t in causes && t in done ==> t in r && Level(causes[t]) <= Level(r[t]))
  }

  lemma MergedIsCone(m: Cone, causes: Cone, events: set<Event>, below: set<Event>, r: Cone, p: Event)
    requires IsCone(m, events) && IsCone(causes, below) && Merged(m, causes, causes.Keys, events + below, r)
             && !p.ProgramInit?
    ensures IsCone(if TidOf(p) !in r || Level(r[TidOf(p)]) < Level(p) then r[TidOf(p) := p] else r,
                   events + below + {p})
  {
    hide Level;
    var r' := if TidOf(p) !in r || Level(r[TidOf(p)]) < Level(p) then r[TidOf(p) := p] else r;
    forall x | x in events + below + {p} && !x.ProgramInit?
      ensures TidOf(x) in r' && Level(x) <= Level(r'[TidOf(x)])
    {
      if x in events {
        assert TidOf(x) in r && Level(m[TidOf(x)]) <= Level(r[TidOf(x)]);
      } else if x in below {
        assert TidOf(x) in causes.Keys;
        assert TidOf(x) in r && Level(causes[TidOf(x)]) <= Level(r[TidOf(x)]);
      }
    }
  }

  lemma WithInit(m: Cone, events: set<Event>, p: Event)
    requires IsCone(m, events) && p.ProgramInit?
    ensures IsCone(m, events + {p})
  {
    hide Level;
  }

  lemma StartMerge(m: Cone, causes: Cone, events: set<Event>, below: set<Event>)
    requires IsCone(m, events) && IsCone(causes, below)
    ensures Merged(m, causes, causes.Keys - causes.Keys, events + below, m)
  {
    hide Level;
  }

  lemma MergeOne(m: Cone, causes: Cone, rest: set<Tid>, events: set<Event>, below: set<Event>, r: Cone, t: Tid)
    requires IsCone(causes, below) && Merged(m, causes, causes.Keys - rest, events + below, r) && t in rest
             && t in causes
    ensures Merged(m, causes, causes.Keys - (rest - {t}), events + below,
                   if t !in r || Level(r[t]) < Level(causes[t]) then r[t := causes[t]] else r)
  {
    hide Level;
  }

  /** Adds an event with its causes. */
  method Insert(m: Cone, p: Event, causes: Cone, ghost events: set<Event>, ghost below: set<Event>) returns (r: Cone)
    requires IsCone(m, events) && IsCone(causes, below)
    requires p.ProgramInit? ==> below == {}
    ensures IsCone(r, events + below + {p})
  {
    hide Level, Merged, IsCone;
    r := m;
    if p.ProgramInit? {
      assert events + below + {p} == events + {p};
      WithInit(m, events, p);
      return;
    }
    var rest := causes.Keys;
    StartMerge(m, causes, events, below);
    while rest != {}
      invariant rest <= causes.Keys
      invariant Merged(m, causes, causes.Keys - rest, events + below, r)
      decreases |rest|
    {
      var t :| t in rest;
      MergeOne(m, causes, rest, events, below, r, t);
      rest := rest - {t};
      if t !in r || Level(r[t]) < Level(causes[t]) {
        r := r[t := causes[t]];
      }
    }
    assert causes.Keys - rest == causes.Keys;
    MergedIsCone(m, causes, events, below, r, p);
    if TidOf(p) !in r || Level(r[TidOf(p)]) < Level(p) {
      r := r[TidOf(p) := p];
    }
  }

  lemma CausesOfInit()
    ensures Causes(ProgramInit) == {}
  {
    assert Preds(ProgramInit) == {};
  }

  lemma CauseIsShallower(c: Event, e: Event)
    requires c in Causes(e)
    ensures Level(c) < Level(e)
  {
    CausesIsBefore(c, e);
    BeforeIsShallower(c, e);
  }

  /** Puts the thread predecessor on top of its own cone. */
  lemma OnTop(m: Cone, p: Event)
    requires IsCone(m, Causes(p))
    ensures IsCone(if p.ProgramInit? then m else m[TidOf(p) := p], Causes(p) + {p})
  {
    hide Level, Causes;
    forall c | c in Causes(p)
      ensures Level(c) < Level(p)
    {
      CauseIsShallower(c, p);
    }
  }

  /** Some events and their causes. */
  ghost function Down(p: Event, others: seq<Event>): set<Event> {
    if others == [] then Causes(p) + {p}
    else var n := |others| - 1; Down(p, others[..n]) + Causes(others[n]) + {others[n]}
  }

  ghost predicate AtOrBelow(x: Event, q: Event) {
    x == q || x in Causes(q)
  }

  lemma {:induction false} DownHas(p: Event, others: seq<Event>, x: Event)
    ensures x in Down(p, others) <==> AtOrBelow(x, p) || exists k :: 0 <= k < |others| && AtOrBelow(x, others[k])
  {
    hide Causes;
    if others != [] {
      var n := |others| - 1;
      DownHas(p, others[..n], x);
      if AtOrBelow(x, others[n]) {
        assert x in Down(p, others);
      }
    }
  }

  lemma DownIsCauses(e: Event, others: seq<Event>)
    requires !e.ProgramInit? && (forall q :: q in Preds(e) <==> q == Prev(e) || q in others)
    ensures Down(Prev(e), others) == Causes(e)
  {
    hide Causes, Down, Preds, AtOrBelow;
    forall x
      ensures x in Down(Prev(e), others) <==> x in Causes(e)
    {
      DownHas(Prev(e), others, x);
      CauseOfSome(e, x);
      assert forall k :: 0 <= k < |others| ==> others[k] in Preds(e);
    }
  }

  lemma CauseOfSome(e: Event, x: Event)
    ensures x in Causes(e) <==> exists q :: q in Preds(e) && AtOrBelow(x, q)
  {
    hide Causes, Preds;
    CausesIsBefore(x, e);
    forall q | q in Preds(e)
      ensures AtOrBelow(x, q) <==> BeforeEq(x, q)
    {
      CausesIsBefore(x, q);
    }
  }

  /** The cone of a new event, from those of its predecessors: its thread predecessor goes on top of
      that one's cone, then the others are inserted. */
  method NewCone(e: Event, others: seq<Event>, cones: map<Event, Cone>) returns (m: Cone)
    requires !e.ProgramInit? && (forall q :: q in Preds(e) <==> q == Prev(e) || q in others)
    requires forall q :: q in Preds(e) ==> q in cones && IsCone(cones[q], Causes(q))
    ensures IsCone(m, Causes(e))
  {
    hide Causes, Level, IsCone, Preds, Prev, TidOf;
    var p := Prev(e);
    m := cones[p];
    OnTop(m, p);
    if !p.ProgramInit? {
      m := m[TidOf(p) := p];
    }
    CausesOfInit();
    for k := 0 to |others|
      invariant IsCone(m, Down(p, others[..k]))
    {
      var q := others[k];
      assert q in others;
      m := Insert(m, q, cones[q], Down(p, others[..k]), Causes(q));
      assert others[..k + 1][..k] == others[..k];
    }
    assert others[..|others|] == others;
    DownIsCauses(e, others);
  }

  /** The deepest event of the cone gives the depth of a new event, which is that of the longest
      chain of causes. */
  lemma DepthByCone(e: Event, m: Cone)
    requires !e.ProgramInit? && IsCone(m, Causes(e))
    ensures forall t :: t in m ==> Depth(m[t]) < Depth(e)
    ensures if m == map[] then Depth(e) == 1 else exists t :: t in m && Depth(m[t]) + 1 == Depth(e)
  {
    hide Causes, Preds;
    forall t | t in m
      ensures Depth(m[t]) < Depth(e)
    {
      CauseIsShallower(m[t], e);
    }
    var p := DeepestPred(e);
    CauseOfSome(e, p);
    if !p.ProgramInit? {
      assert TidOf(p) in m && Level(p) <= Level(m[TidOf(p)]);
    }
  }

  /** The causality test by lookup. */
  predicate IsLessThanByCone(a: Event, b: Event, causes: Cone) {
    if TidOf(a) == TidOf(b) then Level(a) < Level(b)
    else if TidOf(a) in causes then Level(a) <= Level(causes[TidOf(a)])
    else a.ProgramInit?
  }

  /** Between two events of a run, the lookup decides causality. */
  lemma ConeDecidesCausality(s: System, a: Event, b: Event, causes: Cone)
    requires Reachable(s) && a in s.events && b in s.events && IsCone(causes, Causes(b))
    ensures IsLessThanByCone(a, b, causes) <==> Before(a, b)
  {
    hide Causes, Before, Inv, Closed, ThreadChains, IsCone, Reachable;
    ReachableInv(s);
    InvChains(s);
    LessThanIsBefore(s, a, b);
    InitHasNoThread(s, a);
    ConeKeys(s, b, causes);
    LookupIsTest(a, b, causes);
  }

  lemma ConeKeys(s: System, b: Event, causes: Cone)
    requires Inv(s) && b in s.events && IsCone(causes, Causes(b))
    ensures [] !in causes
  {
    hide Causes, Before, Inv, Level, Closed;
    if [] in causes {
      InvChains(s);
      CausesIsBefore(causes[[]], b);
      CausesCommitted(s.events, causes[[]], b);
      InitHasNoThread(s, causes[[]]);
    }
  }

  lemma LookupIsTest(a: Event, b: Event, causes: Cone)
    requires IsCone(causes, Causes(b)) && (TidOf(a) == [] <==> a.ProgramInit?)
    requires [] !in causes
    ensures IsLessThanByCone(a, b, causes) <==> IsLessThan(a, b)
  {
    hide Causes, IsLessThan, IsLessThanByCone, IsCone;
    var t := TidOf(a);
    if t == TidOf(b) {
      SameThreadTest(a, b, causes);
    } else if t in causes {
      LookupHit(a, b, causes);
    } else {
      LookupMiss(a, b, causes);
    }
  }

  lemma SameThreadTest(a: Event, b: Event, causes: Cone)
    requires TidOf(a) == TidOf(b)
    ensures IsLessThanByCone(a, b, causes) <==> IsLessThan(a, b)
  {
  }

  lemma LookupHit(a: Event, b: Event, causes: Cone)
    requires IsCone(causes, Causes(b)) && TidOf(a) != TidOf(b) && TidOf(a) in causes && TidOf(a) != []
    ensures IsLessThanByCone(a, b, causes) <==> IsLessThan(a, b)
  {
    hide Causes, Depth, IsCone, IsLessThan;
    if IsLessThan(a, b) {
      ConeAbove(a, b, causes);
    }
    if IsLessThanByCone(a, b, causes) {
      ConeEntry(b, causes, TidOf(a));
      BelowCause(a, b, causes[TidOf(a)]);
    }
  }

  lemma BelowCause(a: Event, b: Event, c: Event)
    requires c in Causes(b) && TidOf(c) == TidOf(a) != TidOf(b) && Level(a) <= Level(c)
    ensures IsLessThan(a, b)
  {
    hide Causes, Depth;
    assert Depth(a) <= Depth(c);
  }

  lemma ConeAbove(a: Event, b: Event, causes: Cone)
    requires IsCone(causes, Causes(b)) && TidOf(a) != TidOf(b) && TidOf(a) in causes && TidOf(a) != []
             && IsLessThan(a, b)
    ensures Level(a) <= Level(causes[TidOf(a)])
  {
    hide Causes, Depth, IsCone;
    var c :| c in Causes(b) && TidOf(c) == TidOf(a) && Depth(a) <= Depth(c);
    ConeIsDeepest(b, causes, c);
  }

  lemma ConeEntry(b: Event, causes: Cone, t: Tid)
    requires IsCone(causes, Causes(b)) && t in causes
    ensures causes[t] in Causes(b) && TidOf(causes[t]) == t
  {
  }

  lemma ConeIsDeepest(b: Event, causes: Cone, c: Event)
    requires IsCone(causes, Causes(b)) && TidOf(c) in causes && c in Causes(b) && !c.ProgramInit?
    ensures Level(c) <= Level(causes[TidOf(c)])
  {
    hide Level;
  }

  lemma LookupMiss(a: Event, b: Event, causes: Cone)
    requires IsCone(causes, Causes(b)) && TidOf(a) != TidOf(b) && TidOf(a) !in causes
             && (TidOf(a) == [] <==> a.ProgramInit?)
    ensures IsLessThanByCone(a, b, causes) <==> IsLessThan(a, b)
  {
    hide Causes;
    assert !a.ProgramInit? ==> forall c :: c in Causes(b) && TidOf(c) == TidOf(a) ==> c.ProgramInit?;
  }

  lemma InitHasNoThread(s: System, a: Event)
    requires Inv(s) && a in s.events
    ensures TidOf(a) == [] <==> a.ProgramInit?
  {
    hide Before;
  }

  // ---------------------------------------------------------------- waits that nobody has notified

  /** A causally closed, conflict-free set of events, thread by thread. */
  ghost predicate ConflictFree(events: set<Event>) {
    && Closed(events) && ThreadLinks(events) && Continues(events) && Notifications(events)
    && (forall a, b {:trigger Ordered(a, b)} :: a in events && b in events && TidOf(a) == TidOf(b) ==> Ordered(a, b))
  }

  /** Every causally closed part of a configuration is conflict-free. */
  lemma PartConflictFree(s: System, part: set<Event>)
    requires Reachable(s) && part <= s.events && ProgramInit in part
    requires forall e, p :: e in part && p in Preds(e) ==> p in part
    ensures ConflictFree(part)
  {
    hide Before;
    ReachableInv(s);
    ReachableHistory(s);
    PartNotifications(s.events, part);
  }

  lemma PartNotifications(events: set<Event>, part: set<Event>)
    requires Notifications(events) && part <= events
    requires forall e, p :: e in part && p in Preds(e) ==> p in part
    ensures Notifications(part)
  {
    forall n, w | n in part && Notifies(n, w)
      ensures w in part
    {
      assert w in Preds(n);
    }
  }

  ghost predicate SortedByDepth(ws: seq<Event>) {
    forall i, j :: 0 <= i < j < |ws| ==> Level(ws[i]) <= Level(ws[j])
  }

  method InsertByDepth(ws: seq<Event>, w: Event) returns (r: seq<Event>)
    requires SortedByDepth(ws) && NoRepeats(ws) && w !in ws
    ensures SortedByDepth(r) && NoRepeats(r) && forall x :: x in r <==> x in ws || x == w
  {
    hide Level;
    var i := 0;
    while i < |ws| && Level(ws[i]) <= Level(w)
      invariant 0 <= i <= |ws|
      invariant forall j :: 0 <= j < i ==> Level(ws[j]) <= Level(w)
    {
      i := i + 1;
    }
    r := ws[..i] + [w] + ws[i..];
    Inserted(ws, w, i);
  }

  lemma Inserted(ws: seq<Event>, w: Event, i: nat)
    requires i <= |ws| && SortedByDepth(ws) && NoRepeats(ws) && w !in ws
    requires (forall j :: 0 <= j < i ==> Level(ws[j]) <= Level(w)) && (i < |ws| ==> Level(w) <= Level(ws[i]))
    ensures var r := ws[..i] + [w] + ws[i..];
            SortedByDepth(r) && NoRepeats(r) && forall x :: x in r <==> x in ws || x == w
  {
    hide Level;
    var r := ws[..i] + [w] + ws[i..];
    forall k, l | 0 <= k < l < |r|
      ensures Level(r[k]) <= Level(r[l]) && r[k] != r[l]
    {
      var k', l' := if k <= i then k else k - 1, if l <= i then l else l - 1;
      assert r[k] == if k == i then w else ws[k'];
      assert r[l] == if l == i then w else ws[l'];
      assert k == i && l > i + 1 ==> Level(ws[i]) <= Level(ws[l']);
    }
    assert ws == ws[..i] + ws[i..];
  }

  predicate Waiting(c: Id, e: Event) {
    e.Wait1? && e.cid == c
  }

  /** The threads of the cone that are blocked in a wait on `c`, the shallowest first. */
  method BlockedIn(cone: Cone, c: Id) returns (ws: seq<Event>)
    requires forall t :: t in cone ==> TidOf(cone[t]) == t
    ensures SortedByDepth(ws) && NoRepeats(ws)
    ensures forall w :: w in ws <==> w in cone.Values && Waiting(c, w)
  {
    hide Level;
    ws := [];
    var rest := cone.Keys;
    while rest != {}
      invariant rest <= cone.Keys
      invariant SortedByDepth(ws) && NoRepeats(ws)
      invariant forall w :: w in ws <==> Waiting(c, w) && TidOf(w) in cone && TidOf(w) !in rest && cone[TidOf(w)] == w
      decreases |rest|
    {
      var t :| t in rest;
      if Waiting(c, cone[t]) {
        ws := InsertByDepth(ws, cone[t]);
      }
      rest := rest - {t};
    }
  }

  /** How the search recognises that `e` woke up `w`. */
  predicate Matches(e: Event, w: Event) {
    if e.Signal? then w in Waits(e)
    else e.Broadcast? && exists n | n in Waits(e) :: TidOf(n) == TidOf(w) && Level(n) == Level(w)
  }

  method DropMatching(ws: seq<Event>, e: Event) returns (r: seq<Event>)
    requires SortedByDepth(ws) && NoRepeats(ws)
    ensures SortedByDepth(r) && NoRepeats(r) && forall w :: w in r <==> w in ws && !Matches(e, w)
  {
    hide Level, Matches;
    r := [];
    for i := 0 to |ws|
      invariant SortedByDepth(r) && NoRepeats(r)
      invariant forall w :: w in r <==> w in ws[..i] && !Matches(e, w)
      invariant forall j :: 0 <= j < |r| ==> forall k :: i <= k < |ws| ==> Level(r[j]) <= Level(ws[k])
    {
      assert ws[..i + 1] == ws[..i] + [ws[i]];
      if !Matches(e, ws[i]) {
        r := r + [ws[i]];
      }
    }
    assert ws[..|ws|] == ws;
  }

  lemma LowerLevel(a: Event, b: Event)
    ensures Before(a, b) ==> Level(a) < Level(b)
  {
    if Before(a, b) {
      BeforeIsShallower(a, b);
    }
  }

  lemma InitIsFirst(e: Event)
    ensures !Before(e, ProgramInit)
  {
    assert Preds(ProgramInit) == {};
  }

  /** Two waits of one thread at the same depth are the same. */
  lemma MatchIsNotification(events: set<Event>, c: Id, e: Event, w: Event)
    requires ConflictFree(events) && e in events && w in events && Waiting(c, w) && Notification(e)
    ensures Matches(e, w) <==> Notifies(e, w)
  {
    hide Before, Depth, ThreadLinks;
    if e.Broadcast? && Matches(e, w) {
      var n :| n in Waits(e) && TidOf(n) == TidOf(w) && Level(n) == Level(w);
      assert n in Preds(e);
      SameDepth(events, n, w);
    }
  }

  lemma SameDepth(events: set<Event>, a: Event, b: Event)
    requires ConflictFree(events) && a in events && b in events && TidOf(a) == TidOf(b) && Level(a) == Level(b)
    ensures a == b
  {
    hide Before, ThreadLinks, Notifications, Level;
    assert Ordered(a, b);
    LowerLevel(a, b);
    LowerLevel(b, a);
  }

  function ThreadPredecessor(e: Event): (p: Option<Event>)
    ensures p.Some? ==> p.value in Preds(e)
  {
    if e.ProgramInit? || e.ThreadInit? then None else Some(e.prev)
  }

  /** Some event of the thread of `top`, from `top` down to but excluding `cur`, notifies `w`. */
  ghost predicate NotifiedDownTo(events: set<Event>, top: Event, cur: Option<Event>, w: Event) {
    exists n ::
      && n in events && TidOf(n) == TidOf(top) && BeforeEq(n, top)
      && Notifies(n, w) && (cur.Some? ==> !BeforeEq(n, cur.value))
  }

  lemma DownStep(events: set<Event>, top: Event, e: Event, w: Event)
    requires ConflictFree(events) && e in events && TidOf(e) == TidOf(top) && BeforeEq(e, top)
    ensures NotifiedDownTo(events, top, ThreadPredecessor(e), w) <==>
            NotifiedDownTo(events, top, Some(e), w) || Notifies(e, w)
  {
    hide Before, ConflictFree, BeforeEq, ThreadPredecessor, Notifies, TidOf;
    var p := ThreadPredecessor(e);
    forall n | n in events && TidOf(n) == TidOf(top)
      ensures BeforeEq(n, e) <==> n == e || (p.Some? && BeforeEq(n, p.value))
      ensures p.Some? ==> !BeforeEq(e, p.value)
    {
      BelowStep(events, e, n);
    }
  }

  lemma BelowStep(events: set<Event>, e: Event, n: Event)
    requires ConflictFree(events) && e in events && n in events && TidOf(n) == TidOf(e)
    ensures var p := ThreadPredecessor(e);
            && (BeforeEq(n, e) <==> n == e || (p.Some? && BeforeEq(n, p.value)))
            && (p.Some? ==> !BeforeEq(e, p.value))
  {
    hide Before, Notifications, Closed, Continues;
    var p := ThreadPredecessor(e);
    if p.Some? {
      Via(p.value, p.value, e);
      Asymmetric(p.value, e);
      if BeforeEq(n, p.value) {
        BeforeEqTransitive(n, p.value, e);
      }
    }
  }

  /** Too shallow: nothing from here down notifies a deeper wait. */
  lemma TooShallow(events: set<Event>, top: Event, cur: Event, w: Event)
    requires Level(cur) < Level(w)
    ensures NotifiedDownTo(events, top, None, w) <==> NotifiedDownTo(events, top, Some(cur), w)
  {
    hide Before, Level;
    forall n | Notifies(n, w) && BeforeEq(n, cur)
      ensures Level(n) <= Level(cur) && Level(w) < Level(n)
    {
      WaitBelowNotifier(n, w);
      LowerLevel(w, n);
      LowerLevel(n, cur);
    }
  }

  /** Drops the waits that `top` or an event before it on its thread has notified. */
  method ScanThread(ghost events: set<Event>, c: Id, top: Event, ws: seq<Event>) returns (r: seq<Event>)
    requires ConflictFree(events) && top in events && SortedByDepth(ws) && NoRepeats(ws)
    requires forall w :: w in ws ==> w in events && Waiting(c, w)
    ensures SortedByDepth(r) && NoRepeats(r)
    ensures forall w :: w in r <==> w in ws && !NotifiedDownTo(events, top, None, w)
  {
    hide Before, Depth, ConflictFree, NotifiedDownTo, Matches, Level;
    r := ws;
    var cur := Some(top);
    NoneAbove(events, top);
    while cur.Some?
      invariant cur.Some? ==> cur.value in events && TidOf(cur.value) == TidOf(top) && BeforeEq(cur.value, top)
      invariant SortedByDepth(r) && NoRepeats(r)
      invariant forall w :: w in r <==> w in ws && !NotifiedDownTo(events, top, cur, w)
      decreases if cur.Some? then 1 + Level(cur.value) else 0
    {
      var e := cur.value;
      if r == [] {
        NothingLeft(events, top, e, ws);
        break;
      }
      if Level(e) < Level(r[0]) {
        RestTooShallow(events, top, e, ws, r);
        break;
      }
      StepOnThread(events, top, e);
      forall w | w in ws
        ensures NotifiedDownTo(events, top, ThreadPredecessor(e), w) <==>
                NotifiedDownTo(events, top, cur, w) || Notifies(e, w)
        ensures Notification(e) ==> (Matches(e, w) <==> Notifies(e, w))
        ensures Notification(e) && (e.cid != c || IsLost(e)) ==> !Notifies(e, w)
      {
        DownStep(events, top, e, w);
        if Notification(e) {
          MatchIsNotification(events, c, e, w);
          if e.cid != c || IsLost(e) {
            OtherCond(events, c, e, w);
          }
        }
      }
      if Notification(e) && e.cid == c && !IsLost(e) {
        r := DropMatching(r, e);
      }
      cur := ThreadPredecessor(e);
    }
  }

  lemma OtherCond(events: set<Event>, c: Id, e: Event, w: Event)
    requires ConflictFree(events) && e in events && Waiting(c, w) && Notification(e) && (e.cid != c || IsLost(e))
    ensures !Notifies(e, w)
  {
    hide Before;
    if Notifies(e, w) {
      NotifiesIsNotLost(e, w);
    }
  }

  lemma StepOnThread(events: set<Event>, top: Event, e: Event)
    requires ConflictFree(events) && e in events && TidOf(e) == TidOf(top) && BeforeEq(e, top)
    ensures var p := ThreadPredecessor(e);
            p.Some? ==>
              p.value in events && TidOf(p.value) == TidOf(top) && BeforeEq(p.value, top) && Level(p.value) < Level(e)
  {
    hide Before, ThreadLinks, Notifications;
    var p := ThreadPredecessor(e);
    if p.Some? {
      Via(p.value, p.value, e);
      BeforeEqTransitive(p.value, e, top);
      BeforeIsShallower(p.value, e);
    }
  }

  lemma NoneAbove(events: set<Event>, top: Event)
    ensures forall w :: !NotifiedDownTo(events, top, Some(top), w)
  {
    hide Before;
  }

  lemma NothingLeft(events: set<Event>, top: Event, e: Event, ws: seq<Event>)
    requires forall w :: w in ws ==> NotifiedDownTo(events, top, Some(e), w)
    ensures forall w :: w in ws ==> NotifiedDownTo(events, top, None, w)
  {
    hide Before;
  }

  lemma RestTooShallow(events: set<Event>, top: Event, e: Event, ws: seq<Event>, r: seq<Event>)
    requires SortedByDepth(r) && r != [] && Level(e) < Level(r[0])
    requires forall w :: w in r <==> w in ws && !NotifiedDownTo(events, top, Some(e), w)
    ensures forall w :: w in r <==> w in ws && !NotifiedDownTo(events, top, None, w)
  {
    hide Before, Level, NotifiedDownTo;
    forall w | w in ws
      ensures NotifiedDownTo(events, top, None, w) <==> NotifiedDownTo(events, top, Some(e), w)
    {
      if w in r {
        var i :| 0 <= i < |r| && r[i] == w;
        TooShallow(events, top, e, w);
      } else {
        NothingLeft(events, top, e, [w]);
      }
    }
  }

  /** Nothing on the threads in `done` notifies `w`. */
  ghost predicate NotifiedFrom(events: set<Event>, done: set<Tid>, w: Event) {
    exists n :: n in events && TidOf(n) in done && Notifies(n, w)
  }

  /** `outstanding_wait1`: walks every thread of the cone down, as far as it can matter. */
  method OutstandingWait1(ghost events: set<Event>, cone: Cone, c: Id) returns (ws: seq<Event>)
    requires ConflictFree(events) && IsCone(cone, events)
    ensures SortedByDepth(ws) && NoRepeats(ws)
    ensures forall w :: w in ws <==> w in cone.Values && Waiting(c, w) && !Notified(events, w)
  {
    hide Before, Depth, Level, ConflictFree, NotifiedDownTo, NotifiedFrom, Notified;
    var all := BlockedIn(cone, c);
    ws := all;
    AllFrom(events, cone);
    var rest := cone.Keys;
    while rest != {} && ws != []
      invariant rest <= cone.Keys
      invariant SortedByDepth(ws) && NoRepeats(ws)
      invariant forall w :: w in ws <==> w in all && !NotifiedFrom(events, cone.Keys - rest, w)
      decreases |rest|
    {
      var t :| t in rest;
      ws := ScanThread(events, c, cone[t], ws);
      forall w
        ensures NotifiedFrom(events, cone.Keys - (rest - {t}), w) <==>
                NotifiedFrom(events, cone.Keys - rest, w) || NotifiedDownTo(events, cone[t], None, w)
      {
        OneMoreThread(events, cone, rest, t, w);
      }
      rest := rest - {t};
    }
    forall w | w in all
      ensures w in ws <==> !Notified(events, w)
    {
      FromSome(events, cone.Keys - rest, w);
      FromAll(events, cone, w);
      if rest == {} {
        assert cone.Keys - rest == cone.Keys;
      }
    }
  }

  lemma AllFrom(events: set<Event>, cone: Cone)
    ensures forall w :: !NotifiedFrom(events, cone.Keys - cone.Keys, w)
  {
  }

  lemma FromSome(events: set<Event>, done: set<Tid>, w: Event)
    ensures NotifiedFrom(events, done, w) ==> Notified(events, w)
  {
  }

  lemma FromAll(events: set<Event>, cone: Cone, w: Event)
    requires IsCone(cone, events)
    ensures NotifiedFrom(events, cone.Keys, w) <==> Notified(events, w)
  {
  }

  lemma OneMoreThread(events: set<Event>, cone: Cone, rest: set<Tid>, t: Tid, w: Event)
    requires ConflictFree(events) && IsCone(cone, events) && rest <= cone.Keys && t in rest
    ensures NotifiedFrom(events, cone.Keys - (rest - {t}), w) <==>
            NotifiedFrom(events, cone.Keys - rest, w) || NotifiedDownTo(events, cone[t], None, w)
  {
    hide Before, Level, ConflictFree;
    forall n | n in events && TidOf(n) == t
      ensures BeforeEq(n, cone[t])
    {
      DeepestIsLast(events, cone, n);
    }
  }

  lemma DeepestIsLast(events: set<Event>, cone: Cone, n: Event)
    requires ConflictFree(events) && IsCone(cone, events) && n in events && TidOf(n) in cone
    ensures BeforeEq(n, cone[TidOf(n)])
  {
    hide Before, ThreadLinks, Notifications, Continues, Level;
    var top := cone[TidOf(n)];
    assert Ordered(n, top);
    LowerLevel(top, n);
    if n.ProgramInit? {
      InitIsFirst(top);
    }
  }

  // ---------------------------------------------------------------- the waits outstanding after some events

  ghost predicate Unnotified(events: set<Event>, c: Id, w: Event) {
    w in events && Waiting(c, w) && !Notified(events, w)
  }

  /** The event that follows on the same thread. */
  lemma {:induction false} NextOnThread(events: set<Event>, w: Event, top: Event) returns (x: Event)
    requires ConflictFree(events) && w in events && top in events && TidOf(w) == TidOf(top) && Before(w, top)
    ensures x in events && !x.ProgramInit? && !x.ThreadInit? && x.prev == w
    decreases top
  {
    hide Before, Notifications;
    x := top;
    if top.prev != w {
      assert top.prev in Preds(top);
      x := NextOnThread(events, w, top.prev);
    }
  }

  /** A thread leaves a wait only when notified, so the waits nobody notified are in the cone. */
  lemma UnnotifiedIsLast(events: set<Event>, cone: Cone, c: Id, w: Event)
    requires ConflictFree(events) && Wakeups(events) && IsCone(cone, events)
    ensures Unnotified(events, c, w) <==> w in cone.Values && Waiting(c, w) && !Notified(events, w)
  {
    hide Before, ThreadLinks, Notifications, Level;
    if w in events && Waiting(c, w) {
      var top := cone[TidOf(w)];
      DeepestIsLast(events, cone, w);
      if w != top {
        var x := NextOnThread(events, w, top);
        assert x.notifier in Preds(x) && Notifies(x.notifier, w);
      }
    }
  }

  /** Some events with their causes. */
  ghost function DownTo(es: seq<Event>): set<Event> {
    set k, x | 0 <= k < |es| && x in Causes(es[k]) + {es[k]} :: x
  }

  lemma DownToMore(es: seq<Event>, e: Event)
    ensures DownTo(es + [e]) == DownTo(es) + Causes(e) + {e}
  {
    hide Causes;
    var fs := es + [e];
    assert fs[|es|] == e;
    forall x | x in DownTo(es)
      ensures x in DownTo(fs)
    {
      var k :| 0 <= k < |es| && x in Causes(es[k]) + {es[k]};
      assert fs[k] == es[k];
    }
    assert forall x :: x in Causes(e) + {e} ==> x in Causes(fs[|es|]) + {fs[|es|]};
  }

  lemma CausesClosed(events: set<Event>, e: Event)
    requires Closed(events) && e in events
    ensures Causes(e) <= events && (!e.ProgramInit? ==> ProgramInit in Causes(e))
    ensures forall x, p :: x in Causes(e) && p in Preds(x) ==> p in Causes(e)
  {
    hide Before, Causes, Preds;
    forall x | x in Causes(e)
      ensures x in events
    {
      CausesIsBefore(x, e);
      CausesCommitted(events, x, e);
    }
    forall x, p | x in Causes(e) && p in Preds(x)
      ensures p in Causes(e)
    {
      CausesIsBefore(x, e);
      Via(p, p, x);
      BeforeTransitive(p, x, e);
      CausesIsBefore(p, e);
    }
    CausesIsBefore(ProgramInit, e);
  }

  lemma DownToClosed(events: set<Event>, es: seq<Event>)
    requires Closed(events) && es != [] && forall k :: 0 <= k < |es| ==> es[k] in events
    ensures DownTo(es) <= events && ProgramInit in DownTo(es)
    ensures forall x, p :: x in DownTo(es) && p in Preds(x) ==> p in DownTo(es)
  {
    hide Before, Causes, Preds, Closed;
    forall k | 0 <= k < |es|
      ensures Causes(es[k]) <= events
      ensures forall p :: p in Preds(es[k]) ==> p in Causes(es[k])
      ensures forall x, p :: x in Causes(es[k]) && p in Preds(x) ==> p in Causes(es[k])
    {
      CausesClosed(events, es[k]);
      PredsAreCauses(es[k]);
    }
    CausesClosed(events, es[0]);
    assert ProgramInit in Causes(es[0]) + {es[0]};
    forall x, p | x in DownTo(es) && p in Preds(x)
      ensures p in DownTo(es)
    {
      var k :| 0 <= k < |es| && x in Causes(es[k]) + {es[k]};
      assert p in Causes(es[k]) + {es[k]};
    }
  }

  lemma PredsAreCauses(e: Event)
    ensures forall p :: p in Preds(e) ==> p in Causes(e)
  {
    hide Before, Causes, Preds;
    forall p | p in Preds(e)
      ensures p in Causes(e)
    {
      Via(p, p, e);
      CausesIsBefore(p, e);
    }
  }

  /** The form of the search that is given events instead of a cone.  Of a single event it takes the
      causes only. */
  ghost function Searched(es: seq<Event>): set<Event>
    requires es != []
  {
    if |es| == 1 then Causes(es[0]) else DownTo(es)
  }

  method OutstandingAfter(ghost s: System, es: seq<Event>, cones: map<Event, Cone>, c: Id) returns (ws: seq<Event>)
    requires Reachable(s) && es != [] && (|es| == 1 ==> !es[0].ProgramInit?)
    requires forall e :: e in es ==> e in s.events && e in cones && IsCone(cones[e], Causes(e))
    ensures SortedByDepth(ws) && NoRepeats(ws)
    ensures forall w :: w in ws <==> Unnotified(Searched(es), c, w)
  {
    hide Before, Causes, Level, IsCone, ConflictFree, Inv, Reachable, Unnotified, Notified, DownTo, Waiting,
         SortedByDepth, NoRepeats;
    var cone;
    assert es[0] in es;
    if |es| == 1 {
      cone := cones[es[0]];
    } else {
      cone := ConeOfAll(es, cones);
    }
    SearchedPart(s, es);
    ws := OutstandingWait1(Searched(es), cone, c);
    forall w
      ensures w in ws <==> Unnotified(Searched(es), c, w)
    {
      UnnotifiedIsLast(Searched(es), cone, c, w);
    }
  }

  method ConeOfAll(es: seq<Event>, cones: map<Event, Cone>) returns (m: Cone)
    requires forall e :: e in es ==> e in cones && IsCone(cones[e], Causes(e))
    ensures IsCone(m, DownTo(es))
  {
    hide Causes, Level, IsCone, DownTo;
    m := map[];
    CausesOfInit();
    EmptyCone();
    for k := 0 to |es|
      invariant IsCone(m, DownTo(es[..k]))
    {
      assert es[k] in es;
      assert es[..k + 1] == es[..k] + [es[k]];
      DownToMore(es[..k], es[k]);
      m := Insert(m, es[k], cones[es[k]], DownTo(es[..k]), Causes(es[k]));
    }
    assert es[..|es|] == es;
  }

  lemma EmptyCone()
    ensures DownTo([]) == {} && IsCone(map[], {})
  {
  }

  lemma SearchedPart(s: System, es: seq<Event>)
    requires Reachable(s) && es != [] && (|es| == 1 ==> !es[0].ProgramInit?)
    requires forall e :: e in es ==> e in s.events
    ensures ConflictFree(Searched(es)) && Wakeups(Searched(es))
  {
    hide Before, Causes, Preds, ConflictFree, Reachable, DownTo;
    ReachableInv(s);
    assert es[0] in es;
    if |es| == 1 {
      CausesClosed(s.events, es[0]);
    } else {
      DownToClosed(s.events, es);
    }
    PartConflictFree(s, Searched(es));
  }

  /** Leaving out the event itself makes no difference exactly if it neither waits on the condition
      variable nor notifies a wait on it. */
  lemma OwnConeAgrees(s: System, e: Event, c: Id)
    requires Reachable(s) && e in s.events
    ensures (forall w :: Unnotified(Searched([e]), c, w) <==> Unnotified(DownTo([e]), c, w)) <==>
            !Waiting(c, e) && forall w :: Notifies(e, w) ==> !Waiting(c, w)
  {
    hide Before, Causes, Preds, Reachable;
    ReachableInv(s);
    assert [] + [e] == [e];
    DownToMore([], e);
    var below, all := Causes(e), DownTo([e]);
    assert all == below + {e};
    NotItsOwnCause(e);
    forall w
      ensures Notified(all, w) <==> Notified(below, w) || Notifies(e, w)
    {
    }
    if Waiting(c, e) {
      NobodyNotifiesAbove(e, all);
      assert Unnotified(all, c, e) && !Unnotified(below, c, e);
    } else if w :| Notifies(e, w) && Waiting(c, w) {
      PredsAreCauses(e);
      OnlyNotifier(s, e, w);
      assert Unnotified(below, c, w) && !Unnotified(all, c, w);
    }
  }

  /** It does happen: a signal's own cone reports the wait it has just notified. */
  lemma OwnConeDiffers() returns (s: System, e: Event, w: Event)
    ensures Reachable(s) && e in s.events && Notifies(e, w)
    ensures Unnotified(Searched([e]), w.cid, w) && !Unnotified(DownTo([e]), w.cid, w)
  {
    hide Before, Causes, Preds, Reachable;
    var b;
    s, e, b := SignalsUnordered();
    w :| w in Waits(e);
    ReachableInv(s);
    OnlyNotifier(s, e, w);
    assert e in Causes([e][0]) + {[e][0]};
  }

  lemma NotItsOwnCause(e: Event)
    ensures e !in Causes(e)
  {
    hide Before, Causes;
    CausesIsBefore(e, e);
    LowerLevel(e, e);
  }

  lemma NobodyNotifiesAbove(e: Event, all: set<Event>)
    requires all == Causes(e) + {e}
    ensures !Notified(all, e)
  {
    hide Before, Causes, Level;
    forall n | n in all
      ensures !Notifies(n, e)
    {
      CausesIsBefore(n, e);
      LowerLevel(n, e);
      if Notifies(n, e) {
        WaitBelowNotifier(n, e);
        LowerLevel(e, n);
      }
    }
  }

  lemma OnlyNotifier(s: System, e: Event, w: Event)
    requires Inv(s) && e in s.events && Notifies(e, w)
    ensures w in Causes(e) && !Notified(Causes(e), w)
  {
    hide Before, Causes, Preds;
    NotItsOwnCause(e);
    CausesClosed(s.events, e);
    WaitBelowNotifier(e, w);
    CausesIsBefore(w, e);
  }
}
