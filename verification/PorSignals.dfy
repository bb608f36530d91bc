/** The signals that `cex_notification` proposes in place of a committed one: which it draws, which
    of them end a run inside the configuration, and which executions it does not propose. */
module PorSignals {
  import opened Lists
  import opened Options
  import opened PorEvents
  import opened PorConfig
  import opened PorProtocol
  import opened PorInvariant
  import opened PorSteps
  import opened PorRuns
  import opened PorTheorems
  import opened PorCommute
  import opened PorSubruns
  import opened PorConflicts
  import opened PorCone

  // ---------------------------------------------------------------- the proposals

  /** A wait of another thread beside the signal's past, on a thread whose head does not follow the
      signal. */
  ghost predicate Beside(s: System, e: Event, w: Event)
    requires e.Signal?
  {
    && w in s.events && Waiting(e.cid, w) && w.tid != e.tid && w.tid in s.cfg.threadHeads
    && !Before(w, e.prev) && !Before(e, s.cfg.threadHeads[w.tid])
  }

  /** The waits that are drawn: those outstanding below the thread predecessor, and those beside. */
  ghost predicate Drawn(s: System, e: Event, w: Event)
    requires e.Signal?
  {
    Unnotified(Causes(e.prev), e.cid, w) || Beside(s, e, w)
  }

  /** The waits on `c` of one thread from its head down, above `cur`. */
  ghost predicate WalkedTo(events: set<Event>, c: Id, head: Event, cur: Option<Event>, w: Event) {
    && w in events && Waiting(c, w) && TidOf(w) == TidOf(head)
    && BeforeEq(w, head) && (cur.Some? ==> !BeforeEq(w, cur.value))
  }

  /** What the walk needs of a configuration. */
  ghost predicate Chained(s: System) {
    Closed(s.events) && ThreadChains(s) && ThreadLinks(s.events) && Continues(s.events)
  }

  lemma ReachableChained(s: System)
    requires Reachable(s)
    ensures Chained(s)
  {
    hide Before;
    ReachableInv(s);
    ReachableHistory(s);
  }

  ghost predicate OnWalk(s: System, head: Event, x: Event) {
    && head in s.events && !head.ProgramInit? && TidOf(head) in s.cfg.threadHeads
    && s.cfg.threadHeads[TidOf(head)] == head
    && x in s.events && TidOf(x) == TidOf(head) && BeforeEq(x, head)
  }

  lemma WalkStep(s: System, c: Id, head: Event, x: Event, w: Event)
    requires Chained(s) && OnWalk(s, head, x)
    ensures var p := ThreadPredecessor(x);
            WalkedTo(s.events, c, head, p, w) <==> WalkedTo(s.events, c, head, Some(x), w) || (w == x && Waiting(c, x))
  {
    hide Before;
    NotBeforeItself(x);
    var p := ThreadPredecessor(x);
    if w in s.events && TidOf(w) == TidOf(head) {
      assert Ordered(w, x);
      if p.Some? {
        Via(p.value, p.value, x);
        if BeforeEq(w, p.value) {
          Via(w, p.value, x);
        }
      }
    }
  }

  lemma WalkDown(s: System, head: Event, x: Event)
    requires Chained(s) && OnWalk(s, head, x)
    ensures var p := ThreadPredecessor(x); p.Some? ==> OnWalk(s, head, p.value) && Level(p.value) < Level(x)
  {
    hide Before, Level;
    var p := ThreadPredecessor(x);
    if p.Some? {
      Via(p.value, p.value, x);
      LowerLevel(p.value, x);
      BeforeEqTransitive(p.value, x, head);
    }
  }

  lemma NotAboveHead(s: System, c: Id, head: Event, w: Event)
    requires Chained(s) && OnWalk(s, head, head)
    ensures !WalkedTo(s.events, c, head, Some(head), w)
  {
  }

  /** The walk stops in the future of the signal: only at the head. */
  lemma StopsAbove(s: System, e: Event, head: Event, x: Event)
    requires e.Signal? && Chained(s) && OnWalk(s, head, x) && (TidOf(x) == e.tid || Before(e, x))
    ensures TidOf(head) == e.tid || Before(e, head)
    ensures forall w :: !(Beside(s, e, w) && TidOf(w) == TidOf(head))
  {
    hide Before;
    if Before(e, x) {
      BeforeEqTransitive(e, x, head);
    }
  }

  /** The walk stops in the past of the signal, or at the end of the thread. */
  lemma StopsBelow(s: System, e: Event, head: Event, cur: Option<Event>, w: Event)
    requires e.Signal? && Chained(s) && OnWalk(s, head, head) && TidOf(head) != e.tid && !Before(e, head)
    requires cur.Some? ==> Before(cur.value, e.prev)
    requires WalkedTo(s.events, e.cid, head, cur, w) ==> !Before(w, e.prev)
    ensures WalkedTo(s.events, e.cid, head, cur, w) <==> Beside(s, e, w) && TidOf(w) == TidOf(head)
  {
    hide Before;
    if cur.Some? && BeforeEq(w, cur.value) {
      BeforeEqTransitive(w, cur.value, e.prev);
    }
  }

  lemma Comparable(s: System, e: Event, x: Event)
    requires Chained(s) && e in s.events && e.Signal? && x in s.events
    ensures IsLessThan(e, x) <==> Before(e, x)
    ensures IsLessThan(x, e.prev) <==> Before(x, e.prev)
  {
    hide Before, IsLessThan, Preds;
    assert e.prev in Preds(e) by { PrevIsPred(e); }
    LessThanIsBefore(s, e, x);
    LessThanIsBefore(s, x, e.prev);
  }

  lemma PrevIsPred(e: Event)
    requires e.Signal?
    ensures e.prev in Preds(e)
  {
  }

  /** Walks one thread down until it meets the signal's past or its future. */
  method WaitsDown(ghost s: System, e: Event, head: Event) returns (ws: seq<Event>)
    requires Reachable(s) && e in s.events && e.Signal? && OnWalk(s, head, head)
    ensures NoRepeats(ws) && forall w :: w in ws <==> Beside(s, e, w) && TidOf(w) == TidOf(head)
  {
    hide Before, BeforeEq, Depth, Level, IsLessThan, Reachable, Chained, WalkedTo, Beside, Preds;
    ReachableChained(s);
    ws := [];
    var cur := Some(head);
    forall w
      ensures !WalkedTo(s.events, e.cid, head, cur, w)
    {
      NotAboveHead(s, e.cid, head, w);
    }
    while cur.Some?
      invariant cur.Some? ==> OnWalk(s, head, cur.value)
      invariant NoRepeats(ws) && forall w :: w in ws <==> WalkedTo(s.events, e.cid, head, cur, w)
      invariant cur == Some(head) || (TidOf(head) != e.tid && !Before(e, head))
      invariant forall w :: w in ws ==> !Before(w, e.prev)
      decreases if cur.Some? then 1 + Level(cur.value) else 0
    {
      var x := cur.value;
      Comparable(s, e, x);
      forall w
        ensures !WalkedTo(s.events, e.cid, head, Some(head), w)
      {
        NotAboveHead(s, e.cid, head, w);
      }
      if TidOf(x) == e.tid || IsLessThan(e, x) {
        StopsAbove(s, e, head, x);
        return;
      }
      if IsLessThan(x, e.prev) {
        break;
      }
      forall w
        ensures WalkedTo(s.events, e.cid, head, ThreadPredecessor(x), w) <==>
                WalkedTo(s.events, e.cid, head, Some(x), w) || (w == x && Waiting(e.cid, x))
      {
        WalkStep(s, e.cid, head, x, w);
      }
      WalkDown(s, head, x);
      StillAbove(s.events, e.cid, head, x);
      if Waiting(e.cid, x) {
        ws := ws + [x];
      }
      cur := ThreadPredecessor(x);
    }
    forall w
      ensures WalkedTo(s.events, e.cid, head, cur, w) <==> Beside(s, e, w) && TidOf(w) == TidOf(head)
    {
      StopsBelow(s, e, head, cur, w);
    }
  }

  lemma StillAbove(events: set<Event>, c: Id, head: Event, x: Event)
    ensures !WalkedTo(events, c, head, Some(x), x)
  {
  }

  /** The waits of all threads beside the signal's past. */
  method WaitsBeside(ghost s: System, e: Event, heads: map<Tid, Event>) returns (ws: seq<Event>)
    requires Reachable(s) && e in s.events && e.Signal? && heads == s.cfg.threadHeads
    ensures NoRepeats(ws) && forall w :: w in ws <==> Beside(s, e, w)
  {
    hide Before, BeforeEq, Reachable, OnWalk;
    ws := [];
    var rest := heads.Keys;
    while rest != {}
      invariant rest <= heads.Keys
      invariant NoRepeats(ws) && forall w :: w in ws <==> Beside(s, e, w) && w.tid !in rest
      decreases |rest|
    {
      var t :| t in rest;
      HeadOnWalk(s, t);
      var more := WaitsDown(s, e, heads[t]);
      Joined(ws, more);
      ws := ws + more;
      rest := rest - {t};
    }
  }

  lemma HeadOnWalk(s: System, t: Tid)
    requires Reachable(s) && t in s.cfg.threadHeads
    ensures var h := s.cfg.threadHeads[t]; OnWalk(s, h, h) && TidOf(h) == t
  {
    hide Before;
    ReachableInv(s);
  }

  lemma Joined(a: seq<Event>, b: seq<Event>)
    requires NoRepeats(a) && NoRepeats(b) && forall w :: w in a ==> w !in b
    ensures NoRepeats(a + b)
  {
    assert forall i :: 0 <= i < |a| ==> a[i] in a;
    assert forall i :: 0 <= i < |b| ==> b[i] in b;
  }

  /** The last part of `cex_notification`: for every wait drawn, other than the one the signal itself
      wakes up, a signal by the same thread in the same place that wakes up this one. */
  method ProposeSignals(ghost s: System, e: Event, heads: map<Tid, Event>, cones: map<Event, Cone>)
    returns (proposed: seq<Event>)
    requires Reachable(s) && e in s.events && e.Signal? && heads == s.cfg.threadHeads
    requires e.prev in cones && IsCone(cones[e.prev], Causes(e.prev))
    ensures NoRepeats(proposed)
    ensures forall x :: x in proposed <==> exists w :: Drawn(s, e, w) && !Notifies(e, w) && x == Redirected(e, w)
  {
    hide Before, BeforeEq, Reachable, Beside, Causes, IsCone, SortedByDepth, Unnotified, Notifies;
    PrevCommitted(s, e);
    var below := OutstandingAfter(s, [e.prev], cones, e.cid);
    var beside := WaitsBeside(s, e, heads);
    var ws := below + beside;
    forall w | w in below
      ensures w !in beside
    {
      BelowNotBeside(s, e, w);
    }
    Joined(below, beside);
    assert forall w :: w in ws <==> Drawn(s, e, w);
    proposed := [];
    for k := 0 to |ws|
      invariant NoRepeats(proposed)
      invariant forall x :: x in proposed ==> exists j :: 0 <= j < k && !Notifies(e, ws[j]) && x == Redirected(e, ws[j])
      invariant forall j :: 0 <= j < k && !Notifies(e, ws[j]) ==> Redirected(e, ws[j]) in proposed
    {
      if !Notifies(e, ws[k]) {
        forall j | 0 <= j < k
          ensures Redirected(e, ws[j]) != Redirected(e, ws[k])
        {
          assert ws[j] in {ws[j]} && ws[j] !in {ws[k]};
        }
        Joined(proposed, [Redirected(e, ws[k])]);
        proposed := proposed + [Redirected(e, ws[k])];
      }
    }
    forall w | Drawn(s, e, w) && !Notifies(e, w)
      ensures Redirected(e, w) in proposed
    {
      var j :| 0 <= j < |ws| && ws[j] == w;
    }
    assert forall j :: 0 <= j < |ws| ==> Drawn(s, e, ws[j]) by {
      assert forall j :: 0 <= j < |ws| ==> ws[j] in ws;
    }
  }

  /** The signal `e`, waking up `w` instead. */
  function Redirected(e: Event, w: Event): Event
    requires e.Signal?
  {
    Signal(e.tid, e.cid, e.prev, {w})
  }

  lemma PrevCommitted(s: System, e: Event)
    requires Reachable(s) && e in s.events && e.Signal?
    ensures e.prev in s.events && !e.prev.ProgramInit? && TidOf(e.prev) == e.tid && e.tid != []
    ensures !e.prev.Wait1? && !e.prev.ThreadExit? && e.cid != 0
    ensures forall x :: x in Causes(e.prev) ==> x in s.events
  {
    hide Before;
    ReachableInv(s);
    ReachableHistory(s);
    PrevIsPred(e);
    assert HasIds(e);
    CausesClosed(s.events, e.prev);
  }

  lemma BelowNotBeside(s: System, e: Event, w: Event)
    requires e.Signal? && Unnotified(Causes(e.prev), e.cid, w)
    ensures !Beside(s, e, w)
  {
    hide Before, Causes;
    CausesIsBefore(w, e.prev);
  }

  // ---------------------------------------------------------------- which of them are executions

  /** In `r`, inside the configuration and without `e` and what follows it, the thread of `e` can wake
      up `w` in its place. */
  ghost predicate WakesIn(s: System, e: Event, w: Event, r: System)
    requires e.Signal?
  {
    && Reachable(r) && r.events <= s.events && (forall y :: y in r.events ==> !BeforeEq(e, y))
    && Enabled(r, DoSignal(e.tid, e.cid, Some(TidOf(w))))
    && Build(r, DoSignal(e.tid, e.cid, Some(TidOf(w)))) == Redirected(e, w)
  }

  /** A wait of another thread that does not follow the signal and that nobody has notified up to its
      thread predecessor. */
  ghost predicate Wakeable(s: System, e: Event, w: Event)
    requires e.Signal?
  {
    && w in s.events && Waiting(e.cid, w) && w.tid != e.tid && !Before(e, w)
    && !Notified(Causes(e.prev) + {e.prev}, w)
  }

  lemma WokenIsWakeable(s: System, e: Event, w: Event, r: System)
    requires Reachable(s) && e in s.events && e.Signal? && WakesIn(s, e, w, r)
    ensures Wakeable(s, e, w)
  {
    hide Before, Causes, Reachable, Inv, Enabled, Build, Owed;
    ReachableInv(r);
    SignalBuilds(r, e.tid, e.cid, TidOf(w));
    var v := r.cfg.threadHeads[TidOf(w)];
    assert v in {w};
    assert TidOf(w) in Waiters(r, e.cid) && Ready(r, e.tid) by { SignalEnabled(r, e.tid, e.cid, TidOf(w)); }
    WaiterHead(r, e.cid, TidOf(w));
    InvChains(r);
    CausesClosed(r.events, e.prev);
    PrevCommitted(s, e);
  }

  lemma SignalEnabled(r: System, t: Tid, c: Id, u: Tid)
    requires Inv(r)
    ensures Enabled(r, DoSignal(t, c, Some(u))) <==> Ready(r, t) && c > 0 && u in Waiters(r, c)
  {
    hide Inv;
    HeadOfEach(r);
  }

  lemma HeadOfEach(r: System)
    requires Inv(r)
    ensures Phases(r)
  {
    hide Before, Phases;
  }

  /** What both need: the causes of the thread predecessor and of the wait, and the first events of the
      threads created there. */
  ghost function Needed(events: set<Event>, e: Event, w: Event): set<Event>
    requires e.Signal?
  {
    set y | y in events && (Reaches(e, w, y) || (y.ThreadInit? && Reaches(e, w, y.creation)))
  }

  ghost predicate Reaches(e: Event, w: Event, y: Event)
    requires e.Signal?
  {
    BeforeEq(y, e.prev) || BeforeEq(y, w)
  }

  lemma ReachesDown(e: Event, w: Event, y: Event, q: Event)
    requires e.Signal? && Reaches(e, w, y) && q in Preds(y)
    ensures Reaches(e, w, q)
  {
    hide Before;
    Via(q, q, y);
    if BeforeEq(y, e.prev) {
      BeforeEqTransitive(q, y, e.prev);
    } else {
      BeforeEqTransitive(q, y, w);
    }
  }

  lemma NeededComplete(s: System, e: Event, w: Event)
    requires e.Signal? && Closed(s.events) && Started(s.events) && e.prev in s.events
             && ThreadInit(MainTid, ProgramInit) in s.events
    ensures Complete(Needed(s.events, e, w))
    ensures {ProgramInit, ThreadInit(MainTid, ProgramInit)} <= Needed(s.events, e, w)
  {
    hide Before, Reaches;
    var k := Needed(s.events, e, w);
    forall y, q | y in k && q in Preds(y)
      ensures q in k
    {
      if Reaches(e, w, y) {
        ReachesDown(e, w, y, q);
      }
    }
    assert Reaches(e, w, ProgramInit) by { InitReaches(s, e, w); }
  }

  lemma InitReaches(s: System, e: Event, w: Event)
    requires e.Signal? && Closed(s.events) && e.prev in s.events
    ensures Reaches(e, w, ProgramInit)
  {
    hide Before;
  }

  /** Nothing of this follows the signal. */
  lemma NeededBeside(s: System, e: Event, w: Event, y: Event)
    requires Reachable(s) && e in s.events && e.Signal? && Wakeable(s, e, w) && y in Needed(s.events, e, w)
    ensures !BeforeEq(e, y)
    ensures TidOf(y) == e.tid ==> BeforeEq(y, e.prev)
  {
    hide Before, Causes, Reachable;
    ReachableChained(s);
    PrevIsPred(e);
    Via(e.prev, e.prev, e);
    Asymmetric(e.prev, e);
    if y.ThreadInit? {
      InitFollows(e, y);
    }
    if Reaches(e, w, y) {
      ReachesNotAfter(e, w, y);
    } else {
      ReachesNotAfter(e, w, y.creation);
    }
    assert TidOf(y) == e.tid ==> Ordered(y, e);
  }

  lemma ReachesNotAfter(e: Event, w: Event, y: Event)
    requires e.Signal? && e != w && !Before(e, w) && !BeforeEq(e, e.prev) && Reaches(e, w, y)
    ensures !BeforeEq(e, y)
  {
    hide Before;
    if BeforeEq(e, y) {
      if BeforeEq(y, e.prev) {
        BeforeEqTransitive(e, y, e.prev);
      } else {
        BeforeEqTransitive(e, y, w);
      }
    }
  }

  /** Nobody there has notified the wait. */
  lemma NeededUnnotified(s: System, e: Event, w: Event)
    requires e.Signal? && Wakeable(s, e, w)
    ensures !Notified(Needed(s.events, e, w), w)
  {
    hide Before, Causes;
    forall n | n in Needed(s.events, e, w)
      ensures !Notifies(n, w)
    {
      if Notifies(n, w) {
        WaitBelowNotifier(n, w);
        Asymmetric(w, n);
        CausesIsBefore(n, e.prev);
      }
    }
  }

  /** A run that has executed just this has the two threads where they are wanted. */
  lemma NeededHeads(s: System, e: Event, w: Event, r: System)
    requires Reachable(s) && e in s.events && e.Signal? && Wakeable(s, e, w)
    requires Inv(r) && r.events == Needed(s.events, e, w) && NoneBlocked(r)
    ensures Ready(r, e.tid) && r.cfg.threadHeads[e.tid] == e.prev
    ensures w.tid in Waiters(r, e.cid) && r.cfg.threadHeads[w.tid] == w
  {
    hide Before, Causes, Reachable, Inv, Needed, Wakeable;
    PrevCommitted(s, e);
    InvChains(r);
    assert Waiting(e.cid, w) && w.tid != e.tid && w in r.events && e.prev in r.events by { EndsNeeded(s, e, w); }
    var h := r.cfg.threadHeads[e.tid];
    NeededBeside(s, e, w, h);
    Antisymmetric(h, e.prev);
    RunnableAt(r, e.tid);
    NeededUnnotified(s, e, w);
    WaiterAt(r, w);
  }

  lemma EndsNeeded(s: System, e: Event, w: Event)
    requires e.Signal? && Wakeable(s, e, w) && e.prev in s.events
    ensures w in Needed(s.events, e, w) && e.prev in Needed(s.events, e, w) && w.tid != e.tid && Waiting(e.cid, w)
  {
    hide Before, Causes;
  }

  lemma WaiterAt(r: System, w: Event)
    requires Inv(r) && w in r.events && w.Wait1? && !Notified(r.events, w)
    ensures w.tid in r.cfg.threadHeads && r.cfg.threadHeads[w.tid] == w && w.tid in Waiters(r, w.cid)
  {
    hide Inv, Before;
    HeadOfEach(r);
    assert r.cfg.threadHeads[w.tid] == w by { LastOfThread(r, w); }
    assert ThreadPhase(r, w.tid);
  }

  lemma LastOfThread(r: System, w: Event)
    requires Inv(r) && w in r.events && w.Wait1? && !Notified(r.events, w)
    ensures w.tid in r.cfg.threadHeads && r.cfg.threadHeads[w.tid] == w
  {
    hide Before;
  }

  lemma WakeableIsWoken(s: System, e: Event, w: Event) returns (r: System)
    requires Reachable(s) && e in s.events && e.Signal? && Wakeable(s, e, w)
    ensures WakesIn(s, e, w, r)
  {
    hide Before, Causes, Reachable, Inv, Needed, Wakeable, Complete, Closed, Started, Enabled, Build, Owed;
    ReachableInv(s);
    ReachableHistory(s);
    InvChains(s);
    PrevCommitted(s, e);
    MainStarted(s);
    NeededComplete(s, e, w);
    assert Needed(s.events, e, w) <= s.events by { NeededCommitted(s, e, w); }
    r := PartReachable(s, Needed(s.events, e, w));
    ReachableInv(r);
    NeededHeads(s, e, w, r);
    forall y | y in r.events
      ensures !BeforeEq(e, y)
    {
      NeededBeside(s, e, w, y);
    }
    assert TidOf(w) == w.tid && w.Wait1? by { EndsNeeded(s, e, w); }
    SignalEnabled(r, e.tid, e.cid, w.tid);
    SignalBuilds(r, e.tid, e.cid, w.tid);
  }

  lemma NeededCommitted(s: System, e: Event, w: Event)
    requires e.Signal?
    ensures Needed(s.events, e, w) <= s.events
  {
    hide Before;
  }

  /** The wakeable waits are exactly those that some run inside the configuration lets the thread wake
      up in place of `e`. */
  lemma WakeableExecutes(s: System, e: Event, w: Event)
    requires Reachable(s) && e in s.events && e.Signal?
    ensures (exists r :: WakesIn(s, e, w, r)) <==> Wakeable(s, e, w)
  {
    hide WakesIn, Wakeable, Reachable;
    if r :| WakesIn(s, e, w, r) {
      WokenIsWakeable(s, e, w, r);
    }
    if Wakeable(s, e, w) {
      var r := WakeableIsWoken(s, e, w);
    }
  }

  /** A proposed signal is an execution exactly if the thread's last event before it does not already
      notify the same wait. */
  lemma SignalProposalExact(s: System, e: Event, w: Event)
    requires Reachable(s) && e in s.events && e.Signal? && Drawn(s, e, w)
    ensures (exists r :: WakesIn(s, e, w, r)) <==> !Notifies(e.prev, w)
  {
    hide Before, Causes, Reachable, WakesIn, Inv;
    WakeableExecutes(s, e, w);
    PrevCommitted(s, e);
    ReachableInv(s);
    if Beside(s, e, w) {
      BesideWakeable(s, e, w);
    } else {
      BelowWakeable(s, e, w);
    }
  }

  lemma BesideWakeable(s: System, e: Event, w: Event)
    requires Inv(s) && e in s.events && e.Signal? && Beside(s, e, w)
    ensures Wakeable(s, e, w) && !Notifies(e.prev, w)
  {
    hide Before, Causes;
    forall n | n in Causes(e.prev) + {e.prev}
      ensures !Notifies(n, w)
    {
      CausesIsBefore(n, e.prev);
      if Notifies(n, w) {
        WaitBelowNotifier(n, w);
        BeforeEqTransitive(w, n, e.prev);
      }
    }
    if Before(e, w) {
      BeforeEqTransitive(e, w, s.cfg.threadHeads[w.tid]);
    }
  }

  lemma BelowWakeable(s: System, e: Event, w: Event)
    requires Reachable(s) && e in s.events && e.Signal? && Unnotified(Causes(e.prev), e.cid, w)
    ensures Wakeable(s, e, w) <==> !Notifies(e.prev, w)
  {
    hide Before, Causes, Reachable;
    PrevCommitted(s, e);
    CausesIsBefore(w, e.prev);
    PrevIsPred(e);
    Via(w, e.prev, e);
    Asymmetric(w, e);
    if w.tid == e.tid {
      OwnWaitsNotified(s, e, w);
    }
  }

  /** The thread itself has left its waits, so they were notified. */
  lemma OwnWaitsNotified(s: System, e: Event, w: Event)
    requires Reachable(s) && e in s.events && e.Signal? && w in Causes(e.prev) && w.Wait1? && w.tid == e.tid
    ensures Notified(Causes(e.prev), w)
  {
    hide Before, Causes, Reachable, Inv, Preds, ConflictFree, DownTo, Closed;
    PrevCommitted(s, e);
    ReachableInv(s);
    InvChains(s);
    var part := DownTo([e.prev]);
    assert part == Causes(e.prev) + {e.prev} by { DownToOne(e.prev); }
    DownToClosed(s.events, [e.prev]);
    PartConflictFree(s, part);
    CausesIsBefore(w, e.prev);
    var x := NextOnThread(part, w, e.prev);
    LeavesNotified(s, part, x);
    CausesClosed(s.events, e.prev);
    PredsAreCauses(e.prev);
  }

  lemma DownToOne(e: Event)
    ensures DownTo([e]) == Causes(e) + {e}
  {
    hide Causes, DownTo;
    EmptyCone();
    assert [] + [e] == [e];
    DownToMore([], e);
  }

  lemma LeavesNotified(s: System, part: set<Event>, x: Event)
    requires Inv(s) && part <= s.events && ConflictFree(part) && x in part && !x.ProgramInit? && !x.ThreadInit?
    requires x.prev.Wait1?
    ensures exists n :: n in Preds(x) && Notifies(n, x.prev)
  {
    hide Before;
    assert x.notifier in Preds(x);
  }

  // ---------------------------------------------------------------- both exceptions happen

  /** A signal that would be an execution is proposed exactly if its wait is in the past of the signal,
      or the waiting thread never gets to follow the signal. */
  lemma SignalsProposed(s: System, e: Event, w: Event)
    requires Reachable(s) && e in s.events && e.Signal? && exists r :: WakesIn(s, e, w, r)
    ensures w in s.events && w.Wait1? && w.tid in s.cfg.threadHeads
    ensures Drawn(s, e, w) <==> Before(w, e.prev) || !Before(e, s.cfg.threadHeads[w.tid])
  {
    hide Before, Causes, Reachable, WakesIn, Inv;
    WakeableExecutes(s, e, w);
    ReachableInv(s);
    InvChains(s);
    CausesIsBefore(w, e.prev);
    if Before(w, e.prev) {
      assert Unnotified(Causes(e.prev), e.cid, w);
    }
  }

  /** Two waiters, the second of which fell asleep after the last event of the main thread, and two
      threads that can wake them up. */
  ghost predicate TwoAsleep(s: System) {
    && Reachable(s)
    && Ready(s, [1]) && Ready(s, [1, 3]) && [1, 1] in Waiters(s, 1) && [1, 2] in Waiters(s, 1)
    && [1, 2] in s.cfg.threadHeads && s.threads[[1, 2]].phase == WaitCv1(1, 2)
    && !Before(s.cfg.threadHeads[[1, 2]], s.cfg.threadHeads[[1]])
    && 2 in s.cfg.lockHeads && s.cfg.lockHeads[2] == s.cfg.threadHeads[[1, 2]]
  }

  lemma TwoSleep() returns (s: System)
    ensures TwoAsleep(s)
  {
    hide Initial, Step, Reachable, HoldsLock, Before;
    InitialReachable();
    var a, b, c;
    s, a := Spawn(Initial(), [1]);
    s, b := Spawn(s, [1]);
    s, c := Spawn(s, [1]);
    assert a == [1, 1] && b == [1, 2] && c == [1, 3];
    s := Lock(s, a, 1);
    s := Sleep(s, a, 1, 1);
    s := Lock(s, b, 2);
    s := SleepAfter(s, b, 1, 2, [1]);
  }

  lemma SleepAfter(s: System, t: Tid, c: Id, l: Id, u: Tid) returns (r: System)
    requires Reachable(s) && Ready(s, t) && c > 0 && HoldsLock(s.cfg, t, l) && u != t && u in s.cfg.threadHeads && l > 0
    ensures Reachable(r) && t in Waiters(r, c) && OnlyMoves(s, r, t, l) && r.threads[t].phase == WaitCv1(c, l)
    ensures t in r.cfg.threadHeads && u in r.cfg.threadHeads && !Before(r.cfg.threadHeads[t], r.cfg.threadHeads[u])
    ensures l in r.cfg.lockHeads && r.cfg.lockHeads[l] == r.cfg.threadHeads[t]
  {
    hide Before, Depth, Causes, Wait1Preds, Inv, Reachable;
    var op := DoWait1(t, c, l);
    r := Start(s, op);
    ReachableInv(s);
    InvChains(s);
    HeadsFrame(s, op);
    HeadAfterStep(s, op, t);
    HeadAfterStep(s, op, u);
    ExtensionIsMaximal(s, Build(s, op), s.cfg.threadHeads[u]);
  }

  lemma Wake(s: System, t: Tid, c: Id, u: Tid) returns (r: System)
    requires Reachable(s) && Ready(s, t) && c > 0 && u in Waiters(s, c)
    ensures Reachable(r) && r.threads.Keys == s.threads.Keys && u in s.cfg.threadHeads
    ensures forall v :: v in s.threads && v != u ==> r.threads[v] == s.threads[v]
    ensures r.threads[u].phase == WaitCv2(c, s.threads[u].phase.lock)
    ensures r.cfg.lockHeads == s.cfg.lockHeads
    ensures var e := Signal(t, c, s.cfg.threadHeads[t], {s.cfg.threadHeads[u]});
            && Build(s, DoSignal(t, c, Some(u))) == e && Notifies(e, s.cfg.threadHeads[u])
            && r.events == s.events + {e} && r.cfg.threadHeads == s.cfg.threadHeads[t := e]
    ensures forall y :: y in s.events ==> !BeforeEq(r.cfg.threadHeads[t], y)
  {
    hide Before, Depth, Causes, Inv, Reachable, Owed;
    var op := DoSignal(t, c, Some(u));
    r := Start(s, op);
    ReachableInv(s);
    InvChains(s);
    SignalBuilds(s, t, c, u);
    WaiterHead(s, c, u);
    HeadsFrame(s, op);
    var e := Build(s, op);
    ExtensionIsNew(s, e);
    forall y | y in s.events
      ensures !BeforeEq(e, y)
    {
      ExtensionIsMaximal(s, e, y);
    }
  }

  /** The thread wakes up a wait, and then another: the second signal is proposed again for the first
      wait, though its thread predecessor has just notified it. */
  lemma NotifiedTwice() returns (s: System, e: Event, w: Event)
    ensures Reachable(s) && e in s.events && e.Signal?
    ensures Drawn(s, e, w) && !Notifies(e, w) && Notifies(e.prev, w)
    ensures !exists r :: WakesIn(s, e, w, r)
  {
    hide Before, Causes, Reachable, WakesIn, Inv, Step, Enabled, Build;
    var s0 := TwoSleep();
    var s1 := Wake(s0, [1], 1, [1, 1]);
    s := Wake(s1, [1], 1, [1, 2]);
    e, w := s.cfg.threadHeads[[1]], s0.cfg.threadHeads[[1, 1]];
    ReachableInv(s0);
    WaiterHead(s0, 1, [1, 1]);
    WaiterHead(s0, 1, [1, 2]);
    ReachableInv(s);
    OnlyNotifier(s, e.prev, w);
    SignalProposalExact(s, e, w);
  }

  /** Takes a free lock and gives it back. */
  lemma Borrow(s: System, t: Tid, l: Id) returns (r: System)
    requires Reachable(s) && Ready(s, t) && l > 0 && l in s.cfg.lockHeads && Releasing(s.cfg.lockHeads[l])
    ensures Reachable(r) && s.events <= r.events && forall v :: v in s.threads && v != t ==>
            v in r.threads && r.threads[v] == s.threads[v]
    ensures l in r.cfg.lockHeads && Releasing(r.cfg.lockHeads[l]) && Before(s.cfg.threadHeads[t], r.cfg.lockHeads[l])
  {
    hide Before, Depth, Causes, Reachable;
    var s1 := Start(s, DoBlock(t, l));
    var s2 := Start(s1, DoAcquire(t, l));
    r := Start(s2, DoRelease(t, l));
    var a, b := s2.cfg.threadHeads[t], r.cfg.threadHeads[t];
    Via(s.cfg.threadHeads[t], s.cfg.threadHeads[t], a);
    Via(s.cfg.threadHeads[t], a, b);
  }

  lemma Resume(s: System, t: Tid, c: Id, l: Id) returns (r: System)
    requires Reachable(s) && t in s.threads && s.threads[t].phase == WaitCv2(c, l)
    requires c > 0 && l > 0 && l in s.cfg.lockHeads && Releasing(s.cfg.lockHeads[l])
    ensures Reachable(r) && s.events <= r.events
    ensures t in r.cfg.threadHeads && Before(s.cfg.lockHeads[l], r.cfg.threadHeads[t])
  {
    hide Before, Depth, Causes, Reachable, Inv;
    ReachableInv(s);
    var op := DoWait2(t, c, l);
    assert t in s.cfg.threadHeads && Enabled(s, op) by { MayResume(s, t, c, l); }
    r := Start(s, op);
    Via(s.cfg.lockHeads[l], s.cfg.lockHeads[l], r.cfg.threadHeads[t]);
  }

  lemma MayResume(s: System, t: Tid, c: Id, l: Id)
    requires Inv(s) && t in s.threads && s.threads[t].phase == WaitCv2(c, l)
    requires c > 0 && l > 0 && l in s.cfg.lockHeads && Releasing(s.cfg.lockHeads[l])
    ensures t in s.cfg.threadHeads && Enabled(s, DoWait2(t, c, l))
  {
    hide Inv;
    HeadOfEach(s);
    assert ThreadPhase(s, t);
  }

  /** Two signals wake up two waiters; the second waiter gets its lock after the first signaller had it.
      It now follows the first signal, and so its wait is not drawn for it, though the first signal
      could have woken it up. */
  lemma OvertakenWait() returns (s: System, e: Event, w: Event)
    ensures Reachable(s) && e in s.events && e.Signal? && (exists r :: WakesIn(s, e, w, r))
    ensures !Notifies(e, w) && !Drawn(s, e, w)
  {
    hide Before, Causes, Reachable, Inv, Step, Enabled, Build, Drawn;
    var s0 := TwoSleep();
    var s1 := Wake(s0, [1], 1, [1, 1]);
    var s2 := Wake(s1, [1, 3], 1, [1, 2]);
    var s3 := Borrow(s2, [1], 2);
    s := Resume(s3, [1, 2], 1, 2);
    e, w := s1.cfg.threadHeads[[1]], s0.cfg.threadHeads[[1, 2]];
    ReachableInv(s0);
    WaiterHead(s0, 1, [1, 1]);
    WaiterHead(s0, 1, [1, 2]);
    SignalEnabled(s0, [1], 1, [1, 2]);
    SignalBuilds(s0, [1], 1, [1, 2]);
    assert WakesIn(s, e, w, s0);
    BeforeEqTransitive(e, s3.cfg.lockHeads[2], s.cfg.threadHeads[[1, 2]]);
    SignalsProposed(s, e, w);
  }
}
