/** Every step of the protocol keeps the invariant. */
module PorSteps {
  import opened Options
  import opened PorEvents
  import opened PorConfig
  import opened PorProtocol
  import opened PorInvariant

  // ---------------------------------------------------------------- what a builder owes

  predicate Alternates(e: Event) {
    LidOf(e) != 0 && !e.LockCreate? ==>
      if Acquiring(e) then
        e.lockPred.Some? ==> Releasing(e.lockPred.value) && LidOf(e.lockPred.value) == LidOf(e)
      else
        && e.lockPred.Some? && Acquiring(e.lockPred.value)
        && LidOf(e.lockPred.value) == LidOf(e) && TidOf(e.lockPred.value) == TidOf(e)
  }

  predicate WakesUp(e: Event) {
    e.Wait2? ==>
      && e.prev.Wait1? && e.prev.tid == e.tid && e.prev.cid == e.cid && e.prev.lid == e.lid
      && Notifies(e.notifier, e.prev)
  }

  ghost predicate AboveDependent(events: set<Event>, e: Event) {
    forall x :: x in events && !Independent(x, e) && !Overapproximated(x, e) ==> Before(x, e)
  }

  ghost predicate Owed(s: System, e: Event) {
    && Extends(s, e)
    && HasIds(e)
    && LockLinked(s, e)
    && Alternates(e)
    && WakesUp(e)
    && WakesOutstanding(s.events, e)
    && LeavesWait(s.events, e)
    && RespectsMarkers(s.events, e)
    && (e.CondCreate? ==> e.cid !in s.cfg.condHeads)
    && AboveDependent(s.events, e)
  }

  lemma AddDependentOrdered(events: set<Event>, e: Event)
    requires DependentOrdered(events) && IdsPositive(events) && HasIds(e) && AboveDependent(events, e)
    ensures DependentOrdered(events + {e})
  {
    hide Before;
    forall a, b | a in events + {e} && b in events + {e} && !Independent(a, b) && !Overapproximated(a, b)
      ensures Ordered(a, b)
    {
      if a == e && b in events {
        IndependenceSymmetric(b, e);
      }
    }
  }

  lemma AddPlainClauses(events: set<Event>, e: Event)
    requires LockAlternation(events) && IdsPositive(events) && Wakeups(events)
    requires HasIds(e) && Alternates(e) && WakesUp(e)
    ensures LockAlternation(events + {e}) && IdsPositive(events + {e}) && Wakeups(events + {e})
  {
  }

  lemma AddKeepsInv(s: System, e: Event, threads: map<Tid, Thread>)
    requires Inv(s) && Owed(s, e)
    requires Phases(Add(s, e, threads)) && ThreadEvents(Add(s, e, threads))
    ensures Inv(Add(s, e, threads))
  {
    hide Before;
    ExtensionIsNew(s, e);
    var s' := Add(s, e, threads);
    assert s'.cfg.size == |s'.events|;
    assert Closed(s'.events) by { AddClosed(s, e); }
    assert ThreadChains(s') by { AddThreadChains(s, e, threads); }
    assert LockChains(s') by { AddLockChains(s, e, threads); }
    assert LockLinks(s'.events) by { AddLockLinks(s, e); }
    assert CondHeadsExact(s') by { AddCondHeads(s, e, threads); }
    assert Notifications(s'.events) by { AddNotifications(s.events, e); }
    assert PastWaits(s') by { AddPastWaits(s, e, threads); }
    assert Outstanding(s'.events) by { AddOutstanding(s.events, e); }
    assert DependentOrdered(s'.events) by { AddDependentOrdered(s.events, e); }
    AddPlainClauses(s.events, e);
  }

  // ---------------------------------------------------------------- causes on a condition variable

  /** A running thread has already synchronised with everything that ever woke it up. */
  lemma NotifierBelowHead(s: System, t: Tid, n: Event)
    requires PastWaits(s) && t in s.cfg.threadHeads && !s.cfg.threadHeads[t].Wait1?
    requires n in s.events && NotifiesThread(n, t)
    ensures Before(n, s.cfg.threadHeads[t])
  {
    var w :| w in n.condPreds && w.Wait1? && TidOf(w) == t;
    assert Notifies(n, w);
  }

  /** The three reasons the builders leave a head out all mean that it is a cause already. */
  lemma LeftOutIsBelow(s: System, t: Tid, p: Event)
    requires Closed(s.events) && ThreadChains(s) && PastWaits(s)
    requires t in s.cfg.threadHeads && !s.cfg.threadHeads[t].Wait1? && p in s.events
    requires TidOf(p) == t || IsLessThanEq(p, s.cfg.threadHeads[t]) || NotifiesThread(p, t)
    ensures BeforeEq(p, s.cfg.threadHeads[t])
  {
    hide Before;
    var et := s.cfg.threadHeads[t];
    if TidOf(p) == t {
    } else if NotifiesThread(p, t) {
      NotifierBelowHead(s, t, p);
    } else if p != et {
      LessThanIsBefore(s, p, et);
    }
  }

  lemma HeadIn(s: System, e: Event)
    requires CondHeadsExact(s) && IsHead(s.events, e)
    ensures e in HeadsOf(s.cfg.condHeads, CidOf(e))
  {
    assert HeadsExact(s.events, HeadsOf(s.cfg.condHeads, CidOf(e)), CidOf(e));
  }

  lemma HeadsCommitted(s: System, c: Id, e: Event)
    requires CondHeadsExact(s) && e in HeadsOf(s.cfg.condHeads, c)
    ensures IsHead(s.events, e) && CidOf(e) == c
  {
    assert HeadsExact(s.events, HeadsOf(s.cfg.condHeads, c), c);
  }

  /** A condition variable that has been used has heads. */
  lemma UsedHasHeads(s: System, x: Event)
    requires Inv(s) && x in s.events && CidOf(x) != 0
    ensures CidOf(x) in s.cfg.condHeads
  {
    var w := if x.Wait2? then x.prev else x;
    assert x.Wait2? ==> w in Preds(x);
    if w.Wait1? && Notified(s.events, w) {
      var n :| n in s.events && Notifies(n, w);
      HeadIn(s, n);
    } else {
      HeadIn(s, w);
    }
  }

  // ---------------------------------------------------------------- who waits

  /** The waiters of a condition variable are the threads of its outstanding wait1s. */
  lemma WaiterHead(s: System, c: Id, u: Tid)
    requires Inv(s) && u in Waiters(s, c)
    ensures u in s.cfg.threadHeads
    ensures var w := s.cfg.threadHeads[u];
            w in s.events && w.Wait1? && w.tid == u && w.cid == c && !Notified(s.events, w)
  {
    assert ThreadPhase(s, u);
  }

  lemma OutstandingWaits(s: System, w: Event)
    requires Inv(s) && w in s.events && w.Wait1? && !Notified(s.events, w)
    ensures w.tid in Waiters(s, w.cid) && s.cfg.threadHeads[w.tid] == w
  {
    assert ThreadPhase(s, w.tid);
  }

  // ---------------------------------------------------------------- dependence, for a new event

  ghost predicate Core(s: System) {
    Closed(s.events) && ThreadChains(s) && LockChains(s) && IdsPositive(s.events)
  }

  /** To be above everything it depends on, an extension only has to be above what shares its
      condition variable or concerns the same thread: its thread and its lock are linked. */
  lemma AboveDependentIf(s: System, e: Event)
    requires Core(s) && Extends(s, e) && HasIds(e) && LockLinked(s, e)
    requires forall x :: x in s.events && TidOf(x) != TidOf(e) && CondDependent(x, e) && !Overapproximated(x, e) ==>
             Before(x, e)
    requires forall x :: x in s.events && TidOf(x) != TidOf(e) && ThreadDependent(x, e) && !Overapproximated(x, e) ==>
             Before(x, e)
    ensures AboveDependent(s.events, e)
  {
    hide Before;
    forall x | x in s.events && !Independent(x, e) && !Overapproximated(x, e)
      ensures Before(x, e)
    {
      if TidOf(x) == TidOf(e) {
        SameThreadBelow(s, e, x);
      } else if x.ProgramInit? {
        Via(x, Prev(e), e);
      } else {
        DependenceCases(x, e);
        if LidOf(x) == LidOf(e) != 0 {
          SameLockBelow(s, e, x);
        }
      }
    }
  }

  /** Thread `t` is about to extend the run and is not blocked in a wait. */
  ghost predicate Running(s: System, t: Tid) {
    t in s.cfg.threadHeads && !s.cfg.threadHeads[t].Wait1? && !s.cfg.threadHeads[t].ThreadExit?
  }

  lemma RunningHead(s: System, t: Tid)
    requires Inv(s) && t in s.threads && (s.threads[t].phase.Runnable? || s.threads[t].phase.WaitLock?)
    ensures Running(s, t)
  {
    assert ThreadPhase(s, t);
  }

  // ---------------------------------------------------------------- events without a condition variable

  lemma PlainOwed(s: System, e: Event)
    requires Core(s) && Extends(s, e) && HasIds(e) && LockLinked(s, e) && Alternates(e)
    requires CidOf(e) == 0 && (!e.ThreadInit? ==> !e.prev.Wait1?)
    requires forall x :: x in s.events && TidOf(x) != TidOf(e) && ThreadDependent(x, e) && !Overapproximated(x, e) ==>
             Before(x, e)
    ensures Owed(s, e)
  {
    hide Before, Core;
    AboveDependentIf(s, e);
  }

  lemma LocalOwed(s: System, t: Tid, path: seq<nat>)
    requires Core(s) && Running(s, t)
    ensures Owed(s, Local(t, s.cfg.threadHeads[t], path))
  {
    hide Before;
    PlainOwed(s, Local(t, s.cfg.threadHeads[t], path));
  }

  lemma CreateLockOwed(s: System, t: Tid, l: Id)
    requires Core(s) && Running(s, t) && l != 0 && l !in s.cfg.lockHeads
    ensures Owed(s, LockCreate(t, l, s.cfg.threadHeads[t]))
  {
    hide Before;
    PlainOwed(s, LockCreate(t, l, s.cfg.threadHeads[t]));
  }

  lemma AcquireOwed(s: System, t: Tid, l: Id)
    requires Core(s) && Running(s, t) && l != 0 && CanAcquire(s.cfg, l)
    ensures Owed(s, LockAcquire(t, l, s.cfg.threadHeads[t], LockHead(s.cfg, l)))
  {
    hide Before;
    PlainOwed(s, LockAcquire(t, l, s.cfg.threadHeads[t], LockHead(s.cfg, l)));
  }

  lemma ReleaseOwed(s: System, t: Tid, l: Id)
    requires Core(s) && Running(s, t) && HoldsLock(s.cfg, t, l)
    ensures Owed(s, LockRelease(t, l, s.cfg.threadHeads[t], LockHead(s.cfg, l)))
  {
    hide Before;
    PlainOwed(s, LockRelease(t, l, s.cfg.threadHeads[t], LockHead(s.cfg, l)));
  }

  lemma CreateThreadOwed(s: System, t: Tid, newTid: Tid)
    requires Core(s) && Running(s, t) && newTid !in s.cfg.threadHeads
    ensures Owed(s, ThreadCreate(t, s.cfg.threadHeads[t], newTid))
  {
    hide Before;
    PlainOwed(s, ThreadCreate(t, s.cfg.threadHeads[t], newTid));
  }

  lemma InitThreadOwed(s: System, create: Event)
    requires Core(s) && ThreadEvents(s)
    requires create in s.events && create.ThreadCreate? && create.newTid !in s.cfg.threadHeads && create.newTid != []
    ensures Owed(s, ThreadInit(create.newTid, create))
  {
    hide Before;
    var e := ThreadInit(create.newTid, create);
    Via(create, create, e);
    PlainOwed(s, e);
  }

  lemma ExitOwed(s: System, t: Tid)
    requires Core(s) && Running(s, t) && ThreadEvents(s)
    ensures Owed(s, ThreadExit(t, s.cfg.threadHeads[t]))
  {
    hide Before;
    PlainOwed(s, ThreadExit(t, s.cfg.threadHeads[t]));
  }

  lemma JoinOwed(s: System, t: Tid, j: Tid)
    requires Core(s) && Running(s, t) && j in s.cfg.threadHeads
    ensures Owed(s, ThreadJoin(t, s.cfg.threadHeads[t], s.cfg.threadHeads[j]))
  {
    hide Before;
    var e := ThreadJoin(t, s.cfg.threadHeads[t], s.cfg.threadHeads[j]);
    forall x | x in s.events && x.ThreadExit? && x.tid == j
      ensures Before(x, e)
    {
      Via(x, s.cfg.threadHeads[j], e);
    }
    PlainOwed(s, e);
  }

  // ---------------------------------------------------------------- events on a condition variable

  /** The clauses about condition variables that the builders rely on. */
  ghost predicate CondCore(s: System) {
    CondHeadsExact(s) && Notifications(s.events) && PastWaits(s) && Outstanding(s.events) && Wakeups(s.events)
  }

  lemma CreateCondOwed(s: System, t: Tid, c: Id)
    requires Core(s) && Running(s, t) && c != 0 && c !in s.cfg.condHeads
    requires forall x :: x in s.events ==> CidOf(x) != c
    ensures Owed(s, CondCreate(t, c, s.cfg.threadHeads[t]))
  {
    hide Before;
    AboveDependentIf(s, CondCreate(t, c, s.cfg.threadHeads[t]));
  }

  lemma MarkerBelowWait1(s: System, t: Tid, c: Id, e: Event, x: Event)
    requires Core(s) && CondCore(s) && Running(s, t)
    requires e.Wait1? && e.prev == s.cfg.threadHeads[t]
             && e.condPreds == Wait1Preds(e.prev, HeadsOf(s.cfg.condHeads, c))
    requires x in s.events && Marker(x) && CidOf(x) == c
    ensures Before(x, e)
  {
    hide Before;
    HeadIn(s, x);
    if KeepForWait1(e.prev, x) {
      Via(x, x, e);
    } else {
      LeftOutIsBelow(s, t, x);
      Via(x, e.prev, e);
    }
  }

  lemma WokenBelow(s: System, t: Tid, e: Event, x: Event)
    requires PastWaits(s) && Running(s, t) && s.cfg.threadHeads[t] in Preds(e)
    requires x in s.events && NotifiesThread(x, t)
    ensures Before(x, e)
  {
    hide Before;
    NotifierBelowHead(s, t, x);
    Via(x, s.cfg.threadHeads[t], e);
  }

  lemma CondExtends(s: System, e: Event)
    requires Core(s) && (e.Wait1? || Notification(e))
    requires e.tid in s.cfg.threadHeads && e.prev == s.cfg.threadHeads[e.tid] && e.condPreds <= s.events
    requires e.Wait1? ==> e.lockPred == LockHead(s.cfg, e.lid)
    ensures Extends(s, e) && e.prev in Preds(e)
  {
    hide Before;
  }

  lemma Wait1OwedIf(s: System, e: Event)
    requires Core(s) && e.Wait1? && Extends(s, e) && HasIds(e) && LockLinked(s, e) && Alternates(e) && !e.prev.Wait1?
    requires forall x :: x in s.events && Marker(x) && CidOf(x) == e.cid ==> Before(x, e)
    requires forall x :: x in s.events && NotifiesThread(x, e.tid) ==> Before(x, e)
    ensures Owed(s, e)
  {
    hide Before, Core;
    forall x | x in s.events && TidOf(x) != TidOf(e) && CondDependent(x, e)
      ensures Before(x, e)
    {
      assert Marker(x) || NotifiesThread(x, e.tid);
    }
    AboveDependentIf(s, e);
    assert RespectsMarkers(s.events, e);
  }

  lemma Wait1Owed(s: System, t: Tid, c: Id, l: Id)
    requires Core(s) && CondCore(s) && Running(s, t) && HoldsLock(s.cfg, t, l) && c != 0
    ensures Owed(s, Wait1(t, c, l, s.cfg.threadHeads[t], LockHead(s.cfg, l),
                          Wait1Preds(s.cfg.threadHeads[t], HeadsOf(s.cfg.condHeads, c))))
  {
    hide Before, Owed;
    var et := s.cfg.threadHeads[t];
    var e := Wait1(t, c, l, et, LockHead(s.cfg, l), Wait1Preds(et, HeadsOf(s.cfg.condHeads, c)));
    forall p | p in e.condPreds
      ensures p in s.events
    {
      HeadsCommitted(s, c, p);
    }
    CondExtends(s, e);
    forall x | x in s.events && Marker(x) && CidOf(x) == c
      ensures Before(x, e)
    {
      MarkerBelowWait1(s, t, c, e, x);
    }
    forall x | x in s.events && NotifiesThread(x, t)
      ensures Before(x, e)
    {
      WokenBelow(s, t, e, x);
    }
    Wait1OwedIf(s, e);
  }

  // lost notifications

  ghost predicate NobodyWaits(events: set<Event>, c: Id) {
    forall w :: w in events && w.Wait1? && w.cid == c ==> Notified(events, w)
  }

  /** The predecessors of a lost notification are committed and none of them is a wait1. */
  lemma LostPredsCommitted(s: System, c: Id, et: Event)
    requires CondHeadsExact(s) && NobodyWaits(s.events, c)
    ensures forall p :: p in LostPreds(et, HeadsOf(s.cfg.condHeads, c)) ==> p in s.events && !p.Wait1?
  {
    forall p | p in LostPreds(et, HeadsOf(s.cfg.condHeads, c))
      ensures p in s.events && !p.Wait1?
    {
      HeadsCommitted(s, c, p);
    }
  }

  lemma HeadBelowLost(s: System, t: Tid, c: Id, e: Event, x: Event)
    requires Core(s) && CondCore(s) && Running(s, t)
    requires Notification(e) && e.prev == s.cfg.threadHeads[t]
             && e.condPreds == LostPreds(e.prev, HeadsOf(s.cfg.condHeads, c))
    requires x in s.events && CidOf(x) == c && (x.CondCreate? || (Notification(x) && !IsLost(x)))
    ensures Before(x, e)
  {
    hide Before;
    HeadIn(s, x);
    if KeepForLost(e.prev, x) {
      Via(x, x, e);
    } else {
      LeftOutIsBelow(s, t, x);
      Via(x, e.prev, e);
    }
  }

  lemma NotifiesIsNotLost(n: Event, w: Event)
    requires Notifies(n, w)
    ensures !IsLost(n) && w in Waits(n) && NotifiesThread(n, TidOf(w))
  {
    assert w in Waits(n);
  }

  lemma WaitBelowNotifier(n: Event, w: Event)
    requires Notifies(n, w)
    ensures Before(w, n)
  {
    Via(w, w, n);
  }

  lemma LostOwedIf(s: System, e: Event)
    requires Core(s) && Notification(e) && IsLost(e) && Extends(s, e) && HasIds(e) && !e.prev.Wait1?
    requires NobodyWaits(s.events, e.cid)
    requires forall x ::
               x in s.events && CidOf(x) == e.cid && (x.CondCreate? || x.Wait1? || (Notification(x) && !IsLost(x)))
               ==> Before(x, e)
    ensures Owed(s, e)
  {
    hide Before;
    LostWakesNobody(e);
    forall x | x in s.events && TidOf(x) != TidOf(e) && CondDependent(x, e)
      ensures Before(x, e)
    {
      LostNotifiesNobody(e, TidOf(x));
    }
    AboveDependentIf(s, e);
  }

  lemma LostOwed(s: System, e: Event)
    requires Core(s) && CondCore(s) && Notification(e) && Running(s, e.tid) && e.cid != 0
    requires e.prev == s.cfg.threadHeads[e.tid] && e.condPreds == LostPreds(e.prev, HeadsOf(s.cfg.condHeads, e.cid))
    requires NobodyWaits(s.events, e.cid)
    ensures IsLost(e) && Owed(s, e)
  {
    hide Before, Core, CondCore, LostPreds, Owed;
    CondCoreHeads(s);
    LostPredsCommitted(s, e.cid, e.prev);
    CondExtends(s, e);
    forall x | x in s.events && CidOf(x) == e.cid && (x.CondCreate? || x.Wait1? || (Notification(x) && !IsLost(x)))
      ensures Before(x, e)
    {
      if x.Wait1? {
        WaitBelowLost(s, e, x);
      } else {
        HeadBelowLost(s, e.tid, e.cid, e, x);
      }
    }
    LostOwedIf(s, e);
  }

  lemma CondCoreHeads(s: System)
    requires CondCore(s)
    ensures CondHeadsExact(s)
  {
    hide Before;
  }

  lemma WaitBelowLost(s: System, e: Event, x: Event)
    requires Core(s) && CondCore(s) && Notification(e) && Running(s, e.tid)
    requires e.prev == s.cfg.threadHeads[e.tid] && e.condPreds == LostPreds(e.prev, HeadsOf(s.cfg.condHeads, e.cid))
    requires x in s.events && x.Wait1? && x.cid == e.cid && Notified(s.events, x)
    ensures Before(x, e)
  {
    hide Before, Core, LostPreds;
    var n :| n in s.events && Notifies(n, x);
    NotifiesIsNotLost(n, x);
    HeadBelowLost(s, e.tid, e.cid, e, n);
    WaitBelowNotifier(n, x);
    BeforeTransitive(x, n, e);
  }

  // notifying signals

  /** Everything an outstanding wait1 and its notifier both depend on is below the wait1. */
  lemma BelowOutstanding(s: System, w: Event, x: Event)
    requires ThreadChains(s) && Outstanding(s.events)
    requires w in s.events && w.Wait1? && !Notified(s.events, w) && s.cfg.threadHeads[TidOf(w)] == w
    requires x in s.events && ((Marker(x) && CidOf(x) == w.cid) || TidOf(x) == w.tid)
    ensures BeforeEq(x, w)
  {
  }

  lemma SignalShape(e: Event, w: Event)
    requires e.Signal? && w.Wait1? && e.condPreds == {w}
    ensures !IsLost(e) && !Marker(e)
    ensures forall v :: Notifies(e, v) <==> v == w
    ensures forall t :: NotifiesThread(e, t) <==> t == w.tid
  {
    assert w in Waits(e);
  }

  lemma SignalDependents(e: Event, w: Event, x: Event)
    requires e.Signal? && w.Wait1? && e.condPreds == {w} && CondDependent(x, e) && !Overapproximated(x, e)
    requires TidOf(x) != TidOf(e)
    ensures Marker(x) || TidOf(x) == w.tid || NotifiesThread(x, w.tid)
  {
    SignalShape(e, w);
    assert Waits(e) == {w};
  }

  lemma SignalOwedIf(s: System, e: Event, w: Event)
    requires Core(s) && e.Signal? && Extends(s, e) && HasIds(e) && !e.prev.Wait1?
    requires w.Wait1? && e.condPreds == {w} && w in s.events && !Notified(s.events, w) && w.cid == e.cid
             && w.tid != e.tid
    requires forall x :: x in s.events && ((Marker(x) && CidOf(x) == e.cid) || TidOf(x) == w.tid) ==> Before(x, e)
    requires forall x :: x in s.events && NotifiesThread(x, w.tid) ==> Before(x, e)
    ensures Owed(s, e)
  {
    hide Before, Core;
    SignalShape(e, w);
    forall x | x in s.events && TidOf(x) != TidOf(e) && CondDependent(x, e) && !Overapproximated(x, e)
      ensures Before(x, e)
    {
      SignalDependents(e, w, x);
    }
    AboveDependentIf(s, e);
    assert WakesOutstanding(s.events, e);
    assert LeavesWait(s.events, e);
    assert RespectsMarkers(s.events, e);
  }

  lemma SignalOwed(s: System, t: Tid, c: Id, w: Event)
    requires Core(s) && CondCore(s) && Running(s, t) && c != 0
    requires w in s.events && w.Wait1? && w.cid == c && !Notified(s.events, w) && w.tid != t
             && s.cfg.threadHeads[w.tid] == w
    ensures Owed(s, Signal(t, c, s.cfg.threadHeads[t], {w}))
  {
    hide Before, Owed;
    var e := Signal(t, c, s.cfg.threadHeads[t], {w});
    CondExtends(s, e);
    forall x | x in s.events && ((Marker(x) && CidOf(x) == c) || TidOf(x) == w.tid)
      ensures Before(x, e)
    {
      BelowOutstanding(s, w, x);
      Via(x, w, e);
    }
    forall x | x in s.events && NotifiesThread(x, w.tid)
      ensures Before(x, e)
    {
      EarlierNotifierBelow(s, e, w.tid, x);
    }
    SignalOwedIf(s, e, w);
  }

  // notifying broadcasts

  lemma BroadcastShape(e: Event, ws: set<Event>, kept: set<Event>)
    requires e.Broadcast? && e.condPreds == ws + kept && ws != {}
    requires (forall w :: w in ws ==> w.Wait1?) && (forall p :: p in kept ==> p.Signal?)
    ensures !IsLost(e)
    ensures forall v :: Notifies(e, v) <==> v in ws
    ensures forall t :: NotifiesThread(e, t) <==> exists w :: w in ws && TidOf(w) == t
  {
    var w :| w in ws;
    assert w in Waits(e);
  }

  lemma MarkerBelowNotifier(events: set<Event>, e: Event, w: Event, n: Event)
    requires Outstanding(events) && w in events && w.Wait1? && !Notified(events, w) && w in Preds(e)
    requires n in events && Marker(n) && CidOf(n) == w.cid
    ensures Before(n, e)
  {
    hide Before;
    assert Before(n, w);
    Via(n, w, e);
  }

  /** A notification that woke up a thread earlier is below whatever wakes it up again. */
  lemma EarlierNotifierBelow(s: System, e: Event, u: Tid, n: Event)
    requires PastWaits(s) && u in s.cfg.threadHeads && s.cfg.threadHeads[u] in Preds(e)
    requires !Notified(s.events, s.cfg.threadHeads[u])
    requires n in s.events && NotifiesThread(n, u)
    ensures Before(n, e)
  {
    hide Before;
    var w :| w in n.condPreds && w.Wait1? && TidOf(w) == u;
    assert Notifies(n, w);
    Via(n, s.cfg.threadHeads[u], e);
  }

  /** Every earlier notifying signal is below a broadcast that wakes up the threads `woken`. */
  lemma SignalBelowBroadcast(s: System, e: Event, woken: set<Tid>, n: Event)
    requires Closed(s.events) && ThreadChains(s) && PastWaits(s)
    requires e.Broadcast? && Running(s, e.tid) && e.prev == s.cfg.threadHeads[e.tid]
    requires forall u :: u in woken ==>
               u in s.cfg.threadHeads && s.cfg.threadHeads[u] in e.condPreds
                 && !Notified(s.events, s.cfg.threadHeads[u])
    requires n in s.events && n.Signal? && !IsLost(n)
    requires KeepForBroadcast(e.prev, woken, n) ==> n in e.condPreds
    ensures Before(n, e)
  {
    hide Before;
    if TidOf(n) == e.tid || IsLessThanEq(n, e.prev) || NotifiesThread(n, e.tid) {
      LeftOutIsBelow(s, e.tid, n);
      Via(n, e.prev, e);
    } else if u :| u in woken && NotifiesThread(n, u) {
      EarlierNotifierBelow(s, e, u, n);
    } else {
      Via(n, n, e);
    }
  }

  lemma BroadcastDependents(events: set<Event>, e: Event, ws: set<Event>, kept: set<Event>, x: Event)
    requires e.Broadcast? && e.condPreds == ws + kept && ws != {}
    requires (forall w :: w in ws ==> w.Wait1?) && (forall p :: p in kept ==> p.Signal?)
    requires forall x :: x in events && CidOf(x) == e.cid && (x.Wait1? || Notification(x) || x.CondCreate?) ==>
             Before(x, e)
    requires forall x, w :: x in events && w in ws && TidOf(x) == TidOf(w) ==> Before(x, e)
    requires x in events && CondDependent(x, e)
    ensures Before(x, e)
  {
    hide Before;
    BroadcastShape(e, ws, kept);
    if x.Wait2? {
      assert NotifiesThread(e, x.tid);
    }
  }

  lemma BroadcastWakes(events: set<Event>, e: Event, ws: set<Event>, kept: set<Event>)
    requires e.Broadcast? && e.condPreds == ws + kept && ws != {}
    requires (forall w :: w in ws ==> w.Wait1?) && (forall p :: p in kept ==> p.Signal?)
    requires forall w :: w in ws ==> w in events && !Notified(events, w) && w.cid == e.cid && w.tid != e.tid
    requires forall w :: w in events && w.Wait1? && !Notified(events, w) && w.cid == e.cid ==> w in ws
    requires forall x :: x in events && CidOf(x) == e.cid && x.CondCreate? ==> Before(x, e)
    ensures WakesOutstanding(events, e) && RespectsMarkers(events, e)
  {
    hide Before, Notified;
    BroadcastShape(e, ws, kept);
  }

  lemma BroadcastOwedIf(s: System, e: Event, ws: set<Event>, kept: set<Event>)
    requires Core(s) && e.Broadcast? && Extends(s, e) && HasIds(e) && !e.prev.Wait1?
    requires e.condPreds == ws + kept && ws != {}
    requires (forall w :: w in ws ==> w.Wait1?) && (forall p :: p in kept ==> p.Signal?)
    requires forall w :: w in ws ==> w in s.events && !Notified(s.events, w) && w.cid == e.cid && w.tid != e.tid
    requires forall w :: w in s.events && w.Wait1? && !Notified(s.events, w) && w.cid == e.cid ==> w in ws
    requires forall x :: x in s.events && CidOf(x) == e.cid && (x.Wait1? || Notification(x) || x.CondCreate?) ==>
             Before(x, e)
    requires forall x, w :: x in s.events && w in ws && TidOf(x) == TidOf(w) ==> Before(x, e)
    ensures Owed(s, e)
  {
    hide Before, Core, HasIds, CondDependent, AboveDependent, WakesOutstanding, RespectsMarkers, Extends;
    forall x | x in s.events && TidOf(x) != TidOf(e) && CondDependent(x, e)
      ensures Before(x, e)
    {
      BroadcastDependents(s.events, e, ws, kept, x);
    }
    AboveDependentIf(s, e);
    BroadcastWakes(s.events, e, ws, kept);
  }

  lemma NotificationBelowBroadcast(s: System, t: Tid, c: Id, woken: set<Tid>, e: Event, n: Event)
    requires Core(s) && CondCore(s) && Running(s, t) && woken != {}
    requires e.Broadcast? && e.tid == t && e.prev == s.cfg.threadHeads[t]
    requires forall u :: u in woken ==>
               && u in s.cfg.threadHeads && s.cfg.threadHeads[u] in e.condPreds && s.cfg.threadHeads[u].Wait1?
               && s.cfg.threadHeads[u].cid == c && !Notified(s.events, s.cfg.threadHeads[u])
    requires KeptSignals(e.prev, woken, HeadsOf(s.cfg.condHeads, c)) <= e.condPreds
    requires n in s.events && (Notification(n) || Marker(n)) && CidOf(n) == c
    ensures Before(n, e)
  {
    hide Before;
    if Marker(n) {
      var u :| u in woken;
      MarkerBelowNotifier(s.events, e, s.cfg.threadHeads[u], n);
    } else {
      HeadIn(s, n);
      SignalBelowBroadcast(s, e, woken, n);
    }
  }

  lemma NotifiedBelowBroadcast(s: System, t: Tid, c: Id, woken: set<Tid>, e: Event, x: Event)
    requires Core(s) && CondCore(s) && Running(s, t) && woken != {}
    requires e.Broadcast? && e.tid == t && e.prev == s.cfg.threadHeads[t]
    requires forall u :: u in woken ==>
               && u in s.cfg.threadHeads && s.cfg.threadHeads[u] in e.condPreds && s.cfg.threadHeads[u].Wait1?
               && s.cfg.threadHeads[u].cid == c && !Notified(s.events, s.cfg.threadHeads[u])
    requires KeptSignals(e.prev, woken, HeadsOf(s.cfg.condHeads, c)) <= e.condPreds
    requires x in s.events && x.Wait1? && x.cid == c && Notified(s.events, x)
    ensures Before(x, e)
  {
    hide Before, Core, KeptSignals;
    var n :| n in s.events && Notifies(n, x);
    NotificationBelowBroadcast(s, t, c, woken, e, n);
    WaitBelowNotifier(n, x);
    BeforeTransitive(x, n, e);
  }

  lemma LastIsAbove(s: System, w: Event, x: Event)
    requires Core(s) && w in s.events && x in s.events && w.Wait1? && TidOf(x) == w.tid
    requires w.tid in s.cfg.threadHeads && s.cfg.threadHeads[w.tid] == w
    ensures BeforeEq(x, w)
  {
    hide Before;
  }

  lemma KeptFacts(s: System, c: Id, et: Event, woken: set<Tid>)
    requires CondCore(s)
    ensures forall p :: p in KeptSignals(et, woken, HeadsOf(s.cfg.condHeads, c)) ==> p in s.events && p.Signal?
  {
    hide Before, CondCore;
    CondCoreHeads(s);
    forall p | p in KeptSignals(et, woken, HeadsOf(s.cfg.condHeads, c))
      ensures p in s.events && p.Signal?
    {
      HeadsCommitted(s, c, p);
    }
  }

  lemma WokenFacts(s: System, t: Tid, c: Id, woken: set<Tid>)
    requires Core(s) && woken <= s.cfg.threadHeads.Keys && woken != {} && t !in woken
    requires forall u :: u in woken ==>
               && s.cfg.threadHeads[u].Wait1? && s.cfg.threadHeads[u].cid == c
                  && !Notified(s.events, s.cfg.threadHeads[u])
    ensures var ws := WokenWaits(s.cfg, woken);
            && ws != {}
            && (forall u :: u in woken ==> s.cfg.threadHeads[u] in ws)
            && (forall w :: w in ws ==>
                  && w in s.events && w.Wait1? && !Notified(s.events, w) && w.cid == c && w.tid != t
                  && w.tid in woken && s.cfg.threadHeads[w.tid] == w)
  {
    hide Before;
    var u :| u in woken;
    assert s.cfg.threadHeads[u] in WokenWaits(s.cfg, woken);
    assert forall u :: u in woken ==> TidOf(s.cfg.threadHeads[u]) == u && s.cfg.threadHeads[u] in s.events;
  }

  lemma BroadcastOwed(s: System, t: Tid, c: Id, woken: set<Tid>)
    requires Core(s) && CondCore(s) && Running(s, t) && c != 0
    requires woken <= s.cfg.threadHeads.Keys && woken != {} && t !in woken
    requires forall u :: u in woken ==>
               && s.cfg.threadHeads[u].Wait1? && s.cfg.threadHeads[u].cid == c
                  && !Notified(s.events, s.cfg.threadHeads[u])
    requires forall w :: w in s.events && w.Wait1? && !Notified(s.events, w) && w.cid == c ==>
             w.tid in woken && s.cfg.threadHeads[w.tid] == w
    ensures Owed(s, Broadcast(t, c, s.cfg.threadHeads[t],
                              WokenWaits(s.cfg, woken)
                              + KeptSignals(s.cfg.threadHeads[t], woken, HeadsOf(s.cfg.condHeads, c))))
  {
    hide Before, Owed, KeptSignals, WokenWaits, Core, CondCore;
    var et := s.cfg.threadHeads[t];
    var ws := WokenWaits(s.cfg, woken);
    var kept := KeptSignals(et, woken, HeadsOf(s.cfg.condHeads, c));
    var e := Broadcast(t, c, et, ws + kept);
    KeptFacts(s, c, et, woken);
    WokenFacts(s, t, c, woken);
    CondExtends(s, e);
    forall x | x in s.events && CidOf(x) == c && (x.Wait1? || Notification(x) || x.CondCreate?)
      ensures Before(x, e)
    {
      if !x.Wait1? {
        NotificationBelowBroadcast(s, t, c, woken, e, x);
      } else if Notified(s.events, x) {
        NotifiedBelowBroadcast(s, t, c, woken, e, x);
      } else {
        Via(x, x, e);
      }
    }
    forall x, w | x in s.events && w in ws && TidOf(x) == TidOf(w)
      ensures Before(x, e)
    {
      LastIsAbove(s, w, x);
      Via(x, w, e);
    }
    BroadcastOwedIf(s, e, ws, kept);
  }

  // wake-ups

  lemma Wait2Dependent(e: Event, x: Event)
    requires e.Wait2? && TidOf(x) != e.tid
    ensures CondDependent(x, e) ==> (x.CondCreate? && x.cid == e.cid) || NotifiesThread(x, e.tid)
    ensures !ThreadDependent(x, e)
  {
  }

  lemma Wait2OwedIf(s: System, e: Event)
    requires Core(s) && e.Wait2? && Extends(s, e) && HasIds(e) && LockLinked(s, e) && Alternates(e) && WakesUp(e)
    requires e.notifier in s.events
    requires forall x :: x in s.events && NotifiesThread(x, e.tid) ==> Before(x, e)
    requires forall x :: x in s.events && x.CondCreate? && x.cid == e.cid ==> Before(x, e)
    ensures Owed(s, e)
  {
    hide Before, Core, Extends, HasIds, LockLinked, Alternates, NotifiesThread, CondDependent, ThreadDependent,
         AboveDependent;
    forall x | x in s.events && TidOf(x) != e.tid
      ensures CondDependent(x, e) ==> Before(x, e)
      ensures !ThreadDependent(x, e)
    {
      Wait2Dependent(e, x);
    }
    AboveDependentIf(s, e);
  }

  /** Everything that ever woke up a thread is below its wait2. */
  lemma NotifierBelowWait2(s: System, e: Event, x: Event)
    requires Notifications(s.events) && PastWaits(s)
    requires e.Wait2? && e.tid in s.cfg.threadHeads && e.prev == s.cfg.threadHeads[e.tid]
    requires e.notifier in s.events && Notifies(e.notifier, e.prev)
    requires x in s.events && NotifiesThread(x, e.tid)
    ensures Before(x, e)
  {
    hide Before;
    var w :| w in x.condPreds && w.Wait1? && TidOf(w) == e.tid;
    assert Notifies(x, w);
    if w == e.prev {
      assert x == e.notifier;
      Via(x, x, e);
    } else {
      Via(x, e.prev, e);
    }
  }

  lemma Wait2Shape(s: System, e: Event)
    requires Core(s) && e.Wait2? && e.tid in s.cfg.threadHeads && e.prev == s.cfg.threadHeads[e.tid]
    requires CanAcquire(s.cfg, e.lid) && e.lockPred == LockHead(s.cfg, e.lid)
    requires e.prev.Wait1? && e.prev.cid == e.cid && e.prev.lid == e.lid
    requires Notifies(e.notifier, e.prev) && e.notifier in s.events
    ensures Extends(s, e) && HasIds(e) && LockLinked(s, e) && Alternates(e) && WakesUp(e)
    ensures e.prev in s.events && e.prev in Preds(e)
  {
    hide Before;
    assert e.lid in s.cfg.lockHeads;
  }

  /** The creation of a condition variable is below every wait1, and so below every wait2. */
  lemma CreationBelowWait2(s: System, e: Event, x: Event)
    requires Outstanding(s.events) && e.Wait2? && e.prev in s.events && e.prev.Wait1? && e.prev.cid == e.cid
    requires x in s.events && x.CondCreate? && x.cid == e.cid
    ensures Before(x, e)
  {
    hide Before;
    assert Before(x, e.prev);
    Via(x, e.prev, e);
  }

  lemma Wait2Owed(s: System, t: Tid, c: Id, l: Id, n: Event)
    requires Core(s) && CondCore(s) && t in s.cfg.threadHeads && CanAcquire(s.cfg, l)
    requires var w := s.cfg.threadHeads[t]; w.Wait1? && w.cid == c && w.lid == l && Notifies(n, w)
    requires n in s.events
    ensures Owed(s, Wait2(t, c, l, s.cfg.threadHeads[t], LockHead(s.cfg, l), n))
  {
    hide Before, Owed, Core, CondHeadsExact, Extends, HasIds, LockLinked, Alternates, WakesUp, Preds, Outstanding,
         Notifications, PastWaits, NotifiesThread;
    var e := Wait2(t, c, l, s.cfg.threadHeads[t], LockHead(s.cfg, l), n);
    Wait2Shape(s, e);
    forall x | x in s.events && NotifiesThread(x, t)
      ensures Before(x, e)
    {
      NotifierBelowWait2(s, e, x);
    }
    forall x | x in s.events && x.CondCreate? && x.cid == c
      ensures Before(x, e)
    {
      CreationBelowWait2(s, e, x);
    }
    Wait2OwedIf(s, e);
  }
}
