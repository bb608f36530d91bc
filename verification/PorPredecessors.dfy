/** What the handlers test and the extension builders choose, said of the committed events alone:
    neither the cached heads nor the filters over them appear here. */
module PorPredecessors {
  import opened Options
  import opened PorEvents
  import opened PorConfig
  import opened PorProtocol
  import opened PorInvariant
  import opened PorSteps
  import opened PorRuns
  import opened PorTheorems
  import opened PorCommute
  import opened PorSubruns
  import opened PorConflicts
  import opened PorCone

  // ---------------------------------------------------------------- locks

  /** A lock can be acquired exactly if no thread holds it. */
  lemma LockFreeExact(s: System, l: Id)
    requires Reachable(s) && l != 0
    ensures CanAcquire(s.cfg, l) <==> forall t :: !Holds(s.events, t, l)
  {
    hide Before, Holds, Inv, Reachable;
    ReachableInv(s);
    forall t
      ensures Holds(s.events, t, l) <==> HoldsLock(s.cfg, t, l)
    {
      OwnershipExact(s, t, l);
    }
    if l in s.cfg.lockHeads {
      LockHeadKind(s, l);
      if Acquiring(s.cfg.lockHeads[l]) {
        assert HoldsLock(s.cfg, TidOf(s.cfg.lockHeads[l]), l);
      }
    } else {
      assert l !in s.cfg.usedLocks by { UnusedLock(s, l); }
    }
  }

  lemma LockHeadKind(s: System, l: Id)
    requires Inv(s) && l in s.cfg.lockHeads
    ensures l != 0 && s.cfg.lockHeads[l] in s.events && LidOf(s.cfg.lockHeads[l]) == l
    ensures Acquiring(s.cfg.lockHeads[l]) <==> !Releasing(s.cfg.lockHeads[l])
  {
    hide Before;
  }

  lemma UnusedLock(s: System, l: Id)
    requires Inv(s) && l != 0
    ensures l in s.cfg.lockHeads <==> exists x :: x in s.events && LidOf(x) == l
    ensures l !in s.cfg.lockHeads ==> l !in s.cfg.usedLocks
  {
    hide Before;
    if l in s.cfg.lockHeads {
      assert s.cfg.lockHeads[l] in s.events;
    }
  }

  /** A lock can be created exactly if there is no event on it. */
  lemma LockUnusedExact(s: System, t: Tid, l: Id)
    requires Reachable(s) && l > 0
    ensures Enabled(s, DoCreateLock(t, l)) <==>
            t in s.threads && s.threads[t].phase.Runnable? && forall x :: x in s.events ==> LidOf(x) != l
  {
    hide Before, Inv, Reachable;
    ReachableInv(s);
    InvCores(s);
    UnusedLock(s, l);
  }

  /** The last event on a lock, if there is one. */
  ghost predicate LastOnLock(events: set<Event>, l: Id, p: Option<Event>) {
    match p
    case None => forall x :: x in events ==> LidOf(x) != l
    case Some(y) => y in events && LidOf(y) == l && forall x :: x in events && LidOf(x) == l ==> BeforeEq(x, y)
  }

  /** The lock predecessor is the last event on the lock. */
  lemma LockPredecessorExact(s: System, op: Op)
    requires Reachable(s) && Enabled(s, op) && (op.DoAcquire? || op.DoRelease? || op.DoWait1? || op.DoWait2?)
    ensures LastOnLock(s.events, op.l, Build(s, op).lockPred)
  {
    hide Before, Reachable, Inv, Wait1Preds;
    ReachableInv(s);
    BuiltLockPred(s, op);
    assert op.l != 0 by { LockOfOp(s, op); }
    LastIsHead(s, op.l);
  }

  lemma BuiltLockPred(s: System, op: Op)
    requires Enabled(s, op) && (op.DoAcquire? || op.DoRelease? || op.DoWait1? || op.DoWait2?)
    ensures Build(s, op).lockPred == LockHead(s.cfg, op.l)
  {
    hide Before, Wait1Preds;
  }

  lemma LockOfOp(s: System, op: Op)
    requires Inv(s) && Enabled(s, op) && (op.DoAcquire? || op.DoRelease? || op.DoWait1? || op.DoWait2?)
    ensures op.l != 0
  {
    hide Before;
    assert ThreadPhase(s, op.t);
  }

  lemma LastIsHead(s: System, l: Id)
    requires Inv(s) && l != 0
    ensures LastOnLock(s.events, l, LockHead(s.cfg, l))
  {
    hide Before;
  }

  // ---------------------------------------------------------------- condition variables

  /** A wait on `c` that nobody has notified. */
  ghost predicate Asleep(events: set<Event>, c: Id, w: Event) {
    w in events && w.Wait1? && w.cid == c && !Notified(events, w)
  }

  /** The waiters are the threads of the waits that nobody has notified, which are their last events. */
  lemma WaitersExact(s: System, c: Id, u: Tid)
    requires Reachable(s)
    ensures u in Waiters(s, c) <==> exists w :: Asleep(s.events, c, w) && w.tid == u
    ensures u in Waiters(s, c) ==> u in s.cfg.threadHeads && Asleep(s.events, c, s.cfg.threadHeads[u])
    ensures forall w :: Asleep(s.events, c, w) ==> w.tid in s.cfg.threadHeads && s.cfg.threadHeads[w.tid] == w
  {
    hide Before, Inv, Reachable, Notified;
    ReachableInv(s);
    if u in Waiters(s, c) {
      WaiterHead(s, c, u);
    }
    forall w | Asleep(s.events, c, w)
      ensures w.tid in Waiters(s, c) && w.tid in s.cfg.threadHeads && s.cfg.threadHeads[w.tid] == w
    {
      OutstandingWaits(s, w);
      WaiterHead(s, c, w.tid);
    }
  }

  /** Not yet among the causes of what the thread has done. */
  ghost predicate News(s: System, t: Tid, p: Event)
    requires t in s.cfg.threadHeads
  {
    p in s.events && !BeforeEq(p, s.cfg.threadHeads[t])
  }

  lemma HeadsOfCond(s: System, c: Id, p: Event)
    requires Inv(s) && !p.Wait1?
    ensures p in HeadsOf(s.cfg.condHeads, c) <==> p in s.events && CidOf(p) == c && (p.CondCreate? || Notification(p))
  {
    hide Before, Inv, CondHeadsExact;
    InvCores(s);
    if p in HeadsOf(s.cfg.condHeads, c) {
      HeadsCommitted(s, c, p);
    }
    if p in s.events && CidOf(p) == c && (p.CondCreate? || Notification(p)) {
      HeadIn(s, p);
    }
  }

  /** The filters test for news. */
  lemma NewsTest(s: System, t: Tid, p: Event)
    requires Inv(s) && t in s.threads && s.threads[t].phase.Runnable? && t in s.cfg.threadHeads && p in s.events
    ensures var et := s.cfg.threadHeads[t];
            && TidOf(et) == t
            && (News(s, t, p) ==> TidOf(p) != t && !IsLessThanEq(p, et) && !NotifiesThread(p, t))
            && (TidOf(p) != t && !IsLessThanEq(p, et) ==> News(s, t, p))
  {
    hide Before, Inv, IsLessThan, NotifiesThread;
    HeadOfThread(s, t);
    RunningHead(s, t);
    var et := s.cfg.threadHeads[t];
    assert Closed(s.events) && ThreadChains(s) && PastWaits(s) by { InvPast(s); }
    if TidOf(p) == t || IsLessThanEq(p, et) || NotifiesThread(p, t) {
      LeftOutIsBelow(s, t, p);
    }
    LessThanIsBefore(s, p, et);
  }

  lemma InvPast(s: System)
    requires Inv(s)
    ensures Closed(s.events) && ThreadChains(s) && PastWaits(s)
  {
    hide Before;
  }

  /** A wait1 is linked to exactly the creation, the broadcasts and the lost signals on its condition
      variable that are news to its thread. */
  lemma Wait1Exact(s: System, t: Tid, c: Id, l: Id, p: Event)
    requires Reachable(s) && Enabled(s, DoWait1(t, c, l))
    ensures p in Build(s, DoWait1(t, c, l)).condPreds <==> News(s, t, p) && Marker(p) && CidOf(p) == c
  {
    hide Before, Inv, Reachable, IsLessThan, NotifiesThread;
    ReachableInv(s);
    if !p.Wait1? {
      HeadsOfCond(s, c, p);
      if p in s.events {
        NewsTest(s, t, p);
      }
    }
  }

  /** A notification that nobody waits for is linked to exactly the creation and the notifications on its
      condition variable that woke somebody up and are news to its thread. */
  lemma LostExact(s: System, op: Op, p: Event)
    requires Reachable(s) && Enabled(s, op)
    requires (op.DoSignal? && op.woken.None?) || (op.DoBroadcast? && Waiters(s, op.c) == {})
    ensures p in Build(s, op).condPreds <==>
            News(s, op.t, p) && CidOf(p) == op.c && (p.CondCreate? || (Notification(p) && !IsLost(p)))
  {
    hide Before, Inv, Reachable, IsLessThan, NotifiesThread, Owed;
    ReachableInv(s);
    LostBuilds(s, op);
    if !p.Wait1? {
      HeadsOfCond(s, op.c, p);
      if p in s.events {
        NewsTest(s, op.t, p);
      }
    }
  }

  /** A signal is linked to the wait it wakes up and nothing else. */
  lemma SignalExact(s: System, t: Tid, c: Id, u: Tid, p: Event)
    requires Reachable(s) && Enabled(s, DoSignal(t, c, Some(u)))
    ensures p in Build(s, DoSignal(t, c, Some(u))).condPreds <==> Asleep(s.events, c, p) && p.tid == u
  {
    hide Before, Inv, Reachable, Owed;
    ReachableInv(s);
    SignalBuilds(s, t, c, u);
    WaitersExact(s, c, u);
    assert u in Waiters(s, c) by { SignalledWaits(s, t, c, u); }
  }

  lemma SignalledWaits(s: System, t: Tid, c: Id, u: Tid)
    requires Enabled(s, DoSignal(t, c, Some(u)))
    ensures u in Waiters(s, c)
  {
  }

  /** Sent to a thread that is asleep on `c` now. */
  ghost predicate SentToSleeper(s: System, c: Id, p: Event) {
    exists w :: Asleep(s.events, c, w) && NotifiesThread(p, w.tid)
  }

  /** A broadcast is linked to every wait it wakes up, and to the signals on its condition variable that
      woke up somebody else and are news to its thread. */
  lemma BroadcastExact(s: System, t: Tid, c: Id, p: Event)
    requires Reachable(s) && Enabled(s, DoBroadcast(t, c)) && Waiters(s, c) != {}
    ensures p in Build(s, DoBroadcast(t, c)).condPreds <==>
            || Asleep(s.events, c, p)
            || (News(s, t, p) && p.Signal? && p.cid == c && !IsLost(p) && !SentToSleeper(s, c, p))
  {
    hide Before, Inv, Reachable, IsLessThan, NotifiesThread, Asleep;
    ReachableInv(s);
    WokenExact(s, c, p);
    SleepersExact(s, c, p);
    if !p.Wait1? {
      HeadsOfCond(s, c, p);
      if p in s.events {
        NewsTest(s, t, p);
      }
    }
  }

  lemma WokenExact(s: System, c: Id, p: Event)
    requires Reachable(s)
    ensures p in WokenWaits(s.cfg, Waiters(s, c)) <==> Asleep(s.events, c, p)
    ensures Asleep(s.events, c, p) ==> p.Wait1?
  {
    hide Inv, Reachable, Notified;
    forall u
      ensures u in Waiters(s, c) ==> u in s.cfg.threadHeads && Asleep(s.events, c, s.cfg.threadHeads[u])
    {
      WaitersExact(s, c, u);
    }
    if Asleep(s.events, c, p) {
      WaitersExact(s, c, p.tid);
    }
  }

  lemma SleepersExact(s: System, c: Id, p: Event)
    requires Reachable(s)
    ensures SentToSleeper(s, c, p) <==> exists u :: u in Waiters(s, c) && NotifiesThread(p, u)
  {
    hide Inv, Reachable, Notified, NotifiesThread;
    forall u
      ensures u in Waiters(s, c) <==> exists w :: Asleep(s.events, c, w) && w.tid == u
    {
      WaitersExact(s, c, u);
    }
  }

  /** A wait2 is linked to the one event that notified its wait1. */
  lemma Wait2Exact(s: System, t: Tid, c: Id, l: Id)
    requires Reachable(s) && Enabled(s, DoWait2(t, c, l))
    ensures var e := Build(s, DoWait2(t, c, l));
            && e.prev.Wait1? && e.prev.cid == c && e.prev.lid == l
            && forall n :: n == e.notifier <==> n in s.events && Notifies(n, e.prev)
  {
    hide Before, Inv, Reachable, Owed;
    ReachableInv(s);
    InvCores(s);
    assert ThreadPhase(s, t);
    Wait2Builds(s, t, c, l);
    var e := Build(s, DoWait2(t, c, l));
    HeadsCommitted(s, c, e.notifier);
  }

  /** A condition variable can be created exactly if there is no event on it. */
  lemma CondUnusedExact(s: System, t: Tid, c: Id)
    requires Reachable(s) && c > 0
    ensures Enabled(s, DoCreateCond(t, c)) <==>
            t in s.threads && s.threads[t].phase.Runnable? && forall x :: x in s.events ==> CidOf(x) != c
  {
    hide Before, Inv, Reachable;
    ReachableInv(s);
    InvCores(s);
    UnusedCond(s, c);
  }

  lemma UnusedCond(s: System, c: Id)
    requires Inv(s) && c != 0
    ensures c in s.cfg.condHeads <==> exists x :: x in s.events && CidOf(x) == c
    ensures c !in s.cfg.condHeads ==> c !in s.cfg.usedConds
  {
    hide Before, Inv;
    InvCores(s);
    if c in s.cfg.condHeads {
      var p := s.cfg.condHeads[c][0];
      assert p in HeadsOf(s.cfg.condHeads, c);
      HeadsCommitted(s, c, p);
    }
    if x :| x in s.events && CidOf(x) == c {
      UsedHasHeads(s, x);
    }
  }

  // ---------------------------------------------------------------- threads

  /** The thread predecessor is the last event of the thread. */
  lemma ThreadPredecessorExact(s: System, op: Op)
    requires Reachable(s) && Enabled(s, op) && !op.DoBlock?
    ensures var e := Build(s, op);
            && TidOf(e) == op.t && e.prev in s.events && TidOf(e.prev) == op.t
            && forall x :: x in s.events && TidOf(x) == op.t ==> BeforeEq(x, e.prev)
  {
    hide Before, Inv, Reachable, Wait1Preds, LostPreds, KeptSignals, WokenWaits;
    ReachableInv(s);
    InvChains(s);
  }

  /** A thread can be joined exactly if it has exited, and the join is linked to its exit. */
  lemma JoinExact(s: System, t: Tid, j: Tid)
    requires Reachable(s)
    ensures Enabled(s, DoJoin(t, j)) <==>
            && t in s.threads && s.threads[t].phase.Runnable?
            && exists x :: x in s.events && x.ThreadExit? && x.tid == j
    ensures Enabled(s, DoJoin(t, j)) ==>
              var x := Build(s, DoJoin(t, j)).exited; x in s.events && x.ThreadExit? && x.tid == j
  {
    hide Before, Inv, Reachable;
    ReachableInv(s);
    InvCores(s);
    InvChains(s);
    forall x | x in s.events && x.ThreadExit? && x.tid == j
      ensures j in s.cfg.threadHeads && s.cfg.threadHeads[j] == x
    {
      ExitIsLast(s, x);
    }
  }

  lemma ExitIsLast(s: System, x: Event)
    requires Reachable(s) && x in s.events && x.ThreadExit?
    ensures x.tid in s.cfg.threadHeads && s.cfg.threadHeads[x.tid] == x
  {
    hide Before, Inv, Reachable, ConflictFree;
    ReachableInv(s);
    InvChains(s);
    PartConflictFree(s, s.events);
    var h := s.cfg.threadHeads[x.tid];
    if x != h {
      var y := NextOnThread(s.events, x, h);
      assert Continues(s.events) by { ReachableHistory(s); }
    }
  }

  ghost function Created(events: set<Event>, t: Tid): set<Event> {
    set x | x in events && x.ThreadCreate? && x.tid == t
  }

  /** Threads are numbered by their parent: the id of the next one is the parent's with the number of
      its creations so far, plus one. */
  lemma SpawnExact(s: System, t: Tid)
    requires Reachable(s) && t in s.threads
    ensures SpawnTid(s, t) == t + [|Created(s.events, t)| + 1]
  {
    var run, ops :| IsRun(run, ops) && run[|ops|] == s;
    SpawnedCounts(run, ops, |ops|, t);
  }

  lemma {:induction false} SpawnedCounts(run: seq<System>, ops: seq<Op>, i: nat, t: Tid)
    requires IsRun(run, ops) && i < |run| && t in run[i].threads
    ensures run[i].threads[t].spawned == |Created(run[i].events, t)|
  {
    hide Enabled, Step, Reachable;
    if i == 0 {
      assert Created(Initial().events, t) == {};
    } else {
      var s, op := run[i - 1], ops[i - 1];
      RunReachable(run, ops, i - 1);
      if t in s.threads {
        SpawnedCounts(run, ops, i - 1, t);
      }
      SpawnedStep(s, op, t);
    }
  }

  lemma RunReachable(run: seq<System>, ops: seq<Op>, i: nat)
    requires IsRun(run, ops) && i < |run|
    ensures Reachable(run[i])
  {
    hide Enabled, Step;
    assert IsRun(run[..i + 1], ops[..i]);
  }

  lemma SpawnedStep(s: System, op: Op, t: Tid)
    requires Reachable(s) && Enabled(s, op) && t in Step(s, op).threads
    requires t in s.threads ==> s.threads[t].spawned == |Created(s.events, t)|
    ensures Step(s, op).threads[t].spawned == |Created(Step(s, op).events, t)|
  {
    hide Before, Inv, Reachable, Step, Build, Enabled, Committed, Created, CommitAll;
    ReachableInv(s);
    if op.DoBlock? {
      BlockKeeps(s, op);
    } else {
      StepCommits(s, op);
      CreatedAfter(s, op, t);
      SpawnedAt(s, op, t);
      if t !in s.threads {
        NoneCreated(s, t);
      }
    }
  }

  lemma SpawnedAt(s: System, op: Op, t: Tid)
    requires Inv(s) && Enabled(s, op) && !op.DoBlock? && t in Step(s, op).threads
    ensures Step(s, op).threads[t].spawned ==
            if t !in s.threads then 0
            else s.threads[t].spawned + if op.DoCreateThread? && op.t == t then 1 else 0
    ensures t !in s.threads ==> op.DoCreateThread? && t != op.t
  {
    hide Before, Inv, Step, Build, Notifies, HasIds, Extends, HeadsUntouched;
    StepKeys(s, op);
    if t in s.threads {
      assert t in s.cfg.threadHeads by { InvCores(s); }
      StepThreadAt(s, op, t);
    }
  }

  lemma BlockKeeps(s: System, op: Op)
    requires Enabled(s, op) && op.DoBlock?
    ensures Step(s, op).events == s.events && Step(s, op).threads.Keys == s.threads.Keys
    ensures forall t :: t in s.threads ==> Step(s, op).threads[t].spawned == s.threads[t].spawned
  {
  }

  lemma NoneCreated(s: System, t: Tid)
    requires Inv(s) && t !in s.threads
    ensures Created(s.events, t) == {}
  {
    hide Before;
  }

  lemma CreatedAfter(s: System, op: Op, t: Tid)
    requires Inv(s) && Enabled(s, op) && !op.DoBlock?
    ensures |Created(s.events + Committed(Build(s, op)), t)|
            == |Created(s.events, t)| + if op.DoCreateThread? && op.t == t then 1 else 0
  {
    hide Before, Inv, Wait1Preds, LostPreds, KeptSignals, WokenWaits, Extends, HasIds, HeadsUntouched;
    var e := Build(s, op);
    HeadsFrame(s, op);
    InvChains(s);
    ExtensionIsNew(s, e);
    if op.DoCreateThread? && op.t == t {
      assert Created(s.events + Committed(e), t) == Created(s.events, t) + {e};
    } else {
      assert Created(s.events + Committed(e), t) == Created(s.events, t);
    }
  }
}
