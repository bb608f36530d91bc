/** Every causally closed part of a run is a run: its events can be executed on their own, and
    each is then built again with the same predecessors.  So a history that the unfolding puts
    together from causes is an execution of its own. */
module PorSubruns {
  import opened Options
  import opened PorEvents
  import opened PorConfig
  import opened PorProtocol
  import opened PorInvariant
  import opened PorSteps
  import opened PorRuns
  import opened PorTheorems
  import opened PorCommute

  // ---------------------------------------------------------------- the heads of a part

  lemma SameThreadHead(s: System, r: System, t: Tid)
    requires ThreadChains(s) && ThreadChains(r) && r.events <= s.events
    requires t in s.cfg.threadHeads && s.cfg.threadHeads[t] in r.events
    ensures t in r.cfg.threadHeads && r.cfg.threadHeads[t] == s.cfg.threadHeads[t]
  {
    hide Before;
    var x, y := s.cfg.threadHeads[t], r.cfg.threadHeads[t];
    assert BeforeEq(x, y) && BeforeEq(y, x);
    Antisymmetric(x, y);
  }

  lemma Antisymmetric(x: Event, y: Event)
    requires BeforeEq(x, y) && BeforeEq(y, x)
    ensures x == y
  {
    if x != y {
      BeforeIsShallower(x, y);
      BeforeIsShallower(y, x);
    }
  }

  lemma SameLockHead(s: System, r: System, l: Id)
    requires LockChains(s) && LockChains(r) && r.events <= s.events
    requires l in s.cfg.lockHeads ==> s.cfg.lockHeads[l] in r.events
    ensures LockHead(r.cfg, l) == LockHead(s.cfg, l)
    ensures l in r.cfg.lockHeads <==> l in s.cfg.lockHeads
    ensures l !in s.cfg.lockHeads ==> l !in r.cfg.usedLocks
  {
    hide Before;
    if l in s.cfg.lockHeads {
      var x, y := s.cfg.lockHeads[l], r.cfg.lockHeads[l];
      assert BeforeEq(x, y) && BeforeEq(y, x);
      Antisymmetric(x, y);
    }
  }

  lemma SameHead(s: System, r: System, c: Id, p: Event)
    requires CondHeadsExact(s) && CondHeadsExact(r) && r.events <= s.events && !p.Wait1?
    ensures p in HeadsOf(r.cfg.condHeads, c) <==> p in HeadsOf(s.cfg.condHeads, c) && p in r.events
  {
    assert HeadsExact(s.events, HeadsOf(s.cfg.condHeads, c), c);
    assert HeadsExact(r.events, HeadsOf(r.cfg.condHeads, c), c);
  }

  lemma UnusedCond(s: System, r: System, c: Id)
    requires Inv(s) && CondHeadsExact(r) && r.events <= s.events && c !in s.cfg.condHeads
    ensures c !in r.cfg.condHeads && c !in r.cfg.usedConds
  {
    hide Inv, Before;
    if c in r.cfg.condHeads {
      var p := r.cfg.condHeads[c][0];
      assert p in HeadsOf(r.cfg.condHeads, c);
      HeadsCommitted(r, c, p);
      UsedHasHeads(s, p);
    }
  }

  // ---------------------------------------------------------------- replaying a step

  ghost predicate NoneBlocked(r: System) {
    forall t :: t in r.threads ==> !r.threads[t].phase.WaitLock?
  }

  /** `s` takes a step; all causes of its event have happened in the part `r` of `s`. */
  ghost predicate Replays(s: System, r: System, op: Op) {
    && Inv(s) && Inv(r) && r.events <= s.events && NoneBlocked(r)
    && Enabled(s, op) && !op.DoBlock? && Preds(Build(s, op)) <= r.events
    && (op.t in r.threads && op.t in r.cfg.threadHeads && r.cfg.threadHeads[op.t] == s.cfg.threadHeads[op.t] ==>
          r.threads[op.t].spawned == s.threads[op.t].spawned)
  }

  /** A thread that is about to take a lock first blocks on it. */
  function Blocked(r: System, op: Op): System
    requires op.t in r.threads
  {
    if op.DoAcquire? then r.(threads := SetPhase(r.threads, op.t, WaitLock(op.l))) else r
  }

  ghost predicate SameStep(s: System, r: System, op: Op)
    requires Enabled(s, op) && !op.DoBlock?
  {
    op.t in r.threads && Enabled(Blocked(r, op), op) && Build(Blocked(r, op), op) == Build(s, op)
  }

  lemma PrevIsHead(s: System, op: Op)
    requires Enabled(s, op) && !op.DoBlock?
    ensures s.cfg.threadHeads[op.t] in Preds(Build(s, op))
  {
    hide Before, Depth, Causes, Wait1Preds, LostPreds, KeptSignals, WokenWaits, Waiters;
  }

  /** The acting thread is where it was, and not blocked unless in a wait. */
  lemma SameActor(s: System, r: System, op: Op)
    requires Replays(s, r, op)
    ensures op.t in r.threads && op.t in r.cfg.threadHeads && r.cfg.threadHeads[op.t] == s.cfg.threadHeads[op.t]
    ensures r.threads[op.t].spawned == s.threads[op.t].spawned
    ensures !op.DoWait2? ==> r.threads[op.t].phase.Runnable?
    ensures op.DoWait2? ==> var w := s.cfg.threadHeads[op.t];
            w.Wait1? && w.cid == op.c && w.lid == op.l && Notified(s.events, w)
  {
    hide Before, Build, Closed, LockChains, CondHeadsExact, ThreadEvents, LockAlternation, LockLinks, DependentOrdered,
         PastWaits, Outstanding, Notifications, Wakeups;
    PrevIsHead(s, op);
    SameThreadHead(s, r, op.t);
    assert ThreadPhase(s, op.t) && ThreadPhase(r, op.t);
  }

  lemma SameLock(s: System, r: System, op: Op)
    requires Replays(s, r, op)
    requires op.DoAcquire? || op.DoRelease? || op.DoWait1? || op.DoWait2? || op.DoCreateLock?
    ensures LockHead(r.cfg, op.l) == LockHead(s.cfg, op.l)
    ensures op.l in r.cfg.lockHeads <==> op.l in s.cfg.lockHeads
    ensures op.l !in s.cfg.lockHeads ==> op.l !in r.cfg.usedLocks
  {
    hide Before, Closed, ThreadChains, CondHeadsExact, ThreadEvents, LockAlternation, LockLinks, DependentOrdered,
         PastWaits, Outstanding, Notifications, Wakeups, Wait1Preds;
    SameLockHead(s, r, op.l);
  }

  lemma PlainReplays(s: System, r: System, op: Op)
    requires Replays(s, r, op)
    requires op.DoLocal? || op.DoExit? || op.DoCreateThread? || op.DoCreateLock? || op.DoAcquire? || op.DoRelease?
             || op.DoCreateCond?
    ensures SameStep(s, r, op)
  {
    hide Before, Inv, Core, CondCore, CondHeadsExact, Notifications, ThreadEvents, Phases;
    SameActor(s, r, op);
    InvCores(r);
    if op.DoCreateLock? || op.DoAcquire? || op.DoRelease? {
      SameLock(s, r, op);
      InvLocks(s);
      InvLocks(r);
    } else if op.DoCreateCond? {
      UnusedCond(s, r, op.c);
    }
  }

  lemma InvLocks(s: System)
    requires Inv(s)
    ensures s.cfg.usedLocks <= s.cfg.lockHeads.Keys
  {
  }

  lemma JoinReplays(s: System, r: System, op: Op)
    requires Replays(s, r, op) && op.DoJoin?
    ensures SameStep(s, r, op)
  {
    hide Before, Inv, Core, CondCore, CondHeadsExact, Notifications, ThreadEvents, Phases;
    SameActor(s, r, op);
    assert s.cfg.threadHeads[op.joined] in Preds(Build(s, op));
    InvChains(s);
    InvChains(r);
    SameThreadHead(s, r, op.joined);
  }

  lemma InvChains(s: System)
    requires Inv(s)
    ensures ThreadChains(s) && Closed(s.events)
  {
    hide Before;
  }

  lemma Wait1Replays(s: System, r: System, op: Op)
    requires Replays(s, r, op) && op.DoWait1?
    ensures SameStep(s, r, op)
  {
    hide Before, Depth, Causes, Inv, Core, CondCore, CondHeadsExact, Notifications, ThreadEvents, Phases, KeepForWait1;
    SameActor(s, r, op);
    SameLock(s, r, op);
    InvCores(s);
    InvCores(r);
    var et := s.cfg.threadHeads[op.t];
    SameWait1Preds(s, r, op.c, et);
  }

  lemma SameWait1Preds(s: System, r: System, c: Id, et: Event)
    requires CondHeadsExact(s) && CondHeadsExact(r) && r.events <= s.events
    requires Wait1Preds(et, HeadsOf(s.cfg.condHeads, c)) <= r.events
    ensures Wait1Preds(et, HeadsOf(r.cfg.condHeads, c)) == Wait1Preds(et, HeadsOf(s.cfg.condHeads, c))
  {
    hide Before, Depth, Causes, CondHeadsExact;
    forall p | KeepForWait1(et, p)
      ensures p in HeadsOf(r.cfg.condHeads, c) <==> p in HeadsOf(s.cfg.condHeads, c) && p in r.events
    {
      SameHead(s, r, c, p);
    }
  }

  lemma Wait2Replays(s: System, r: System, op: Op)
    requires Replays(s, r, op) && op.DoWait2?
    ensures SameStep(s, r, op)
  {
    hide Before, Depth, Causes, Inv, Core, CondCore, CondHeadsExact, ThreadEvents, Owed;
    SameActor(s, r, op);
    SameLock(s, r, op);
    InvLocks(r);
    InvCores(s);
    InvCores(r);
    Wait2Builds(s, op.t, op.c, op.l);
    var w := s.cfg.threadHeads[op.t];
    var n := Notifier(HeadsOf(s.cfg.condHeads, op.c), w).value;
    assert n in Preds(Build(s, op));
    SameHead(s, r, op.c, n);
    HeadsCommitted(s, op.c, n);
    assert ThreadPhase(r, op.t);
    var m := Notifier(HeadsOf(r.cfg.condHeads, op.c), w).value;
    HeadsCommitted(r, op.c, m);
  }

  lemma CauseKept(r: set<Event>, e: Event, x: Event)
    requires Closed(r) && Preds(e) <= r && Before(x, e)
    ensures x in r
  {
    var p :| p in Preds(e) && (x == p || Before(x, p));
    if x != p {
      CausesCommitted(r, x, p);
    }
  }

  /** Whoever has been notified before a lost notification or a broadcast has been notified by one
      of its causes. */
  lemma EarlierNotifierKept(s: System, r: set<Event>, e: Event, n: Event)
    requires IdsPositive(s.events) && Closed(r) && Owed(s, e) && Preds(e) <= r
    requires Notification(e) && (IsLost(e) || e.Broadcast?)
    requires n in s.events && Notification(n) && !IsLost(n) && CidOf(n) == CidOf(e)
    ensures n in r
  {
    hide Before;
    if TidOf(n) != TidOf(e) {
      DependenceCases(n, e);
    }
    assert !Independent(n, e);
    CauseKept(r, e, n);
  }

  lemma NoOtherWaiters(s: System, r: System, e: Event, u: Tid)
    requires Inv(s) && Inv(r) && r.events <= s.events && Owed(s, e) && Preds(e) <= r.events
    requires Notification(e) && (IsLost(e) || e.Broadcast?) && u in Waiters(r, CidOf(e))
    ensures u in Waiters(s, CidOf(e))
  {
    hide Inv, Before, Owed, Core, CondCore, ThreadEvents, CondHeadsExact, Waiters;
    WaiterHead(r, e.cid, u);
    InvCores(s);
    InvIds(s);
    InvChains(r);
    var w := r.cfg.threadHeads[u];
    if Notified(s.events, w) {
      var n :| n in s.events && Notifies(n, w);
      NotifiesIsNotLost(n, w);
      EarlierNotifierKept(s, r.events, e, n);
    }
    OutstandingWaits(s, w);
  }

  lemma InvIds(s: System)
    requires Inv(s)
    ensures IdsPositive(s.events)
  {
  }

  lemma WaiterStays(s: System, r: System, c: Id, u: Tid)
    requires Inv(s) && Inv(r) && r.events <= s.events && u in Waiters(s, c)
    requires u in s.cfg.threadHeads && s.cfg.threadHeads[u] in r.events
    ensures u in Waiters(r, c) && u in r.cfg.threadHeads && r.cfg.threadHeads[u] == s.cfg.threadHeads[u]
  {
    hide Inv, Before, Waiters;
    WaiterHead(s, c, u);
    InvChains(s);
    InvChains(r);
    SameThreadHead(s, r, u);
    OutstandingWaits(r, s.cfg.threadHeads[u]);
  }

  lemma SameLostPreds(s: System, r: System, c: Id, et: Event)
    requires CondHeadsExact(s) && CondHeadsExact(r) && r.events <= s.events
    requires LostPreds(et, HeadsOf(s.cfg.condHeads, c)) <= r.events
    requires forall p :: p in HeadsOf(s.cfg.condHeads, c) ==> !p.Wait1?
    requires forall p :: p in HeadsOf(r.cfg.condHeads, c) ==> !p.Wait1?
    ensures LostPreds(et, HeadsOf(r.cfg.condHeads, c)) == LostPreds(et, HeadsOf(s.cfg.condHeads, c))
  {
    hide Before, Depth, Causes, CondHeadsExact, KeepForLost;
    forall p: Event | !p.Wait1?
      ensures p in HeadsOf(r.cfg.condHeads, c) <==> p in HeadsOf(s.cfg.condHeads, c) && p in r.events
    {
      SameHead(s, r, c, p);
    }
  }

  lemma SameKeptSignals(s: System, r: System, c: Id, et: Event, woken: set<Tid>)
    requires CondHeadsExact(s) && CondHeadsExact(r) && r.events <= s.events
    requires KeptSignals(et, woken, HeadsOf(s.cfg.condHeads, c)) <= r.events
    ensures KeptSignals(et, woken, HeadsOf(r.cfg.condHeads, c)) == KeptSignals(et, woken, HeadsOf(s.cfg.condHeads, c))
  {
    hide Before, Depth, Causes, CondHeadsExact;
    forall p | KeepForBroadcast(et, woken, p)
      ensures p in HeadsOf(r.cfg.condHeads, c) <==> p in HeadsOf(s.cfg.condHeads, c) && p in r.events
    {
      SameHead(s, r, c, p);
    }
  }

  lemma LostReplays(s: System, r: System, op: Op)
    requires Replays(s, r, op)
    requires (op.DoSignal? && op.woken.None?) || (op.DoBroadcast? && Waiters(s, op.c) == {})
    ensures SameStep(s, r, op)
  {
    hide Before, Depth, Causes, Inv, Core, CondCore, CondHeadsExact, Notifications, ThreadEvents, Phases, KeepForLost,
         Owed;
    SameActor(s, r, op);
    InvCores(s);
    InvCores(r);
    LostBuilds(s, op);
    var e, et := Build(s, op), s.cfg.threadHeads[op.t];
    assert CidOf(e) == op.c;
    forall u | u in Waiters(r, op.c)
      ensures u in Waiters(s, op.c)
    {
      NoOtherWaiters(s, r, e, u);
    }
    assert Waiters(r, op.c) == {};
    LostBuilds(r, op);
    assert LostPreds(et, HeadsOf(s.cfg.condHeads, op.c)) <= Preds(e);
    SameLostPreds(s, r, op.c, et);
  }

  lemma SignalReplays(s: System, r: System, op: Op)
    requires Replays(s, r, op) && op.DoSignal? && op.woken.Some?
    ensures SameStep(s, r, op)
  {
    hide Before, Depth, Causes, Inv, Owed;
    SameActor(s, r, op);
    var u := op.woken.value;
    SignalBuilds(s, op.t, op.c, u);
    assert s.cfg.threadHeads[u] in Preds(Build(s, op));
    WaiterStays(s, r, op.c, u);
    SignalBuilds(r, op.t, op.c, u);
  }

  lemma BroadcastReplays(s: System, r: System, op: Op)
    requires Replays(s, r, op) && op.DoBroadcast? && Waiters(s, op.c) != {}
    ensures SameStep(s, r, op)
  {
    hide Before, Depth, Causes, Inv, Core, CondCore, CondHeadsExact, Notifications, ThreadEvents, Phases,
         KeepForBroadcast, Owed;
    SameActor(s, r, op);
    BroadcastBuilds(s, op.t, op.c);
    var e, et, woken := Build(s, op), s.cfg.threadHeads[op.t], Waiters(s, op.c);
    forall u | u in woken
      ensures u in Waiters(r, op.c) && u in r.cfg.threadHeads && r.cfg.threadHeads[u] == s.cfg.threadHeads[u]
    {
      assert s.cfg.threadHeads[u] in WokenWaits(s.cfg, woken);
      assert s.cfg.threadHeads[u] in Preds(e);
      WaiterStays(s, r, op.c, u);
    }
    forall u | u in Waiters(r, op.c)
      ensures u in woken
    {
      NoOtherWaiters(s, r, e, u);
    }
    assert Waiters(r, op.c) == woken;
    assert WokenWaits(r.cfg, woken) == WokenWaits(s.cfg, woken);
    InvCores(s);
    InvCores(r);
    assert KeptSignals(et, woken, HeadsOf(s.cfg.condHeads, op.c)) <= Preds(e);
    SameKeptSignals(s, r, op.c, et, woken);
  }

  /** A step can be replayed as soon as its causes have happened, and builds the same event. */
  lemma StepReplays(s: System, r: System, op: Op)
    requires Replays(s, r, op)
    ensures SameStep(s, r, op)
  {
    hide Build, Inv, SameStep;
    if op.DoWait1? {
      Wait1Replays(s, r, op);
    } else if op.DoWait2? {
      Wait2Replays(s, r, op);
    } else if op.DoJoin? {
      JoinReplays(s, r, op);
    } else if op.DoSignal? && op.woken.Some? {
      SignalReplays(s, r, op);
    } else if op.DoBroadcast? && Waiters(s, op.c) != {} {
      BroadcastReplays(s, r, op);
    } else if op.DoSignal? || op.DoBroadcast? {
      LostReplays(s, r, op);
    } else {
      PlainReplays(s, r, op);
    }
  }

  // ---------------------------------------------------------------- replaying a run

  /** Contains the causes of its events, and with the creation of a thread its first event. */
  ghost predicate Complete(k: set<Event>) {
    && (forall e, p :: e in k && p in Preds(e) ==> p in k)
    && (forall e :: e in k && e.ThreadCreate? ==> ThreadInit(e.newTid, e) in k)
  }

  ghost predicate SameHeadOf(s: System, r: System, t: Tid) {
    && t in r.threads && t in r.cfg.threadHeads && t in s.threads && t in s.cfg.threadHeads
    && r.cfg.threadHeads[t] == s.cfg.threadHeads[t]
  }

  ghost predicate SpawnedAlike(s: System, r: System) {
    forall t :: SameHeadOf(s, r, t) ==> r.threads[t].spawned == s.threads[t].spawned
  }

  /** `r` has executed exactly the events of `s` that are in `k`. */
  ghost predicate PartOf(s: System, r: System, k: set<Event>) {
    Inv(s) && Inv(r) && r.events == s.events * k && NoneBlocked(r) && SpawnedAlike(s, r)
  }

  lemma SkipBlock(s: System, r: System, k: set<Event>, op: Op)
    requires PartOf(s, r, k) && Enabled(s, op) && op.DoBlock?
    ensures PartOf(Step(s, op), r, k)
  {
    hide Inv;
    StepKeepsInv(s, op);
  }

  /** The spawn counts after a step of `s`. */
  lemma SpawnedAfter(s: System, op: Op, t: Tid)
    requires Inv(s) && Enabled(s, op) && !op.DoBlock?
    requires t in Step(s, op).threads && t in Step(s, op).cfg.threadHeads
    ensures t in s.threads <==> t in s.cfg.threadHeads
    ensures t in s.threads ==> t !in NewThreads(s, op)
    ensures t in s.threads && t != op.t ==>
              Step(s, op).threads[t].spawned == s.threads[t].spawned
                && Step(s, op).cfg.threadHeads[t] == s.cfg.threadHeads[t]
    ensures t == op.t ==> Step(s, op).cfg.threadHeads[t] == Build(s, op)
    ensures t == op.t ==> Step(s, op).threads[t].spawned == s.threads[t].spawned + if op.DoCreateThread? then 1 else 0
    ensures t !in s.threads ==> t in NewThreads(s, op) && Step(s, op).threads[t].spawned == 0
  {
    hide Inv, Build, Step, Before, Notifies;
    SameKeys(s);
    StepKeys(s, op);
    if t in s.threads {
      StepThreadAt(s, op, t);
      HeadAfterStep(s, op, t);
    }
  }

  lemma SkipEvent(s: System, r: System, k: set<Event>, op: Op)
    requires PartOf(s, r, k) && Complete(k) && Enabled(s, op) && !op.DoBlock? && Build(s, op) !in k
    ensures PartOf(Step(s, op), r, k)
  {
    hide Inv, Build, Step, Before, Enabled;
    var s', e := Step(s, op), Build(s, op);
    StepKeepsInv(s, op);
    StepCommits(s, op);
    assert e.ThreadCreate? ==> e in Preds(ThreadInit(e.newTid, e));
    assert s'.events * k == s.events * k;
    forall t | SameHeadOf(s', r, t)
      ensures r.threads[t].spawned == s'.threads[t].spawned
    {
      SpawnedAfter(s, op, t);
      HeadOfThread(r, t);
      NoEmptyTid(r, t);
      OnItsThread(s, r.cfg.threadHeads[t], t);
    }
  }

  lemma OnItsThread(s: System, x: Event, t: Tid)
    requires Inv(s) && x in s.events && TidOf(x) == t && t != []
    ensures t in s.cfg.threadHeads
  {
  }

  lemma NoEmptyTid(s: System, t: Tid)
    requires Inv(s) && t in s.cfg.threadHeads
    ensures t != []
  {
  }

  lemma ReplayEvent(s: System, r: System, k: set<Event>, op: Op) returns (r': System)
    requires PartOf(s, r, k) && Complete(k) && Reachable(r) && Enabled(s, op) && !op.DoBlock? && Build(s, op) in k
    ensures Reachable(r') && PartOf(Step(s, op), r', k)
  {
    hide Inv, Build, Step, Before, Reachable, Extends, HasIds, HeadsUntouched, Enabled;
    HeadsFrame(s, op);
    ExtendsPreds(s, Build(s, op));
    CanReplay(s, r, k, op);
    StepReplays(s, r, op);
    var b := Blocked(r, op);
    BlockFirst(s, r, op);
    r' := Step(b, op);
    ReachableStep(b, op);
    StepKeepsInv(s, op);
    StepKeepsInv(b, op);
    StepCommits(s, op);
    StepCommits(b, op);
    assert r'.events == Step(s, op).events * k;
    ReplayThreads(s, r, op);
  }

  lemma ExtendsPreds(s: System, e: Event)
    requires Extends(s, e)
    ensures Preds(e) <= s.events
  {
  }

  lemma CanReplay(s: System, r: System, k: set<Event>, op: Op)
    requires PartOf(s, r, k) && Complete(k) && Enabled(s, op) && !op.DoBlock? && Build(s, op) in k
             && Preds(Build(s, op)) <= s.events
    ensures Replays(s, r, op)
  {
    hide Inv, Build;
    assert SameHeadOf(s, r, op.t) ==> r.threads[op.t].spawned == s.threads[op.t].spawned;
  }

  lemma BlockFirst(s: System, r: System, op: Op)
    requires Replays(s, r, op) && Reachable(r) && SameStep(s, r, op)
    ensures Reachable(Blocked(r, op)) && Inv(Blocked(r, op))
  {
    hide Inv, Build, Reachable;
    SameActor(s, r, op);
    if op.DoAcquire? {
      ReachableStep(r, DoBlock(op.t, op.l));
      StepKeepsInv(r, DoBlock(op.t, op.l));
    }
  }

  lemma ReplayThreads(s: System, r: System, op: Op)
    requires Replays(s, r, op) && SameStep(s, r, op) && SpawnedAlike(s, r) && Inv(Blocked(r, op))
    ensures NoneBlocked(Step(Blocked(r, op), op)) && SpawnedAlike(Step(s, op), Step(Blocked(r, op), op))
  {
    hide Inv, Build, Step, Before, Enabled, Notifies;
    SameActor(s, r, op);
    var b := Blocked(r, op);
    var s', r' := Step(s, op), Step(b, op);
    StepKeepsInv(b, op);
    SameKeys(b);
    StepKeys(b, op);
    forall t | t in r'.threads
      ensures !r'.threads[t].phase.WaitLock?
    {
      if t in b.threads {
        StepThreadAt(b, op, t);
      }
    }
    forall t | SameHeadOf(s', r', t)
      ensures r'.threads[t].spawned == s'.threads[t].spawned
    {
      SpawnedAfter(s, op, t);
      SpawnedAfter(b, op, t);
      assert t in s.threads && t in r.threads ==>
             (SameHeadOf(s, r, t) <==> r.cfg.threadHeads[t] == s.cfg.threadHeads[t]);
    }
  }

  lemma PartStep(s: System, r: System, k: set<Event>, op: Op) returns (r': System)
    requires PartOf(s, r, k) && Complete(k) && Reachable(r) && Enabled(s, op)
    ensures Reachable(r') && PartOf(Step(s, op), r', k)
  {
    hide Build, Step, PartOf, Complete, Reachable, Enabled;
    r' := r;
    if op.DoBlock? {
      SkipBlock(s, r, k, op);
    } else if Build(s, op) !in k {
      SkipEvent(s, r, k, op);
    } else {
      r' := ReplayEvent(s, r, k, op);
    }
  }

  lemma InitialPart(k: set<Event>)
    requires {ProgramInit, ThreadInit(MainTid, ProgramInit)} <= k
    ensures PartOf(Initial(), Initial(), k) && Reachable(Initial())
  {
    hide Inv;
    InitialInv();
    InitialReachable();
  }

  lemma {:induction false} RunPart(run: seq<System>, ops: seq<Op>, i: nat, k: set<Event>) returns (r: System)
    requires IsRun(run, ops) && i < |run| && Complete(k) && {ProgramInit, ThreadInit(MainTid, ProgramInit)} <= k
    ensures Reachable(r) && PartOf(run[i], r, k)
  {
    hide Initial, Step, PartOf, Complete, Reachable, Enabled;
    if i == 0 {
      InitialPart(k);
      r := Initial();
    } else {
      r := RunPart(run, ops, i - 1, k);
      r := PartStep(run[i - 1], r, k, ops[i - 1]);
    }
  }

  /** A complete part of the events of a reachable state is what another reachable state has
      executed. */
  lemma PartReachable(s: System, k: set<Event>) returns (r: System)
    requires Reachable(s) && k <= s.events && Complete(k) && {ProgramInit, ThreadInit(MainTid, ProgramInit)} <= k
    ensures Reachable(r) && r.events == k && NoneBlocked(r)
  {
    hide Inv, Complete, Initial, Step;
    var run, ops :| IsRun(run, ops) && run[|ops|] == s;
    r := RunPart(run, ops, |ops|, k);
    assert s.events * k == k;
  }
}
