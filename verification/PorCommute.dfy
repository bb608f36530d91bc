/** Exactly the steps the independence relation separates commute: two enabled steps of different
    threads can be taken in either order, with the same events and the same resulting state, if
    and only if their events are independent or form one of the over-approximated pairs. */
module PorCommute {
  import opened Options
  import opened PorEvents
  import opened PorConfig
  import opened PorProtocol
  import opened PorInvariant
  import opened PorSteps
  import opened PorRuns
  import opened PorTheorems

  /** Independent, or two joins, or two signals that wake up different threads. */
  predicate MayCommute(a: Event, b: Event) {
    Independent(a, b) || Overapproximated(a, b)
  }

  /** Heads may be listed in a different order. */
  ghost predicate SameHeads(m: map<Id, seq<Event>>, n: map<Id, seq<Event>>) {
    forall c :: (c in m <==> c in n) && multiset(HeadsOf(m, c)) == multiset(HeadsOf(n, c))
  }

  ghost predicate SameConfig(a: Config, b: Config) {
    && a.threadHeads == b.threadHeads && a.lockHeads == b.lockHeads
    && SameHeads(a.condHeads, b.condHeads) && SameHeads(a.w2Heads, b.w2Heads)
    && a.usedConds == b.usedConds && a.usedLocks == b.usedLocks && a.size == b.size
  }

  ghost predicate SameState(s: System, r: System) {
    s.events == r.events && s.threads == r.threads && SameConfig(s.cfg, r.cfg)
  }

  // ---------------------------------------------------------------- what a step leaves alone

  ghost predicate HeadsUntouched(s: System, e: Event, r: System) {
    && (forall u :: u in s.cfg.threadHeads && u != TidOf(e) ==>
        u in r.cfg.threadHeads && r.cfg.threadHeads[u] == s.cfg.threadHeads[u])
    && (forall l :: l != LidOf(e) ==>
          && LockHead(r.cfg, l) == LockHead(s.cfg, l)
          && (l in r.cfg.lockHeads <==> l in s.cfg.lockHeads)
          && (l in r.cfg.usedLocks <==> l in s.cfg.usedLocks))
    && (forall c :: c != CidOf(e) ==>
          && HeadsOf(r.cfg.condHeads, c) == HeadsOf(s.cfg.condHeads, c)
          && (c in r.cfg.condHeads <==> c in s.cfg.condHeads)
          && (c in r.cfg.usedConds <==> c in s.cfg.usedConds))
    && (ChangesHeads(e) ==> HeadsOf(r.cfg.condHeads, e.cid) == UpdateHeads(HeadsOf(s.cfg.condHeads, e.cid), e))
    && (!ChangesHeads(e) ==> r.cfg.condHeads == s.cfg.condHeads && r.cfg.usedConds == s.cfg.usedConds)
  }

  ghost predicate ThreadsUntouched(s: System, e: Event, r: System) {
    forall u :: u in s.threads && u in s.cfg.threadHeads && u != TidOf(e) && !Notifies(e, s.cfg.threadHeads[u]) ==>
      u in r.threads && r.threads[u] == s.threads[u]
  }

  lemma AddFrame(s: System, e: Event, threads: map<Tid, Thread>)
    requires HasIds(e)
    ensures HeadsUntouched(s, e, Add(s, e, threads))
  {
  }

  lemma AddInitFrame(s: System, e: Event, threads: map<Tid, Thread>, r: System)
    requires HeadsUntouched(s, e, r) && e.ThreadCreate? && e.newTid !in s.cfg.threadHeads
    ensures HeadsUntouched(s, e, Add(r, ThreadInit(e.newTid, e), threads))
  {
  }

  lemma HeadsFrame(s: System, op: Op)
    requires Inv(s) && Enabled(s, op) && !op.DoBlock?
    ensures var e := Build(s, op); TidOf(e) == op.t && HasIds(e) && Extends(s, e) && HeadsUntouched(s, e, Step(s, op))
  {
    hide Before, Inv, Owed, HeadsUntouched, HasIds, Extends;
    var e := Build(s, op);
    BuildOwed(s, op);
    OwedHasIds(s, e);
    AddFrame(s, e, StepThreads(s, op));
    if op.DoCreateThread? {
      InvCores(s);
      SpawnIsNew(s, op.t);
      var s1 := Add(s, e, StepThreads(s, op));
      AddInitFrame(s, e, s1.threads, s1);
    }
  }

  lemma ThreadsFrame(s: System, op: Op)
    requires Inv(s) && Enabled(s, op) && !op.DoBlock?
    ensures ThreadsUntouched(s, Build(s, op), Step(s, op))
  {
    hide Before, Inv, Core, CondCore, CondHeadsExact, Notifications, ThreadEvents;
    InvCores(s);
    var e := Build(s, op);
    if op.DoCreateThread? {
      SpawnIsNew(s, op.t);
    } else if op.DoSignal? && op.woken.Some? {
      WaiterHead(s, op.c, op.woken.value);
      assert s.cfg.threadHeads[op.woken.value] in WokenWaits(s.cfg, {op.woken.value});
    } else if op.DoBroadcast? {
      forall u | u in Waiters(s, op.c)
        ensures u in s.cfg.threadHeads && Notifies(e, s.cfg.threadHeads[u])
      {
        WaiterHead(s, op.c, u);
        assert s.cfg.threadHeads[u] in WokenWaits(s.cfg, Waiters(s, op.c));
      }
    }
  }

  lemma OwedHasIds(s: System, e: Event)
    requires Owed(s, e)
    ensures HasIds(e) && Extends(s, e)
  {
    hide Before;
  }

  lemma BuildOwed(s: System, op: Op)
    requires Inv(s) && Enabled(s, op) && !op.DoBlock?
    ensures Owed(s, Build(s, op))
  {
    hide Inv, Owed, Before, Core, CondCore;
    match op
    case DoCreateThread(t) =>
      InvCores(s);
      RunningHead(s, t);
      SpawnIsNew(s, t);
      CreateThreadOwed(s, t, SpawnTid(s, t));
    case DoCreateCond(t, c) => CreateCondBuilds(s, t, c);
    case DoWait2(t, c, l) => Wait2Builds(s, t, c, l);
    case DoSignal(t, c, Some(u)) => SignalBuilds(s, t, c, u);
    case DoSignal(_, _, None) => LostBuilds(s, op);
    case DoBroadcast(t, c) =>
      if Waiters(s, c) == {} {
        LostBuilds(s, op);
      } else {
        BroadcastBuilds(s, t, c);
      }
    case _ => PlainBuilds(s, op);
  }

  // ---------------------------------------------------------------- a step stays enabled and builds the same event

  /** `e` is the event of a step from `s` to `r`, taken by another thread than `t`, which stays
      as it is. */
  ghost predicate Aside(s: System, e: Event, r: System, t: Tid) {
    && HasIds(e) && HeadsUntouched(s, e, r) && ThreadsUntouched(s, e, r) && TidOf(e) != t
    && t in s.threads && t in s.cfg.threadHeads && !Notifies(e, s.cfg.threadHeads[t])
  }

  lemma {:induction false} ActorNotWoken(s: System, op: Op, e: Event)
    requires Phases(s) && Enabled(s, op) && WakesOutstanding(s.events, e)
    ensures !Notifies(e, s.cfg.threadHeads[op.t])
  {
    hide Before;
    assert ThreadPhase(s, op.t);
  }

  lemma SeparateLocks(e1: Event, e2: Event)
    requires HasIds(e1) && HasIds(e2) && !e1.ProgramInit? && !e2.ProgramInit? && TidOf(e1) != TidOf(e2)
             && MayCommute(e1, e2)
    ensures LidOf(e2) != 0 ==> LidOf(e1) != LidOf(e2)
    ensures CondDependent(e1, e2) ==> e1.Signal? && e2.Signal? && !IsLost(e1) && !IsLost(e2) && Waits(e1) !! Waits(e2)
  {
    DependenceCases(e1, e2);
  }

  lemma PlainStays(s: System, op: Op, e1: Event, r: System)
    requires Enabled(s, op) && Aside(s, e1, r, op.t)
    requires op.DoLocal? || op.DoExit? || op.DoCreateThread? || op.DoCreateLock? || op.DoAcquire? || op.DoRelease?
    requires op.DoCreateLock? || op.DoAcquire? || op.DoRelease? ==> LidOf(e1) != op.l
    ensures Enabled(r, op) && Build(r, op) == Build(s, op)
  {
  }

  lemma JoinStays(s: System, op: Op, e1: Event, r: System)
    requires Enabled(s, op) && Aside(s, e1, r, op.t) && op.DoJoin? && op.joined != TidOf(e1)
    ensures Enabled(r, op) && Build(r, op) == Build(s, op)
  {
  }

  lemma CreateCondStays(s: System, op: Op, e1: Event, r: System)
    requires Enabled(s, op) && Aside(s, e1, r, op.t) && op.DoCreateCond? && CidOf(e1) != op.c
    ensures Enabled(r, op) && Build(r, op) == Build(s, op)
  {
  }

  /** The heads of a condition variable after a step: the woken wait1s may go, `e` may come. */
  ghost predicate HeadsBecome(heads: seq<Event>, after: seq<Event>, e: Event) {
    && (forall x :: x in after ==> x in heads || x == e)
    && (forall x :: x in heads && !Notifies(e, x) ==> x in after)
  }

  lemma {:induction false} ReplaceFirstBecomes(heads: seq<Event>, xs: set<Event>, e: Event)
    ensures forall x :: x in ReplaceFirst(heads, xs, e) ==> x in heads || x == e
    ensures forall x :: x in heads && x !in xs ==> x in ReplaceFirst(heads, xs, e)
  {
    if heads != [] {
      ReplaceFirstBecomes(heads[1..], xs, e);
    }
  }

  lemma {:induction false} RemoveAllBecomes(heads: seq<Event>, xs: set<Event>)
    ensures forall x :: x in RemoveAll(heads, xs) <==> x in heads && x !in xs
  {
    if heads != [] {
      RemoveAllBecomes(heads[1..], xs);
    }
  }

  lemma UpdateBecomes(heads: seq<Event>, e: Event)
    requires ChangesHeads(e) && (e.CondCreate? ==> heads == [])
    ensures HeadsBecome(heads, UpdateHeads(heads, e), e)
  {
    if Notification(e) {
      assert forall x :: x in Waits(e) <==> Notifies(e, x);
      ReplaceFirstBecomes(heads, Waits(e), e);
      RemoveAllBecomes(heads, Waits(e));
    }
  }

  lemma HeadsAfter(s: System, e: Event, r: System, c: Id)
    requires HasIds(e) && HeadsUntouched(s, e, r)
    requires e.CondCreate? ==> e.cid !in s.cfg.condHeads
    ensures HeadsBecome(HeadsOf(s.cfg.condHeads, c), HeadsOf(r.cfg.condHeads, c), e)
    ensures CidOf(e) != c ==> HeadsOf(r.cfg.condHeads, c) == HeadsOf(s.cfg.condHeads, c)
    ensures !ChangesHeads(e) ==> HeadsOf(r.cfg.condHeads, c) == HeadsOf(s.cfg.condHeads, c)
  {
    if ChangesHeads(e) && e.cid == c {
      UpdateBecomes(HeadsOf(s.cfg.condHeads, c), e);
    }
  }

  lemma Wait1Stays(s: System, op: Op, e1: Event, r: System)
    requires Enabled(s, op) && Aside(s, e1, r, op.t) && op.DoWait1?
    requires e1.CondCreate? ==> e1.cid !in s.cfg.condHeads
    requires LidOf(e1) != op.l && !CondDependent(e1, Build(s, op))
    ensures Enabled(r, op) && Build(r, op) == Build(s, op)
  {
    hide Before, Depth, Causes;
    HeadsAfter(s, e1, r, op.c);
    var et := s.cfg.threadHeads[op.t];
    var e2 := Build(s, op);
    if CidOf(e1) == op.c && ChangesHeads(e1) {
      assert !KeepForWait1(et, e1);
      assert Wait1Preds(et, HeadsOf(r.cfg.condHeads, op.c)) == Wait1Preds(et, HeadsOf(s.cfg.condHeads, op.c));
    }
  }

  lemma Wait2Stays(s: System, op: Op, e1: Event, r: System)
    requires Enabled(s, op) && Aside(s, e1, r, op.t) && op.DoWait2? && Notifications(s.events) && CondHeadsExact(s)
    requires e1.CondCreate? ==> e1.cid !in s.cfg.condHeads
    requires LidOf(e1) != op.l && Notifier(HeadsOf(s.cfg.condHeads, op.c), s.cfg.threadHeads[op.t]).Some?
    ensures Enabled(r, op) && Build(r, op) == Build(s, op)
  {
    hide Before, Depth, Causes, CondHeadsExact;
    HeadsAfter(s, e1, r, op.c);
    var w := s.cfg.threadHeads[op.t];
    var heads, after := HeadsOf(s.cfg.condHeads, op.c), HeadsOf(r.cfg.condHeads, op.c);
    var n := Notifier(heads, w).value;
    assert n in after;
    var m := Notifier(after, w).value;
    HeadsCommitted(s, op.c, n);
    HeadsCommitted(s, op.c, m);
  }

  /** A step leaves the waiters of `c` alone unless it waits there or wakes one of them up. */
  lemma WaitersStay(s: System, op: Op, c: Id)
    requires Enabled(s, op)
    requires op.DoWait1? || (op.DoSignal? && op.woken.Some?) || (op.DoBroadcast? && Waiters(s, op.c) != {}) ==>
             op.c != c
    requires op.DoCreateThread? ==> SpawnTid(s, op.t) !in s.threads
    ensures Waiters(Step(s, op), c) == Waiters(s, c)
  {
    hide Build, Commit;
  }

  lemma LostStays(s: System, op: Op, e1: Event, r: System)
    requires Enabled(s, op) && Aside(s, e1, r, op.t)
    requires (op.DoSignal? && op.woken.None?) || (op.DoBroadcast? && Waiters(s, op.c) == {})
    requires e1.CondCreate? ==> e1.cid !in s.cfg.condHeads
    requires Waiters(r, op.c) == {}
    requires CidOf(e1) == op.c && ChangesHeads(e1) ==> Notification(e1) && IsLost(e1)
    ensures Enabled(r, op) && Build(r, op) == Build(s, op)
  {
    hide Before, Depth, Causes;
    HeadsAfter(s, e1, r, op.c);
    var et := s.cfg.threadHeads[op.t];
    if CidOf(e1) == op.c && ChangesHeads(e1) {
      LostWakesNobody(e1);
      assert !KeepForLost(et, e1);
      assert LostPreds(et, HeadsOf(r.cfg.condHeads, op.c)) == LostPreds(et, HeadsOf(s.cfg.condHeads, op.c));
    }
  }

  lemma SignalStays(s: System, op: Op, e1: Event, r: System)
    requires Enabled(s, op) && Aside(s, e1, r, op.t) && op.DoSignal? && op.woken.Some?
    requires Phases(s) && op.woken.value != TidOf(e1) && !Notifies(e1, s.cfg.threadHeads[op.woken.value])
    ensures Enabled(r, op) && Build(r, op) == Build(s, op)
  {
    hide Before, Depth, Causes, ThreadPhase;
    var u := op.woken.value;
    assert r.threads[u] == s.threads[u];
    assert WokenWaits(r.cfg, {u}) == {s.cfg.threadHeads[u]} == WokenWaits(s.cfg, {u});
  }

  lemma BroadcastStays(s: System, op: Op, e1: Event, r: System)
    requires Enabled(s, op) && Aside(s, e1, r, op.t) && op.DoBroadcast? && Waiters(s, op.c) != {}
    requires Phases(s) && Waiters(r, op.c) == Waiters(s, op.c) && TidOf(e1) !in Waiters(s, op.c)
    requires HeadsOf(r.cfg.condHeads, op.c) == HeadsOf(s.cfg.condHeads, op.c)
    ensures Enabled(r, op) && Build(r, op) == Build(s, op)
  {
    hide Before, Depth, Causes, ThreadPhase;
    var woken := Waiters(s, op.c);
    assert WokenWaits(r.cfg, woken) == WokenWaits(s.cfg, woken);
  }

  /** The step and the event it commits, seen together. */
  lemma EventOfStep(s: System, op: Op)
    requires Enabled(s, op) && !op.DoBlock?
    ensures var e := Build(s, op);
            && (op.DoWait1? <==> e.Wait1?) && (op.DoSignal? <==> e.Signal?) && (op.DoBroadcast? <==> e.Broadcast?)
            && (op.DoCreateCond? <==> e.CondCreate?) && (op.DoWait2? <==> e.Wait2?) && !e.ProgramInit?
            && (op.DoWait1? || op.DoSignal? || op.DoBroadcast? || op.DoCreateCond? || op.DoWait2? ==> CidOf(e) == op.c)
            && (op.DoCreateLock? || op.DoAcquire? || op.DoRelease? || op.DoWait1? || op.DoWait2? ==> LidOf(e) == op.l)
            && (op.DoJoin? <==> e.ThreadJoin?)
  {
    hide Before, Depth, Causes;
  }

  ghost predicate Rivals(s: System, op1: Op, op2: Op) {
    && Inv(s) && Enabled(s, op1) && Enabled(s, op2) && !op1.DoBlock? && !op2.DoBlock? && op1.t != op2.t
    && MayCommute(Build(s, op1), Build(s, op2))
  }

  lemma RivalFacts(s: System, op1: Op, op2: Op)
    requires Rivals(s, op1, op2)
    ensures var e1, e2, r := Build(s, op1), Build(s, op2), Step(s, op1);
            && Aside(s, e1, r, op2.t) && HasIds(e2)
            && (e1.CondCreate? ==> e1.cid !in s.cfg.condHeads)
            && WakesOutstanding(s.events, e1)
            && (LidOf(e2) != 0 ==> LidOf(e1) != LidOf(e2))
            && (CondDependent(e1, e2) ==>
                e1.Signal? && e2.Signal? && !IsLost(e1) && !IsLost(e2) && Waits(e1) !! Waits(e2))
  {
    hide Before, Inv, Build, Step, Core, CondCore, CondHeadsExact, Notifications, ThreadEvents, HeadsUntouched,
         ThreadsUntouched, HasIds, MayCommute, CondDependent;
    var e1, e2 := Build(s, op1), Build(s, op2);
    InvCores(s);
    HeadsFrame(s, op1);
    ThreadsFrame(s, op1);
    HeadsFrame(s, op2);
    BuildOwed(s, op1);
    ActorNotWoken(s, op2, e1);
    SeparateLocks(e1, e2);
  }

  lemma PlainPersists(s: System, op1: Op, op2: Op)
    requires Rivals(s, op1, op2)
    requires !op2.DoWait1? && !op2.DoWait2? && !op2.DoSignal? && !op2.DoBroadcast?
    ensures Enabled(Step(s, op1), op2) && Build(Step(s, op1), op2) == Build(s, op2)
  {
    hide Before, Inv, Step, MayCommute, Aside, HeadsUntouched, ThreadsUntouched;
    RivalFacts(s, op1, op2);
    EventOfStep(s, op1);
    EventOfStep(s, op2);
    var e1, r := Build(s, op1), Step(s, op1);
    if op2.DoJoin? {
      ExitedIsNotActing(s, op1, op2.joined);
      JoinStays(s, op2, e1, r);
    } else if op2.DoCreateCond? {
      CreateCondStays(s, op2, e1, r);
    } else {
      PlainStays(s, op2, e1, r);
    }
  }

  lemma ExitedIsNotActing(s: System, op: Op, j: Tid)
    requires Inv(s) && Enabled(s, op) && !op.DoBlock? && j in s.cfg.threadHeads && s.cfg.threadHeads[j].ThreadExit?
    ensures j != op.t && TidOf(Build(s, op)) == op.t
  {
    hide Before;
    assert ThreadPhase(s, op.t);
  }

  lemma WaitPersists(s: System, op1: Op, op2: Op)
    requires Rivals(s, op1, op2) && (op2.DoWait1? || op2.DoWait2?)
    ensures Enabled(Step(s, op1), op2) && Build(Step(s, op1), op2) == Build(s, op2)
  {
    hide Before, Inv, Step, MayCommute, Aside, HeadsUntouched, ThreadsUntouched, CondDependent;
    RivalFacts(s, op1, op2);
    EventOfStep(s, op2);
    var e1, r := Build(s, op1), Step(s, op1);
    if op2.DoWait1? {
      Wait1Stays(s, op2, e1, r);
    } else {
      InvCores(s);
      Wait2Builds(s, op2.t, op2.c, op2.l);
      Wait2Stays(s, op2, e1, r);
    }
  }

  lemma LostPersists(s: System, op1: Op, op2: Op)
    requires Rivals(s, op1, op2)
    requires (op2.DoSignal? && op2.woken.None?) || (op2.DoBroadcast? && Waiters(s, op2.c) == {})
    ensures Enabled(Step(s, op1), op2) && Build(Step(s, op1), op2) == Build(s, op2)
  {
    hide Before, Inv, Step, Build, MayCommute, Aside, HeadsUntouched, ThreadsUntouched, Owed, CondHeadsExact, Core,
         CondCore;
    RivalFacts(s, op1, op2);
    EventOfStep(s, op1);
    EventOfStep(s, op2);
    LostBuilds(s, op2);
    InvCores(s);
    if op1.DoCreateThread? {
      SpawnIsNew(s, op1.t);
    }
    WaitersStay(s, op1, op2.c);
    LostStays(s, op2, Build(s, op1), Step(s, op1));
  }

  lemma SignalPersists(s: System, op1: Op, op2: Op)
    requires Rivals(s, op1, op2) && op2.DoSignal? && op2.woken.Some?
    ensures Enabled(Step(s, op1), op2) && Build(Step(s, op1), op2) == Build(s, op2)
  {
    hide Before, Inv, Step, Build, MayCommute, Aside, HeadsUntouched, ThreadsUntouched, Owed, CondHeadsExact, Core,
         CondCore;
    RivalFacts(s, op1, op2);
    EventOfStep(s, op1);
    var e1, e2, u := Build(s, op1), Build(s, op2), op2.woken.value;
    SignalBuilds(s, op2.t, op2.c, u);
    WaiterHead(s, op2.c, u);
    InvCores(s);
    HeadsFrame(s, op1);
    var w := s.cfg.threadHeads[u];
    SignalShape(e2, w);
    NotifiesIsNotLost(e2, w);
    if Notifies(e1, w) {
      NotifiesIsNotLost(e1, w);
    }
    SignalStays(s, op2, e1, Step(s, op1));
  }

  lemma BroadcastPersists(s: System, op1: Op, op2: Op)
    requires Rivals(s, op1, op2) && op2.DoBroadcast? && Waiters(s, op2.c) != {}
    ensures Enabled(Step(s, op1), op2) && Build(Step(s, op1), op2) == Build(s, op2)
  {
    hide Before, Inv, Step, Build, MayCommute, Aside, HeadsUntouched, ThreadsUntouched, Owed, CondHeadsExact, Core,
         CondCore;
    RivalFacts(s, op1, op2);
    EventOfStep(s, op1);
    EventOfStep(s, op2);
    InvCores(s);
    var e1, r := Build(s, op1), Step(s, op1);
    NotifyingBroadcast(s, op2.t, op2.c);
    if op1.DoCreateThread? {
      SpawnIsNew(s, op1.t);
    }
    if op1.DoSignal? && op1.woken.Some? {
      SignalBuilds(s, op1.t, op1.c, op1.woken.value);
      WaiterHead(s, op1.c, op1.woken.value);
      SignalShape(e1, s.cfg.threadHeads[op1.woken.value]);
    }
    WaitersStay(s, op1, op2.c);
    HeadsFrame(s, op1);
    HeadsAfter(s, e1, r, op2.c);
    BroadcastStays(s, op2, e1, r);
  }

  lemma NotifyingBroadcast(s: System, t: Tid, c: Id)
    requires Inv(s) && Enabled(s, DoBroadcast(t, c)) && Waiters(s, c) != {}
    ensures var e := Build(s, DoBroadcast(t, c)); e.Broadcast? && !IsLost(e)
  {
    hide Before, Inv;
    var u :| u in Waiters(s, c);
    WaiterHead(s, c, u);
    var e := Build(s, DoBroadcast(t, c));
    assert s.cfg.threadHeads[u] in WokenWaits(s.cfg, Waiters(s, c));
    assert s.cfg.threadHeads[u] in Waits(e);
  }

  /** A rival's step leaves a step enabled, with the same event. */
  lemma Persists(s: System, op1: Op, op2: Op)
    requires Rivals(s, op1, op2)
    ensures Enabled(Step(s, op1), op2) && Build(Step(s, op1), op2) == Build(s, op2)
  {
    hide Rivals, Step, Build;
    if op2.DoWait1? || op2.DoWait2? {
      WaitPersists(s, op1, op2);
    } else if op2.DoSignal? && op2.woken.Some? {
      SignalPersists(s, op1, op2);
    } else if op2.DoBroadcast? && Waiters(s, op2.c) != {} {
      BroadcastPersists(s, op1, op2);
    } else if op2.DoSignal? || op2.DoBroadcast? {
      LostPersists(s, op1, op2);
    } else {
      PlainPersists(s, op1, op2);
    }
  }

  // ---------------------------------------------------------------- both orders lead to the same state

  lemma {:induction false} ReplaceFirstMultiset(heads: seq<Event>, w: Event, xs: set<Event>, e: Event)
    requires w in heads && xs == {w}
    ensures multiset(ReplaceFirst(heads, xs, e)) == multiset(heads) - multiset{w} + multiset{e}
  {
    assert heads == [heads[0]] + heads[1..];
    if heads[0] != w {
      ReplaceFirstMultiset(heads[1..], w, xs, e);
    }
  }

  /** The heads a pair of commuting events can both change: each takes away what it wakes up and
      adds itself. */
  lemma UpdateMultiset(heads: seq<Event>, e: Event)
    requires e.Wait1? || (Notification(e) && IsLost(e)) || (e.Signal? && exists w :: w in heads && Waits(e) == {w})
    ensures multiset(UpdateHeads(heads, e))
            == multiset(heads) - multiset(if Notification(e) then Waits(e) else {}) + multiset{e}
  {
    if e.Broadcast? {
      RemoveNothing(heads);
    } else if e.Signal? && !IsLost(e) {
      var w :| w in heads && Waits(e) == {w};
      ReplaceFirstMultiset(heads, w, Waits(e), e);
    }
  }

  ghost predicate SimpleUpdate(heads: seq<Event>, e: Event) {
    e.Wait1? || (Notification(e) && IsLost(e)) || (e.Signal? && exists w :: w in heads && Waits(e) == {w})
  }

  lemma UpdatesCommute(heads: seq<Event>, e1: Event, e2: Event)
    requires SimpleUpdate(heads, e1) && SimpleUpdate(heads, e2)
    requires e1 !in heads && e2 !in heads
    requires Notification(e1) && Notification(e2) ==> Waits(e1) !! Waits(e2)
    requires !Notifies(e1, e2) && !Notifies(e2, e1)
    ensures multiset(UpdateHeads(UpdateHeads(heads, e1), e2)) == multiset(UpdateHeads(UpdateHeads(heads, e2), e1))
  {
    hide UpdateHeads;
    UpdateMultiset(heads, e1);
    UpdateMultiset(heads, e2);
    StaysSimple(heads, e1, e2);
    StaysSimple(heads, e2, e1);
    UpdateMultiset(UpdateHeads(heads, e1), e2);
    UpdateMultiset(UpdateHeads(heads, e2), e1);
    var w1 := if Notification(e1) then Waits(e1) else {};
    var w2 := if Notification(e2) then Waits(e2) else {};
    assert e1 !in w2 && e2 !in w1;
    SwapInMultiset(multiset(heads), multiset(w1), e1, multiset(w2), e2);
  }

  lemma SwapInMultiset(h: multiset<Event>, a: multiset<Event>, x: Event, b: multiset<Event>, y: Event)
    requires x !in b && y !in a
    ensures h - a + multiset{x} - b + multiset{y} == h - b + multiset{y} - a + multiset{x}
  {
    forall z
      ensures (h - a + multiset{x} - b + multiset{y})[z] == (h - b + multiset{y} - a + multiset{x})[z]
    {
    }
  }

  lemma StaysSimple(heads: seq<Event>, e1: Event, e2: Event)
    requires SimpleUpdate(heads, e1) && SimpleUpdate(heads, e2)
    requires Notification(e1) && Notification(e2) ==> Waits(e1) !! Waits(e2)
    ensures SimpleUpdate(UpdateHeads(heads, e1), e2)
  {
    if e2.Signal? && !IsLost(e2) {
      var w :| w in heads && Waits(e2) == {w};
      UpdateMultiset(heads, e1);
      assert w in multiset(UpdateHeads(heads, e1));
    }
  }

  lemma InitCommutes(cfg: Config, i: Event, e: Event)
    requires i.ThreadInit? && TidOf(i) != TidOf(e)
    ensures Commit(Commit(cfg, i), e) == Commit(Commit(cfg, e), i)
  {
    assert cfg.threadHeads[TidOf(i) := i][TidOf(e) := e] == cfg.threadHeads[TidOf(e) := e][TidOf(i) := i];
  }

  lemma SameConfigInit(a: Config, b: Config, i: Event)
    requires SameConfig(a, b) && i.ThreadInit?
    ensures SameConfig(Commit(a, i), Commit(b, i))
  {
  }

  lemma CondHeadsCommute(cfg: Config, e1: Event, e2: Event)
    requires ChangesHeads(e1) && ChangesHeads(e2) && e1.cid == e2.cid ==>
               multiset(UpdateHeads(UpdateHeads(HeadsOf(cfg.condHeads, e1.cid), e1), e2))
               == multiset(UpdateHeads(UpdateHeads(HeadsOf(cfg.condHeads, e1.cid), e2), e1))
    ensures SameHeads(Commit(Commit(cfg, e1), e2).condHeads, Commit(Commit(cfg, e2), e1).condHeads)
  {
    hide UpdateHeads;
  }

  lemma AppendsCommute(m: map<Id, seq<Event>>, c: Id, e1: Event, e2: Event)
    ensures SameHeads(m[c := HeadsOf(m, c) + [e1]][c := HeadsOf(m, c) + [e1] + [e2]],
                      m[c := HeadsOf(m, c) + [e2]][c := HeadsOf(m, c) + [e2] + [e1]])
  {
    var h := HeadsOf(m, c);
    assert multiset(h + [e1] + [e2]) == multiset(h) + multiset{e1, e2} == multiset(h + [e2] + [e1]);
  }

  lemma W2HeadsCommute(cfg: Config, e1: Event, e2: Event)
    ensures SameHeads(Commit(Commit(cfg, e1), e2).w2Heads, Commit(Commit(cfg, e2), e1).w2Heads)
  {
    hide UpdateHeads;
    var c12, c21 := Commit(Commit(cfg, e1), e2).w2Heads, Commit(Commit(cfg, e2), e1).w2Heads;
    if e1.Wait2? && e2.Wait2? && e1.cid == e2.cid {
      AppendsCommute(cfg.w2Heads, e1.cid, e1, e2);
    } else {
      assert c12 == c21;
    }
  }

  lemma CommitsCommute(cfg: Config, e1: Event, e2: Event)
    requires TidOf(e1) != TidOf(e2) && (LidOf(e1) != 0 ==> LidOf(e1) != LidOf(e2))
    requires ChangesHeads(e1) && ChangesHeads(e2) && e1.cid == e2.cid ==>
               multiset(UpdateHeads(UpdateHeads(HeadsOf(cfg.condHeads, e1.cid), e1), e2))
               == multiset(UpdateHeads(UpdateHeads(HeadsOf(cfg.condHeads, e1.cid), e2), e1))
    ensures SameConfig(Commit(Commit(cfg, e1), e2), Commit(Commit(cfg, e2), e1))
  {
    hide UpdateHeads, SameHeads, HeadsOf, ChangesHeads, Commit;
    CondHeadsCommute(cfg, e1, e2);
    W2HeadsCommute(cfg, e1, e2);
    PlainHeadsCommute(cfg, e1, e2);
  }

  lemma PlainHeadsCommute(cfg: Config, e1: Event, e2: Event)
    requires TidOf(e1) != TidOf(e2) && (LidOf(e1) != 0 ==> LidOf(e1) != LidOf(e2))
    ensures var c12, c21 := Commit(Commit(cfg, e1), e2), Commit(Commit(cfg, e2), e1);
            && c12.threadHeads == c21.threadHeads && c12.lockHeads == c21.lockHeads
            && c12.usedConds == c21.usedConds && c12.usedLocks == c21.usedLocks && c12.size == c21.size
  {
    hide UpdateHeads, HeadsOf, ChangesHeads;
  }

  // the threads

  function Own(th: Thread, op: Op): Thread {
    match op
    case DoAcquire(_, _) => th.(phase := Runnable)
    case DoWait1(_, c, l) => th.(phase := WaitCv1(c, l))
    case DoWait2(_, _, _) => th.(phase := Runnable)
    case DoExit(_) => th.(phase := Exited)
    case DoCreateThread(_) => th.(spawned := th.spawned + 1)
    case _ => th
  }

  function Woken(th: Thread): Thread {
    if th.phase.WaitCv1? then th.(phase := WaitCv2(th.phase.cond, th.phase.lock)) else th
  }

  function ThreadAfter(th: Thread, u: Tid, head: Event, op: Op, e: Event): Thread {
    if u == op.t then Own(th, op) else if Notifies(e, head) then Woken(th) else th
  }

  function NewThreads(s: System, op: Op): set<Tid>
    requires Enabled(s, op)
  {
    if op.DoCreateThread? then {SpawnTid(s, op.t)} else {}
  }

  lemma StepKeys(s: System, op: Op)
    requires Inv(s) && Enabled(s, op) && !op.DoBlock?
    ensures Step(s, op).threads.Keys == s.threads.Keys + NewThreads(s, op)
    ensures op.DoCreateThread? ==>
            SpawnTid(s, op.t) !in s.threads && Step(s, op).threads[SpawnTid(s, op.t)] == Thread(Runnable, 0)
  {
    hide Inv, Before, Build, Commit, Core, CondCore, CondHeadsExact, Notifications, ThreadEvents;
    InvCores(s);
    if op.DoCreateThread? {
      SpawnIsNew(s, op.t);
    }
  }

  lemma StepThreadAt(s: System, op: Op, u: Tid)
    requires Inv(s) && Enabled(s, op) && !op.DoBlock? && u in s.threads && u in s.cfg.threadHeads
    ensures u in Step(s, op).threads
    ensures Step(s, op).threads[u] == ThreadAfter(s.threads[u], u, s.cfg.threadHeads[u], op, Build(s, op))
  {
    hide Inv, Before, Build, Commit, Core, CondCore, CondHeadsExact, Notifications, ThreadEvents, Owed;
    InvCores(s);
    var e := Build(s, op);
    StepKeys(s, op);
    ThreadsFrame(s, op);
    HeadsFrame(s, op);
    if u != op.t && Notifies(e, s.cfg.threadHeads[u]) {
      WokenThread(s, op, u);
    }
  }

  lemma WokenThread(s: System, op: Op, u: Tid)
    requires Inv(s) && Enabled(s, op) && !op.DoBlock? && u in s.threads && u in s.cfg.threadHeads
    requires Notifies(Build(s, op), s.cfg.threadHeads[u])
    ensures u in Step(s, op).threads && Step(s, op).threads[u] == Woken(s.threads[u])
  {
    hide Inv, Before, Commit, Core, CondCore, CondHeadsExact, Notifications, ThreadEvents, Owed;
    InvCores(s);
    HeadOfThread(s, u);
    var e := Build(s, op);
    if op.DoSignal? && op.woken.Some? {
      SignalBuilds(s, op.t, op.c, op.woken.value);
      WaiterHead(s, op.c, op.woken.value);
      SignalShape(e, s.cfg.threadHeads[op.woken.value]);
    } else if op.DoBroadcast? && Waiters(s, op.c) != {} {
      assert s.cfg.threadHeads[u] in WokenWaits(s.cfg, Waiters(s, op.c));
      var v :| v in Waiters(s, op.c) && v in s.cfg.threadHeads && s.cfg.threadHeads[v] == s.cfg.threadHeads[u];
      HeadOfThread(s, v);
    } else if op.DoSignal? || op.DoBroadcast? {
      LostBuilds(s, op);
      NotifiesIsNotLost(e, s.cfg.threadHeads[u]);
    }
  }

  lemma StepOwnHead(s: System, op: Op)
    requires Enabled(s, op) && !op.DoBlock?
    requires TidOf(Build(s, op)) == op.t && (op.DoCreateThread? ==> SpawnTid(s, op.t) != op.t)
    ensures op.t in Step(s, op).cfg.threadHeads && Step(s, op).cfg.threadHeads[op.t] == Build(s, op)
    ensures op.DoCreateThread? ==>
              var n := SpawnTid(s, op.t); n in Step(s, op).cfg.threadHeads && Step(s, op).cfg.threadHeads[n].ThreadInit?
  {
    hide UpdateHeads, HeadsOf;
  }

  lemma MayCommuteSymmetric(a: Event, b: Event)
    requires HasIds(a) && HasIds(b) && MayCommute(a, b)
    ensures MayCommute(b, a)
  {
    IndependenceSymmetric(a, b);
  }

  lemma RivalsSymmetric(s: System, op1: Op, op2: Op)
    requires Rivals(s, op1, op2)
    ensures Rivals(s, op2, op1)
  {
    hide Inv, Build, MayCommute, HasIds, Extends, HeadsUntouched;
    HeadsFrame(s, op1);
    HeadsFrame(s, op2);
    MayCommuteSymmetric(Build(s, op1), Build(s, op2));
  }

  /** The thread `u` after both steps, whichever comes first. */
  lemma ThreadAfterBoth(s: System, op1: Op, op2: Op, u: Tid)
    requires Rivals(s, op1, op2) && u in s.threads && u in s.cfg.threadHeads
    ensures Enabled(Step(s, op1), op2)
    ensures u in Step(Step(s, op1), op2).threads
    ensures var e1, e2, h, th := Build(s, op1), Build(s, op2), s.cfg.threadHeads[u], s.threads[u];
            Step(Step(s, op1), op2).threads[u] ==
            if u == op1.t then Own(th, op1)
            else ThreadAfter(ThreadAfter(th, u, h, op1, e1), u, h, op2, e2)
  {
    hide Inv, Build, Step, Owed, Before, MayCommute, HeadsUntouched, ThreadsUntouched, HasIds, Extends, Aside,
         CondDependent, WakesOutstanding;
    var s1 := Step(s, op1);
    var e1, e2 := Build(s, op1), Build(s, op2);
    Persists(s, op1, op2);
    StepKeepsInv(s, op1);
    InvCores(s1);
    StepThreadAt(s, op1, u);
    StepThreadAt(s1, op2, u);
    HeadAfterStep(s, op1, u);
    NotWokenBack(s, op1, op2);
  }

  lemma HeadAfterStep(s: System, op: Op, u: Tid)
    requires Inv(s) && Enabled(s, op) && !op.DoBlock? && u in s.cfg.threadHeads
    ensures u in Step(s, op).cfg.threadHeads
    ensures Step(s, op).cfg.threadHeads[u] == if u == op.t then Build(s, op) else s.cfg.threadHeads[u]
  {
    hide Inv, Build, Step, Before, HasIds, Extends;
    HeadsFrame(s, op);
    SpawnDiffers(s, op);
    StepOwnHead(s, op);
  }

  lemma SpawnDiffers(s: System, op: Op)
    requires Enabled(s, op)
    ensures SpawnTid(s, op.t) != op.t
  {
    assert |SpawnTid(s, op.t)| == |op.t| + 1;
  }

  /** A new event is not woken up by an event built before it existed. */
  lemma NotWokenBack(s: System, op1: Op, op2: Op)
    requires Inv(s) && Enabled(s, op1) && Enabled(s, op2) && !op1.DoBlock? && !op2.DoBlock?
    ensures !Notifies(Build(s, op2), Build(s, op1))
  {
    hide Inv, Build, Before, Owed;
    var e1, e2 := Build(s, op1), Build(s, op2);
    BuildOwed(s, op1);
    BuildOwed(s, op2);
    OwedIsNew(s, e1);
    OwedWakesCommitted(s, e2, e1);
  }

  lemma OwedIsNew(s: System, e: Event)
    requires Inv(s) && Owed(s, e)
    ensures e !in s.events
  {
    hide Before;
    ExtensionIsNew(s, e);
  }

  lemma OwedWakesCommitted(s: System, e: Event, w: Event)
    requires Owed(s, e)
    ensures Notifies(e, w) ==> w in s.events && !Notified(s.events, w)
  {
    hide Before;
  }

  lemma ThreadsCommute(s: System, op1: Op, op2: Op)
    requires Rivals(s, op1, op2)
    ensures Enabled(Step(s, op1), op2) && Enabled(Step(s, op2), op1)
    ensures Step(Step(s, op1), op2).threads == Step(Step(s, op2), op1).threads
  {
    hide Inv, Build, Step, Before, MayCommute, Rivals;
    RivalsSymmetric(s, op1, op2);
    RivalInv(s, op1, op2);
    SameKeys(s);
    Persists(s, op1, op2);
    Persists(s, op2, op1);
    var s12, s21 := Step(Step(s, op1), op2), Step(Step(s, op2), op1);
    NewThreadsAfterBoth(s, op1, op2);
    NewThreadsAfterBoth(s, op2, op1);
    forall u | u in s.threads
      ensures u in s12.threads && u in s21.threads && s12.threads[u] == s21.threads[u]
    {
      ThreadCommutes(s, op1, op2, u);
    }
  }

  lemma ThreadCommutes(s: System, op1: Op, op2: Op, u: Tid)
    requires Rivals(s, op1, op2) && u in s.threads && u in s.cfg.threadHeads
    ensures Enabled(Step(s, op1), op2) && Enabled(Step(s, op2), op1)
    ensures u in Step(Step(s, op1), op2).threads && u in Step(Step(s, op2), op1).threads
    ensures Step(Step(s, op1), op2).threads[u] == Step(Step(s, op2), op1).threads[u]
  {
    hide Inv, Build, Step, Before, Rivals, Notifies, Enabled;
    RivalsSymmetric(s, op1, op2);
    RivalInv(s, op1, op2);
    ThreadAfterBoth(s, op1, op2, u);
    ThreadAfterBoth(s, op2, op1, u);
    NotBothWoken(s, op1, op2, u);
    NotBothWoken(s, op2, op1, u);
  }

  lemma RivalInv(s: System, op1: Op, op2: Op)
    requires Rivals(s, op1, op2)
    ensures Inv(s) && Enabled(s, op1) && Enabled(s, op2) && op1.t != op2.t && !op1.DoBlock? && !op2.DoBlock?
  {
    hide Inv;
  }

  lemma NotBothWoken(s: System, op1: Op, op2: Op, u: Tid)
    requires Rivals(s, op1, op2) && u in s.cfg.threadHeads
    ensures !(Notifies(Build(s, op1), s.cfg.threadHeads[u]) && Notifies(Build(s, op2), s.cfg.threadHeads[u]))
    ensures Notifies(Build(s, op1), s.cfg.threadHeads[u]) ==> u != op1.t && u != op2.t
  {
    hide Inv, Build, Step, Before, MayCommute, HeadsUntouched, ThreadsUntouched, Extends, Owed;
    var e1, e2, w := Build(s, op1), Build(s, op2), s.cfg.threadHeads[u];
    RivalFacts(s, op1, op2);
    BuildOwed(s, op1);
    BuildOwed(s, op2);
    OwedWakesCommitted(s, e2, w);
    HeadOfThread(s, u);
    if Notifies(e2, w) {
      SameCond(s, e2, w);
      NotifiesIsNotLost(e2, w);
      if Notifies(e1, w) {
        NotifiesIsNotLost(e1, w);
      }
    }
    InvCores(s);
    ActorNotWoken(s, op1, e1);
  }

  lemma SameCond(s: System, e: Event, w: Event)
    requires Owed(s, e) && Notifies(e, w)
    ensures CidOf(w) == CidOf(e)
  {
    hide Before;
  }

  lemma SameSpawn(s: System, op1: Op, op2: Op)
    requires Rivals(s, op1, op2)
    ensures Enabled(Step(s, op1), op2)
    ensures SpawnTid(Step(s, op1), op2.t) == SpawnTid(s, op2.t)
  {
    hide Inv, Build, Step, Before, MayCommute, HeadsUntouched, ThreadsUntouched, Owed;
    Persists(s, op1, op2);
    StepThreadAt(s, op1, op2.t);
  }

  /** A thread one step creates is left alone by the other. */
  lemma NewThreadStays(s: System, op1: Op, op2: Op)
    requires Rivals(s, op1, op2) && op1.DoCreateThread?
    ensures Enabled(Step(s, op1), op2)
    ensures var n := SpawnTid(s, op1.t);
            n in Step(Step(s, op1), op2).threads && Step(Step(s, op1), op2).threads[n] == Thread(Runnable, 0)
  {
    hide Inv, Build, Step, Before, MayCommute, HeadsUntouched, ThreadsUntouched, Owed, Extends;
    var s1, n := Step(s, op1), SpawnTid(s, op1.t);
    Persists(s, op1, op2);
    StepKeepsInv(s, op1);
    StepKeys(s, op1);
    SpawnDiffers(s, op1);
    HeadsFrame(s, op1);
    StepOwnHead(s, op1);
    SameKeys(s);
    StepThreadAt(s1, op2, n);
  }

  lemma SameKeys(s: System)
    requires Inv(s)
    ensures s.threads.Keys == s.cfg.threadHeads.Keys
  {
  }

  lemma NewThreadsAfterBoth(s: System, op1: Op, op2: Op)
    requires Rivals(s, op1, op2)
    ensures Enabled(Step(s, op1), op2)
    ensures var s12 := Step(Step(s, op1), op2);
            && s12.threads.Keys == s.threads.Keys + NewThreads(s, op1) + NewThreads(s, op2)
            && (forall n :: n in NewThreads(s, op1) + NewThreads(s, op2) ==>
                n !in s.threads && s12.threads[n] == Thread(Runnable, 0))
  {
    hide Inv, Build, Step, Before, Rivals, SpawnTid;
    RivalInv(s, op1, op2);
    var s1 := Step(s, op1);
    SameSpawn(s, op1, op2);
    StepKeepsInv(s, op1);
    StepKeys(s, op1);
    StepKeys(s, op2);
    StepKeys(s1, op2);
    if op1.DoCreateThread? {
      NewThreadStays(s, op1, op2);
    }
  }

  // the configuration

  /** The events a step commits. */
  function Committed(e: Event): set<Event> {
    if e.ThreadCreate? then {e, ThreadInit(e.newTid, e)} else {e}
  }

  function CommitAll(cfg: Config, e: Event): Config {
    if e.ThreadCreate? then Commit(Commit(cfg, e), ThreadInit(e.newTid, e)) else Commit(cfg, e)
  }

  lemma StepCommits(s: System, op: Op)
    requires Enabled(s, op) && !op.DoBlock?
    ensures Step(s, op).cfg == CommitAll(s.cfg, Build(s, op))
    ensures Step(s, op).events == s.events + Committed(Build(s, op))
  {
    hide Commit, Wait1Preds, LostPreds, KeptSignals, WokenWaits, Waiters;
  }

  ghost predicate HeadsMayCommute(cfg: Config, e1: Event, e2: Event) {
    ChangesHeads(e1) && ChangesHeads(e2) && e1.cid == e2.cid ==>
      multiset(UpdateHeads(UpdateHeads(HeadsOf(cfg.condHeads, e1.cid), e1), e2))
      == multiset(UpdateHeads(UpdateHeads(HeadsOf(cfg.condHeads, e1.cid), e2), e1))
  }

  lemma CommitAllCommutes(cfg: Config, e1: Event, e2: Event)
    requires TidOf(e1) != TidOf(e2) && (LidOf(e1) != 0 ==> LidOf(e1) != LidOf(e2))
    requires e1.ThreadCreate? ==> e1.newTid != TidOf(e2)
    requires e2.ThreadCreate? ==> e2.newTid != TidOf(e1)
    requires e1.ThreadCreate? && e2.ThreadCreate? ==> e1.newTid != e2.newTid
    requires HeadsMayCommute(cfg, e1, e2)
    ensures SameConfig(CommitAll(CommitAll(cfg, e1), e2), CommitAll(CommitAll(cfg, e2), e1))
  {
    hide Commit, SameConfig;
    CommitsCommute(cfg, e1, e2);
    var c12, c21 := Commit(Commit(cfg, e1), e2), Commit(Commit(cfg, e2), e1);
    if e1.ThreadCreate? {
      var i1 := ThreadInit(e1.newTid, e1);
      InitCommutes(Commit(cfg, e1), i1, e2);
      SameConfigInit(c12, c21, i1);
      if e2.ThreadCreate? {
        var i2 := ThreadInit(e2.newTid, e2);
        InitCommutes(c12, i1, i2);
        InitCommutes(Commit(cfg, e2), i2, e1);
        SameConfigInit(c12, c21, i2);
        InitCommutes(c21, i2, i1);
        SameConfigInit(Commit(c12, i2), Commit(c21, i2), i1);
      }
    } else if e2.ThreadCreate? {
      var i2 := ThreadInit(e2.newTid, e2);
      InitCommutes(Commit(cfg, e2), i2, e1);
      SameConfigInit(c12, c21, i2);
    }
  }

  lemma UpdateIsSimple(s: System, op: Op)
    requires Inv(s) && Enabled(s, op) && !op.DoBlock?
    requires var e := Build(s, op); e.Wait1? || (Notification(e) && IsLost(e)) || e.Signal?
    ensures SimpleUpdate(HeadsOf(s.cfg.condHeads, Build(s, op).cid), Build(s, op))
    ensures Build(s, op) !in HeadsOf(s.cfg.condHeads, Build(s, op).cid)
  {
    hide Inv, Build, Before, Owed, Core, CondCore;
    var e := Build(s, op);
    EventOfStep(s, op);
    BuildOwed(s, op);
    OwedIsNew(s, e);
    InvCores(s);
    assert HeadsExact(s.events, HeadsOf(s.cfg.condHeads, e.cid), e.cid);
    if e.Signal? && !IsLost(e) {
      if op.woken.None? {
        LostBuilds(s, op);
      } else {
        SignalBuilds(s, op.t, op.c, op.woken.value);
        WaiterHead(s, op.c, op.woken.value);
        assert Waits(e) == {s.cfg.threadHeads[op.woken.value]};
      }
    }
  }

  /** What rivals can do to one condition variable. */
  lemma SharedCond(s: System, op1: Op, op2: Op)
    requires Rivals(s, op1, op2)
    ensures HeadsMayCommute(s.cfg, Build(s, op1), Build(s, op2))
  {
    hide Inv, Build, Step, Before, MayCommute, UpdateHeads, HeadsOf, Aside, SimpleUpdate;
    var e1, e2 := Build(s, op1), Build(s, op2);
    RivalFacts(s, op1, op2);
    HeadsFrame(s, op1);
    if ChangesHeads(e1) && ChangesHeads(e2) && e1.cid == e2.cid {
      assert !e1.CondCreate? && !e2.CondCreate?;
      UpdateIsSimple(s, op1);
      UpdateIsSimple(s, op2);
      NotWokenBack(s, op1, op2);
      NotWokenBack(s, op2, op1);
      UpdatesCommute(HeadsOf(s.cfg.condHeads, e1.cid), e1, e2);
    }
  }

  lemma SpawnsDiffer(s: System, op1: Op, op2: Op)
    requires Inv(s) && Enabled(s, op1) && Enabled(s, op2) && op1.t != op2.t
    ensures op1.DoCreateThread? ==> SpawnTid(s, op1.t) != op2.t
    ensures SpawnTid(s, op1.t) != SpawnTid(s, op2.t)
  {
    hide Inv, Before;
    if op1.DoCreateThread? {
      InvCores(s);
      SpawnIsNew(s, op1.t);
    }
    var n1, n2 := SpawnTid(s, op1.t), SpawnTid(s, op2.t);
    assert n1[..|n1| - 1] == op1.t && n2[..|n2| - 1] == op2.t;
  }

  lemma CreatesItsSpawn(s: System, op: Op)
    requires Enabled(s, op) && !op.DoBlock?
    ensures Build(s, op).ThreadCreate? ==> op.DoCreateThread? && Build(s, op).newTid == SpawnTid(s, op.t)
  {
    hide Before, Depth, Causes;
  }

  lemma ConfigsCommute(s: System, op1: Op, op2: Op)
    requires Rivals(s, op1, op2)
    ensures SameConfig(CommitAll(CommitAll(s.cfg, Build(s, op1)), Build(s, op2)),
                       CommitAll(CommitAll(s.cfg, Build(s, op2)), Build(s, op1)))
  {
    hide Inv, Build, Step, Before, MayCommute, Aside, CommitAll, SameConfig, HeadsMayCommute, HeadsUntouched, Extends,
         CondDependent;
    RivalFacts(s, op1, op2);
    HeadsFrame(s, op1);
    HeadsFrame(s, op2);
    SharedCond(s, op1, op2);
    SpawnsDiffer(s, op1, op2);
    SpawnsDiffer(s, op2, op1);
    CreatesItsSpawn(s, op1);
    CreatesItsSpawn(s, op2);
    CommitAllCommutes(s.cfg, Build(s, op1), Build(s, op2));
  }

  // ---------------------------------------------------------------- the diamond

  /** Either step leaves the other enabled and building the same event, and both orders end in
      the same state. */
  ghost predicate Commute(s: System, op1: Op, op2: Op)
    requires Enabled(s, op1) && Enabled(s, op2) && !op1.DoBlock? && !op2.DoBlock?
  {
    var s1, s2 := Step(s, op1), Step(s, op2);
    && Enabled(s1, op2) && Build(s1, op2) == Build(s, op2)
    && Enabled(s2, op1) && Build(s2, op1) == Build(s, op1)
    && SameState(Step(s1, op2), Step(s2, op1))
  }

  lemma Diamond(s: System, op1: Op, op2: Op)
    requires Rivals(s, op1, op2)
    ensures Commute(s, op1, op2)
  {
    hide Rivals, Step, Build, Inv, Enabled, SameConfig;
    RivalInv(s, op1, op2);
    RivalsSymmetric(s, op1, op2);
    var s1, s2 := Step(s, op1), Step(s, op2);
    Persists(s, op1, op2);
    Persists(s, op2, op1);
    StepCommits(s, op1);
    StepCommits(s, op2);
    StepCommits(s1, op2);
    StepCommits(s2, op1);
    ConfigsCommute(s, op1, op2);
    ThreadsCommute(s, op1, op2);
  }

  /** A rival's step that leaves a step its event shows that the two may commute: afterwards both
      events are in one configuration, unordered, and no wait1 is woken up twice. */
  lemma PersistingMayCommute(s: System, op1: Op, op2: Op)
    requires Inv(s) && Enabled(s, op1) && Enabled(s, op2) && !op1.DoBlock? && !op2.DoBlock? && op1.t != op2.t
    requires Enabled(Step(s, op1), op2) && Build(Step(s, op1), op2) == Build(s, op2)
    ensures MayCommute(Build(s, op1), Build(s, op2))
  {
    hide Inv, Build, Step, Before, Independent, Enabled, Extends, HasIds, HeadsUntouched;
    var e1, e2, s1 := Build(s, op1), Build(s, op2), Step(s, op1);
    StepKeepsInv(s, op1);
    StepKeepsInv(s1, op2);
    StepCommits(s, op1);
    StepCommits(s1, op2);
    HeadsFrame(s, op1);
    HeadsFrame(s, op2);
    InvCores(s);
    ExtensionsConcurrent(s, e1, e2);
    var r := Step(s1, op2);
    UnorderedInRun(r, e1, e2);
  }

  lemma UnorderedInRun(r: System, e1: Event, e2: Event)
    requires Inv(r) && e1 in r.events && e2 in r.events && !Ordered(e1, e2) && TidOf(e1) != TidOf(e2)
    ensures MayCommute(e1, e2)
  {
    hide Before, Independent, Ordered;
    if !Independent(e1, e2) {
      assert Overapproximated(e1, e2);
    }
  }

  /** The steps of two threads commute if and only if their events are independent, two joins, or
      signals that wake up different threads. */
  lemma CommuteExactly(s: System, op1: Op, op2: Op)
    requires Reachable(s) && Enabled(s, op1) && Enabled(s, op2) && !op1.DoBlock? && !op2.DoBlock? && op1.t != op2.t
    ensures Commute(s, op1, op2) <==> MayCommute(Build(s, op1), Build(s, op2))
    ensures Commute(s, op1, op2) <==> (Enabled(Step(s, op1), op2) && Build(Step(s, op1), op2) == Build(s, op2))
  {
    hide Inv, Build, Step, Enabled, MayCommute, SameState;
    ReachableInv(s);
    if MayCommute(Build(s, op1), Build(s, op2)) {
      Diamond(s, op1, op2);
    }
    if Enabled(Step(s, op1), op2) && Build(Step(s, op1), op2) == Build(s, op2) {
      PersistingMayCommute(s, op1, op2);
    }
  }

  // ---------------------------------------------------------------- the over-approximated pairs

  /** Two joins of one thread commute although the relation calls them dependent. */
  lemma JoinsCommute(s: System, t: Tid, u: Tid, j: Tid)
    requires Reachable(s) && t != u && Enabled(s, DoJoin(t, j)) && Enabled(s, DoJoin(u, j))
    ensures !Independent(Build(s, DoJoin(t, j)), Build(s, DoJoin(u, j)))
    ensures Commute(s, DoJoin(t, j), DoJoin(u, j))
  {
    hide Commute;
    CommuteExactly(s, DoJoin(t, j), DoJoin(u, j));
  }

  /** Two signals that wake up different waiters of one condition variable commute although the
      relation calls them dependent; two that wake up the same waiter do not. */
  lemma SignalsCommute(s: System, t: Tid, u: Tid, c: Id, v: Tid, w: Tid)
    requires Reachable(s) && t != u && Enabled(s, DoSignal(t, c, Some(v))) && Enabled(s, DoSignal(u, c, Some(w)))
    ensures !Independent(Build(s, DoSignal(t, c, Some(v))), Build(s, DoSignal(u, c, Some(w))))
    ensures Commute(s, DoSignal(t, c, Some(v)), DoSignal(u, c, Some(w))) <==> v != w
  {
    hide Commute, Inv, Build, Before, Owed;
    ReachableInv(s);
    SignalBuilds(s, t, c, v);
    SignalBuilds(s, u, c, w);
    WaiterHead(s, c, v);
    WaiterHead(s, c, w);
    var e1, e2 := Build(s, DoSignal(t, c, Some(v))), Build(s, DoSignal(u, c, Some(w)));
    SignalShape(e1, s.cfg.threadHeads[v]);
    SignalShape(e2, s.cfg.threadHeads[w]);
    assert Waits(e1) == {s.cfg.threadHeads[v]} && Waits(e2) == {s.cfg.threadHeads[w]};
    CommuteExactly(s, DoSignal(t, c, Some(v)), DoSignal(u, c, Some(w)));
  }

  lemma ReachableStep(s: System, op: Op)
    requires Reachable(s) && Enabled(s, op)
    ensures Reachable(Step(s, op))
  {
    hide Enabled, Step, Initial;
    var run, ops :| IsRun(run, ops) && run[|ops|] == s;
    assert IsRun(run + [Step(s, op)], ops + [op]);
  }

  lemma Start(s: System, op: Op) returns (r: System)
    requires Reachable(s) && Enabled(s, op)
    ensures Reachable(r) && r == Step(s, op)
  {
    r := Step(s, op);
    ReachableStep(s, op);
  }

  ghost predicate Ready(s: System, t: Tid) {
    t in s.threads && t in s.cfg.threadHeads && s.threads[t].phase.Runnable?
  }

  /** Only thread `t` moves, and no lock other than `l` is touched. */
  ghost predicate OnlyMoves(s: System, r: System, t: Tid, l: Id) {
    && r.threads.Keys == s.threads.Keys && r.cfg.threadHeads.Keys == s.cfg.threadHeads.Keys
    && (forall u :: u in s.threads && u != t ==> r.threads[u] == s.threads[u])
    && (forall k :: k != l ==>
        (k in r.cfg.lockHeads <==> k in s.cfg.lockHeads) && (k in r.cfg.usedLocks <==> k in s.cfg.usedLocks))
  }

  lemma Spawn(s: System, t: Tid) returns (r: System, n: Tid)
    requires Reachable(s) && Ready(s, t)
    ensures Reachable(r) && n == SpawnTid(s, t) && Ready(r, n) && Ready(r, t)
            && r.threads[t].spawned == s.threads[t].spawned + 1
    ensures forall u :: Ready(s, u) && u != n ==> Ready(r, u)
    ensures r.cfg.lockHeads == s.cfg.lockHeads && r.cfg.usedLocks == s.cfg.usedLocks
  {
    hide Before, Depth, Causes;
    n := SpawnTid(s, t);
    SpawnDiffers(s, DoCreateThread(t));
    r := Start(s, DoCreateThread(t));
  }

  lemma Lock(s: System, t: Tid, l: Id) returns (r: System)
    requires Reachable(s) && Ready(s, t) && l > 0 && l !in s.cfg.lockHeads && l !in s.cfg.usedLocks
    ensures Reachable(r) && Ready(r, t) && HoldsLock(r.cfg, t, l) && OnlyMoves(s, r, t, l)
  {
    hide Before, Depth, Causes;
    r := Start(s, DoBlock(t, l));
    r := Start(r, DoAcquire(t, l));
  }

  lemma Sleep(s: System, t: Tid, c: Id, l: Id) returns (r: System)
    requires Reachable(s) && Ready(s, t) && c > 0 && HoldsLock(s.cfg, t, l)
    ensures Reachable(r) && t in Waiters(r, c) && OnlyMoves(s, r, t, l)
  {
    hide Before, Depth, Causes, Wait1Preds;
    r := Start(s, DoWait1(t, c, l));
  }

  lemma InitialReachable()
    ensures Reachable(Initial()) && Ready(Initial(), [1]) && Initial().threads[[1]].spawned == 0
    ensures Initial().cfg.lockHeads == map[] && Initial().cfg.usedLocks == {}
  {
    assert IsRun([Initial()], []);
  }

  /** Both kinds of pair occur.  A run in which two threads are about to join a third: */
  lemma JoinsHappen() returns (s: System)
    ensures Reachable(s)
    ensures Enabled(s, DoJoin([1], [1, 1])) && Enabled(s, DoJoin([1, 2], [1, 1]))
  {
    hide Initial, Before, Depth, Causes;
    InitialReachable();
    var a, b;
    s, a := Spawn(Initial(), [1]);
    s, b := Spawn(s, [1]);
    assert a == [1, 1] && b == [1, 2];
    s := Start(s, DoExit(a));
  }

  /** And a run in which two threads are about to signal two waiters of one condition variable. */
  lemma SignalsHappen() returns (s: System)
    ensures Reachable(s)
    ensures Enabled(s, DoSignal([1], 1, Some([1, 1]))) && Enabled(s, DoSignal([1, 3], 1, Some([1, 2])))
  {
    hide Initial, Step, Reachable, HoldsLock;
    InitialReachable();
    var a, b, c;
    s, a := Spawn(Initial(), [1]);
    s, b := Spawn(s, [1]);
    s, c := Spawn(s, [1]);
    assert a == [1, 1] && b == [1, 2] && c == [1, 3];
    s := Lock(s, a, 1);
    s := Sleep(s, a, 1, 1);
    s := Lock(s, b, 2);
    s := Sleep(s, b, 1, 2);
  }

  /** After both of two commuting steps their events are in one configuration, unordered. */
  lemma CommutingUnordered(s: System, op1: Op, op2: Op) returns (r: System)
    requires Reachable(s) && Enabled(s, op1) && Enabled(s, op2) && !op1.DoBlock? && !op2.DoBlock? && op1.t != op2.t
    requires Commute(s, op1, op2)
    ensures Reachable(r) && Build(s, op1) in r.events && Build(s, op2) in r.events
    ensures !Ordered(Build(s, op1), Build(s, op2))
  {
    hide Inv, Build, Step, Before, Enabled, Extends, HasIds, HeadsUntouched, SameState, Reachable;
    ReachableInv(s);
    var s1 := Step(s, op1);
    ReachableStep(s, op1);
    ReachableStep(s1, op2);
    ReachableInv(s1);
    StepCommits(s, op1);
    StepCommits(s1, op2);
    HeadsFrame(s, op1);
    HeadsFrame(s, op2);
    InvCores(s);
    ExtensionsConcurrent(s, Build(s, op1), Build(s, op2));
    r := Step(s1, op2);
  }

  /** So dependent joins need not be ordered, */
  lemma JoinsUnordered() returns (r: System, a: Event, b: Event)
    ensures Reachable(r) && a in r.events && b in r.events && a.ThreadJoin? && b.ThreadJoin?
    ensures !Independent(a, b) && !Ordered(a, b)
  {
    hide Reachable, Enabled, Before, Commute, Independent;
    var s := JoinsHappen();
    var op1, op2 := DoJoin([1], [1, 1]), DoJoin([1, 2], [1, 1]);
    JoinsCommute(s, [1], [1, 2], [1, 1]);
    r := CommutingUnordered(s, op1, op2);
    a, b := Build(s, op1), Build(s, op2);
  }

  /** and neither need dependent signals that wake up different threads. */
  lemma SignalsUnordered() returns (r: System, a: Event, b: Event)
    ensures Reachable(r) && a in r.events && b in r.events && a.Signal? && b.Signal?
    ensures !IsLost(a) && !IsLost(b) && !Independent(a, b) && !Ordered(a, b)
  {
    hide Reachable, Enabled, Before, Commute, Independent, Inv, Owed, Build;
    var s := SignalsHappen();
    var op1, op2 := DoSignal([1], 1, Some([1, 1])), DoSignal([1, 3], 1, Some([1, 2]));
    SignalsCommute(s, [1], [1, 3], 1, [1, 1], [1, 2]);
    r := CommutingUnordered(s, op1, op2);
    a, b := Build(s, op1), Build(s, op2);
    ReachableInv(s);
    SignalEvent(s, [1], 1, [1, 1]);
    SignalEvent(s, [1, 3], 1, [1, 2]);
  }

  lemma SignalEvent(s: System, t: Tid, c: Id, v: Tid)
    requires Inv(s) && Enabled(s, DoSignal(t, c, Some(v)))
    ensures var e := Build(s, DoSignal(t, c, Some(v))); e.Signal? && !IsLost(e)
  {
    hide Inv, Build, Before, Owed;
    SignalBuilds(s, t, c, v);
    WaiterHead(s, c, v);
    SignalShape(Build(s, DoSignal(t, c, Some(v))), s.cfg.threadHeads[v]);
  }
}
