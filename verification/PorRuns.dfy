/** Safety over whole runs: the invariant holds in every reachable state. */
module PorRuns {
  import opened Options
  import opened PorEvents
  import opened PorConfig
  import opened PorProtocol
  import opened PorInvariant
  import opened PorSteps

  // ---------------------------------------------------------------- phases after a step

  /** How the phase of a thread other than the acting one follows from the new event. */
  ghost predicate OthersFollow(s: System, e: Event, threads: map<Tid, Thread>) {
    forall u :: u in s.threads && u != TidOf(e) && u in s.cfg.threadHeads ==>
      && u in threads
      && if Notifies(e, s.cfg.threadHeads[u]) then
           && s.threads[u].phase.WaitCv1?
           && threads[u].phase == WaitCv2(s.threads[u].phase.cond, s.threads[u].phase.lock)
         else threads[u].phase == s.threads[u].phase
  }

  /** The acting thread's new phase agrees with the event it commits. */
  predicate ActorPhase(e: Event, p: Phase) {
    if e.Wait1? then p == WaitCv1(e.cid, e.lid)
    else if e.ThreadExit? then p == Exited
    else p == Runnable
  }

  lemma AddPhases(s: System, e: Event, threads: map<Tid, Thread>)
    requires Phases(s) && Notifications(s.events) && e !in s.events && !e.ProgramInit?
    requires OthersFollow(s, e, threads)
    requires threads.Keys == s.threads.Keys + {e.tid}
    requires ActorPhase(e, threads[e.tid].phase)
    ensures Phases(Add(s, e, threads))
  {
    hide Before;
    var s' := Add(s, e, threads);
    forall t | t in s'.threads
      ensures ThreadPhase(s', t)
    {
      NotifiedAfter(s.events, e, s'.cfg.threadHeads[t]);
      if t != e.tid {
        assert ThreadPhase(s, t);
      }
    }
  }

  lemma AddThreadEvents(s: System, e: Event, threads: map<Tid, Thread>)
    requires ThreadEvents(s) && Phases(s) && Extends(s, e)
    requires forall u :: u in s.threads ==> u in threads && threads[u].spawned == s.threads[u].spawned
    requires threads.Keys == s.threads.Keys
    requires !e.ThreadCreate? && !e.ThreadInit?
    requires !e.prev.ThreadExit?
    requires e.ThreadJoin? ==>
               && e.exited.ThreadExit? && e.exited.tid in s.cfg.threadHeads
               && s.cfg.threadHeads[e.exited.tid] == e.exited && e.exited.tid != e.tid
    ensures ThreadEvents(Add(s, e, threads))
  {
    hide Before;
  }

  // ---------------------------------------------------------------- what the builders build

  lemma InvCores(s: System)
    requires Inv(s)
    ensures Core(s) && CondCore(s) && CondHeadsExact(s) && Notifications(s.events) && ThreadEvents(s) && Phases(s)
  {
    hide Before;
  }

  lemma HeadOfThread(s: System, t: Tid)
    requires Inv(s) && t in s.cfg.threadHeads
    ensures s.cfg.threadHeads[t] in s.events && TidOf(s.cfg.threadHeads[t]) == t
  {
    hide Before;
  }

  lemma CreateCondBuilds(s: System, t: Tid, c: Id)
    requires Inv(s) && Enabled(s, DoCreateCond(t, c))
    ensures Owed(s, Build(s, DoCreateCond(t, c)))
  {
    hide Before, Inv, Core, CondCore, CondHeadsExact, ThreadEvents, Owed;
    InvCores(s);
    RunningHead(s, t);
    forall x | x in s.events
      ensures CidOf(x) != c
    {
      if CidOf(x) == c {
        UsedHasHeads(s, x);
      }
    }
    CreateCondOwed(s, t, c);
  }

  lemma Wait2Builds(s: System, t: Tid, c: Id, l: Id)
    requires Inv(s) && Enabled(s, DoWait2(t, c, l))
    ensures Notifier(HeadsOf(s.cfg.condHeads, c), s.cfg.threadHeads[t]).Some?
    ensures Owed(s, Build(s, DoWait2(t, c, l)))
  {
    hide Before, Inv, Core, CondCore, CondHeadsExact, ThreadEvents, Owed;
    InvCores(s);
    assert ThreadPhase(s, t);
    var w := s.cfg.threadHeads[t];
    var n :| n in s.events && Notifies(n, w);
    HeadIn(s, n);
    var m := Notifier(HeadsOf(s.cfg.condHeads, c), w).value;
    HeadsCommitted(s, c, m);
    Wait2Owed(s, t, c, l, m);
  }

  /** Nobody waiting as seen by the handlers means no wait1 is outstanding. */
  lemma NoWaitersNobodyWaits(s: System, c: Id)
    requires Inv(s) && Waiters(s, c) == {}
    ensures NobodyWaits(s.events, c)
  {
    hide Before, Inv, Core, CondCore, CondHeadsExact, ThreadEvents, Owed;
    InvCores(s);
    forall w | w in s.events && w.Wait1? && w.cid == c
      ensures Notified(s.events, w)
    {
      if !Notified(s.events, w) {
        OutstandingWaits(s, w);
      }
    }
  }

  /** A lost notification meets no wait1 among the heads, so the builder's assertion holds. */
  lemma LostBuilds(s: System, op: Op)
    requires Inv(s) && Enabled(s, op)
    requires (op.DoSignal? && op.woken.None?) || (op.DoBroadcast? && Waiters(s, op.c) == {})
    ensures forall p :: p in HeadsOf(s.cfg.condHeads, op.c) ==> !p.Wait1?
    ensures var e := Build(s, op); Notification(e) && IsLost(e) && Owed(s, e)
  {
    hide Before, Inv, Core, CondCore, CondHeadsExact, ThreadEvents, Owed;
    InvCores(s);
    NoWaitersNobodyWaits(s, op.c);
    forall p | p in HeadsOf(s.cfg.condHeads, op.c)
      ensures !p.Wait1?
    {
      HeadsCommitted(s, op.c, p);
    }
    RunningHead(s, op.t);
    LostOwed(s, Build(s, op));
  }

  /** The thread a signal wakes up has its wait1 among the heads, as the builder asserts. */
  lemma SignalBuilds(s: System, t: Tid, c: Id, u: Tid)
    requires Inv(s) && Enabled(s, DoSignal(t, c, Some(u)))
    ensures u in s.cfg.threadHeads && s.cfg.threadHeads[u] in HeadsOf(s.cfg.condHeads, c)
    ensures var w := s.cfg.threadHeads[u]; Build(s, DoSignal(t, c, Some(u))) == Signal(t, c, s.cfg.threadHeads[t], {w})
    ensures Owed(s, Build(s, DoSignal(t, c, Some(u))))
  {
    hide Before, Inv, Core, CondCore, CondHeadsExact, ThreadEvents, Owed;
    InvCores(s);
    WaiterHead(s, c, u);
    RunningHead(s, t);
    var w := s.cfg.threadHeads[u];
    HeadIn(s, w);
    assert WokenWaits(s.cfg, {u}) == {w};
    SignalOwed(s, t, c, w);
  }

  lemma BroadcastBuilds(s: System, t: Tid, c: Id)
    requires Inv(s) && Enabled(s, DoBroadcast(t, c)) && Waiters(s, c) != {}
    ensures Waiters(s, c) <= s.cfg.threadHeads.Keys
    ensures forall u :: u in Waiters(s, c) ==>
            s.cfg.threadHeads[u].Wait1? && s.cfg.threadHeads[u] in HeadsOf(s.cfg.condHeads, c)
    ensures Owed(s, Build(s, DoBroadcast(t, c)))
  {
    hide Before, Inv, Core, CondCore, CondHeadsExact, ThreadEvents, Owed;
    InvCores(s);
    var woken := Waiters(s, c);
    forall u | u in woken
      ensures u in s.cfg.threadHeads
      ensures var w := s.cfg.threadHeads[u];
              w in s.events && w.Wait1? && w.cid == c && !Notified(s.events, w) && w in HeadsOf(s.cfg.condHeads, c)
    {
      WaiterHead(s, c, u);
      HeadIn(s, s.cfg.threadHeads[u]);
    }
    forall w | w in s.events && w.Wait1? && !Notified(s.events, w) && w.cid == c
      ensures w.tid in woken && s.cfg.threadHeads[w.tid] == w
    {
      OutstandingWaits(s, w);
    }
    RunningHead(s, t);
    BroadcastOwed(s, t, c, woken);
  }

  lemma PlainBuilds(s: System, op: Op)
    requires Inv(s) && Enabled(s, op)
    requires op.DoLocal? || op.DoExit? || op.DoJoin? || op.DoCreateLock? || op.DoAcquire? || op.DoRelease?
             || op.DoWait1?
    ensures Owed(s, Build(s, op))
  {
    hide Before, Inv, Core, CondCore, CondHeadsExact, ThreadEvents, Owed;
    InvCores(s);
    RunningHead(s, op.t);
    match op
    case DoLocal(t, path) => LocalOwed(s, t, path);
    case DoExit(t) => ExitOwed(s, t);
    case DoJoin(t, j) => JoinOwed(s, t, j);
    case DoCreateLock(t, l) => CreateLockOwed(s, t, l);
    case DoAcquire(t, l) => AcquireOwed(s, t, l);
    case DoRelease(t, l) => ReleaseOwed(s, t, l);
    case DoWait1(t, c, l) => Wait1Owed(s, t, c, l);
  }

  // ---------------------------------------------------------------- every step keeps the invariant

  lemma FromOwed(s: System, e: Event, threads: map<Tid, Thread>)
    requires Inv(s) && Owed(s, e) && !e.ThreadCreate? && !e.ThreadInit? && !e.ProgramInit?
    requires threads.Keys == s.threads.Keys && OthersFollow(s, e, threads)
    requires forall u :: u in s.threads ==> threads[u].spawned == s.threads[u].spawned
    requires e.tid in s.threads && ActorPhase(e, threads[e.tid].phase) && !e.prev.ThreadExit?
    requires e.ThreadJoin? ==>
               && e.exited.ThreadExit? && e.exited.tid in s.cfg.threadHeads
               && s.cfg.threadHeads[e.exited.tid] == e.exited && e.exited.tid != e.tid
    ensures Inv(Add(s, e, threads))
  {
    hide Before;
    ExtensionIsNew(s, e);
    AddPhases(s, e, threads);
    AddThreadEvents(s, e, threads);
    AddKeepsInv(s, e, threads);
  }

  lemma PlainStep(s: System, op: Op)
    requires Inv(s) && Enabled(s, op)
    requires op.DoLocal? || op.DoExit? || op.DoJoin? || op.DoCreateLock? || op.DoAcquire? || op.DoRelease?
             || op.DoWait1?
    ensures Inv(Step(s, op))
  {
    hide Before, Inv, Core, CondCore, CondHeadsExact, ThreadEvents, Owed;
    InvCores(s);
    PlainBuilds(s, op);
    RunningHead(s, op.t);
    if op.DoJoin? {
      HeadOfThread(s, op.joined);
    }
    FromOwed(s, Build(s, op), StepThreads(s, op));
  }

  lemma CondStep(s: System, op: Op)
    requires Inv(s) && Enabled(s, op)
    requires op.DoCreateCond? || op.DoWait2?
    ensures Inv(Step(s, op))
  {
    hide Before, Inv, Core, CondCore, CondHeadsExact, ThreadEvents, Owed;
    InvCores(s);
    if op.DoWait2? {
      Wait2Builds(s, op.t, op.c, op.l);
      assert ThreadPhase(s, op.t);
    } else {
      CreateCondBuilds(s, op.t, op.c);
      RunningHead(s, op.t);
    }
    FromOwed(s, Build(s, op), StepThreads(s, op));
  }

  lemma LostStep(s: System, op: Op)
    requires Inv(s) && Enabled(s, op)
    requires (op.DoSignal? && op.woken.None?) || (op.DoBroadcast? && Waiters(s, op.c) == {})
    ensures Inv(Step(s, op))
  {
    hide Before, Inv, Core, CondCore, CondHeadsExact, ThreadEvents, Owed;
    InvCores(s);
    LostBuilds(s, op);
    RunningHead(s, op.t);
    var e := Build(s, op);
    LostWakesNobody(e);
    FromOwed(s, e, StepThreads(s, op));
  }

  lemma SignalStep(s: System, t: Tid, c: Id, u: Tid)
    requires Inv(s) && Enabled(s, DoSignal(t, c, Some(u)))
    ensures Inv(Step(s, DoSignal(t, c, Some(u))))
  {
    hide Before, Inv, Core, CondCore, CondHeadsExact, ThreadEvents, Owed;
    InvCores(s);
    SignalBuilds(s, t, c, u);
    RunningHead(s, t);
    WaiterHead(s, c, u);
    var op := DoSignal(t, c, Some(u));
    var e := Build(s, op);
    SignalShape(e, s.cfg.threadHeads[u]);
    forall v | v in s.cfg.threadHeads
      ensures TidOf(s.cfg.threadHeads[v]) == v
    {
      HeadOfThread(s, v);
    }
    FromOwed(s, e, StepThreads(s, op));
  }

  lemma BroadcastWakes(s: System, t: Tid, c: Id, v: Tid)
    requires Inv(s) && Enabled(s, DoBroadcast(t, c)) && Waiters(s, c) != {} && v in s.cfg.threadHeads
    requires Waiters(s, c) <= s.cfg.threadHeads.Keys
    requires forall u :: u in Waiters(s, c) ==> s.cfg.threadHeads[u].Wait1?
    ensures Notifies(Build(s, DoBroadcast(t, c)), s.cfg.threadHeads[v]) <==> v in Waiters(s, c)
  {
    hide Before, Inv;
    var e := Build(s, DoBroadcast(t, c));
    var woken := Waiters(s, c);
    var ws := WokenWaits(s.cfg, woken);
    var u :| u in woken;
    assert s.cfg.threadHeads[u] in ws;
    BroadcastShape(e, ws, KeptSignals(e.prev, woken, HeadsOf(s.cfg.condHeads, c)));
    HeadOfThread(s, v);
    if s.cfg.threadHeads[v] in ws {
      var u' :| u' in woken && s.cfg.threadHeads[u'] == s.cfg.threadHeads[v];
      HeadOfThread(s, u');
    }
  }

  lemma BroadcastStep(s: System, t: Tid, c: Id)
    requires Inv(s) && Enabled(s, DoBroadcast(t, c)) && Waiters(s, c) != {}
    ensures Inv(Step(s, DoBroadcast(t, c)))
  {
    hide Before, Inv, Core, CondCore, CondHeadsExact, ThreadEvents, Owed, KeptSignals, WokenWaits;
    InvCores(s);
    BroadcastBuilds(s, t, c);
    RunningHead(s, t);
    var op := DoBroadcast(t, c);
    var e := Build(s, op);
    forall v | v in s.cfg.threadHeads
      ensures TidOf(s.cfg.threadHeads[v]) == v
      ensures Notifies(e, s.cfg.threadHeads[v]) <==> v in Waiters(s, c)
    {
      HeadOfThread(s, v);
      BroadcastWakes(s, t, c, v);
    }
    FromOwed(s, e, StepThreads(s, op));
  }

  lemma SameChains(s: System, s': System)
    requires s'.events == s.events && s'.cfg == s.cfg && ThreadChains(s) && LockChains(s) && CondHeadsExact(s)
             && PastWaits(s)
    ensures ThreadChains(s') && LockChains(s') && CondHeadsExact(s') && PastWaits(s')
  {
    hide Before, BeforeEq, Ordered, HeadsExact, Notified;
  }

  lemma BlockKeepsThreads(s: System, t: Tid, l: Id)
    requires Enabled(s, DoBlock(t, l)) && Phases(s) && ThreadEvents(s)
    ensures var s' := Step(s, DoBlock(t, l)); Phases(s') && ThreadEvents(s')
  {
    var s' := Step(s, DoBlock(t, l));
    forall u | u in s'.threads
      ensures ThreadPhase(s', u)
    {
      assert ThreadPhase(s, u);
    }
  }

  lemma BlockStep(s: System, t: Tid, l: Id)
    requires Inv(s) && Enabled(s, DoBlock(t, l))
    ensures Inv(Step(s, DoBlock(t, l)))
  {
    hide Before;
    var s' := Step(s, DoBlock(t, l));
    BlockKeepsThreads(s, t, l);
    SameChains(s, s');
  }

  // creating a thread

  lemma LastUnique(t: Tid, k: nat, u: Tid, j: nat)
    requires t + [k] == u + [j]
    ensures t == u && k == j
  {
    assert (t + [k])[..|t|] == t && (u + [j])[..|u|] == u;
    assert (t + [k])[|t|] == k && (u + [j])[|u|] == j;
  }

  lemma SpawnIsNew(s: System, t: Tid)
    requires ThreadEvents(s) && Phases(s) && t in s.threads
    ensures SpawnTid(s, t) !in s.threads && SpawnTid(s, t) !in s.cfg.threadHeads
    ensures forall x :: x in s.events && x.ThreadCreate? ==> x.newTid != SpawnTid(s, t)
  {
    hide Before;
    var n := SpawnTid(s, t);
    forall x | x in s.events && x.ThreadCreate?
      ensures x.newTid != n
    {
      var k: nat :| x.newTid == x.tid + [k] && k <= s.threads[x.tid].spawned;
      if x.newTid == n {
        LastUnique(x.tid, k, t, s.threads[t].spawned + 1);
      }
    }
  }

  lemma SpawnThreadEvents(s: System, e: Event, t: Tid)
    requires ThreadEvents(s) && Phases(s) && t in s.threads && Extends(s, e)
    requires e.ThreadCreate? && e.tid == t && e.newTid == SpawnTid(s, t) && !e.prev.ThreadExit?
    ensures ThreadEvents(Add(s, e, s.threads[t := s.threads[t].(spawned := s.threads[t].spawned + 1)]))
  {
    hide Before;
    SpawnIsNew(s, t);
    assert e.newTid == e.tid + [s.threads[t].spawned + 1];
  }

  lemma InitThreadEvents(s: System, create: Event)
    requires ThreadEvents(s) && Phases(s) && create in s.events && create.ThreadCreate?
    requires create.newTid !in s.threads
    ensures ThreadEvents(Add(s, ThreadInit(create.newTid, create), s.threads[create.newTid := Thread(Runnable, 0)]))
  {
    hide Before;
    var n := create.newTid;
    var j: nat :| n == create.tid + [j] && j <= s.threads[create.tid].spawned;
    var threads := s.threads[n := Thread(Runnable, 0)];
    forall t, k: nat | t in threads && t + [k] in threads
      ensures k <= threads[t].spawned
    {
      if t + [k] == n {
        LastUnique(t, k, create.tid, j);
      }
    }
    forall t, k: nat | t != [] && t + [k] in threads
      ensures t in threads
    {
      if t + [k] == n {
        LastUnique(t, k, create.tid, j);
      }
    }
  }

  lemma CreateThreadStep(s: System, t: Tid)
    requires Inv(s) && Enabled(s, DoCreateThread(t))
    ensures Inv(Step(s, DoCreateThread(t)))
  {
    hide Before, Inv, Core, CondCore, CondHeadsExact, ThreadEvents, Owed;
    var op := DoCreateThread(t);
    var e := Build(s, op);
    InvCores(s);
    RunningHead(s, t);
    SpawnIsNew(s, t);
    CreateThreadOwed(s, t, e.newTid);
    CommitCreation(s, e, t);
    var mid := Add(s, e, s.threads[t := s.threads[t].(spawned := s.threads[t].spawned + 1)]);
    CommitFirstEvent(mid, e);
    assert Add(mid, ThreadInit(e.newTid, e), mid.threads[e.newTid := Thread(Runnable, 0)]) == Step(s, op);
  }

  lemma CommitCreation(s: System, e: Event, t: Tid)
    requires Inv(s) && Owed(s, e) && t in s.threads && s.threads[t].phase.Runnable?
    requires e.ThreadCreate? && e.tid == t && e.newTid == SpawnTid(s, t) && !e.prev.ThreadExit?
    ensures Inv(Add(s, e, s.threads[t := s.threads[t].(spawned := s.threads[t].spawned + 1)]))
  {
    hide Before;
    var threads := s.threads[t := s.threads[t].(spawned := s.threads[t].spawned + 1)];
    ExtensionIsNew(s, e);
    SpawnThreadEvents(s, e, t);
    AddPhases(s, e, threads);
    AddKeepsInv(s, e, threads);
  }

  lemma CommitFirstEvent(s: System, create: Event)
    requires Inv(s) && create in s.events && create.ThreadCreate? && create.newTid !in s.threads && create.newTid != []
    ensures Inv(Add(s, ThreadInit(create.newTid, create), s.threads[create.newTid := Thread(Runnable, 0)]))
  {
    hide Before;
    var e := ThreadInit(create.newTid, create);
    var threads := s.threads[create.newTid := Thread(Runnable, 0)];
    InitThreadOwed(s, create);
    ExtensionIsNew(s, e);
    InitThreadEvents(s, create);
    AddPhases(s, e, threads);
    AddKeepsInv(s, e, threads);
  }

  // ---------------------------------------------------------------- runs

  lemma StepKeepsInv(s: System, op: Op)
    requires Inv(s) && Enabled(s, op)
    ensures Inv(Step(s, op))
  {
    hide Inv, Step;
    match op
    case DoBlock(t, l) => BlockStep(s, t, l);
    case DoCreateThread(t) => CreateThreadStep(s, t);
    case DoCreateCond(_, _) => CondStep(s, op);
    case DoWait2(_, _, _) => CondStep(s, op);
    case DoSignal(t, c, Some(u)) => SignalStep(s, t, c, u);
    case DoSignal(_, _, None) => LostStep(s, op);
    case DoBroadcast(t, c) =>
      if Waiters(s, c) == {} {
        LostStep(s, op);
      } else {
        BroadcastStep(s, t, c);
      }
    case _ => PlainStep(s, op);
  }

  lemma InitialChains()
    ensures var s := Initial(); Closed(s.events) && ThreadChains(s) && LockChains(s) && IdsPositive(s.events)
  {
    hide Before;
    var init := ThreadInit(MainTid, ProgramInit);
    Via(ProgramInit, ProgramInit, init);
  }

  lemma InitialConds()
    ensures var s := Initial();
            CondHeadsExact(s) && Phases(s) && Notifications(s.events) && PastWaits(s) && Outstanding(s.events)
  {
    hide Before;
  }

  lemma InitialOrder()
    ensures var s := Initial(); ThreadEvents(s) && DependentOrdered(s.events)
    ensures var s := Initial();
            LockAlternation(s.events) && LockLinks(s.events) && Wakeups(s.events) && s.cfg.size == |s.events|
  {
    hide Before;
    var init := ThreadInit(MainTid, ProgramInit);
    Via(ProgramInit, ProgramInit, init);
    forall t: Tid, k: nat | t + [k] == MainTid
      ensures t == []
    {
      assert |t| == 0;
    }
  }

  lemma InitialInv()
    ensures Inv(Initial())
  {
    hide Before, Initial;
    InitialChains();
    InitialConds();
    InitialOrder();
  }

  lemma {:induction false} RunKeepsInv(run: seq<System>, ops: seq<Op>, i: nat)
    requires IsRun(run, ops) && i < |run|
    ensures Inv(run[i])
  {
    hide Inv, Initial, Step;
    if i == 0 {
      InitialInv();
    } else {
      RunKeepsInv(run, ops, i - 1);
      StepKeepsInv(run[i - 1], ops[i - 1]);
    }
  }

  /** Every reachable state satisfies the invariant. */
  lemma ReachableInv(s: System)
    requires Reachable(s)
    ensures Inv(s)
  {
    hide Inv;
    var run, ops :| IsRun(run, ops) && run[|ops|] == s;
    RunKeepsInv(run, ops, |ops|);
  }
}
