/** A configuration is determined by its events: two runs that commit the same events, in whatever
    order, end with the same heads. */
module PorBookkeeping {
  import opened Lists
  import opened Options
  import opened PorEvents
  import opened PorConfig
  import opened PorProtocol
  import opened PorInvariant
  import opened PorSteps
  import opened PorRuns
  import opened PorTheorems
  import opened PorCommute
  import opened PorSubruns
  import opened PorConflicts

  /** The wait2 events of a condition variable, each once. */
  ghost predicate W2Exact(events: set<Event>, heads: seq<Event>, c: Id) {
    NoRepeats(heads) && forall e :: e in heads <==> e in events && e.Wait2? && e.cid == c
  }

  /** The remaining fields: the wait2 lists are exact, and the ids in use are those with heads. */
  ghost predicate Bookkeeping(s: System) {
    && (forall c :: W2Exact(s.events, HeadsOf(s.cfg.w2Heads, c), c))
    && (forall c :: c in s.cfg.w2Heads ==> s.cfg.w2Heads[c] != [])
    && s.cfg.usedLocks == s.cfg.lockHeads.Keys && s.cfg.usedConds == s.cfg.condHeads.Keys
  }

  /** An id is used for the first time by an event that has no predecessor there. */
  predicate MarksFirstUse(s: System, e: Event) {
    && (LidOf(e) != 0 && LidOf(e) !in s.cfg.lockHeads ==> e.LockCreate? || (e.LockAcquire? && e.lockPred.None?))
    && (ChangesHeads(e) && !e.CondCreate? && e.cid !in s.cfg.condHeads ==> e.condPreds == {})
  }

  lemma AddBookkeeping(s: System, e: Event, threads: map<Tid, Thread>)
    requires Bookkeeping(s) && e !in s.events && HasIds(e) && MarksFirstUse(s, e)
    ensures Bookkeeping(Add(s, e, threads))
  {
    hide UpdateHeads;
    var s' := Add(s, e, threads);
    forall c
      ensures W2Exact(s'.events, HeadsOf(s'.cfg.w2Heads, c), c)
    {
      assert W2Exact(s.events, HeadsOf(s.cfg.w2Heads, c), c);
      if e.Wait2? && e.cid == c {
        AppendExact(HeadsOf(s.cfg.w2Heads, c), e);
      }
    }
  }

  lemma FirstUse(s: System, op: Op)
    requires Inv(s) && Enabled(s, op) && !op.DoBlock?
    ensures MarksFirstUse(s, Build(s, op))
  {
    hide Inv, Before, Owed, Core, CondCore, CondHeadsExact, KeepForWait1, KeepForLost, KeepForBroadcast;
    var e := Build(s, op);
    BuildOwed(s, op);
    LockOfOwed(s, e);
    if op.DoSignal? && op.woken.Some? {
      SignalBuilds(s, op.t, op.c, op.woken.value);
    } else if op.DoBroadcast? && Waiters(s, op.c) != {} {
      BroadcastBuilds(s, op.t, op.c);
      var u :| u in Waiters(s, op.c);
      assert s.cfg.threadHeads[u] in HeadsOf(s.cfg.condHeads, op.c);
    }
  }

  lemma LockOfOwed(s: System, e: Event)
    requires Owed(s, e)
    ensures LidOf(e) != 0 && LidOf(e) !in s.cfg.lockHeads ==> e.LockCreate? || (e.LockAcquire? && e.lockPred.None?)
  {
    hide Before;
  }

  lemma StepBookkeeping(s: System, op: Op)
    requires Inv(s) && Bookkeeping(s) && Enabled(s, op)
    ensures Bookkeeping(Step(s, op))
  {
    hide Inv, Before, Owed, Build, MarksFirstUse, HasIds, Extends, HeadsUntouched, Bookkeeping, Commit;
    if op.DoBlock? {
      SameBookkeeping(s, Step(s, op));
    } else {
      var e := Build(s, op);
      HeadsFrame(s, op);
      BuildOwed(s, op);
      OwedIsNew(s, e);
      FirstUse(s, op);
      AddBookkeeping(s, e, StepThreads(s, op));
      if op.DoCreateThread? {
        InitExtends(s, op);
        var s1 := Add(s, e, StepThreads(s, op));
        InitIsNew(s, op);
        InitMarks(s1, e.newTid, e);
        AddBookkeeping(s1, ThreadInit(e.newTid, e), s1.threads);
      }
    }
  }

  lemma SameBookkeeping(s: System, r: System)
    requires Bookkeeping(s) && r.events == s.events && r.cfg == s.cfg
    ensures Bookkeeping(r)
  {
  }

  lemma InitMarks(s: System, t: Tid, creation: Event)
    ensures HasIds(ThreadInit(t, creation)) && MarksFirstUse(s, ThreadInit(t, creation))
  {
  }

  lemma InitIsNew(s: System, op: Op)
    requires Inv(s) && Enabled(s, op) && op.DoCreateThread?
    ensures var e := Build(s, op); e.ThreadCreate? && ThreadInit(e.newTid, e) !in Add(s, e, StepThreads(s, op)).events
  {
    hide Inv, Before, Extends, Closed, ThreadChains, Commit;
    var e := Build(s, op);
    InitExtends(s, op);
    HeadsFrame(s, op);
    InvChains(s);
    AddThreadChains(s, e, StepThreads(s, op));
    ExtensionIsNew(Add(s, e, StepThreads(s, op)), ThreadInit(e.newTid, e));
  }

  lemma {:induction false} RunBookkeeping(run: seq<System>, ops: seq<Op>, i: nat)
    requires IsRun(run, ops) && i < |run|
    ensures Bookkeeping(run[i])
  {
    hide Step, Enabled, Inv;
    if i > 0 {
      RunBookkeeping(run, ops, i - 1);
      RunKeepsInv(run, ops, i - 1);
      StepBookkeeping(run[i - 1], ops[i - 1]);
    }
  }

  lemma ReachableBookkeeping(s: System)
    requires Reachable(s)
    ensures Bookkeeping(s)
  {
    hide Bookkeeping;
    var run, ops :| IsRun(run, ops) && run[|ops|] == s;
    RunBookkeeping(run, ops, |ops|);
  }

  // ---------------------------------------------------------------- the configuration from the events

  lemma {:induction false} SameElementsSameMultiset(a: seq<Event>, b: seq<Event>)
    requires NoRepeats(a) && NoRepeats(b) && forall e :: e in a <==> e in b
    ensures multiset(a) == multiset(b)
  {
    forall e
      ensures multiset(a)[e] == multiset(b)[e]
    {
      if e in a {
        OnceInHeads(a, e);
        OnceInHeads(b, e);
      }
    }
  }

  lemma SameThreadHeads(s: System, r: System, t: Tid)
    requires Inv(s) && Inv(r) && s.events == r.events && t in s.cfg.threadHeads
    ensures t in r.cfg.threadHeads && r.cfg.threadHeads[t] == s.cfg.threadHeads[t]
  {
    hide Inv;
    InvChains(s);
    InvChains(r);
    HeadOfThread(s, t);
    SameThreadHead(s, r, t);
  }

  lemma SameLockHeads(s: System, r: System, l: Id)
    requires Inv(s) && Inv(r) && s.events == r.events
    ensures LockHead(r.cfg, l) == LockHead(s.cfg, l) && (l in r.cfg.lockHeads <==> l in s.cfg.lockHeads)
  {
    hide Inv, Before;
    InvLockChains(s);
    InvLockChains(r);
    SameLockHead(s, r, l);
  }

  lemma SameCondHeads(s: System, r: System, c: Id)
    requires Inv(s) && Inv(r) && s.events == r.events
    ensures c in s.cfg.condHeads ==> c in r.cfg.condHeads
    ensures multiset(HeadsOf(s.cfg.condHeads, c)) == multiset(HeadsOf(r.cfg.condHeads, c))
  {
    hide Inv, Before, Core, CondCore, ThreadEvents, Notifications, Phases;
    InvCores(s);
    InvCores(r);
    assert HeadsExact(s.events, HeadsOf(s.cfg.condHeads, c), c);
    assert HeadsExact(r.events, HeadsOf(r.cfg.condHeads, c), c);
    SameElementsSameMultiset(HeadsOf(s.cfg.condHeads, c), HeadsOf(r.cfg.condHeads, c));
    if c in s.cfg.condHeads {
      assert s.cfg.condHeads[c][0] in HeadsOf(r.cfg.condHeads, c);
    }
  }

  lemma SameW2Heads(s: System, r: System, c: Id)
    requires Bookkeeping(s) && Bookkeeping(r) && s.events == r.events
    ensures c in s.cfg.w2Heads ==> c in r.cfg.w2Heads
    ensures multiset(HeadsOf(s.cfg.w2Heads, c)) == multiset(HeadsOf(r.cfg.w2Heads, c))
  {
    assert W2Exact(s.events, HeadsOf(s.cfg.w2Heads, c), c);
    assert W2Exact(r.events, HeadsOf(r.cfg.w2Heads, c), c);
    SameElementsSameMultiset(HeadsOf(s.cfg.w2Heads, c), HeadsOf(r.cfg.w2Heads, c));
    if c in s.cfg.w2Heads {
      assert s.cfg.w2Heads[c][0] in HeadsOf(r.cfg.w2Heads, c);
    }
  }

  /** Two reachable states with the same events have the same configuration. */
  lemma ConfigurationFromEvents(s: System, r: System)
    requires Reachable(s) && Reachable(r) && s.events == r.events
    ensures SameConfig(s.cfg, r.cfg)
  {
    hide Inv, Reachable, HeadsOf;
    ReachableInv(s);
    ReachableInv(r);
    ReachableBookkeeping(s);
    ReachableBookkeeping(r);
    forall t
      ensures t in s.cfg.threadHeads <==> t in r.cfg.threadHeads
      ensures t in s.cfg.threadHeads ==> s.cfg.threadHeads[t] == r.cfg.threadHeads[t]
    {
      if t in s.cfg.threadHeads {
        SameThreadHeads(s, r, t);
      }
      if t in r.cfg.threadHeads {
        SameThreadHeads(r, s, t);
      }
    }
    forall l
      ensures l in s.cfg.lockHeads <==> l in r.cfg.lockHeads
      ensures l in s.cfg.lockHeads ==> s.cfg.lockHeads[l] == r.cfg.lockHeads[l]
    {
      SameLockHeads(s, r, l);
    }
    assert s.cfg.lockHeads == r.cfg.lockHeads;
    forall c
      ensures (c in s.cfg.condHeads <==> c in r.cfg.condHeads) && (c in s.cfg.w2Heads <==> c in r.cfg.w2Heads)
      ensures multiset(HeadsOf(s.cfg.condHeads, c)) == multiset(HeadsOf(r.cfg.condHeads, c))
      ensures multiset(HeadsOf(s.cfg.w2Heads, c)) == multiset(HeadsOf(r.cfg.w2Heads, c))
    {
      SameCondHeads(s, r, c);
      SameCondHeads(r, s, c);
      SameW2Heads(s, r, c);
      SameW2Heads(r, s, c);
    }
    SizeIsCount(s);
    SizeIsCount(r);
  }

  lemma SizeIsCount(s: System)
    requires Inv(s)
    ensures s.cfg.size == |s.events|
  {
  }
}
