/** Conflicting extensions of lock acquisitions: which other acquisitions the unfolding proposes
    for an event of a configuration, that each of them is an execution of its own, and that no
    alternative inside the configuration is missed. */
module PorConflicts {
  import opened Lists
  import opened Options
  import opened PorEvents
  import opened PorConfig
  import opened PorProtocol
  import opened PorInvariant
  import opened PorSteps
  import opened PorRuns
  import opened PorTheorems
  import opened PorCommute
  import opened PorSubruns

  // ---------------------------------------------------------------- the extensions of an acquisition

  predicate OnLock(events: set<Event>, l: Id, y: Event) {
    y in events && LidOf(y) == l
  }

  /** In the history of the thread predecessor or, for a wait2, of the notifier. */
  ghost predicate InPast(e: Event, y: Event)
    requires Acquiring(e)
  {
    BeforeEq(y, e.prev) || (e.Wait2? && BeforeEq(y, e.notifier))
  }

  /** `e` could have come right after `p` on its lock instead: `p` is free, comes before the actual
      predecessor, and nothing in the past of `e` is beyond it.  After a wait1 in its own past a
      wait2 is not proposed. */
  ghost predicate Alternative(events: set<Event>, e: Event, p: Option<Event>)
    requires Acquiring(e)
  {
    && e.lockPred.Some?
    && match p
       case None => forall y :: OnLock(events, e.lid, y) ==> !InPast(e, y)
       case Some(x) =>
         && OnLock(events, e.lid, x) && Releasing(x) && Before(x, e.lockPred.value)
         && (forall y :: OnLock(events, e.lid, y) && InPast(e, y) ==> BeforeEq(y, x))
         && (e.Wait2? && InPast(e, x) ==> x.LockRelease?)
  }

  /** The same acquisition after another event on the lock. */
  function Retaken(e: Event, p: Option<Event>): Event {
    match e
    case LockAcquire(t, l, prev, _) => LockAcquire(t, l, prev, p)
    case Wait2(t, c, l, prev, _, n) => Wait2(t, c, l, prev, p, n)
    case _ => e
  }

  function LockPredecessor(x: Event): (p: Option<Event>)
    ensures p.Some? ==> p.value in Preds(x) && (x decreases to p.value)
  {
    if x.LockAcquire? || x.LockRelease? || x.Wait1? || x.Wait2? then x.lockPred else None
  }

  /** The facts about a committed acquisition that the search relies on. */
  ghost predicate Searchable(s: System, e: Event) {
    && Core(s) && LockLinks(s.events) && LockAlternation(s.events)
    && e in s.events && Acquiring(e)
    && (e.Wait2? ==> OnLock(s.events, e.lid, e.prev) && e.prev.Wait1? && e.lockPred.Some? && Notification(e.notifier))
  }

  lemma PastBelow(s: System, e: Event, y: Event)
    requires Acquiring(e) && Searchable(s, e) && OnLock(s.events, e.lid, y) && InPast(e, y)
    ensures Before(y, e) && e.lockPred.Some? && BeforeEq(y, e.lockPred.value) && e.lockPred.value in s.events
  {
    hide Before;
    Via(y, if BeforeEq(y, e.prev) then e.prev else e.notifier, e);
  }

  /** One step down the chain of lock events. */
  lemma StepDown(s: System, x: Event, y: Event)
    requires LockLinks(s.events) && x in s.events && LidOf(x) != 0 && OnLock(s.events, LidOf(x), y) && Before(y, x)
    ensures var p := LockPredecessor(x); p.Some? && OnLock(s.events, LidOf(x), p.value) && BeforeEq(y, p.value)
  {
    hide Before;
  }

  lemma LockPredecessorOnLock(s: System, x: Event)
    requires Closed(s.events) && LockAlternation(s.events) && x in s.events && LidOf(x) != 0 && LockPredecessor(x).Some?
    ensures var p := LockPredecessor(x).value; OnLock(s.events, LidOf(x), p) && Before(p, x)
  {
    hide Before;
    Via(LockPredecessor(x).value, LockPredecessor(x).value, x);
  }

  /** The test of the search, decided by comparing depths, is membership in the past. */
  lemma TestIsPast(s: System, e: Event, x: Event)
    requires Acquiring(e) && Searchable(s, e) && OnLock(s.events, e.lid, x)
    ensures IsLessThanEq(x, e.prev) || (e.Wait2? && IsLessThan(x, e.notifier)) <==> InPast(e, x)
    ensures e.Wait2? ==> x != e.notifier && (IsLessThanEq(x, e.notifier) <==> BeforeEq(x, e.notifier))
  {
    hide Before, IsLessThan, Searchable, Closed, ThreadChains;
    KnownCauses(s, e);
    LessThanIsBefore(s, x, e.prev);
    if e.Wait2? {
      LessThanIsBefore(s, x, e.notifier);
    }
  }

  lemma KnownCauses(s: System, e: Event)
    requires Acquiring(e) && Searchable(s, e)
    ensures Closed(s.events) && ThreadChains(s) && e.lid != 0 && e.prev in s.events
    ensures e.Wait2? ==> e.notifier in s.events && LidOf(e.notifier) == 0
  {
    hide Before, IsLessThan, LockLinks, LockAlternation, LockChains;
    assert e.prev in Preds(e);
    if e.Wait2? {
      assert e.notifier in Preds(e);
    }
  }

  /** The last event on the lock in the past of `e`. */
  ghost predicate LastInPast(events: set<Event>, e: Event, em: Option<Event>)
    requires Acquiring(e)
  {
    match em
    case None => forall y :: OnLock(events, e.lid, y) ==> !InPast(e, y)
    case Some(m) =>
      && OnLock(events, e.lid, m) && InPast(e, m)
      && forall y :: OnLock(events, e.lid, y) && InPast(e, y) ==> BeforeEq(y, m)
  }

  lemma Descend(s: System, e: Event, x: Event, y: Event)
    requires Acquiring(e) && Searchable(s, e) && OnLock(s.events, e.lid, x) && !InPast(e, x)
    requires OnLock(s.events, e.lid, y) && InPast(e, y) && BeforeEq(y, x)
    ensures var p := LockPredecessor(x); p.Some? && OnLock(s.events, e.lid, p.value) && BeforeEq(y, p.value)
  {
    hide Before, Core, LockLinks;
    HasLock(s, e);
    StepDown(s, x, y);
  }

  lemma HasLock(s: System, e: Event)
    requires Acquiring(e) && Searchable(s, e)
    ensures e.lid != 0
            && (e.lockPred.Some? ==> OnLock(s.events, e.lid, e.lockPred.value) && Before(e.lockPred.value, e))
  {
    hide Before;
    if e.lockPred.Some? {
      LockPredecessorOnLock(s, e);
    }
  }

  lemma KnownPredecessor(s: System, e: Event, x: Event)
    requires Acquiring(e) && Searchable(s, e) && OnLock(s.events, e.lid, x) && LockPredecessor(x).Some?
    ensures OnLock(s.events, e.lid, LockPredecessor(x).value) && Before(LockPredecessor(x).value, x)
  {
    hide Before, LockLinks;
    LockPredecessorOnLock(s, x);
  }

  method DescendToPast(ghost s: System, e: Event) returns (em: Option<Event>)
    requires Acquiring(e) && Searchable(s, e)
    ensures LastInPast(s.events, e, em)
    ensures em.Some? ==> e.lockPred.Some? && BeforeEq(em.value, e.lockPred.value)
  {
    hide Before, Core, LockLinks, LockAlternation, IsLessThan;
    HasLock(s, e);
    em := e.lockPred;
    forall y | OnLock(s.events, e.lid, y) && InPast(e, y)
      ensures em.Some? && BeforeEq(y, em.value)
    {
      PastBelow(s, e, y);
    }
    while em.Some? && !IsLessThanEq(em.value, e.prev) && !(e.Wait2? && IsLessThan(em.value, e.notifier))
      invariant em.Some? ==>
                OnLock(s.events, e.lid, em.value) && e.lockPred.Some? && BeforeEq(em.value, e.lockPred.value)
      invariant forall y :: OnLock(s.events, e.lid, y) && InPast(e, y) ==> em.Some? && BeforeEq(y, em.value)
      decreases if em.Some? then 1 + Depth(em.value) else 0
    {
      var x := em.value;
      TestIsPast(s, e, x);
      em := LockPredecessor(x);
      forall y | OnLock(s.events, e.lid, y) && InPast(e, y)
        ensures em.Some? && BeforeEq(y, em.value)
      {
        Descend(s, e, x, y);
      }
      if em.Some? {
        KnownPredecessor(s, e, x);
        BeforeEqTransitive(em.value, x, e.lockPred.value);
      }
    }
    if em.Some? {
      TestIsPast(s, e, em.value);
    }
  }

  lemma NoAlternative(s: System, e: Event, p: Option<Event>)
    requires Acquiring(e) && Searchable(s, e) && LastInPast(s.events, e, e.lockPred)
    ensures !Alternative(s.events, e, p)
  {
    hide Before, Searchable;
    if e.lockPred.Some? && p.Some? && Before(p.value, e.lockPred.value) && BeforeEq(e.lockPred.value, p.value) {
      Antisymmetric(p.value, e.lockPred.value);
      NotBeforeItself(p.value);
    }
  }

  /** A wait2 has its own wait1 in its past. */
  lemma WaitIsInPast(s: System, e: Event, em: Option<Event>)
    requires Acquiring(e) && Searchable(s, e) && LastInPast(s.events, e, em)
    ensures e.Wait2? ==> em.Some? && !em.value.LockCreate?
  {
    hide Before, Core, LockAlternation, LockLinks;
    if e.Wait2? {
      assert InPast(e, e.prev);
      if e.prev != em.value {
        StepDownFrom(s, e, em.value, e.prev);
      }
    }
  }

  /** The lock events between the last one in the past and the predecessor of `e`, down to `ep`,
      have been visited. */
  ghost predicate Visited(s: System, e: Event, em: Option<Event>, ep: Option<Event>, done: set<Event>)
    requires Acquiring(e) && e.lockPred.Some?
  {
    var er := e.lockPred.value;
    && (ep.Some? ==> OnLock(s.events, e.lid, ep.value) && Before(ep.value, er))
    && (forall y :: y in done ==> OnLock(s.events, e.lid, y) && Before(y, er))
    && (forall y :: y in done ==> em.Some? ==> Before(em.value, y))
    && (forall y :: y in done ==> ep.Some? ==> Before(ep.value, y))
    && (forall y :: OnLock(s.events, e.lid, y) && Before(y, er) ==> y in done || (ep.Some? && BeforeEq(y, ep.value)))
  }

  lemma VisitNone(s: System, e: Event, em: Option<Event>)
    requires Acquiring(e) && Searchable(s, e) && e.lockPred.Some?
    ensures Visited(s, e, em, LockPredecessor(e.lockPred.value), {})
  {
    hide Before, Core, LockAlternation, Searchable;
    HasLock(s, e);
    var er := e.lockPred.value;
    var ep := LockPredecessor(er);
    if ep.Some? {
      KnownPredecessor(s, e, er);
    }
    forall y | OnLock(s.events, e.lid, y) && Before(y, er)
      ensures ep.Some? && BeforeEq(y, ep.value)
    {
      StepDownFrom(s, e, er, y);
    }
  }

  lemma StepDownFrom(s: System, e: Event, x: Event, y: Event)
    requires Acquiring(e) && Searchable(s, e) && OnLock(s.events, e.lid, x) && OnLock(s.events, e.lid, y)
             && Before(y, x)
    ensures LockPredecessor(x).Some? && BeforeEq(y, LockPredecessor(x).value)
  {
    hide Before, Core, LockAlternation, LockLinks;
    HasLock(s, e);
    StepDown(s, x, y);
  }

  lemma VisitNext(s: System, e: Event, em: Option<Event>, x: Event, done: set<Event>)
    requires Acquiring(e) && Searchable(s, e) && e.lockPred.Some? && Visited(s, e, em, Some(x), done)
    requires em.Some? ==>
             OnLock(s.events, e.lid, em.value) && Before(em.value, e.lockPred.value) && !BeforeEq(x, em.value)
    ensures Visited(s, e, em, LockPredecessor(x), done + {x})
    ensures em.Some? ==> Before(em.value, x)
  {
    hide Before, Core, LockAlternation, Searchable;
    var er, ep := e.lockPred.value, LockPredecessor(x);
    NotBeforeItself(x);
    if em.Some? {
      NotBeforeItself(em.value);
      assert em.value !in done && BeforeEq(em.value, x);
    }
    if ep.Some? {
      KnownPredecessor(s, e, x);
      BeforeEqTransitive(ep.value, x, er);
      forall y | y in done
        ensures Before(ep.value, y)
      {
        BeforeEqTransitive(ep.value, x, y);
      }
    }
    forall y | OnLock(s.events, e.lid, y) && Before(y, er) && y !in done && y != x
      ensures ep.Some? && BeforeEq(y, ep.value)
    {
      StepDownFrom(s, e, x, y);
    }
  }

  /** What the search proposes right away. */
  predicate ProposedFirst(e: Event, em: Option<Event>)
    requires Acquiring(e)
  {
    em.None? || (Releasing(em.value) && (e.Wait2? ==> em.value.LockRelease?))
  }

  ghost predicate Proposes(e: Event, em: Option<Event>, done: set<Event>, result: seq<Event>)
    requires Acquiring(e)
  {
    && (forall a :: a in result ==> Acquiring(a) && a == Retaken(e, a.lockPred))
    && (forall p: Option<Event> :: Retaken(e, p) in result <==>
          (p == em && ProposedFirst(e, em)) || (p.Some? && p.value in done && Releasing(p.value)))
    && NoRepeats(result)
  }

  lemma Propose(e: Event, em: Option<Event>, done: set<Event>, x: Event, result: seq<Event>)
    requires Acquiring(e) && Proposes(e, em, done, result) && x !in done && em != Some(x)
    ensures Proposes(e, em, done + {x}, if Releasing(x) then result + [Retaken(e, Some(x))] else result)
  {
  }

  lemma SearchExact(s: System, e: Event, em: Option<Event>, ep: Option<Event>, done: set<Event>, p: Option<Event>)
    requires Acquiring(e) && Searchable(s, e) && e.lockPred.Some? && LastInPast(s.events, e, em) && em != e.lockPred
    requires em.Some? ==> BeforeEq(em.value, e.lockPred.value)
    requires Visited(s, e, em, ep, done) && (ep.Some? ==> em.Some? && BeforeEq(ep.value, em.value))
    ensures Alternative(s.events, e, p) <==>
            (p == em && ProposedFirst(e, em)) || (p.Some? && p.value in done && Releasing(p.value))
  {
    hide Before, Core, LockAlternation, Searchable;
    if p.Some? {
      var x := p.value;
      if x in done {
        PastBelowDone(s, e, em, x);
      } else if Alternative(s.events, e, p) {
        assert ep.Some? && BeforeEq(x, ep.value);
        BeforeEqTransitive(x, ep.value, em.value);
        Antisymmetric(x, em.value);
      }
    }
  }

  lemma PastBelowDone(s: System, e: Event, em: Option<Event>, x: Event)
    requires Acquiring(e) && Searchable(s, e) && LastInPast(s.events, e, em) && OnLock(s.events, e.lid, x)
             && (em.Some? ==> Before(em.value, x))
    ensures !InPast(e, x)
    ensures forall y :: OnLock(s.events, e.lid, y) && InPast(e, y) ==> BeforeEq(y, x)
  {
    hide Before, Searchable;
    if em.Some? {
      if InPast(e, x) {
        Antisymmetric(x, em.value);
      }
      NotBeforeItself(x);
      forall y | OnLock(s.events, e.lid, y) && InPast(e, y)
        ensures BeforeEq(y, x)
      {
        BeforeEqTransitive(y, em.value, x);
      }
    }
  }

  /** The tests that stop the search. */
  lemma StopTest(s: System, e: Event, em: Option<Event>, x: Event)
    requires Acquiring(e) && Searchable(s, e) && LastInPast(s.events, e, em) && OnLock(s.events, e.lid, x)
    ensures (em.None? || !IsLessThanEq(x, em.value)) && (!e.Wait2? || !IsLessThanEq(x, e.notifier)) <==>
            (em.Some? ==> !BeforeEq(x, em.value))
  {
    hide Before, IsLessThan, Searchable, Closed, ThreadChains;
    KnownCauses(s, e);
    TestIsPast(s, e, x);
    WaitIsInPast(s, e, em);
    if em.Some? {
      LessThanIsBefore(s, x, em.value);
    }
  }

  ghost predicate Found(s: System, e: Event, em: Option<Event>)
    requires Acquiring(e)
  {
    && LastInPast(s.events, e, em) && em != e.lockPred
    && (em.Some? ==> e.lockPred.Some? && BeforeEq(em.value, e.lockPred.value))
  }

  lemma ProposeFirst(e: Event, em: Option<Event>)
    requires Acquiring(e)
    ensures Proposes(e, em, {}, if ProposedFirst(e, em) then [Retaken(e, em)] else [])
  {
  }

  lemma Visit(s: System, e: Event, em: Option<Event>, x: Event, done: set<Event>)
    requires Acquiring(e) && Searchable(s, e) && e.lockPred.Some? && Found(s, e, em) && Visited(s, e, em, Some(x), done)
    requires (em.None? || !IsLessThanEq(x, em.value)) && (!e.Wait2? || !IsLessThanEq(x, e.notifier))
    ensures Visited(s, e, em, LockPredecessor(x), done + {x})
    ensures x !in done && em != Some(x)
    ensures e.Wait2? ==> !x.LockCreate?
  {
    hide Before, IsLessThanEq, Searchable;
    StopTest(s, e, em, x);
    VisitNext(s, e, em, x, done);
    NotBeforeItself(x);
    if e.Wait2? {
      WaitIsInPast(s, e, em);
      StepDownFrom(s, e, x, em.value);
    }
  }

  lemma AllProposed(s: System, e: Event, em: Option<Event>, ep: Option<Event>, done: set<Event>, result: seq<Event>)
    requires Acquiring(e) && Searchable(s, e) && e.lockPred.Some? && Found(s, e, em) && Visited(s, e, em, ep, done)
    requires !(ep.Some? && (em.None? || !IsLessThanEq(ep.value, em.value))
             && (!e.Wait2? || !IsLessThanEq(ep.value, e.notifier)))
    requires Proposes(e, em, done, result)
    ensures forall p :: Retaken(e, p) in result <==> Alternative(s.events, e, p)
    ensures forall a :: a in result ==> Acquiring(a) && a == Retaken(e, a.lockPred)
    ensures NoRepeats(result)
  {
    hide Before, IsLessThanEq, Searchable, LastInPast, Alternative, ProposedFirst;
    if ep.Some? {
      StopTest(s, e, em, ep.value);
    }
    forall p
      ensures Retaken(e, p) in result <==> Alternative(s.events, e, p)
    {
      SearchExact(s, e, em, ep, done, p);
    }
  }

  /** The search for conflicting extensions of a lock_acquire or wait2. */
  method CexAcquire(ghost s: System, e: Event) returns (result: seq<Event>)
    requires Acquiring(e) && Searchable(s, e)
    ensures forall p :: Retaken(e, p) in result <==> Alternative(s.events, e, p)
    ensures forall a :: a in result ==> Acquiring(a) && a == Retaken(e, a.lockPred)
    ensures NoRepeats(result)
  {
    hide Before, IsLessThanEq, Searchable, LastInPast, Alternative, Proposes, Visited;
    result := [];
    var em := DescendToPast(s, e);
    if em == e.lockPred {
      forall p
        ensures !Alternative(s.events, e, p)
      {
        NoAlternative(s, e, p);
      }
      return;
    }
    WaitIsInPast(s, e, em);
    if em.None? {
      assert e.LockAcquire?;
      result := [Retaken(e, None)];
    } else if em.value.LockRelease? || em.value.Wait1? {
      if e.LockAcquire? || em.value.LockRelease? {
        result := [Retaken(e, em)];
      }
    } else if em.value.LockCreate? {
      assert e.LockAcquire?;
      result := [Retaken(e, em)];
    }
    assert e.lockPred.Some?;
    var ep := LockPredecessor(e.lockPred.value);
    ghost var done: set<Event> := {};
    VisitNone(s, e, em);
    ProposeFirst(e, em);
    while ep.Some? && (em.None? || !IsLessThanEq(ep.value, em.value))
      && (!e.Wait2? || !IsLessThanEq(ep.value, e.notifier))
      invariant Visited(s, e, em, ep, done)
      invariant Proposes(e, em, done, result)
      decreases if ep.Some? then 1 + Depth(ep.value) else 0
    {
      var x := ep.value;
      Visit(s, e, em, x, done);
      Propose(e, em, done, x, result);
      if x.LockRelease? || x.Wait1? || x.LockCreate? {
        assert e.Wait2? ==> !x.LockCreate?;
        result := result + [Retaken(e, ep)];
      }
      done := done + {x};
      ep := LockPredecessor(x);
    }
    AllProposed(s, e, em, ep, done, result);
  }

  // ---------------------------------------------------------------- threads, event by event

  /** Whatever happened on a thread before an event is at or below its thread predecessor. */
  ghost predicate ThreadLinks(events: set<Event>) {
    forall x, y {:trigger Before(y, x)} :: x in events && y in events && TidOf(x) == TidOf(y) && Before(y, x) ==>
      !x.ProgramInit? && !x.ThreadInit? && BeforeEq(y, x.prev)
  }

  /** A created thread has started. */
  ghost predicate Started(events: set<Event>) {
    forall e :: e in events && e.ThreadCreate? ==> ThreadInit(e.newTid, e) in events
  }

  /** An event continues its own thread; only a wait2 follows a wait1, and nothing an exit. */
  ghost predicate Continues(events: set<Event>) {
    forall e :: e in events && !e.ProgramInit? && !e.ThreadInit? ==>
      TidOf(e.prev) == e.tid && (e.prev.Wait1? ==> e.Wait2?) && !e.prev.ThreadExit?
  }

  lemma AddThreadLinks(s: System, e: Event)
    requires Closed(s.events) && ThreadChains(s) && Extends(s, e) && ThreadLinks(s.events)
    ensures ThreadLinks(s.events + {e})
  {
    hide Before;
    forall x | x in s.events
      ensures !Before(e, x)
    {
      ExtensionIsMaximal(s, e, x);
    }
    NotBeforeItself(e);
  }

  ghost predicate ThreadHistory(events: set<Event>) {
    ThreadLinks(events) && Started(events) && Continues(events)
  }

  lemma StepKeepsLinks(s: System, op: Op)
    requires Inv(s) && ThreadLinks(s.events) && Enabled(s, op)
    ensures ThreadLinks(Step(s, op).events)
  {
    hide Before, Inv, Build, Extends, HasIds, HeadsUntouched, ThreadLinks;
    if !op.DoBlock? {
      var e := Build(s, op);
      HeadsFrame(s, op);
      InvChains(s);
      AddThreadLinks(s, e);
      if op.DoCreateThread? {
        var s1 := Add(s, e, StepThreads(s, op));
        AddClosed(s, e);
        AddThreadChains(s, e, StepThreads(s, op));
        InvCores(s);
        SpawnIsNew(s, op.t);
        InitExtends(s, op);
        AddThreadLinks(s1, ThreadInit(e.newTid, e));
      }
    }
  }

  lemma InitExtends(s: System, op: Op)
    requires Inv(s) && Enabled(s, op) && op.DoCreateThread?
    ensures var e := Build(s, op); e.ThreadCreate? && Extends(Add(s, e, StepThreads(s, op)), ThreadInit(e.newTid, e))
  {
    hide Before, Inv;
    InvCores(s);
    SpawnIsNew(s, op.t);
    SpawnDiffers(s, op);
  }

  lemma StepContinues(s: System, op: Op)
    requires Inv(s) && Started(s.events) && Continues(s.events) && Enabled(s, op)
    ensures Started(Step(s, op).events) && Continues(Step(s, op).events)
  {
    hide Before, Inv, Step;
    if !op.DoBlock? {
      StepCommits(s, op);
      PhaseOfActor(s, op);
      HeadOfThread(s, op.t);
      var e := Build(s, op);
      assert !e.ThreadInit? && e.prev == s.cfg.threadHeads[op.t];
      CreatesItsSpawn(s, op);
    } else {
      assert Step(s, op).events == s.events by { BlockAddsNothing(s, op); }
    }
  }

  lemma BlockAddsNothing(s: System, op: Op)
    requires Enabled(s, op) && op.DoBlock?
    ensures Step(s, op).events == s.events
  {
  }

  lemma PhaseOfActor(s: System, op: Op)
    requires Inv(s) && Enabled(s, op)
    ensures !s.cfg.threadHeads[op.t].ThreadExit?
    ensures s.cfg.threadHeads[op.t].Wait1? ==> op.DoWait2?
  {
    hide Before;
    assert ThreadPhase(s, op.t);
  }

  lemma InitialHistory()
    ensures ThreadHistory(Initial().events)
  {
    hide Before;
    var init := ThreadInit(MainTid, ProgramInit);
    NotBeforeItself(ProgramInit);
    NotBeforeItself(init);
  }

  lemma {:induction false} RunHistory(run: seq<System>, ops: seq<Op>, i: nat)
    requires IsRun(run, ops) && i < |run|
    ensures ThreadHistory(run[i].events)
  {
    hide Initial, Step, Enabled, ThreadLinks, Started, Continues;
    if i == 0 {
      InitialHistory();
    } else {
      RunHistory(run, ops, i - 1);
      RunKeepsInv(run, ops, i - 1);
      StepKeepsLinks(run[i - 1], ops[i - 1]);
      StepContinues(run[i - 1], ops[i - 1]);
    }
  }

  lemma ReachableHistory(s: System)
    requires Reachable(s)
    ensures ThreadHistory(s.events)
  {
    hide ThreadHistory;
    var run, ops :| IsRun(run, ops) && run[|ops|] == s;
    RunHistory(run, ops, |ops|);
  }

  // ---------------------------------------------------------------- every proposal is an execution

  /** A cause of the proposed event. */
  ghost predicate Caused(e: Event, p: Option<Event>, y: Event)
    requires Acquiring(e)
  {
    InPast(e, y) || (p.Some? && BeforeEq(y, p.value))
  }

  /** The causes of the proposed event, and the first events of the threads created there. */
  ghost function Support(events: set<Event>, e: Event, p: Option<Event>): set<Event>
    requires Acquiring(e)
  {
    set y | y in events && (Caused(e, p, y) || (y.ThreadInit? && Caused(e, p, y.creation)))
  }

  lemma CausedDown(e: Event, p: Option<Event>, y: Event, q: Event)
    requires Acquiring(e) && Caused(e, p, y) && q in Preds(y)
    ensures Caused(e, p, q)
  {
    hide Before;
    Via(q, q, y);
    if BeforeEq(y, e.prev) {
      BeforeEqTransitive(q, y, e.prev);
    } else if e.Wait2? && BeforeEq(y, e.notifier) {
      BeforeEqTransitive(q, y, e.notifier);
    } else {
      BeforeEqTransitive(q, y, p.value);
    }
  }

  lemma SupportComplete(s: System, e: Event, p: Option<Event>)
    requires Closed(s.events) && Started(s.events) && Acquiring(e) && e.prev in s.events
             && ThreadInit(MainTid, ProgramInit) in s.events
    ensures Complete(Support(s.events, e, p))
    ensures {ProgramInit, ThreadInit(MainTid, ProgramInit)} <= Support(s.events, e, p)
  {
    hide Before, Caused;
    var k := Support(s.events, e, p);
    forall y, q | y in k && q in Preds(y)
      ensures q in k
    {
      if Caused(e, p, y) {
        CausedDown(e, p, y, q);
      }
    }
    assert Caused(e, p, ProgramInit) by { InitCaused(s, e, p); }
  }

  lemma InitCaused(s: System, e: Event, p: Option<Event>)
    requires Closed(s.events) && Acquiring(e) && e.prev in s.events
    ensures Caused(e, p, ProgramInit)
  {
    hide Before;
  }

  lemma MainStarted(s: System)
    requires Reachable(s)
    ensures ThreadInit(MainTid, ProgramInit) in s.events
  {
    hide Enabled, Step;
    var run, ops :| IsRun(run, ops) && run[|ops|] == s;
    MainStays(run, ops, |ops|);
  }

  lemma {:induction false} MainStays(run: seq<System>, ops: seq<Op>, i: nat)
    requires IsRun(run, ops) && i < |run|
    ensures ThreadInit(MainTid, ProgramInit) in run[i].events
  {
    hide Enabled, Step;
    if i > 0 {
      MainStays(run, ops, i - 1);
      StepGrows(run[i - 1], ops[i - 1]);
    }
  }

  lemma StepGrows(s: System, op: Op)
    requires Enabled(s, op)
    ensures s.events <= Step(s, op).events
  {
    hide Build, Commit;
  }

  /** The proposed event's causes come before the actual event. */
  lemma CausedBefore(s: System, e: Event, p: Option<Event>, y: Event)
    requires Acquiring(e) && Searchable(s, e) && Alternative(s.events, e, p) && Caused(e, p, y)
    ensures Before(y, e)
  {
    hide Before, Core, LockLinks, LockAlternation, ThreadChains;
    if BeforeEq(y, e.prev) {
      Via(y, e.prev, e);
    } else if e.Wait2? && BeforeEq(y, e.notifier) {
      Via(y, e.notifier, e);
    } else {
      var er := e.lockPred.value;
      BeforeEqTransitive(y, p.value, er);
      Via(y, er, e);
    }
  }

  lemma SupportOnThread(s: System, e: Event, p: Option<Event>, y: Event)
    requires Acquiring(e) && Searchable(s, e) && Alternative(s.events, e, p) && ThreadLinks(s.events) && ThreadChains(s)
    requires y in Support(s.events, e, p)
    ensures y != e && !Before(e, y)
    ensures TidOf(y) == e.tid ==> BeforeEq(y, e.prev)
  {
    hide Before, Core, LockLinks, LockAlternation, Alternative;
    NotBeforeItself(e);
    if Caused(e, p, y) {
      CausedBefore(s, e, p, y);
      Asymmetric(y, e);
    } else {
      CausedBefore(s, e, p, y.creation);
      Asymmetric(y.creation, e);
      InitFollows(e, y);
      assert TidOf(y) == e.tid ==> Ordered(y, e);
    }
  }

  lemma Asymmetric(x: Event, y: Event)
    requires Before(x, y)
    ensures !Before(y, x) && x != y
  {
    BeforeIsShallower(x, y);
    if Before(y, x) {
      BeforeIsShallower(y, x);
    }
  }

  lemma InitFollows(x: Event, y: Event)
    requires y.ThreadInit?
    ensures Before(x, y) <==> BeforeEq(x, y.creation)
  {
    assert Preds(y) == {y.creation};
  }

  lemma CommittedSearchable(s: System, e: Event)
    requires Inv(s) && e in s.events && Acquiring(e)
    ensures Searchable(s, e)
  {
    hide Before;
    if e.Wait2? {
      Via(e.prev, e.prev, e);
    }
  }

  lemma SupportThreadHead(s: System, e: Event, p: Option<Event>, r: System)
    requires Acquiring(e) && Searchable(s, e) && Alternative(s.events, e, p) && ThreadLinks(s.events)
             && Continues(s.events)
    requires Inv(r) && r.events == Support(s.events, e, p)
    ensures e.tid in r.cfg.threadHeads && r.cfg.threadHeads[e.tid] == e.prev
  {
    hide Before, Inv, Searchable, Alternative, ThreadLinks, Closed;
    KnownCauses(s, e);
    InvChains(r);
    assert e in s.events && TidOf(e.prev) == e.tid by { PrevOnThread(s, e); }
    assert InPast(e, e.prev);
    assert !e.prev.ProgramInit?;
    var h := r.cfg.threadHeads[e.tid];
    SupportOnThread(s, e, p, h);
    Antisymmetric(h, e.prev);
  }

  lemma PrevOnThread(s: System, e: Event)
    requires Acquiring(e) && Searchable(s, e) && Continues(s.events)
    ensures e in s.events && TidOf(e.prev) == e.tid && e.tid != []
  {
    hide Before, LockLinks, LockAlternation;
  }

  lemma SupportLockHead(s: System, e: Event, p: Option<Event>, r: System)
    requires Acquiring(e) && Searchable(s, e) && Alternative(s.events, e, p)
    requires Inv(r) && r.events == Support(s.events, e, p)
    ensures LockHead(r.cfg, e.lid) == p && CanAcquire(r.cfg, e.lid)
  {
    hide Before, Inv, Searchable;
    KnownCauses(s, e);
    InvLockChains(r);
    if e.lid in r.cfg.lockHeads {
      var h := r.cfg.lockHeads[e.lid];
      assert Caused(e, p, h) && OnLock(s.events, e.lid, h);
      Antisymmetric(h, p.value);
    }
  }

  lemma InvLockChains(s: System)
    requires Inv(s)
    ensures LockChains(s)
  {
    hide Before;
  }

  /** The step that performs the acquisition. */
  function AcquireOp(e: Event): Op
    requires Acquiring(e)
  {
    if e.LockAcquire? then DoAcquire(e.tid, e.lid) else DoWait2(e.tid, e.cid, e.lid)
  }

  lemma AcquireExecutes(s: System, e: Event, p: Option<Event>, r: System) returns (r': System)
    requires e.LockAcquire? && Searchable(s, e) && Alternative(s.events, e, p) && ThreadLinks(s.events)
             && Continues(s.events)
    requires Reachable(r) && r.events == Support(s.events, e, p) && NoneBlocked(r)
    ensures Reachable(r') && r'.events == r.events
    ensures Enabled(r', AcquireOp(e)) && Build(r', AcquireOp(e)) == Retaken(e, p)
  {
    hide Before, Inv, Searchable, Alternative, ThreadLinks, Reachable;
    ReachableInv(r);
    SupportThreadHead(s, e, p, r);
    SupportLockHead(s, e, p, r);
    KnownCauses(s, e);
    assert e in s.events && !e.prev.Wait1? && !e.prev.ThreadExit? by { PrevOnThread(s, e); }
    RunnableAt(r, e.tid);
    ReachableStep(r, DoBlock(e.tid, e.lid));
    r' := Step(r, DoBlock(e.tid, e.lid));
  }

  lemma RunnableAt(r: System, t: Tid)
    requires Inv(r) && NoneBlocked(r) && t in r.cfg.threadHeads && !r.cfg.threadHeads[t].Wait1?
             && !r.cfg.threadHeads[t].ThreadExit?
    ensures t in r.threads && r.threads[t].phase.Runnable?
  {
    hide Before;
    assert ThreadPhase(r, t);
  }

  lemma Wait2Executes(s: System, e: Event, p: Option<Event>, r: System)
    requires e.Wait2? && Inv(s) && e in s.events && Alternative(s.events, e, p) && ThreadLinks(s.events)
             && Continues(s.events)
    requires Inv(r) && r.events == Support(s.events, e, p)
    ensures Enabled(r, AcquireOp(e)) && Build(r, AcquireOp(e)) == Retaken(e, p)
  {
    hide Before, Inv, Searchable, Alternative, ThreadLinks, Continues;
    CommittedSearchable(s, e);
    SupportThreadHead(s, e, p, r);
    SupportLockHead(s, e, p, r);
    KnownCauses(s, e);
    assert e.notifier in r.events;
    WakeupOf(s, e);
    NotifiedAt(r, e.tid, e.notifier);
  }

  lemma WakeupOf(s: System, e: Event)
    requires Inv(s) && e in s.events && e.Wait2?
    ensures e.prev.Wait1? && e.prev.cid == e.cid && e.prev.lid == e.lid && Notifies(e.notifier, e.prev)
  {
    hide Before;
  }

  /** A thread whose wait1 has been notified can go on as soon as its lock is free. */
  lemma NotifiedAt(r: System, t: Tid, n: Event)
    requires Inv(r) && t in r.cfg.threadHeads && n in r.events && Notifies(n, r.cfg.threadHeads[t])
    requires CanAcquire(r.cfg, r.cfg.threadHeads[t].lid)
    ensures var w := r.cfg.threadHeads[t];
            && Enabled(r, DoWait2(t, w.cid, w.lid))
            && Build(r, DoWait2(t, w.cid, w.lid)) == Wait2(t, w.cid, w.lid, w, LockHead(r.cfg, w.lid), n)
  {
    hide Before, Inv, Core, CondCore, CondHeadsExact, ThreadEvents, Owed;
    InvCores(r);
    var w := r.cfg.threadHeads[t];
    assert ThreadPhase(r, t);
    Wait2Builds(r, t, w.cid, w.lid);
    var m := Notifier(HeadsOf(r.cfg.condHeads, w.cid), w).value;
    HeadsCommitted(r, w.cid, m);
  }

  /** Every proposal is an execution: there is a run, inside the configuration and without `e` and
      what follows it, that ends with the proposed event. */
  lemma ProposalExecutes(s: System, e: Event, p: Option<Event>) returns (r: System)
    requires Reachable(s) && e in s.events && Acquiring(e) && Alternative(s.events, e, p)
    ensures Reachable(r) && r.events == Support(s.events, e, p)
    ensures forall y :: y in r.events ==> y in s.events && y != e && !Before(e, y)
    ensures Enabled(r, AcquireOp(e)) && Build(r, AcquireOp(e)) == Retaken(e, p)
    ensures Retaken(e, p) != e
  {
    hide Before, Inv, Searchable, Reachable, Complete, ThreadLinks, Started, Continues, Enabled, Build, Support, Closed,
         ThreadChains;
    ReachableInv(s);
    ReachableHistory(s);
    CommittedSearchable(s, e);
    KnownCauses(s, e);
    MainStarted(s);
    SupportComplete(s, e, p);
    SupportCommitted(s, e, p);
    r := PartReachable(s, Support(s.events, e, p));
    forall y | y in r.events
      ensures y != e && !Before(e, y)
    {
      SupportOnThread(s, e, p, y);
    }
    if p.Some? {
      NotBeforeItself(p.value);
    }
    if e.LockAcquire? {
      r := AcquireExecutes(s, e, p, r);
    } else {
      ReachableInv(r);
      Wait2Executes(s, e, p, r);
    }
  }

  lemma SupportCommitted(s: System, e: Event, p: Option<Event>)
    requires Acquiring(e)
    ensures Support(s.events, e, p) <= s.events
  {
  }

  // ---------------------------------------------------------------- no execution is missed

  /** Whenever, inside the configuration, the acquisition can happen right after the same thread
      predecessor (and the same notifier), it is `e` or it is proposed; the one exception is a
      wait2 right after a wait1 in its own past. */
  lemma ExecutionsProposed(s: System, e: Event, r: System)
    requires Reachable(s) && e in s.events && Acquiring(e)
    requires Reachable(r) && r.events <= s.events && Enabled(r, AcquireOp(e)) && r.cfg.threadHeads[e.tid] == e.prev
    ensures var p := LockHead(r.cfg, e.lid);
            && Build(r, AcquireOp(e)) == Retaken(e, p)
            && (p == e.lockPred || Alternative(s.events, e, p)
                || (e.Wait2? && p.Some? && p.value.Wait1? && InPast(e, p.value)))
            && !(Alternative(s.events, e, p) && e.Wait2? && p.Some? && p.value.Wait1? && InPast(e, p.value))
  {
    hide Before, Inv, Searchable, Reachable, ThreadLinks, Started, Continues, Build;
    ReachableInv(s);
    ReachableInv(r);
    CommittedSearchable(s, e);
    SameEventKind(s, e, r);
    PastExecuted(s, e, r);
    HeadIsBelow(s, e, r);
    var p := LockHead(r.cfg, e.lid);
    if p.Some? && InPast(e, p.value) {
      WaitIsInPast(s, e, p);
    }
  }

  lemma SameEventKind(s: System, e: Event, r: System)
    requires Inv(s) && e in s.events && Acquiring(e)
    requires Inv(r) && r.events <= s.events && Enabled(r, AcquireOp(e)) && r.cfg.threadHeads[e.tid] == e.prev
    ensures Build(r, AcquireOp(e)) == Retaken(e, LockHead(r.cfg, e.lid))
    ensures e.prev in r.events && (e.Wait2? ==> e.notifier in r.events)
  {
    hide Before, Inv, Owed;
    HeadOfThread(r, e.tid);
    if e.Wait2? {
      WakeupOf(s, e);
      Wait2Builds(r, e.tid, e.cid, e.lid);
      InvCores(r);
      InvCores(s);
      var n := Notifier(HeadsOf(r.cfg.condHeads, e.cid), e.prev).value;
      HeadsCommitted(r, e.cid, n);
      assert e.notifier in s.events by { CommittedSearchable(s, e); KnownCauses(s, e); }
    }
  }

  /** The whole past of `e` has happened in `r`, and `e` has not. */
  lemma PastExecuted(s: System, e: Event, r: System)
    requires Inv(s) && e in s.events && Acquiring(e)
    requires Inv(r) && r.events <= s.events && e.tid in r.cfg.threadHeads && r.cfg.threadHeads[e.tid] == e.prev
    requires e.prev in r.events && (e.Wait2? ==> e.notifier in r.events)
    ensures forall y :: InPast(e, y) ==> y in r.events
    ensures forall y :: y in r.events ==> y != e && !Before(e, y)
  {
    hide Before, Inv;
    InvChains(r);
    forall y | InPast(e, y)
      ensures y in r.events
    {
      if y != e.prev && Before(y, e.prev) {
        CausesCommitted(r.events, y, e.prev);
      } else if e.Wait2? && y != e.notifier && Before(y, e.notifier) {
        CausesCommitted(r.events, y, e.notifier);
      }
    }
    Via(e.prev, e.prev, e);
    Asymmetric(e.prev, e);
    assert e !in r.events;
    forall y | y in r.events
      ensures !Before(e, y)
    {
      if Before(e, y) {
        CausesCommitted(r.events, e, y);
      }
    }
  }

  lemma HeadIsBelow(s: System, e: Event, r: System)
    requires Inv(s) && e in s.events && Acquiring(e) && Searchable(s, e)
    requires Inv(r) && r.events <= s.events && CanAcquire(r.cfg, e.lid)
    requires forall y :: InPast(e, y) ==> y in r.events
    requires forall y :: y in r.events ==> y != e && !Before(e, y)
    ensures var p := LockHead(r.cfg, e.lid);
            && (p.Some? ==>
                  && OnLock(s.events, e.lid, p.value) && Releasing(p.value)
                  && e.lockPred.Some? && BeforeEq(p.value, e.lockPred.value))
            && (p.None? ==> forall y :: OnLock(s.events, e.lid, y) ==> !InPast(e, y))
            && (p.Some? ==> forall y :: OnLock(s.events, e.lid, y) && InPast(e, y) ==> BeforeEq(y, p.value))
  {
    hide Before, Inv, Searchable;
    KnownCauses(s, e);
    InvLockChains(r);
    var p := LockHead(r.cfg, e.lid);
    if p.Some? {
      LockEventsOrdered(s, p.value, e);
      LinkedBelow(s, e, p.value);
    }
  }

  lemma LockEventsOrdered(s: System, a: Event, b: Event)
    requires Inv(s) && a in s.events && b in s.events && LidOf(a) == LidOf(b) != 0
    ensures Ordered(a, b)
  {
    hide Before;
    if TidOf(a) != TidOf(b) {
      DependenceCases(a, b);
    }
  }

  lemma LinkedBelow(s: System, e: Event, y: Event)
    requires Acquiring(e) && Searchable(s, e) && OnLock(s.events, e.lid, y) && Before(y, e)
    ensures e.lockPred.Some? && BeforeEq(y, e.lockPred.value)
  {
    hide Before;
  }

  /** The exception happens: a wait2 that could be taken at once, while its own wait1 is the last
      event on the lock, is not proposed after another thread has used the lock in between. */
  lemma InterruptedWait2(r: System, t: Tid, u: Tid, c: Id, l: Id) returns (s: System, e: Event)
    requires Reachable(r) && Enabled(r, DoWait2(t, c, l)) && u != t && Ready(r, u)
    requires l > 0 && l in r.cfg.lockHeads && r.cfg.lockHeads[l] == r.cfg.threadHeads[t]
    ensures Reachable(s) && r.events <= s.events && e in s.events && e.Wait2? && AcquireOp(e) == DoWait2(t, c, l)
    ensures e.prev == r.cfg.threadHeads[t] && Build(r, DoWait2(t, c, l)) != e
    ensures !Alternative(s.events, e, LockHead(r.cfg, l))
  {
    hide Before, Depth, Causes, Alternative, Reachable, Inv;
    ReachableInv(r);
    var s1 := Interrupt(r, t, u, c, l);
    e := Build(s1, DoWait2(t, c, l));
    s := Start(s1, DoWait2(t, c, l));
    PhaseOfWaiter(r, t, c, l);
    ExecutionsProposed(s, e, r);
  }

  lemma PhaseOfWaiter(r: System, t: Tid, c: Id, l: Id)
    requires Inv(r) && Enabled(r, DoWait2(t, c, l))
    ensures r.cfg.threadHeads[t].Wait1?
  {
    hide Before;
    assert ThreadPhase(r, t);
  }

  lemma Interrupt(r: System, t: Tid, u: Tid, c: Id, l: Id) returns (s: System)
    requires Reachable(r) && Enabled(r, DoWait2(t, c, l)) && u != t && Ready(r, u) && l > 0
    ensures Reachable(s) && r.events <= s.events && Enabled(s, DoWait2(t, c, l))
    ensures s.cfg.threadHeads[t] == r.cfg.threadHeads[t] && l in s.cfg.lockHeads && s.cfg.lockHeads[l].LockRelease?
  {
    hide Before, Depth, Causes, Reachable;
    s := Start(r, DoBlock(u, l));
    s := Start(s, DoAcquire(u, l));
    s := Start(s, DoRelease(u, l));
  }

  lemma InterruptedWait2Happens() returns (r: System)
    ensures Reachable(r) && Ready(r, [1]) && Enabled(r, DoWait2([1, 1], 1, 1))
    ensures 1 in r.cfg.lockHeads && r.cfg.lockHeads[1] == r.cfg.threadHeads[[1, 1]]
  {
    hide Initial, Step, Reachable, HoldsLock;
    InitialReachable();
    var a;
    r, a := Spawn(Initial(), [1]);
    assert a == [1, 1];
    r := Lock(r, a, 1);
    r := SleepAndSignal(r, a, [1], 1, 1);
  }

  lemma SleepAndSignal(s: System, t: Tid, u: Tid, c: Id, l: Id) returns (r: System)
    requires Reachable(s) && Ready(s, t) && Ready(s, u) && t != u && c > 0 && HoldsLock(s.cfg, t, l) && l > 0
    ensures Reachable(r) && Ready(r, u) && Enabled(r, DoWait2(t, c, l))
    ensures l in r.cfg.lockHeads && r.cfg.lockHeads[l] == r.cfg.threadHeads[t]
  {
    hide Before, Depth, Causes, Reachable, Wait1Preds;
    r := Start(s, DoWait1(t, c, l));
    r := Start(r, DoSignal(u, c, Some(t)));
  }
}
