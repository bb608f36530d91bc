/** What every step of every run keeps, and its consequences: mutual exclusion, the exact content
    of the cached heads, and that dependent events are causally ordered. */
module PorInvariant {
  import opened Lists
  import opened Options
  import opened PorEvents
  import opened PorConfig
  import opened PorProtocol

  // ---------------------------------------------------------------- the invariant, clause by clause

  ghost predicate Ordered(a: Event, b: Event) {
    a == b || Before(a, b) || Before(b, a)
  }

  ghost predicate Closed(events: set<Event>) {
    && ProgramInit in events
    && (forall e, p :: e in events && p in Preds(e) ==> p in events)
    && (forall e :: e in events && !e.ProgramInit? ==> Before(ProgramInit, e))
  }

  /** Thread heads are the maximal events of their threads, and a thread's events form a chain. */
  ghost predicate ThreadChains(s: System) {
    && (forall t :: t in s.cfg.threadHeads ==>
          s.cfg.threadHeads[t] in s.events && TidOf(s.cfg.threadHeads[t]) == t && t != [])
    && (forall e :: e in s.events && !e.ProgramInit? ==>
          TidOf(e) in s.cfg.threadHeads && BeforeEq(e, s.cfg.threadHeads[TidOf(e)]))
    && (forall a, b {:trigger Ordered(a, b)} ::
          a in s.events && b in s.events && TidOf(a) == TidOf(b) ==> Ordered(a, b))
  }

  /** Lock heads are the maximal events of their locks. */
  ghost predicate LockChains(s: System) {
    && (forall l :: l in s.cfg.lockHeads ==>
          l != 0 && s.cfg.lockHeads[l] in s.events && LidOf(s.cfg.lockHeads[l]) == l)
    && (forall e :: e in s.events && LidOf(e) != 0 ==>
          LidOf(e) in s.cfg.lockHeads && BeforeEq(e, s.cfg.lockHeads[LidOf(e)]))
    && s.cfg.usedLocks <= s.cfg.lockHeads.Keys
  }

  /** Acquisitions follow releases or creations, releases follow their own thread's acquisition. */
  ghost predicate LockAlternation(events: set<Event>) {
    forall e :: e in events && LidOf(e) != 0 && !e.LockCreate? ==>
      if Acquiring(e) then
        e.lockPred.Some? ==> Releasing(e.lockPred.value) && LidOf(e.lockPred.value) == LidOf(e)
      else
        && e.lockPred.Some? && Acquiring(e.lockPred.value)
        && LidOf(e.lockPred.value) == LidOf(e) && TidOf(e.lockPred.value) == TidOf(e)
  }

  /** Whatever happened on a lock before an event is at or below its lock predecessor. */
  ghost predicate LockLinks(events: set<Event>) {
    forall x, y {:trigger Before(y, x)} :: x in events && y in events && LidOf(x) == LidOf(y) != 0 && Before(y, x) ==>
      && !x.LockCreate? && x.lockPred.Some? && x.lockPred.value in events && LidOf(x.lockPred.value) == LidOf(x)
      && BeforeEq(y, x.lockPred.value)
  }

  ghost predicate Notified(events: set<Event>, w: Event) {
    exists n :: n in events && Notifies(n, w)
  }

  /** The events a condition variable's heads hold: its creation, every signal and broadcast, and
      the wait1s nobody has notified. */
  ghost predicate IsHead(events: set<Event>, e: Event) {
    && e in events
    && (e.CondCreate? || Notification(e) || (e.Wait1? && !Notified(events, e)))
  }

  ghost predicate HeadsExact(events: set<Event>, heads: seq<Event>, c: Id) {
    && NoRepeats(heads)
    && (forall e :: e in heads <==> IsHead(events, e) && CidOf(e) == c)
  }

  ghost predicate CondHeadsExact(s: System) {
    && (forall c :: HeadsExact(s.events, HeadsOf(s.cfg.condHeads, c), c))
    && (forall c :: c in s.cfg.condHeads ==> c != 0 && s.cfg.condHeads[c] != [])
    && s.cfg.usedConds <= s.cfg.condHeads.Keys
  }

  ghost predicate ThreadPhase(s: System, t: Tid)
    requires t in s.threads && t in s.cfg.threadHeads
  {
    var head := s.cfg.threadHeads[t];
    match s.threads[t].phase
    case Runnable => !head.Wait1? && !head.ThreadExit?
    case WaitLock(l) => l != 0 && !head.Wait1? && !head.ThreadExit?
    case WaitCv1(c, l) => head.Wait1? && head.cid == c && head.lid == l && !Notified(s.events, head)
    case WaitCv2(c, l) => head.Wait1? && head.cid == c && head.lid == l && Notified(s.events, head)
    case Exited => head.ThreadExit?
  }

  ghost predicate Phases(s: System) {
    && s.threads.Keys == s.cfg.threadHeads.Keys
    && (forall t :: t in s.threads ==> ThreadPhase(s, t))
  }

  /** Shape of notifications: nobody notifies itself, across condition variables, or twice. */
  ghost predicate Notifications(events: set<Event>) {
    && (forall n, w :: n in events && Notifies(n, w) ==> w in events && CidOf(w) == CidOf(n) && TidOf(w) != TidOf(n))
    && (forall n, m, w :: n in events && m in events && Notifies(n, w) && Notifies(m, w) ==> n == m)
    && (forall n, v, w :: n in events && n.Signal? && Notifies(n, v) && Notifies(n, w) ==> v == w)
  }

  /** A wait1 that its thread has left behind was notified, below the thread's head. */
  ghost predicate PastWaits(s: System) {
    && (forall w :: w in s.events && w.Wait1? ==>
          w.tid in s.cfg.threadHeads && (s.cfg.threadHeads[w.tid] == w || Notified(s.events, w)))
    && (forall n, w :: n in s.events && Notifies(n, w) ==>
          TidOf(w) in s.cfg.threadHeads && (s.cfg.threadHeads[TidOf(w)] == w || Before(n, s.cfg.threadHeads[TidOf(w)])))
  }

  predicate Marker(x: Event) {
    x.CondCreate? || x.Broadcast? || (x.Signal? && IsLost(x))
  }

  /** An outstanding wait1 follows every creation, broadcast and lost signal on its condition
      variable; the creation comes before everything. */
  ghost predicate Outstanding(events: set<Event>) {
    && (forall w, x {:trigger Before(x, w)} ::
          w in events && x in events && w.Wait1? && !Notified(events, w) && Marker(x) && CidOf(x) == CidOf(w) ==>
            Before(x, w))
    && (forall x, y {:trigger Before(x, y)} ::
        x in events && y in events && x.CondCreate? && CidOf(y) == CidOf(x) && x != y ==> Before(x, y))
  }

  ghost predicate ThreadEvents(s: System) {
    && (forall x :: x in s.events && x.ThreadCreate? ==>
          && x.tid in s.threads
          && exists k: nat :: x.newTid == x.tid + [k] && k <= s.threads[x.tid].spawned)
    && (forall x, y :: x in s.events && y in s.events && x.ThreadCreate? && y.ThreadCreate? && x.newTid == y.newTid ==>
        x == y)
    && (forall t, k: nat :: t in s.threads && t + [k] in s.threads ==> k <= s.threads[t].spawned)
    && (forall t, k: nat :: t != [] && t + [k] in s.threads ==> t in s.threads)
    && (forall x :: x in s.events && x.ThreadJoin? ==>
          && x.exited.ThreadExit? && x.exited.tid in s.cfg.threadHeads
          && s.cfg.threadHeads[x.exited.tid] == x.exited)
  }

  predicate HasIds(e: Event) {
    && ((e.LockCreate? || e.LockAcquire? || e.LockRelease? || e.Wait1? || e.Wait2?) ==> LidOf(e) != 0)
    && ((e.CondCreate? || e.Wait1? || e.Wait2? || Notification(e)) ==> CidOf(e) != 0)
  }

  ghost predicate IdsPositive(events: set<Event>) {
    forall e :: e in events ==> HasIds(e)
  }

  /** A wait2 continues a wait1 of its thread on the same condition variable and lock, woken by
      its notifier. */
  ghost predicate Wakeups(events: set<Event>) {
    forall e :: e in events && e.Wait2? ==>
      && e.prev.Wait1? && e.prev.tid == e.tid && e.prev.cid == e.cid && e.prev.lid == e.lid
      && Notifies(e.notifier, e.prev)
  }

  /** Dependent events are ordered, apart from the pairs the relation over-approximates. */
  ghost predicate DependentOrdered(events: set<Event>) {
    forall a, b {:trigger Ordered(a, b)} ::
      a in events && b in events && !Independent(a, b) && !Overapproximated(a, b) ==> Ordered(a, b)
  }

  ghost predicate Inv(s: System) {
    && Closed(s.events)
    && ThreadChains(s)
    && LockChains(s)
    && LockAlternation(s.events)
    && LockLinks(s.events)
    && CondHeadsExact(s)
    && Phases(s)
    && Notifications(s.events)
    && PastWaits(s)
    && Outstanding(s.events)
    && ThreadEvents(s)
    && IdsPositive(s.events)
    && Wakeups(s.events)
    && DependentOrdered(s.events)
    && s.cfg.size == |s.events|
  }

  // ---------------------------------------------------------------- facts about causality in a run

  lemma Via(x: Event, p: Event, e: Event)
    requires p in Preds(e) && BeforeEq(x, p)
    ensures Before(x, e)
  {
  }

  lemma {:induction false} CausesCommitted(s: set<Event>, x: Event, e: Event)
    requires Closed(s) && e in s && Before(x, e)
    ensures x in s
    decreases e
  {
    var p :| p in Preds(e) && (x == p || Before(x, p));
    if x != p {
      CausesCommitted(s, x, p);
    }
  }

  lemma BeforeIsLessThan(a: Event, b: Event)
    requires Before(a, b)
    ensures IsLessThan(a, b)
  {
    CausesIsBefore(a, b);
    BeforeIsShallower(a, b);
  }

  /** Within one thread, the shallower event comes first. */
  lemma ShallowerIsBeforeEq(s: System, a: Event, c: Event)
    requires ThreadChains(s) && a in s.events && c in s.events
    requires TidOf(a) == TidOf(c) && Depth(a) <= Depth(c)
    ensures BeforeEq(a, c)
  {
    assert Ordered(a, c);
    if Before(c, a) {
      BeforeIsShallower(c, a);
    }
  }

  lemma LessThanViaCone(s: System, a: Event, b: Event, c: Event)
    requires Closed(s.events) && ThreadChains(s)
    requires a in s.events && b in s.events && c in Causes(b)
    requires TidOf(a) == TidOf(c) && Depth(a) <= Depth(c)
    ensures Before(a, b)
  {
    CausesIsBefore(c, b);
    CausesCommitted(s.events, c, b);
    ShallowerIsBeforeEq(s, a, c);
    BeforeEqTransitive(a, c, b);
  }

  /** Comparing depths along a thread decides causality between two events of a run. */
  lemma LessThanIsBefore(s: System, a: Event, b: Event)
    requires Closed(s.events) && ThreadChains(s)
    requires a in s.events && b in s.events
    ensures IsLessThan(a, b) <==> Before(a, b)
  {
    if Before(a, b) {
      BeforeIsLessThan(a, b);
    } else if IsLessThan(a, b) {
      if TidOf(a) == TidOf(b) {
        ShallowerIsBeforeEq(s, a, b);
      } else if !a.ProgramInit? {
        var c :| c in Causes(b) && TidOf(c) == TidOf(a) && Depth(a) <= Depth(c);
        LessThanViaCone(s, a, b, c);
      }
    }
  }

  /** An event built on top of its thread's head is new. */
  predicate Extends(s: System, e: Event) {
    && !e.ProgramInit?
    && Preds(e) <= s.events
    && e.tid != []
    && if e.ThreadInit? then e.tid !in s.cfg.threadHeads
       else e.tid in s.cfg.threadHeads && e.prev == s.cfg.threadHeads[e.tid]
  }

  lemma ExtensionIsNew(s: System, e: Event)
    requires ThreadChains(s) && Extends(s, e)
    ensures e !in s.events
  {
    if e in s.events && !e.ThreadInit? {
      assert BeforeEq(e, e.prev);
      BeforeIsShallower(e.prev, e);
      if Before(e, e.prev) {
        BeforeIsShallower(e, e.prev);
      }
    }
  }

  lemma ExtensionIsMaximal(s: System, e: Event, x: Event)
    requires Closed(s.events) && ThreadChains(s) && Extends(s, e) && x in s.events
    ensures !Before(e, x)
  {
    if Before(e, x) {
      CausesCommitted(s.events, e, x);
      ExtensionIsNew(s, e);
    }
  }

  /** Everything on the thread of an extension is below it. */
  lemma SameThreadBelow(s: System, e: Event, x: Event)
    requires ThreadChains(s) && Extends(s, e)
    requires x in s.events && TidOf(x) == e.tid
    ensures Before(x, e)
  {
    assert !x.ProgramInit?;
    if !e.ThreadInit? {
      Via(x, e.prev, e);
    }
  }

  lemma AddClosed(s: System, e: Event)
    requires Closed(s.events) && Extends(s, e)
    ensures Closed(s.events + {e})
  {
    var p := Prev(e);
    Via(ProgramInit, p, e);
  }

  lemma AddThreadChains(s: System, e: Event, threads: map<Tid, Thread>)
    requires Closed(s.events) && ThreadChains(s) && Extends(s, e)
    ensures ThreadChains(Add(s, e, threads))
  {
    hide Before;
    var s' := Add(s, e, threads);
    forall x | x in s.events && TidOf(x) == e.tid
      ensures Before(x, e)
    {
      SameThreadBelow(s, e, x);
    }
    forall a, b | a in s'.events && b in s'.events && TidOf(a) == TidOf(b)
      ensures Ordered(a, b)
    {
    }
  }

  predicate LockLinked(s: System, e: Event) {
    LidOf(e) != 0 ==>
      if e.LockCreate? then e.lid !in s.cfg.lockHeads
      else e.lockPred == LockHead(s.cfg, LidOf(e)) && (!e.LockAcquire? ==> e.lockPred.Some?)
  }

  lemma SameLockBelow(s: System, e: Event, x: Event)
    requires LockChains(s) && LockLinked(s, e)
    requires x in s.events && LidOf(x) == LidOf(e) != 0
    ensures Before(x, e)
  {
    Via(x, s.cfg.lockHeads[LidOf(e)], e);
  }

  lemma AddLockChains(s: System, e: Event, threads: map<Tid, Thread>)
    requires LockChains(s) && LockLinked(s, e) && HasIds(e)
    ensures LockChains(Add(s, e, threads))
  {
    forall x | x in s.events && LidOf(x) == LidOf(e) != 0
      ensures Before(x, e)
    {
      SameLockBelow(s, e, x);
    }
  }

  lemma AddLockLinks(s: System, e: Event)
    requires Closed(s.events) && ThreadChains(s) && LockChains(s) && LockLinks(s.events)
    requires Extends(s, e) && LockLinked(s, e)
    ensures LockLinks(s.events + {e})
  {
    hide Before;
    forall x | x in s.events
      ensures !Before(e, x)
    {
      ExtensionIsMaximal(s, e, x);
    }
    NotBeforeItself(e);
  }

  lemma NotBeforeItself(e: Event)
    ensures !Before(e, e)
  {
    if Before(e, e) {
      BeforeIsShallower(e, e);
    }
  }

  // ---------------------------------------------------------------- the heads of a condition variable

  /** What the builders guarantee about the wait1s a new notification wakes up. */
  ghost predicate WakesOutstanding(events: set<Event>, e: Event) {
    Notification(e) ==>
      && (forall w :: Notifies(e, w) ==>
            w in events && !Notified(events, w) && CidOf(w) == CidOf(e) && TidOf(w) != TidOf(e))
      && (e.Signal? ==> forall v, w :: Notifies(e, v) && Notifies(e, w) ==> v == w)
  }

  lemma {:induction false} RemoveAllExact(s: seq<Event>, xs: set<Event>)
    requires NoRepeats(s)
    ensures NoRepeats(RemoveAll(s, xs))
    ensures forall x :: x in RemoveAll(s, xs) <==> x in s && x !in xs
  {
    if s != [] {
      var r := RemoveAll(s[1..], xs);
      assert NoRepeats(s[1..]);
      RemoveAllExact(s[1..], xs);
      assert s == [s[0]] + s[1..];
      if s[0] !in xs {
        assert s[0] !in s[1..];
      }
    }
  }

  lemma {:induction false} ReplaceFirstExact(s: seq<Event>, w: Event, xs: set<Event>, y: Event)
    requires NoRepeats(s) && w in s && y !in s
    requires w in xs && forall x :: x in xs ==> x == w
    ensures NoRepeats(ReplaceFirst(s, xs, y))
    ensures forall x :: x in ReplaceFirst(s, xs, y) <==> (x in s && x != w) || x == y
  {
    assert s == [s[0]] + s[1..];
    assert NoRepeats(s[1..]);
    assert s[0] !in s[1..];
    if s[0] != w {
      ReplaceFirstExact(s[1..], w, xs, y);
    }
  }

  lemma AppendExact(s: seq<Event>, y: Event)
    requires NoRepeats(s) && y !in s
    ensures NoRepeats(s + [y])
    ensures forall x :: x in s + [y] <==> x in s || x == y
  {
  }

  lemma NotifiedAfter(events: set<Event>, e: Event, w: Event)
    ensures Notified(events + {e}, w) <==> Notified(events, w) || Notifies(e, w)
  {
    if Notified(events, w) {
      var n :| n in events && Notifies(n, w);
      assert n in events + {e};
    }
    if Notifies(e, w) {
      assert e in events + {e};
    }
  }

  lemma IsHeadAfter(events: set<Event>, e: Event, x: Event)
    requires e !in events && Notifications(events)
    ensures IsHead(events + {e}, x) <==>
            (IsHead(events, x) && !Notifies(e, x)) || (x == e && (e.CondCreate? || Notification(e) || e.Wait1?))
  {
    NotifiedAfter(events, e, x);
  }

  lemma AddOwnHeads(events: set<Event>, heads: seq<Event>, e: Event)
    requires Notifications(events) && e !in events && WakesOutstanding(events, e)
    requires HeadsExact(events, heads, CidOf(e)) && ChangesHeads(e)
    requires e.CondCreate? ==> heads == []
    ensures HeadsExact(events + {e}, UpdateHeads(heads, e), CidOf(e))
    ensures UpdateHeads(heads, e) != []
  {
    forall x
      ensures IsHead(events + {e}, x) <==> (IsHead(events, x) && !Notifies(e, x)) || x == e
    {
      IsHeadAfter(events, e, x);
    }
    var c := CidOf(e);
    assert e !in heads;
    if Notification(e) {
      forall x
        ensures x in Waits(e) <==> Notifies(e, x)
      {
      }
    }
    match e
    case CondCreate(_, _, _) =>
    case Wait1(_, _, _, _, _, _) =>
      AppendExact(heads, e);
    case Signal(_, _, _, _) =>
      if IsLost(e) {
        AppendExact(heads, e);
      } else {
        var w :| w in Waits(e);
        assert IsHead(events, w);
        ReplaceFirstExact(heads, w, Waits(e), e);
      }
    case Broadcast(_, _, _, _) =>
      RemoveAllExact(heads, Waits(e));
      AppendExact(RemoveAll(heads, Waits(e)), e);
  }

  lemma AddOtherHeads(events: set<Event>, heads: seq<Event>, c: Id, e: Event)
    requires Notifications(events) && e !in events && WakesOutstanding(events, e)
    requires HeadsExact(events, heads, c)
    requires c != CidOf(e) || !ChangesHeads(e)
    ensures HeadsExact(events + {e}, heads, c)
  {
    forall x
      ensures IsHead(events + {e}, x) && CidOf(x) == c <==> IsHead(events, x) && CidOf(x) == c
    {
      IsHeadAfter(events, e, x);
    }
  }

  lemma AddCondHeads(s: System, e: Event, threads: map<Tid, Thread>)
    requires CondHeadsExact(s) && Notifications(s.events) && HasIds(e)
    requires e !in s.events && WakesOutstanding(s.events, e)
    requires e.CondCreate? ==> e.cid !in s.cfg.condHeads
    ensures CondHeadsExact(Add(s, e, threads))
  {
    var s' := Add(s, e, threads);
    if ChangesHeads(e) {
      AddOwnHeads(s.events, HeadsOf(s.cfg.condHeads, CidOf(e)), e);
    }
    forall c
      ensures HeadsExact(s'.events, HeadsOf(s'.cfg.condHeads, c), c)
    {
      if ChangesHeads(e) && c == CidOf(e) {
      } else {
        AddOtherHeads(s.events, HeadsOf(s.cfg.condHeads, c), c, e);
      }
    }
  }

  // ---------------------------------------------------------------- the other clauses, for one new event

  lemma AddNotifications(events: set<Event>, e: Event)
    requires Notifications(events) && e !in events && WakesOutstanding(events, e)
    ensures Notifications(events + {e})
  {
    forall n, m, w | n in events + {e} && m in events + {e} && Notifies(n, w) && Notifies(m, w)
      ensures n == m
    {
      if n in events && m == e {
        assert Notified(events, w);
      } else if m in events && n == e {
        assert Notified(events, w);
      }
    }
  }

  /** An event that leaves a wait1 behind is the wait2 that its notifier woke up. */
  ghost predicate LeavesWait(events: set<Event>, e: Event) {
    !e.ProgramInit? && !e.ThreadInit? && e.prev.Wait1? ==>
      e.Wait2? && Notifies(e.notifier, e.prev) && e.notifier in events
  }

  lemma AddPastWaits(s: System, e: Event, threads: map<Tid, Thread>)
    requires Closed(s.events) && ThreadChains(s) && Notifications(s.events) && PastWaits(s)
    requires Extends(s, e) && WakesOutstanding(s.events, e) && LeavesWait(s.events, e)
    ensures PastWaits(Add(s, e, threads))
  {
    var s' := Add(s, e, threads);
    forall w | w in s'.events && w.Wait1?
      ensures w.tid in s'.cfg.threadHeads && (s'.cfg.threadHeads[w.tid] == w || Notified(s'.events, w))
    {
      NotifiedAfter(s.events, e, w);
    }
    forall n, w | n in s'.events && Notifies(n, w)
      ensures TidOf(w) in s'.cfg.threadHeads
              && (s'.cfg.threadHeads[TidOf(w)] == w || Before(n, s'.cfg.threadHeads[TidOf(w)]))
    {
      if n == e {
        assert !Notified(s.events, w);
      } else if TidOf(w) == e.tid {
        var head := s.cfg.threadHeads[e.tid];
        if head == w {
          assert n == e.notifier;
        } else {
          Via(n, head, e);
        }
      }
    }
  }

  /** A creation, broadcast or lost signal leaves no wait1 outstanding; a wait1 follows them all. */
  ghost predicate RespectsMarkers(events: set<Event>, e: Event) {
    && (Marker(e) ==> forall w :: w in events && w.Wait1? && !Notified(events, w) && CidOf(w) == CidOf(e) ==>
        Notifies(e, w))
    && (e.Wait1? ==> forall x :: x in events && Marker(x) && CidOf(x) == CidOf(e) ==> Before(x, e))
    && (CidOf(e) != 0 ==> forall x :: x in events && x.CondCreate? && CidOf(x) == CidOf(e) ==> Before(x, e))
    && (e.CondCreate? ==> forall x :: x in events ==> CidOf(x) != CidOf(e))
  }

  lemma AddOutstanding(events: set<Event>, e: Event)
    requires Outstanding(events) && IdsPositive(events) && e !in events && RespectsMarkers(events, e)
    ensures Outstanding(events + {e})
  {
    forall w, x | w in events + {e} && x in events + {e} && w.Wait1? && !Notified(events + {e}, w) && Marker(x)
           && CidOf(x) == CidOf(w)
      ensures Before(x, w)
    {
      NotifiedAfter(events, e, w);
    }
  }

  // ---------------------------------------------------------------- dependence, case by case

  predicate CondDependent(x: Event, e: Event) {
    && CidOf(x) == CidOf(e) != 0
    && (|| x.CondCreate? || e.CondCreate?
       || (x.Wait1? && Notification(e) && (IsLost(e) || e.Broadcast? || NotifiesThread(e, x.tid)))
       || (e.Wait1? && Notification(x) && (IsLost(x) || x.Broadcast? || NotifiesThread(x, e.tid)))
       || (x.Wait2? && Notification(e) && NotifiesThread(e, x.tid))
       || (e.Wait2? && Notification(x) && NotifiesThread(x, e.tid))
       || (Notification(x) && Notification(e) && !(IsLost(x) && IsLost(e))))
  }

  predicate ThreadDependent(x: Event, e: Event) {
    || (x.ThreadCreate? && e.ThreadInit? && x.newTid == e.tid)
    || (x.ThreadInit? && e.ThreadCreate? && x.tid == e.newTid)
    || (x.ThreadExit? && e.ThreadJoin? && x.tid == TidOf(e.exited))
    || (x.ThreadJoin? && e.ThreadExit? && TidOf(x.exited) == e.tid)
    || (x.ThreadJoin? && e.ThreadJoin? && TidOf(x.exited) == TidOf(e.exited))
  }

  lemma LostNotifiesNobody(n: Event, t: Tid)
    requires Notification(n) && IsLost(n)
    ensures !NotifiesThread(n, t)
  {
    assert forall w :: w in n.condPreds && w.Wait1? ==> w in Waits(n);
  }

  lemma LostWakesNobody(n: Event)
    requires Notification(n) && IsLost(n)
    ensures forall w :: !Notifies(n, w)
  {
    assert forall w :: w in n.condPreds && w.Wait1? ==> w in Waits(n);
  }

  /** Dependence, spelled out symmetrically. */
  lemma DependenceCases(x: Event, e: Event)
    requires HasIds(x) && HasIds(e)
    requires TidOf(x) != TidOf(e) && !x.ProgramInit? && !e.ProgramInit?
    ensures !Independent(x, e) <==>
            LidOf(x) == LidOf(e) != 0 || CondDependent(x, e) || ThreadDependent(x, e)
  {
    if Notification(x) && IsLost(x) {
      LostNotifiesNobody(x, TidOf(e));
    }
    if Notification(e) && IsLost(e) {
      LostNotifiesNobody(e, TidOf(x));
    }
  }

  lemma IndependenceSymmetric(x: Event, e: Event)
    requires HasIds(x) && HasIds(e)
    ensures Independent(x, e) <==> Independent(e, x)
  {
    if TidOf(x) != TidOf(e) && !x.ProgramInit? && !e.ProgramInit? {
      DependenceCases(x, e);
      DependenceCases(e, x);
    }
  }
}
