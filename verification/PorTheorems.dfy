/** The guarantees of the protocol, for every reachable state. */
module PorTheorems {
  import opened Lists
  import opened Options
  import opened PorEvents
  import opened PorConfig
  import opened PorProtocol
  import opened PorInvariant
  import opened PorSteps
  import opened PorRuns

  // ---------------------------------------------------------------- causal order

  /** In every reachable configuration two dependent events are causally ordered, unless they are on
      different threads and both are joins, or both are signals that wake up different threads. */
  lemma DependentEventsOrdered(s: System, a: Event, b: Event)
    requires Reachable(s) && a in s.events && b in s.events
    requires !Independent(a, b) && !Overapproximated(a, b)
    ensures Ordered(a, b)
  {
    hide Before;
    ReachableInv(s);
  }

  /** In particular a wait1 is ordered with every broadcast and every lost signal on its condition
      variable. */
  lemma WaitsOrderedWithBroadcasts(s: System, w: Event, n: Event)
    requires Reachable(s) && w in s.events && n in s.events
    requires w.Wait1? && Marker(n) && CidOf(n) == w.cid
    ensures Ordered(w, n)
  {
    hide Before;
    ReachableInv(s);
    if TidOf(w) != TidOf(n) {
      DependenceCases(w, n);
    }
    DependentEventsOrdered(s, w, n);
  }

  /** Two extensions of one state are concurrent, whichever is committed first. */
  lemma ExtensionsConcurrent(s: System, e1: Event, e2: Event)
    requires Closed(s.events) && ThreadChains(s) && Extends(s, e1) && Extends(s, e2) && e1 != e2
    ensures !Ordered(e1, e2)
  {
    ExtensionIsNew(s, e1);
    ExtensionIsNew(s, e2);
    NotAmongCauses(s, e1, e2);
    NotAmongCauses(s, e2, e1);
  }

  lemma NotAmongCauses(s: System, e1: Event, e2: Event)
    requires Closed(s.events) && e1 !in s.events && Preds(e2) <= s.events
    ensures !Before(e1, e2)
  {
    if Before(e1, e2) {
      var p :| p in Preds(e2) && (e1 == p || Before(e1, p));
      if e1 != p {
        CausesCommitted(s.events, e1, p);
      }
    }
  }

  // ---------------------------------------------------------------- mutual exclusion

  /** The thread acquired the lock and has not released it since. */
  ghost predicate Holds(events: set<Event>, t: Tid, l: Id) {
    exists a :: HoldsSince(events, t, l, a)
  }

  ghost predicate HoldsSince(events: set<Event>, t: Tid, l: Id, a: Event) {
    && a in events && Acquiring(a) && LidOf(a) == l && TidOf(a) == t
    && forall r :: r in events && LidOf(r) == l && TidOf(r) == t && Before(a, r) ==> Acquiring(r)
  }

  /** Between an acquisition and any later event on the lock lies the owner's release. */
  lemma {:induction false} ReleasedBetween(events: set<Event>, a: Event, x: Event) returns (r: Event)
    requires Closed(events) && LockAlternation(events) && LockLinks(events) && IdsPositive(events)
    requires a in events && x in events && Acquiring(a) && LidOf(a) == LidOf(x) && Before(a, x)
    ensures r in events && LidOf(r) == LidOf(a) && TidOf(r) == TidOf(a) && !Acquiring(r) && Before(a, r)
    decreases x
  {
    hide Before;
    var p := x.lockPred.value;
    if a != p {
      r := ReleasedBetween(events, a, p);
    } else {
      r := x;
    }
  }

  /** The handlers' test for ownership is exact: it holds if and only if the thread acquired the
      lock and has not released it since. */
  lemma OwnershipExact(s: System, t: Tid, l: Id)
    requires Reachable(s) && l != 0
    ensures HoldsLock(s.cfg, t, l) <==> Holds(s.events, t, l)
  {
    hide Before;
    ReachableInv(s);
    if HoldsLock(s.cfg, t, l) {
      var a := s.cfg.lockHeads[l];
      forall r | r in s.events && LidOf(r) == l
        ensures !Before(a, r)
      {
        NothingAboveHead(s, l, r);
      }
      assert HoldsSince(s.events, t, l, a);
    }
    if Holds(s.events, t, l) {
      var a :| HoldsSince(s.events, t, l, a);
      var head := s.cfg.lockHeads[l];
      if a != head {
        var r := ReleasedBetween(s.events, a, head);
      }
    }
  }

  lemma NothingAboveHead(s: System, l: Id, r: Event)
    requires LockChains(s) && l in s.cfg.lockHeads && r in s.events && LidOf(r) == l
    ensures !Before(s.cfg.lockHeads[l], r)
  {
    hide Before;
    var head := s.cfg.lockHeads[l];
    if Before(head, r) {
      BeforeIsShallower(head, r);
      if r != head {
        BeforeIsShallower(r, head);
      }
    }
  }

  /** At most one thread holds a lock. */
  lemma MutualExclusion(s: System, t: Tid, u: Tid, l: Id)
    requires Reachable(s) && l != 0 && Holds(s.events, t, l) && Holds(s.events, u, l)
    ensures t == u
  {
    OwnershipExact(s, t, l);
    OwnershipExact(s, u, l);
  }

  // ---------------------------------------------------------------- waiting threads and the heads

  /** A blocked thread and the heads of its condition variable agree: in the first phase its wait1
      is there exactly once and no notifier is; in the second its wait1 is gone and exactly one
      notifier is there. */
  lemma BlockedThreadHeads(s: System, t: Tid)
    requires Reachable(s) && t in s.threads && (s.threads[t].phase.WaitCv1? || s.threads[t].phase.WaitCv2?)
    ensures t in s.cfg.threadHeads
    ensures var w, heads := s.cfg.threadHeads[t], HeadsOf(s.cfg.condHeads, s.threads[t].phase.cond);
            && w.Wait1?
            && (s.threads[t].phase.WaitCv1? ==> multiset(heads)[w] == 1 && forall n :: n in heads ==> !Notifies(n, w))
            && (s.threads[t].phase.WaitCv2? ==>
                  && w !in heads
                  && exists n :: n in heads && Notifies(n, w) && multiset(heads)[n] == 1
                                 && forall m :: m in heads && Notifies(m, w) ==> m == n)
  {
    hide Before;
    ReachableInv(s);
    assert ThreadPhase(s, t);
    var c := s.threads[t].phase.cond;
    var w, heads := s.cfg.threadHeads[t], HeadsOf(s.cfg.condHeads, c);
    assert HeadsExact(s.events, heads, c);
    if s.threads[t].phase.WaitCv1? {
      OnceInHeads(heads, w);
    } else {
      var n :| n in s.events && Notifies(n, w);
      assert IsHead(s.events, n);
      OnceInHeads(heads, n);
    }
  }

  lemma {:induction false} OnceInHeads(heads: seq<Event>, e: Event)
    requires NoRepeats(heads) && e in heads
    ensures multiset(heads)[e] == 1
  {
    var k :| 0 <= k < |heads| && heads[k] == e;
    assert heads == heads[..k] + [e] + heads[k + 1..];
  }

  /** What the builders assert about the acting thread: it has neither exited nor, unless it leaves a
      wait, is it blocked; the locks and condition variables it needs exist, a new thread does not. */
  lemma ActorAssertionsHold(s: System, op: Op)
    requires Inv(s) && Enabled(s, op)
    ensures op.t in s.cfg.threadHeads && !s.cfg.threadHeads[op.t].ThreadExit?
    ensures s.cfg.threadHeads[op.t].Wait1? <==> op.DoWait2?
    ensures op.DoRelease? || op.DoWait1? || op.DoWait2? ==> op.l in s.cfg.lockHeads
    ensures op.DoCreateThread? ==> SpawnTid(s, op.t) !in s.cfg.threadHeads
  {
    hide Before, Owed;
    assert ThreadPhase(s, op.t);
    if op.DoWait2? {
      assert LidOf(s.cfg.threadHeads[op.t]) == op.l;
    }
    if op.DoCreateThread? {
      SpawnIsNew(s, op.t);
    }
  }

  lemma NoHeads(cfg: Config, c: Id, p: Event)
    requires p in HeadsOf(cfg.condHeads, c)
    ensures c in cfg.condHeads
  {
  }

  /** The assertions inside the extension builders: those about the acting thread, and that the
      notifier of a wait2 exists, the woken thread's wait1 is among the heads and is its thread's last
      event, and a lost notification meets no wait1. */
  lemma BuilderAssertionsHold(s: System, op: Op)
    requires Reachable(s) && Enabled(s, op)
    ensures op.t in s.cfg.threadHeads && !s.cfg.threadHeads[op.t].ThreadExit?
    ensures s.cfg.threadHeads[op.t].Wait1? <==> op.DoWait2?
    ensures op.DoRelease? || op.DoWait1? || op.DoWait2? ==> op.l in s.cfg.lockHeads
    ensures op.DoCreateThread? ==> SpawnTid(s, op.t) !in s.cfg.threadHeads
    ensures op.DoWait2? || (op.DoSignal? && op.woken.Some?) || (op.DoBroadcast? && Waiters(s, op.c) != {}) ==>
              op.c in s.cfg.condHeads
    ensures op.DoWait2? ==> Notifier(HeadsOf(s.cfg.condHeads, op.c), s.cfg.threadHeads[op.t]).Some?
    ensures op.DoSignal? && op.woken.Some? ==>
              op.woken.value in s.cfg.threadHeads && s.cfg.threadHeads[op.woken.value] in HeadsOf(s.cfg.condHeads, op.c)
              && s.cfg.threadHeads[op.woken.value].Wait1? && op.woken.value != op.t
    ensures op.DoSignal? && op.woken.None? ==> forall p :: p in HeadsOf(s.cfg.condHeads, op.c) ==> !p.Wait1?
    ensures op.DoBroadcast? ==>
              forall u :: u in Waiters(s, op.c) ==>
                && u in s.cfg.threadHeads && s.cfg.threadHeads[u].Wait1? && u != op.t
                && s.cfg.threadHeads[u] in HeadsOf(s.cfg.condHeads, op.c)
    ensures op.DoBroadcast? && Waiters(s, op.c) == {} ==> forall p :: p in HeadsOf(s.cfg.condHeads, op.c) ==> !p.Wait1?
  {
    hide Inv, Owed, Before, Build;
    ReachableInv(s);
    ActorAssertionsHold(s, op);
    match op
    case DoWait2(t, c, l) => Wait2Builds(s, t, c, l);
    case DoSignal(t, c, Some(u)) =>
      SignalBuilds(s, t, c, u);
      WaiterHead(s, c, u);
    case DoSignal(_, _, None) => LostBuilds(s, op);
    case DoBroadcast(t, c) =>
      if Waiters(s, c) == {} {
        LostBuilds(s, op);
      } else {
        BroadcastBuilds(s, t, c);
        var u :| u in Waiters(s, c);
        NoHeads(s.cfg, c, s.cfg.threadHeads[u]);
      }
    case _ =>
  }
}
