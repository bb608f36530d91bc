/** The imperative side: the configuration and the thread states as objects that the handlers
    update in place, each handler proved to perform one step of the protocol. */
module PorExecution {
  import opened Options
  import opened PorEvents
  import opened PorConfig
  import opened PorProtocol
  import opened PorInvariant
  import opened PorSteps
  import opened PorRuns
  import opened PorCommute

  // ---------------------------------------------------------------- lists of heads

  lemma {:induction false} ReplaceFirstAt(heads: seq<Event>, xs: set<Event>, y: Event, i: nat)
    requires i < |heads| && heads[i] in xs && forall j :: 0 <= j < i ==> heads[j] !in xs
    ensures ReplaceFirst(heads, xs, y) == heads[i := y]
  {
    if i > 0 {
      ReplaceFirstAt(heads[1..], xs, y, i - 1);
    }
  }

  lemma {:induction false} RemoveAllAppend(heads: seq<Event>, xs: set<Event>, x: Event)
    ensures RemoveAll(heads + [x], xs) == RemoveAll(heads, xs) + if x in xs then [] else [x]
  {
    if heads != [] {
      assert (heads + [x])[1..] == heads[1..] + [x];
      RemoveAllAppend(heads[1..], xs, x);
    }
  }

  method RemoveWoken(heads: seq<Event>, woken: set<Event>) returns (kept: seq<Event>)
    ensures kept == RemoveAll(heads, woken)
  {
    kept := [];
    for i := 0 to |heads|
      invariant kept == RemoveAll(heads[..i], woken)
    {
      assert heads[..i + 1] == heads[..i] + [heads[i]];
      RemoveAllAppend(heads[..i], woken, heads[i]);
      if heads[i] !in woken {
        kept := kept + [heads[i]];
      }
    }
    assert heads[..|heads|] == heads;
  }

  method ReplaceWoken(heads: seq<Event>, woken: set<Event>, e: Event) returns (r: seq<Event>)
    requires exists w :: w in woken && w in heads
    ensures r == ReplaceFirst(heads, woken, e)
  {
    var i := 0;
    while heads[i] !in woken
      invariant i < |heads|
      invariant forall j :: 0 <= j < i ==> heads[j] !in woken
      decreases |heads| - i
    {
      i := i + 1;
    }
    ReplaceFirstAt(heads, woken, e, i);
    r := heads[i := e];
  }

  // ---------------------------------------------------------------- the predecessors of an extension

  function Elements(s: seq<Event>): set<Event> {
    set e | e in s
  }

  method Wait1Predecessors(et: Event, heads: seq<Event>) returns (preds: seq<Event>)
    ensures Elements(preds) == Wait1Preds(et, heads)
    ensures |preds| <= |heads|
  {
    hide IsLessThanEq, NotifiesThread;
    preds := [];
    for i := 0 to |heads|
      invariant Elements(preds) == Wait1Preds(et, heads[..i])
      invariant |preds| <= i
    {
      var pred := heads[i];
      assert heads[..i + 1] == heads[..i] + [pred];
      assert Wait1Preds(et, heads[..i + 1])
             == Wait1Preds(et, heads[..i]) + if KeepForWait1(et, pred) then {pred} else {};
      assert Elements(preds + [pred]) == Elements(preds) + {pred};
      if pred.Wait1? { continue; }
      if pred.Signal? && !IsLost(pred) { continue; }
      if pred.Broadcast? && NotifiesThread(pred, TidOf(et)) { continue; }
      if TidOf(pred) == TidOf(et) { continue; }
      if IsLessThanEq(pred, et) { continue; }
      preds := preds + [pred];
    }
    assert heads[..|heads|] == heads;
  }

  /** Predecessors of a notification that wakes up nobody. */
  method LostNotificationPredecessors(et: Event, heads: seq<Event>) returns (preds: seq<Event>)
    requires forall p :: p in heads ==> !p.Wait1?
    ensures Elements(preds) == LostPreds(et, heads)
    ensures |preds| <= |heads|
  {
    hide IsLessThanEq, NotifiesThread;
    preds := [];
    for i := 0 to |heads|
      invariant Elements(preds) == LostPreds(et, heads[..i])
      invariant |preds| <= i
    {
      var pred := heads[i];
      assert heads[..i + 1] == heads[..i] + [pred];
      assert LostPreds(et, heads[..i + 1]) == LostPreds(et, heads[..i]) + if KeepForLost(et, pred) then {pred} else {};
      assert Elements(preds + [pred]) == Elements(preds) + {pred};
      if pred.Broadcast? {
        if IsLost(pred) { continue; }
        if NotifiesThread(pred, TidOf(et)) { continue; }
      } else if pred.Signal? {
        if IsLost(pred) { continue; }
        if NotifiesThread(pred, TidOf(et)) { continue; }
      }
      if TidOf(pred) == TidOf(et) { continue; }
      if IsLessThanEq(pred, et) { continue; }
      preds := preds + [pred];
    }
    assert heads[..|heads|] == heads;
  }

  /** The signals a notifying broadcast keeps as predecessors. */
  method EarlierSignals(et: Event, woken: set<Tid>, heads: seq<Event>) returns (preds: seq<Event>)
    ensures Elements(preds) == KeptSignals(et, woken, heads)
    ensures |preds| <= |heads|
  {
    hide IsLessThanEq, NotifiesThread;
    preds := [];
    for i := 0 to |heads|
      invariant Elements(preds) == KeptSignals(et, woken, heads[..i])
      invariant |preds| <= i
    {
      var pred := heads[i];
      assert heads[..i + 1] == heads[..i] + [pred];
      assert KeptSignals(et, woken, heads[..i + 1])
             == KeptSignals(et, woken, heads[..i]) + if KeepForBroadcast(et, woken, pred) then {pred} else {};
      assert Elements(preds + [pred]) == Elements(preds) + {pred};
      if !pred.Signal? { continue; }
      if IsLost(pred) { continue; }
      if NotifiesThread(pred, TidOf(et)) { continue; }
      if exists u | u in woken :: NotifiesThread(pred, u) { continue; }
      if TidOf(pred) == TidOf(et) { continue; }
      if IsLessThanEq(pred, et) { continue; }
      preds := preds + [pred];
    }
    assert heads[..|heads|] == heads;
  }

  /** The notification that woke up a wait1, if it has happened. */
  method FindNotifier(w: Event, heads: seq<Event>) returns (n: Option<Event>)
    ensures n == Notifier(heads, w)
  {
    for i := 0 to |heads|
      invariant Notifier(heads, w) == Notifier(heads[i..], w)
    {
      assert heads[i..][0] == heads[i] && heads[i..][1..] == heads[i + 1..];
      if Notifies(heads[i], w) {
        return Some(heads[i]);
      }
    }
    assert heads[|heads|..] == [];
    n := None;
  }

  // ---------------------------------------------------------------- the configuration

  class Configuration {
    var threadHeads: map<Tid, Event>
    var lockHeads: map<Id, Event>
    var condHeads: map<Id, seq<Event>>
    var w2Heads: map<Id, seq<Event>>
    var usedConds: set<Id>
    var usedLocks: set<Id>
    var size: nat

    ghost function Snapshot(): Config
      reads this
    {
      Config(threadHeads, lockHeads, condHeads, w2Heads, usedConds, usedLocks, size)
    }

    /** Just after the program and its main thread have started. */
    constructor ()
      ensures Snapshot() == Initial().cfg
    {
      var init := ThreadInit(MainTid, ProgramInit);
      threadHeads := map[MainTid := init];
      lockHeads, condHeads, w2Heads := map[], map[], map[];
      usedConds, usedLocks := {}, {};
      size := 2;
    }

    method CanAcquireLock(l: Id) returns (r: bool)
      requires l in lockHeads || l !in usedLocks
      ensures r == CanAcquire(Snapshot(), l)
    {
      if l !in lockHeads {
        return true;
      }
      var e := lockHeads[l];
      return e.LockCreate? || e.LockRelease? || e.Wait1?;
    }

    method Commit(e: Event)
      requires e.CondCreate? ==> e.cid !in condHeads
      requires e.Signal? && !IsLost(e) ==> exists w :: w in Waits(e) && w in HeadsOf(condHeads, e.cid)
      requires LidOf(e) == 0 <==> !(e.LockCreate? || e.LockAcquire? || e.LockRelease? || e.Wait1? || e.Wait2?)
      modifies this
      ensures Snapshot() == PorConfig.Commit(old(Snapshot()), e)
    {
      hide ReplaceFirst, RemoveAll;
      threadHeads := threadHeads[TidOf(e) := e];
      size := size + 1;
      match e {
        case LockCreate(_, l, _) =>
          usedLocks := usedLocks + {l};
          lockHeads := lockHeads[l := e];
        case LockAcquire(_, l, _, lockPred) =>
          if lockPred.None? {
            usedLocks := usedLocks + {l};
          }
          lockHeads := lockHeads[l := e];
        case LockRelease(_, l, _, _) =>
          lockHeads := lockHeads[l := e];
        case CondCreate(_, c, _) =>
          usedConds := usedConds + {c};
          condHeads := condHeads[c := [e]];
        case Wait1(_, c, l, _, _, preds) =>
          if preds == {} {
            usedConds := usedConds + {c};
          }
          lockHeads := lockHeads[l := e];
          condHeads := condHeads[c := HeadsOf(condHeads, c) + [e]];
        case Wait2(_, c, l, _, _, _) =>
          lockHeads := lockHeads[l := e];
          w2Heads := w2Heads[c := HeadsOf(w2Heads, c) + [e]];
        case Signal(_, c, _, preds) =>
          if preds == {} {
            usedConds := usedConds + {c};
          }
          var heads := HeadsOf(condHeads, c);
          if IsLost(e) {
            heads := heads + [e];
          } else {
            heads := ReplaceWoken(heads, Waits(e), e);
          }
          condHeads := condHeads[c := heads];
        case Broadcast(_, c, _, preds) =>
          if preds == {} {
            usedConds := usedConds + {c};
          }
          var heads := HeadsOf(condHeads, c);
          if !IsLost(e) {
            heads := RemoveWoken(heads, Waits(e));
          } else {
            RemoveNothing(heads);
          }
          condHeads := condHeads[c := heads + [e]];
        case _ =>
      }
    }
  }

  // ---------------------------------------------------------------- the order of threads

  /** Threads are kept in the lexicographic order of their ids. */
  predicate TidLess(a: Tid, b: Tid) {
    if a == [] || b == [] then a == [] && b != []
    else a[0] < b[0] || (a[0] == b[0] && TidLess(a[1..], b[1..]))
  }

  predicate IsLeast(t: Tid, ts: set<Tid>) {
    forall u :: u in ts && u != t ==> TidLess(t, u)
  }

  lemma {:induction false} TidTotal(a: Tid, b: Tid)
    ensures a == b || TidLess(a, b) || TidLess(b, a)
    ensures !(TidLess(a, b) && TidLess(b, a)) && !TidLess(a, a)
  {
    if a != [] && b != [] {
      TidTotal(a[1..], b[1..]);
      TidTotal(a[1..], a[1..]);
      assert a == [a[0]] + a[1..] && b == [b[0]] + b[1..];
    } else if a != [] {
      TidTotal(a[1..], a[1..]);
    }
  }

  lemma {:induction false} TidTransitive(a: Tid, b: Tid, c: Tid)
    requires TidLess(a, b) && TidLess(b, c)
    ensures TidLess(a, c)
  {
    if a != [] && a[0] == b[0] == c[0] {
      TidTransitive(a[1..], b[1..], c[1..]);
    }
  }

  lemma {:induction false} LeastTid(ts: set<Tid>)
    requires ts != {}
    ensures exists t :: t in ts && IsLeast(t, ts)
  {
    var u :| u in ts;
    if ts == {u} {
      assert IsLeast(u, ts);
    } else {
      LeastTid(ts - {u});
      var v :| v in ts - {u} && IsLeast(v, ts - {u});
      TidTotal(u, v);
      if TidLess(u, v) {
        forall w | w in ts && w != u
          ensures TidLess(u, w)
        {
          if w != v {
            TidTransitive(u, v, w);
          }
        }
        assert IsLeast(u, ts);
      } else {
        assert IsLeast(v, ts);
      }
    }
  }

  // ---------------------------------------------------------------- the handlers

  /** `isRunnable`: what a blocked thread waits for is there. */
  predicate IsRunnable(cfg: Config, p: Phase) {
    match p
    case Runnable => true
    case WaitLock(l) => CanAcquire(cfg, l)
    case WaitCv2(_, l) => CanAcquire(cfg, l)
    case WaitCv1(_, _) => false
    case Exited => false
  }

  class Execution {
    const cfg: Configuration
    var threads: map<Tid, Thread>
    ghost var events: set<Event>

    ghost function State(): System
      reads this, cfg
    {
      System(events, cfg.Snapshot(), threads)
    }

    ghost predicate Valid()
      reads this, cfg
    {
      Inv(State())
    }

    constructor ()
      ensures State() == Initial() && Valid() && fresh(cfg)
    {
      cfg := new Configuration();
      threads := map[MainTid := Thread(Runnable, 0)];
      events := Initial().events;
      new;
      InitialInv();
    }

    method BlockThread(t: Tid, p: Phase)
      requires t in threads
      requires p.WaitCv2? ==> threads[t].phase == WaitCv1(p.cond, p.lock)
      requires !p.WaitCv2? ==> threads[t].phase.Runnable?
      modifies this`threads
      ensures threads == SetPhase(old(threads), t, p)
    {
      threads := threads[t := threads[t].(phase := p)];
    }

    method Register(e: Event, ghost op: Op)
      requires Valid() && Enabled(State(), op) && !op.DoBlock? && !op.DoCreateThread? && e == Build(State(), op)
      modifies cfg, this`events
      ensures cfg.Snapshot() == PorConfig.Commit(old(cfg.Snapshot()), e) && events == old(events) + {e}
    {
      hide Inv, PorConfig.Commit;
      CommitAllowed(State(), op);
      cfg.Commit(e);
      events := events + {e};
    }

    /** Lets a thread run: if it was blocked and can go on, it takes the lock. */
    method RunThread(t: Tid) returns (ran: bool)
      requires Valid() && t in threads
      modifies this, cfg
      ensures Valid()
      ensures ran == IsRunnable(old(cfg.Snapshot()), old(threads[t].phase))
      ensures !ran || old(threads[t].phase).Runnable? ==> State() == old(State())
      ensures ran && old(threads[t].phase).WaitLock? ==>
                var op := DoAcquire(t, old(threads[t].phase).lock);
                Enabled(old(State()), op) && State() == Step(old(State()), op)
      ensures ran && old(threads[t].phase).WaitCv2? ==>
                var op := DoWait2(t, old(threads[t].phase).cond, old(threads[t].phase).lock);
                Enabled(old(State()), op) && State() == Step(old(State()), op)
    {
      hide Inv, PorConfig.Commit;
      ghost var s := State();
      var phase := threads[t].phase;
      BlockedLock(s, t);
      var et := cfg.threadHeads[t];
      if phase.WaitLock? {
        ran := cfg.CanAcquireLock(phase.lock);
        if ran {
          var lockPred := if phase.lock in cfg.lockHeads then Some(cfg.lockHeads[phase.lock]) else None;
          Register(LockAcquire(t, phase.lock, et, lockPred), DoAcquire(t, phase.lock));
          threads := threads[t := threads[t].(phase := Runnable)];
          StepKeepsInv(s, DoAcquire(t, phase.lock));
        }
      } else if phase.WaitCv2? {
        ran := cfg.CanAcquireLock(phase.lock);
        if ran {
          var n := FindNotifier(et, HeadsOf(cfg.condHeads, phase.cond));
          Wait2Builds(s, t, phase.cond, phase.lock);
          var lockPred := if phase.lock in cfg.lockHeads then Some(cfg.lockHeads[phase.lock]) else None;
          Register(Wait2(t, phase.cond, phase.lock, et, lockPred, n.value), DoWait2(t, phase.cond, phase.lock));
          threads := threads[t := threads[t].(phase := Runnable)];
          StepKeepsInv(s, DoWait2(t, phase.cond, phase.lock));
        }
      } else {
        ran := phase.Runnable?;
      }
    }

    method HandleLockAcquire(t: Tid, l: Id)
      requires Valid() && t in threads && threads[t].phase.Runnable? && l > 0
      modifies this`threads
      ensures Valid() && Enabled(old(State()), DoBlock(t, l)) && State() == Step(old(State()), DoBlock(t, l))
    {
      hide Inv;
      ghost var s := State();
      BlockedLock(s, t);
      BlockThread(t, WaitLock(l));
      StepKeepsInv(s, DoBlock(t, l));
    }

    /** Releases the lock if the thread holds it, and reports an error otherwise. */
    method HandleLockRelease(t: Tid, l: Id) returns (ok: bool)
      requires Valid() && t in threads && threads[t].phase.Runnable?
      modifies this, cfg
      ensures Valid() && ok == HoldsLock(old(cfg.Snapshot()), t, l)
      ensures !ok ==> State() == old(State())
      ensures ok ==> Enabled(old(State()), DoRelease(t, l)) && State() == Step(old(State()), DoRelease(t, l))
    {
      hide Inv, PorConfig.Commit;
      ghost var s := State();
      BlockedLock(s, t);
      if l !in cfg.lockHeads {
        return false;
      }
      var e := cfg.lockHeads[l];
      if !e.LockAcquire? && !e.Wait2? {
        return false;
      }
      if TidOf(e) != t {
        return false;
      }
      Register(LockRelease(t, l, cfg.threadHeads[t], Some(e)), DoRelease(t, l));
      StepKeepsInv(s, DoRelease(t, l));
      return true;
    }

    /** Gives up the lock and waits to be notified, and reports an error if the lock is not held. */
    method HandleCondWait(t: Tid, c: Id, l: Id) returns (ok: bool)
      requires Valid() && t in threads && threads[t].phase.Runnable? && c > 0
      modifies this, cfg
      ensures Valid() && ok == HoldsLock(old(cfg.Snapshot()), t, l)
      ensures !ok ==> State() == old(State())
      ensures ok ==> Enabled(old(State()), DoWait1(t, c, l)) && State() == Step(old(State()), DoWait1(t, c, l))
    {
      hide Inv, PorConfig.Commit;
      ghost var s := State();
      BlockedLock(s, t);
      if l !in cfg.lockHeads {
        return false;
      }
      var e := cfg.lockHeads[l];
      if !e.LockAcquire? && !e.Wait2? {
        return false;
      }
      if TidOf(e) != t {
        return false;
      }
      var preds := Wait1Predecessors(cfg.threadHeads[t], HeadsOf(cfg.condHeads, c));
      Register(Wait1(t, c, l, cfg.threadHeads[t], Some(e), Elements(preds)), DoWait1(t, c, l));
      BlockThread(t, WaitCv1(c, l));
      StepKeepsInv(s, DoWait1(t, c, l));
      return true;
    }

    method FirstWaiter(ghost s: System, c: Id) returns (found: Option<Tid>)
      requires s == State()
      ensures found.None? ==> Waiters(s, c) == {}
      ensures found.Some? ==> found.value in Waiters(s, c) && IsLeast(found.value, Waiters(s, c))
    {
      var rest := threads.Keys;
      found := None;
      while rest != {} && found.None?
        invariant rest <= threads.Keys
        invariant found.None? ==> forall u :: u in Waiters(s, c) ==> u in rest
        invariant found.Some? ==> found.value in Waiters(s, c) && IsLeast(found.value, Waiters(s, c))
        decreases |rest|
      {
        LeastTid(rest);
        var u :| u in rest && IsLeast(u, rest);
        rest := rest - {u};
        if threads[u].phase.WaitCv1? && threads[u].phase.cond == c {
          found := Some(u);
        }
      }
    }

    /** Wakes up one waiting thread if there is one. */
    method HandleCondSignal(t: Tid, c: Id) returns (ghost choice: Option<Tid>)
      requires Valid() && t in threads && threads[t].phase.Runnable? && c > 0
      modifies this, cfg
      ensures Valid()
      ensures Enabled(old(State()), DoSignal(t, c, choice)) && State() == Step(old(State()), DoSignal(t, c, choice))
      ensures choice.Some? ==> IsLeast(choice.value, old(Waiters(State(), c)))
    {
      hide Inv, PorConfig.Commit;
      ghost var s := State();
      BlockedLock(s, t);
      var found := FirstWaiter(s, c);
      choice := found;
      var et := cfg.threadHeads[t];
      if found.Some? {
        SignalBuilds(s, t, c, found.value);
        Register(Signal(t, c, et, {cfg.threadHeads[found.value]}), DoSignal(t, c, found));
        WakeAll({found.value});
      } else {
        LostBuilds(s, DoSignal(t, c, None));
        var preds := LostNotificationPredecessors(et, HeadsOf(cfg.condHeads, c));
        Register(Signal(t, c, et, Elements(preds)), DoSignal(t, c, None));
      }
      StepKeepsInv(s, DoSignal(t, c, choice));
    }

    /** Wakes up every waiting thread. */
    method HandleCondBroadcast(t: Tid, c: Id)
      requires Valid() && t in threads && threads[t].phase.Runnable? && c > 0
      modifies this, cfg
      ensures Valid()
      ensures Enabled(old(State()), DoBroadcast(t, c)) && State() == Step(old(State()), DoBroadcast(t, c))
    {
      hide Inv, PorConfig.Commit;
      ghost var s := State();
      BlockedLock(s, t);
      var woken, preds := Collect(s, c);
      var et := cfg.threadHeads[t];
      if woken == {} {
        LostBuilds(s, DoBroadcast(t, c));
        var lost := LostNotificationPredecessors(et, HeadsOf(cfg.condHeads, c));
        Register(Broadcast(t, c, et, Elements(lost)), DoBroadcast(t, c));
      } else {
        var signals := EarlierSignals(et, woken, HeadsOf(cfg.condHeads, c));
        Register(Broadcast(t, c, et, preds + Elements(signals)), DoBroadcast(t, c));
      }
      WakeAll(woken);
      StepKeepsInv(s, DoBroadcast(t, c));
    }

    /** The waiters of a condition variable and the wait1 events they are blocked in. */
    method Collect(ghost s: System, c: Id) returns (woken: set<Tid>, preds: set<Event>)
      requires Valid() && s == State()
      ensures woken == Waiters(s, c) && preds == WokenWaits(s.cfg, woken)
    {
      hide Inv;
      var rest := threads.Keys;
      woken, preds := {}, {};
      while rest != {}
        invariant rest <= threads.Keys
        invariant woken == Waiters(s, c) - rest && preds == WokenWaits(s.cfg, woken)
        decreases |rest|
      {
        var u :| u in rest;
        rest := rest - {u};
        BlockedLock(s, u);
        if threads[u].phase.WaitCv1? && threads[u].phase.cond == c {
          woken := woken + {u};
          preds := preds + {cfg.threadHeads[u]};
        }
      }
    }

    method WakeAll(woken: set<Tid>)
      requires forall u :: u in woken ==> u in threads && threads[u].phase.WaitCv1?
      modifies this`threads
      ensures threads == WakeUp(old(threads), woken)
    {
      var rest := woken;
      while rest != {}
        invariant rest <= woken && threads.Keys == old(threads.Keys)
        invariant forall u :: u in threads ==>
                    threads[u] == if u in woken - rest then WakeUp(old(threads), woken)[u] else old(threads)[u]
        decreases |rest|
      {
        var u :| u in rest;
        rest := rest - {u};
        BlockThread(u, WaitCv2(threads[u].phase.cond, threads[u].phase.lock));
      }
    }
  }

  lemma BlockedLock(s: System, t: Tid)
    requires Inv(s) && t in s.threads
    ensures t in s.cfg.threadHeads
    ensures s.threads[t].phase.WaitLock? || s.threads[t].phase.WaitCv2? ==>
              var l := s.threads[t].phase.lock; l > 0 && (l in s.cfg.lockHeads || l !in s.cfg.usedLocks)
  {
    hide Before;
    assert ThreadPhase(s, t);
  }

  lemma CommitAllowed(s: System, op: Op)
    requires Inv(s) && Enabled(s, op) && !op.DoBlock? && !op.DoCreateThread?
    ensures var e := Build(s, op);
            && (e.CondCreate? ==> e.cid !in s.cfg.condHeads)
            && (e.Signal? && !IsLost(e) ==> exists w :: w in Waits(e) && w in HeadsOf(s.cfg.condHeads, e.cid))
            && (LidOf(e) == 0 <==> !(e.LockCreate? || e.LockAcquire? || e.LockRelease? || e.Wait1? || e.Wait2?))
  {
    hide Inv, Owed, Before, Build, WakesOutstanding;
    BuildOwed(s, op);
    EventOfStep(s, op);
    LockIds(s, Build(s, op));
    if op.DoSignal? && op.woken.Some? {
      SignalBuilds(s, op.t, op.c, op.woken.value);
      WaiterHead(s, op.c, op.woken.value);
      assert s.cfg.threadHeads[op.woken.value] in Waits(Build(s, op));
    } else if op.DoSignal? {
      LostBuilds(s, op);
    }
  }

  lemma LockIds(s: System, e: Event)
    requires Owed(s, e)
    ensures e.CondCreate? ==> e.cid !in s.cfg.condHeads
    ensures LidOf(e) == 0 <==> !(e.LockCreate? || e.LockAcquire? || e.LockRelease? || e.Wait1? || e.Wait2?)
  {
    hide Before;
  }
}
