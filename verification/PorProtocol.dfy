/** The protocol that drives a configuration: what the executor's handlers do, thread by thread,
    and what every step of every run keeps. */
module PorProtocol {
  import opened Options
  import opened PorEvents
  import opened PorConfig

  /** Life-cycle state of a thread together with what it waits for. */
  datatype Phase =
    | Runnable
    | WaitLock(lock: Id)
    | WaitCv1(cond: Id, lock: Id)
    | WaitCv2(cond: Id, lock: Id)
    | Exited

  datatype Thread = Thread(phase: Phase, spawned: nat)

  /** A run's state: the events committed so far, the heads cached from them, and the threads. */
  datatype System = System(events: set<Event>, cfg: Config, threads: map<Tid, Thread>)

  datatype Op =
    | DoLocal(t: Tid, path: seq<nat>)
    | DoCreateThread(t: Tid)
    | DoExit(t: Tid)
    | DoJoin(t: Tid, joined: Tid)
    | DoCreateLock(t: Tid, l: Id)
    | DoBlock(t: Tid, l: Id)
    | DoAcquire(t: Tid, l: Id)
    | DoRelease(t: Tid, l: Id)
    | DoCreateCond(t: Tid, c: Id)
    | DoWait1(t: Tid, c: Id, l: Id)
    | DoWait2(t: Tid, c: Id, l: Id)
    | DoSignal(t: Tid, c: Id, woken: Option<Tid>)
    | DoBroadcast(t: Tid, c: Id)

  const MainTid: Tid := [1]

  function Initial(): System {
    var init := ThreadInit(MainTid, ProgramInit);
    System({ProgramInit, init},
           Config(map[MainTid := init], map[], map[], map[], {}, {}, 2),
           map[MainTid := Thread(Runnable, 0)])
  }

  /** Threads blocked in the first phase of a wait on `c`. */
  function Waiters(s: System, c: Id): set<Tid> {
    set u | u in s.threads && s.threads[u].phase.WaitCv1? && s.threads[u].phase.cond == c
  }

  /** The lock is held by `t`: the check before a release and before a wait. */
  predicate HoldsLock(cfg: Config, t: Tid, l: Id) {
    l in cfg.lockHeads && Acquiring(cfg.lockHeads[l]) && TidOf(cfg.lockHeads[l]) == t
  }

  /** The step is one the handlers perform; when they report an error instead the run ends. */
  predicate Enabled(s: System, op: Op) {
    && op.t in s.threads
    && op.t in s.cfg.threadHeads
    && var phase := s.threads[op.t].phase;
    match op
    case DoAcquire(_, l) => phase == WaitLock(l) && l > 0 && CanAcquire(s.cfg, l)
    case DoWait2(_, c, l) => phase == WaitCv2(c, l) && CanAcquire(s.cfg, l)
    case DoLocal(_, _) => phase.Runnable?
    case DoCreateThread(_) => phase.Runnable?
    case DoExit(_) => phase.Runnable?
    case DoJoin(_, j) => phase.Runnable? && j in s.cfg.threadHeads && s.cfg.threadHeads[j].ThreadExit?
    case DoCreateLock(_, l) => phase.Runnable? && l > 0 && l !in s.cfg.lockHeads && l !in s.cfg.usedLocks
    case DoBlock(_, l) => phase.Runnable? && l > 0
    case DoRelease(t, l) => phase.Runnable? && HoldsLock(s.cfg, t, l)
    case DoCreateCond(_, c) => phase.Runnable? && c > 0 && c !in s.cfg.condHeads && c !in s.cfg.usedConds
    case DoWait1(t, c, l) => phase.Runnable? && c > 0 && HoldsLock(s.cfg, t, l)
    case DoSignal(_, c, None) => phase.Runnable? && c > 0 && Waiters(s, c) == {}
    case DoSignal(_, c, Some(u)) => phase.Runnable? && c > 0 && u in Waiters(s, c)
    case DoBroadcast(_, c) => phase.Runnable? && c > 0
  }

  function LockHead(cfg: Config, l: Id): Option<Event> {
    if l in cfg.lockHeads then Some(cfg.lockHeads[l]) else None
  }

  /** The thread a create spawns: its parent's id extended by the next index. */
  function SpawnTid(s: System, t: Tid): Tid
    requires t in s.threads
  {
    t + [s.threads[t].spawned + 1]
  }

  /** The event the extension builder of a step allocates. */
  function Build(s: System, op: Op): Event
    requires Enabled(s, op) && !op.DoBlock?
  {
    var cfg := s.cfg;
    var et := cfg.threadHeads[op.t];
    match op
    case DoLocal(t, path) => Local(t, et, path)
    case DoCreateThread(t) => ThreadCreate(t, et, SpawnTid(s, t))
    case DoExit(t) => ThreadExit(t, et)
    case DoJoin(t, j) => ThreadJoin(t, et, cfg.threadHeads[j])
    case DoCreateLock(t, l) => LockCreate(t, l, et)
    case DoAcquire(t, l) => LockAcquire(t, l, et, LockHead(cfg, l))
    case DoRelease(t, l) => LockRelease(t, l, et, LockHead(cfg, l))
    case DoCreateCond(t, c) => CondCreate(t, c, et)
    case DoWait1(t, c, l) =>
      Wait1(t, c, l, et, LockHead(cfg, l), Wait1Preds(et, HeadsOf(cfg.condHeads, c)))
    case DoWait2(t, c, l) =>
      var n := Notifier(HeadsOf(cfg.condHeads, c), et);
      Wait2(t, c, l, et, LockHead(cfg, l), if n.Some? then n.value else ProgramInit)
    case DoSignal(t, c, None) => Signal(t, c, et, LostPreds(et, HeadsOf(cfg.condHeads, c)))
    case DoSignal(t, c, Some(u)) => Signal(t, c, et, WokenWaits(cfg, {u}))
    case DoBroadcast(t, c) =>
      var woken := Waiters(s, c);
      Broadcast(t, c, et,
                if woken == {} then LostPreds(et, HeadsOf(cfg.condHeads, c))
                else WokenWaits(cfg, woken) + KeptSignals(et, woken, HeadsOf(cfg.condHeads, c)))
  }

  function WakeUp(threads: map<Tid, Thread>, woken: set<Tid>): map<Tid, Thread>
    requires forall u :: u in woken ==> u in threads && threads[u].phase.WaitCv1?
  {
    map u | u in threads ::
      if u in woken then threads[u].(phase := WaitCv2(threads[u].phase.cond, threads[u].phase.lock)) else threads[u]
  }

  function SetPhase(threads: map<Tid, Thread>, t: Tid, p: Phase): map<Tid, Thread>
    requires t in threads
  {
    threads[t := threads[t].(phase := p)]
  }

  /** What a step does to the threads. */
  function StepThreads(s: System, op: Op): map<Tid, Thread>
    requires Enabled(s, op)
  {
    match op
    case DoBlock(t, l) => SetPhase(s.threads, t, WaitLock(l))
    case DoAcquire(t, _) => SetPhase(s.threads, t, Runnable)
    case DoWait1(t, c, l) => SetPhase(s.threads, t, WaitCv1(c, l))
    case DoWait2(t, _, _) => SetPhase(s.threads, t, Runnable)
    case DoSignal(_, c, Some(u)) => WakeUp(s.threads, {u})
    case DoBroadcast(_, c) => WakeUp(s.threads, Waiters(s, c))
    case DoExit(t) => SetPhase(s.threads, t, Exited)
    case DoCreateThread(t) =>
      s.threads[t := s.threads[t].(spawned := s.threads[t].spawned + 1)][SpawnTid(s, t) := Thread(Runnable, 0)]
    case _ => s.threads
  }

  function Add(s: System, e: Event, threads: map<Tid, Thread>): System {
    System(s.events + {e}, Commit(s.cfg, e), threads)
  }

  /** One step of a run.  Creating a thread commits the creation and, right after it, the new
      thread's first event. */
  function Step(s: System, op: Op): System
    requires Enabled(s, op)
  {
    if op.DoBlock? then s.(threads := StepThreads(s, op))
    else
      var e := Build(s, op);
      var s1 := Add(s, e, StepThreads(s, op));
      if op.DoCreateThread? then Add(s1, ThreadInit(e.newTid, e), s1.threads) else s1
  }

  ghost predicate IsRun(run: seq<System>, ops: seq<Op>) {
    && |run| == |ops| + 1
    && run[0] == Initial()
    && forall i :: 0 <= i < |ops| ==> Enabled(run[i], ops[i]) && run[i + 1] == Step(run[i], ops[i])
  }

  ghost predicate Reachable(s: System) {
    exists run, ops :: IsRun(run, ops) && run[|ops|] == s
  }
}
