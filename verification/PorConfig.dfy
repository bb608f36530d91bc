/** Which events depend on each other, and the configuration: the heads it caches, the events its
    extension builders allocate and what committing an event does to the heads. */
module PorConfig {
  import opened Options
  import opened PorEvents

  // ---------------------------------------------------------------- independence

  predicate LockIndependent(lockEvent: Event, other: Event) {
    LidOf(other) != 0 ==> LidOf(lockEvent) != LidOf(other)
  }

  predicate LostNotificationIndependent(lost: Event, other: Event)
    requires Notification(lost) && IsLost(lost)
  {
    if other.Wait2? then true
    else if CidOf(lost) != CidOf(other) then true
    else if Notification(other) && IsLost(other) then true
    else false
  }

  predicate ThreadEvent(e: Event) {
    e.ThreadCreate? || e.ThreadExit? || e.ThreadInit? || e.ThreadJoin?
  }

  predicate ThreadEventIndependent(e: Event, other: Event)
    requires ThreadEvent(e)
  {
    match e
    case ThreadCreate(_, _, n) => other.ThreadInit? ==> n != other.tid
    case ThreadExit(t, _) => other.ThreadJoin? ==> t != TidOf(other.exited)
    case ThreadJoin(_, _, x) =>
      if other.ThreadJoin? then TidOf(x) != TidOf(other.exited)
      else if other.ThreadExit? then TidOf(x) != other.tid
      else true
    case ThreadInit(t, _) => other.ThreadCreate? ==> t != other.newTid
  }

  predicate ThreadIndependent(a: Event, b: Event) {
    if ThreadEvent(a) then ThreadEventIndependent(a, b)
    else if ThreadEvent(b) then ThreadEventIndependent(b, a)
    else true
  }

  predicate Wait1Independent(w: Event, other: Event)
    requires w.Wait1?
  {
    && LockIndependent(w, other)
    && match other
       case Signal(_, c, _, _) =>
         if w.cid != c then true
         else if IsLost(other) then false
         else !NotifiesThread(other, w.tid)
       case Broadcast(_, c, _, _) => w.cid != c
       case CondCreate(_, c, _) => w.cid != c
       case _ => true
  }

  predicate Wait2Independent(w: Event, other: Event)
    requires w.Wait2?
  {
    && LockIndependent(w, other)
    && match other
       case CondCreate(_, c, _) => w.cid != c
       case Signal(_, c, _, _) => w.cid != c || !NotifiesThread(other, w.tid)
       case Broadcast(_, c, _, _) => w.cid != c || !NotifiesThread(other, w.tid)
       case _ => true
  }

  predicate NotificationIndependent(n: Event, other: Event)
    requires Notification(n) && !IsLost(n)
  {
    match other
    case Wait1(_, c, _, _, _, _) =>
      if n.Signal? then n.cid != c || !NotifiesThread(n, other.tid) else n.cid != c
    case Wait2(_, c, _, _, _, _) => n.cid != c || !NotifiesThread(n, other.tid)
    case CondCreate(_, c, _) => n.cid != c
    case Signal(_, c, _, _) => n.cid != c
    case Broadcast(_, c, _, _) => n.cid != c
    case _ => true
  }

  /** The unfolding's independence relation. */
  predicate Independent(a: Event, b: Event) {
    if TidOf(a) == TidOf(b) then false
    else if a.Local? || b.Local? then true
    else if a.ProgramInit? || b.ProgramInit? then false
    else if !ThreadIndependent(a, b) then false
    else match a
         case LockCreate(_, _, _) => LockIndependent(a, b)
         case LockAcquire(_, _, _, _) => LockIndependent(a, b)
         case LockRelease(_, _, _, _) => LockIndependent(a, b)
         case Wait1(_, _, _, _, _, _) => Wait1Independent(a, b)
         case Wait2(_, _, _, _, _, _) => Wait2Independent(a, b)
         case Signal(_, _, _, _) =>
           if IsLost(a) then LostNotificationIndependent(a, b) else NotificationIndependent(a, b)
         case Broadcast(_, _, _, _) =>
           if IsLost(a) then LostNotificationIndependent(a, b) else NotificationIndependent(a, b)
         case CondCreate(_, c, _) => c == 0 || c != CidOf(b)
         case _ => true
  }

  predicate WakeDifferent(a: Event, b: Event)
    requires Notification(a) && Notification(b)
  {
    forall v, w | v in Waits(a) && w in Waits(b) :: TidOf(v) != TidOf(w)
  }

  /** The pairs the relation calls dependent although neither side of the pair waits for the
      other: on different threads, two joins of one thread, and two signals of one condition
      variable that wake up different threads. */
  predicate Overapproximated(a: Event, b: Event) {
    && TidOf(a) != TidOf(b)
    && (|| (a.ThreadJoin? && b.ThreadJoin?)
       || (a.Signal? && b.Signal? && !IsLost(a) && !IsLost(b) && WakeDifferent(a, b)))
  }

  // ---------------------------------------------------------------- the causality test

  /** The test the builders use: compare depths along the thread of `a`, in the cone of `b` when
      `b` is on another thread.  It is meant for two events of one configuration. */
  predicate IsLessThan(a: Event, b: Event) {
    if TidOf(a) == TidOf(b) then Depth(a) < Depth(b)
    else
      || (exists c | c in Causes(b) :: TidOf(c) == TidOf(a) && Depth(a) <= Depth(c))
      || a.ProgramInit?
  }

  predicate IsLessThanEq(a: Event, b: Event) {
    a == b || IsLessThan(a, b)
  }

  // ---------------------------------------------------------------- configurations

  datatype Config = Config(
    threadHeads: map<Tid, Event>,
    lockHeads: map<Id, Event>,
    condHeads: map<Id, seq<Event>>,
    w2Heads: map<Id, seq<Event>>,
    usedConds: set<Id>,
    usedLocks: set<Id>,
    size: nat)

  function HeadsOf(m: map<Id, seq<Event>>, c: Id): seq<Event> {
    if c in m then m[c] else []
  }

  predicate CanAcquire(cfg: Config, l: Id) {
    if l in cfg.lockHeads then Releasing(cfg.lockHeads[l]) else l !in cfg.usedLocks
  }

  /** Replaces the first element that is one of `xs`. */
  function ReplaceFirst(s: seq<Event>, xs: set<Event>, y: Event): (r: seq<Event>) {
    if s == [] then []
    else if s[0] in xs then [y] + s[1..]
    else [s[0]] + ReplaceFirst(s[1..], xs, y)
  }

  function RemoveAll(s: seq<Event>, xs: set<Event>): (r: seq<Event>) {
    if s == [] then []
    else if s[0] in xs then RemoveAll(s[1..], xs)
    else [s[0]] + RemoveAll(s[1..], xs)
  }

  lemma {:induction false} RemoveNothing(heads: seq<Event>)
    ensures RemoveAll(heads, {}) == heads
  {
    if heads != [] {
      RemoveNothing(heads[1..]);
    }
  }

  /** What a committed event does to the heads of its condition variable. */
  function UpdateHeads(heads: seq<Event>, e: Event): seq<Event> {
    match e
    case CondCreate(_, _, _) => [e]
    case Wait1(_, _, _, _, _, _) => heads + [e]
    case Signal(_, _, _, _) =>
      if IsLost(e) then heads + [e] else ReplaceFirst(heads, Waits(e), e)
    case Broadcast(_, _, _, _) => RemoveAll(heads, Waits(e)) + [e]
    case _ => heads
  }

  predicate ChangesHeads(e: Event) {
    e.CondCreate? || e.Wait1? || e.Signal? || e.Broadcast?
  }

  /** Committing an event. */
  function Commit(cfg: Config, e: Event): Config {
    Config(
      cfg.threadHeads[TidOf(e) := e],
      if LidOf(e) != 0 then cfg.lockHeads[LidOf(e) := e] else cfg.lockHeads,
      if ChangesHeads(e) then cfg.condHeads[e.cid := UpdateHeads(HeadsOf(cfg.condHeads, e.cid), e)] else cfg.condHeads,
      if e.Wait2? then cfg.w2Heads[e.cid := HeadsOf(cfg.w2Heads, e.cid) + [e]] else cfg.w2Heads,
      if e.CondCreate? || (ChangesHeads(e) && e.condPreds == {}) then cfg.usedConds + {e.cid} else cfg.usedConds,
      if e.LockCreate? || (e.LockAcquire? && e.lockPred.None?) then cfg.usedLocks + {e.lid} else cfg.usedLocks,
      cfg.size + 1)
  }

  // ---------------------------------------------------------------- predecessors on a condition variable

  /** Kept as predecessor of a wait1 after `et`: creations, lost signals and the broadcasts that
      did not wake up this thread, unless they are causes of `et` already. */
  predicate KeepForWait1(et: Event, p: Event) {
    && !p.Wait1?
    && (p.Signal? ==> IsLost(p))
    && (p.Broadcast? ==> !NotifiesThread(p, TidOf(et)))
    && TidOf(p) != TidOf(et)
    && !IsLessThanEq(p, et)
  }

  /** Kept as predecessor of a lost notification after `et`. */
  predicate KeepForLost(et: Event, p: Event) {
    && (Notification(p) ==> !IsLost(p) && !NotifiesThread(p, TidOf(et)))
    && TidOf(p) != TidOf(et)
    && !IsLessThanEq(p, et)
  }

  /** Kept, besides the woken wait1s, as predecessor of a broadcast after `et`. */
  predicate KeepForBroadcast(et: Event, woken: set<Tid>, p: Event) {
    && p.Signal?
    && !IsLost(p)
    && !NotifiesThread(p, TidOf(et))
    && (forall u | u in woken :: !NotifiesThread(p, u))
    && TidOf(p) != TidOf(et)
    && !IsLessThanEq(p, et)
  }

  function Wait1Preds(et: Event, heads: seq<Event>): set<Event> {
    set p | p in heads && KeepForWait1(et, p)
  }

  function LostPreds(et: Event, heads: seq<Event>): set<Event> {
    set p | p in heads && KeepForLost(et, p)
  }

  function KeptSignals(et: Event, woken: set<Tid>, heads: seq<Event>): set<Event> {
    set p | p in heads && KeepForBroadcast(et, woken, p)
  }

  /** The wait1 events the given threads are blocked in. */
  function WokenWaits(cfg: Config, woken: set<Tid>): set<Event> {
    set u | u in woken && u in cfg.threadHeads :: cfg.threadHeads[u]
  }

  /** The head that wakes up wait1 `w`, the first in the list. */
  function Notifier(heads: seq<Event>, w: Event): (r: Option<Event>)
    ensures r.Some? ==> r.value in heads && Notifies(r.value, w)
    ensures r.None? ==> forall n :: n in heads ==> !Notifies(n, w)
  {
    if heads == [] then None
    else if Notifies(heads[0], w) then Some(heads[0])
    else Notifier(heads[1..], w)
  }
}
