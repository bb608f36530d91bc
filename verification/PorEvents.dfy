/** Events of the partial-order unfolding and the causality they span.

    An event is immutable and names its predecessors, so the unfolding's deduplication of equal
    events is equality of values here.  The predecessors an event has on its condition variable
    are sorted by address when it is allocated, so their order carries no information: a set. */
module PorEvents {
  import opened Options
  import opened Extrema

  type Tid = seq<nat>
  type Id = nat

  datatype Event =
    | ProgramInit
    | ThreadInit(tid: Tid, creation: Event)
    | Local(tid: Tid, prev: Event, path: seq<nat>)
    | ThreadCreate(tid: Tid, prev: Event, newTid: Tid)
    | ThreadExit(tid: Tid, prev: Event)
    | ThreadJoin(tid: Tid, prev: Event, exited: Event)
    | LockCreate(tid: Tid, lid: Id, prev: Event)
    | LockAcquire(tid: Tid, lid: Id, prev: Event, lockPred: Option<Event>)
    | LockRelease(tid: Tid, lid: Id, prev: Event, lockPred: Option<Event>)
    | CondCreate(tid: Tid, cid: Id, prev: Event)
    | Wait1(tid: Tid, cid: Id, lid: Id, prev: Event, lockPred: Option<Event>, condPreds: set<Event>)
    | Wait2(tid: Tid, cid: Id, lid: Id, prev: Event, lockPred: Option<Event>, notifier: Event)
    | Signal(tid: Tid, cid: Id, prev: Event, condPreds: set<Event>)
    | Broadcast(tid: Tid, cid: Id, prev: Event, condPreds: set<Event>)

  /** The thread of an event; program_init belongs to no thread. */
  function TidOf(e: Event): Tid {
    if e.ProgramInit? then [] else e.tid
  }

  /** The lock an event operates on, zero when it operates on none. */
  function LidOf(e: Event): Id {
    match e
    case LockCreate(_, l, _) => l
    case LockAcquire(_, l, _, _) => l
    case LockRelease(_, l, _, _) => l
    case Wait1(_, _, l, _, _, _) => l
    case Wait2(_, _, l, _, _, _) => l
    case _ => 0
  }

  /** The condition variable an event operates on, zero when it operates on none. */
  function CidOf(e: Event): Id {
    match e
    case CondCreate(_, c, _) => c
    case Wait1(_, c, _, _, _, _) => c
    case Wait2(_, c, _, _, _, _) => c
    case Signal(_, c, _, _) => c
    case Broadcast(_, c, _, _) => c
    case _ => 0
  }

  /** The predecessor on the same thread; for thread_init the creating event. */
  function Prev(e: Event): (p: Event)
    requires !e.ProgramInit?
    ensures e decreases to p
  {
    if e.ThreadInit? then e.creation else e.prev
  }

  /** The previous event on the same lock. */
  function LockPreds(e: Event): (ps: set<Event>)
    ensures forall p :: p in ps ==> (e decreases to p)
  {
    if (e.LockAcquire? || e.LockRelease? || e.Wait1? || e.Wait2?) && e.lockPred.Some? then {e.lockPred.value} else {}
  }

  /** The predecessors on the condition variable, or the exit of the joined thread. */
  function OtherPreds(e: Event): (ps: set<Event>)
    ensures forall p :: p in ps ==> (e decreases to p)
  {
    if e.Wait1? || e.Signal? || e.Broadcast? then e.condPreds
    else if e.Wait2? then {e.notifier}
    else if e.ThreadJoin? then {e.exited}
    else {}
  }

  function Preds(e: Event): (ps: set<Event>)
    ensures forall p :: p in ps ==> (e decreases to p)
    ensures !e.ProgramInit? ==> Prev(e) in ps
  {
    if e.ProgramInit? then {} else {Prev(e)} + LockPreds(e) + OtherPreds(e)
  }

  predicate Releasing(e: Event) {
    e.LockRelease? || e.Wait1? || e.LockCreate?
  }

  predicate Acquiring(e: Event) {
    e.LockAcquire? || e.Wait2?
  }

  predicate Notification(e: Event) {
    e.Signal? || e.Broadcast?
  }

  /** The wait1 events a signal or broadcast wakes up. */
  function Waits(n: Event): set<Event>
    requires Notification(n)
  {
    set w | w in n.condPreds && w.Wait1?
  }

  predicate IsLost(n: Event)
    requires Notification(n)
  {
    Waits(n) == {}
  }

  predicate Notifies(n: Event, w: Event) {
    Notification(n) && w in n.condPreds && w.Wait1?
  }

  predicate NotifiesThread(n: Event, t: Tid) {
    Notification(n) && exists w | w in n.condPreds :: w.Wait1? && TidOf(w) == t
  }

  // ---------------------------------------------------------------- causality

  /** Strict causality: `a` is reachable from `b` by predecessor edges. */
  predicate Before(a: Event, b: Event)
    decreases b
  {
    exists p | p in Preds(b) :: a == p || Before(a, p)
  }

  predicate BeforeEq(a: Event, b: Event) {
    a == b || Before(a, b)
  }

  /** Every strict cause of an event. */
  function Causes(e: Event): set<Event>
    decreases e
  {
    set p, x | p in Preds(e) && x in {p} + Causes(p) :: x
  }

  lemma {:induction false} CausesIsBefore(a: Event, b: Event)
    ensures a in Causes(b) <==> Before(a, b)
    decreases b
  {
    forall p | p in Preds(b)
      ensures a in Causes(p) <==> Before(a, p)
    {
      CausesIsBefore(a, p);
    }
    assert a in Causes(b) <==> exists p :: p in Preds(b) && a in {p} + Causes(p);
  }

  lemma {:induction false} BeforeTransitive(a: Event, b: Event, c: Event)
    requires Before(a, b) && Before(b, c)
    ensures Before(a, c)
    decreases c
  {
    var p :| p in Preds(c) && (b == p || Before(b, p));
    if b != p {
      BeforeTransitive(a, b, p);
    }
  }

  lemma BeforeEqTransitive(a: Event, b: Event, c: Event)
    requires BeforeEq(a, b) && BeforeEq(b, c)
    ensures BeforeEq(a, c)
    ensures a != b && Before(b, c) ==> Before(a, c)
    ensures Before(a, b) ==> Before(a, c)
    ensures Before(b, c) ==> Before(a, c)
  {
    if a != b && b != c {
      BeforeTransitive(a, b, c);
    }
  }

  // ---------------------------------------------------------------- depth

  /** Zero for program_init, else one more than the deepest predecessor. */
  function Depth(e: Event): (d: nat)
    ensures forall p {:trigger Depth(p)} :: p in Preds(e) ==> Depth(p) < d
    ensures e.ProgramInit? <==> d == 0
    decreases e
  {
    if e.ProgramInit? then 0
    else
      var depths := set q | q in Preds(e) :: Depth(q);
      assert Depth(Prev(e)) in depths;
      assert forall p :: p in Preds(e) ==> Depth(p) in depths;
      1 + MaxOf(depths)
  }

  lemma DeepestPred(e: Event) returns (p: Event)
    requires !e.ProgramInit?
    ensures p in Preds(e) && Depth(e) == Depth(p) + 1
  {
    var depths := set q | q in Preds(e) :: Depth(q);
    assert Depth(Prev(e)) in depths;
    assert Depth(e) == 1 + MaxOf(depths);
    p :| p in Preds(e) && Depth(p) == MaxOf(depths);
  }

  /** Events that each precede the next one, up to `e`. */
  ghost predicate IsChain(c: seq<Event>, e: Event) {
    |c| > 0 && c[|c| - 1] == e && forall i :: 0 <= i < |c| - 1 ==> c[i] in Preds(c[i + 1])
  }

  lemma {:induction false} LongChain(e: Event) returns (c: seq<Event>)
    ensures IsChain(c, e) && |c| == Depth(e) + 1
    decreases e
  {
    hide Depth, IsChain;
    c := [e];
    if e.ProgramInit? {
      ShortChain(e);
    } else {
      var p := DeepestPred(e);
      c := LongChain(p);
      ChainGrows(c, p, e);
      c := c + [e];
    }
  }

  lemma ShortChain(e: Event)
    requires e.ProgramInit?
    ensures IsChain([e], e) && Depth(e) == 0
  {
  }

  lemma ChainGrows(c: seq<Event>, p: Event, e: Event)
    requires IsChain(c, p) && p in Preds(e)
    ensures IsChain(c + [e], e)
  {
  }

  lemma {:induction false} NoLongerChain(c: seq<Event>, e: Event)
    requires IsChain(c, e)
    ensures |c| <= Depth(e) + 1
    decreases |c|
  {
    var n := |c| - 1;
    if n > 0 {
      assert c[n - 1] in Preds(c[n - 1 + 1]);
      NoLongerChain(c[..n], c[n - 1]);
    }
  }

  /** The depth is the length of the longest chain of causes. */
  lemma DepthExact(e: Event)
    ensures exists c :: IsChain(c, e) && |c| == Depth(e) + 1
    ensures forall c :: IsChain(c, e) ==> |c| <= Depth(e) + 1
  {
    var c := LongChain(e);
    forall c | IsChain(c, e)
      ensures |c| <= Depth(e) + 1
    {
      NoLongerChain(c, e);
    }
  }

  lemma {:induction false} BeforeIsShallower(a: Event, b: Event)
    requires Before(a, b)
    ensures Depth(a) < Depth(b)
    decreases b
  {
    var p :| p in Preds(b) && (a == p || Before(a, p));
    if a != p {
      BeforeIsShallower(a, p);
    }
  }
}
