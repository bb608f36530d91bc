/** Widths of expressions, and a measure under which the simplifying constructors make progress. */
module ConstraintWeight {
  import opened Arithmetic
  import opened Bits
  import opened ConstraintOps
  import opened ConstraintExprs
  import M = MemoryExprs

  function Width(e: Expr): nat {
    match e
    case Const(_, w) => w
    case Select(_, t, _) => Width(t)
    case Add(w, _, _) => w
    case Sub(w, _, _) => w
    case Binary(op, w, _, _) => if Compares(op) then 1 else w
    case Cast(_, _, _, w) => w
    case Concat(l, _, low) => Width(l) + low
    case Extract(_, _, w) => w
    case Read(_, _, w, _) => w
    case App(_, w, _) => w
    case _ => 1
  }

  /** The value fits into `w` bits, whatever the assignment. */
  predicate Bounded(e: Expr, w: nat) {
    match e
    case Const(v, u) => u == w && v < Pow2(w)
    case Select(_, t, f) => Bounded(t, w) && Bounded(f, w)
    case Add(u, _, _) => u == w
    case Sub(u, _, _) => u == w
    case Binary(op, u, _, _) => w == if Compares(op) then 1 else u
    case Cast(_, _, _, u) => u == w
    case Concat(l, _, low) => low <= w && Bounded(l, w - low)
    case Extract(_, _, u) => u == w
    case Read(_, _, u, _) => u == w
    case App(_, u, _) => u == w
    case _ => w == 1
  }

  predicate IsBool(e: Expr) {
    Bounded(e, 1)
  }

  /** Operands have the widths the constructors demand. */
  predicate WellTyped(e: Expr)
    decreases e
  {
    match e
    case Const(v, w) => v < Pow2(w)
    case And(l, r) => WellTyped(l) && WellTyped(r) && Width(l) == 1 && Width(r) == 1
    case Or(l, r) => WellTyped(l) && WellTyped(r) && Width(l) == 1 && Width(r) == 1
    case Eq(l, r) => WellTyped(l) && WellTyped(r) && Width(l) == Width(r)
    case Select(c, t, f) =>
      WellTyped(c) && WellTyped(t) && WellTyped(f) && Width(c) == 1 && Width(t) == Width(f)
    case Add(w, l, r) => WellTyped(l) && WellTyped(r) && Width(l) == w && Width(r) == w
    case Sub(w, l, r) => WellTyped(l) && WellTyped(r) && Width(l) == w && Width(r) == w
    case Binary(_, w, l, r) => WellTyped(l) && WellTyped(r) && Width(l) == w && Width(r) == w
    case Cast(_, x, from, _) => WellTyped(x) && Width(x) == from
    case Concat(l, r, low) => WellTyped(l) && WellTyped(r) && Width(r) == low
    case Extract(x, off, w) => WellTyped(x) && off + w <= Width(x)
    case Read(_, u, w, x) => WellTyped(x) && WellTypedUpdates(u, w)
    case App(_, _, kids) => forall k | 0 <= k < |kids| :: WellTyped(kids[k])
  }

  predicate WellTypedUpdates(u: Updates, w: nat)
    decreases u
  {
    match u
    case Nil => true
    case Node(x, v, next) => WellTyped(x) && WellTyped(v) && Width(v) == w && WellTypedUpdates(next, w)
  }

  /** The code compares widths; on well-typed expressions that is the same. */
  lemma BoundedByWidth(e: Expr, w: nat)
    requires WellTyped(e)
    ensures Bounded(e, w) <==> Width(e) == w
  {
    hide Pow2;
  }

  lemma {:induction false} BoundHolds(sem: Operators, e: Expr, w: nat, a: M.Assignment)
    requires Bounded(e, w)
    ensures Eval(sem, e, a) < Pow2(w)
    decreases e
  {
    hide Pow2;
    match e
    case Select(_, t, f) =>
      BoundHolds(sem, t, w, a);
      BoundHolds(sem, f, w, a);
    case Concat(l, r, low) =>
      BoundHolds(sem, l, w - low, a);
      AboveBounded(Eval(sem, l, a), Eval(sem, r, a) % Pow2(low), low, w);
    case Binary(op, u, l, r) => ComputedBound(op, Eval(sem, l, a), Eval(sem, r, a), u);
    case And(_, _) => OneBit();
    case Or(_, _) => OneBit();
    case Eq(_, _) => OneBit();
    case _ =>
  }

  lemma OneBit()
    ensures Pow2(1) == 2
  {
    assert Pow2(0) == 1;
  }

  lemma BoolIsBit(sem: Operators, e: Expr, a: M.Assignment)
    requires IsBool(e)
    ensures Eval(sem, e, a) < 2
  {
    BoundHolds(sem, e, 1, a);
    OneBit();
  }

  // ---------------------------------------------------------------- weights

  /** Pushing a negation into an `Or` gives an `And` and one equality more, turning a `Select` into an
      `Or` an equality; an extraction may be distributed over a concatenation.  They weigh
      accordingly.  A read weighs as much as anything it may turn into. */
  function Weight(e: Expr): nat
    decreases e
  {
    match e
    case Const(_, _) => 0
    case And(l, r) => 1 + Weight(l) + Weight(r)
    case Or(l, r) => 2 + Weight(l) + Weight(r)
    case Eq(l, r) => 1 + Weight(l) + Weight(r)
    case Select(c, t, f) => 3 + Weight(c) + Weight(t) + Weight(f)
    case Add(_, l, r) => 1 + Weight(l) + Weight(r)
    case Sub(_, l, r) => 1 + Weight(l) + Weight(r)
    case Binary(op, _, l, r) => OpWeight(op) + Weight(l) + Weight(r)
    case Cast(_, x, _, _) => 1 + 2 * Weight(x)
    case Concat(l, r, _) => 1 + Weight(l) + Weight(r)
    case Extract(x, _, _) => 1 + 2 * Weight(x)
    case Read(_, u, _, index) => 1 + UpdatesWeight(u) + Weight(index)
    case App(_, _, kids) => 1 + KidsWeight(kids)
  }

  /** On one bit, most operators become an `And` or an `Or` of which one side is negated. */
  function OpWeight(op: BinaryOp): nat {
    if op.BitAnd? || op.BitXor? || op.Times? then 1 else 3
  }

  function KidsWeight(es: seq<Expr>): nat
    decreases es
  {
    if es == [] then 0 else Weight(es[0]) + KidsWeight(es[1..])
  }

  function UpdatesWeight(u: Updates): nat
    decreases u
  {
    match u
    case Nil => 0
    case Node(x, v, next) => Weight(x) + Weight(v) + UpdatesWeight(next)
  }

  lemma {:induction false} TotalWeight(es: seq<Expr>)
    ensures Total(Weight, es) == KidsWeight(es)
  {
    if es != [] {
      TotalWeight(es[1..]);
    }
  }

  /** What a node weighs without its parts, and how often it counts them. */
  function Own(e: Expr): nat {
    match e
    case Or(_, _) => 2
    case Select(_, _, _) => 3
    case Binary(op, _, _, _) => OpWeight(op)
    case Read(_, u, _, _) => 1 + UpdatesWeight(u)
    case _ => 1
  }

  function Factor(e: Expr): nat {
    if e.Extract? || e.Cast? then 2 else 1
  }

  lemma WeightOfParts(e: Expr)
    requires !e.Const?
    ensures Weight(e) == Own(e) + Factor(e) * Total(Weight, Kids(e)) && Own(e) > 0
  {
    TotalWeight(Kids(e));
    FewKids(Kids(e));
  }

  lemma FewKids(es: seq<Expr>)
    ensures |es| == 1 ==> KidsWeight(es) == Weight(es[0])
    ensures |es| == 2 ==> KidsWeight(es) == Weight(es[0]) + Weight(es[1])
    ensures |es| == 3 ==> KidsWeight(es) == Weight(es[0]) + Weight(es[1]) + Weight(es[2])
  {
    hide Weight;
    if 0 < |es| <= 3 {
      FewKids(es[1..]);
    }
  }

  lemma {:induction false} LighterTotal(es: seq<Expr>, than: seq<Expr>)
    requires Lighter(Weight, es, than)
    ensures Total(Weight, es) <= Total(Weight, than) && (es != than ==> Total(Weight, es) < Total(Weight, than))
  {
    hide Weight;
    if es != [] {
      LighterTail(es, than);
      LighterTotal(es[1..], than[1..]);
    }
  }

  lemma LighterTail(es: seq<Expr>, than: seq<Expr>)
    requires Lighter(Weight, es, than) && es != []
    ensures Lighter(Weight, es[1..], than[1..]) && (es[0] == than[0] || Weight(es[0]) < Weight(than[0]))
    ensures es[0] == than[0] && es[1..] == than[1..] ==> es == than
  {
    hide Weight;
    assert forall k :: 0 <= k < |es| - 1 ==> es[1..][k] == es[k + 1] && than[1..][k] == than[k + 1];
    assert es == [es[0]] + es[1..] && than == [than[0]] + than[1..];
  }

  lemma WeightMeasures()
    ensures Measures(Weight)
  {
    hide Weight, Own, KidsWeight;
    forall e: Expr
      ensures Weight(e) == 0 <==> e.Const?
      ensures !e.Const? ==> Total(Weight, Kids(e)) < Weight(e) && Monotone(Weight, e)
    {
      ConstWeight(e);
      if !e.Const? {
        WeightOfParts(e);
        forall kids | Lighter(Weight, kids, Kids(e)) && kids != Kids(e)
          ensures Weight(WithKids(e, kids)) < Weight(e)
        {
          SameOwn(e, kids);
          WeightOfParts(WithKids(e, kids));
          LighterTotal(kids, Kids(e));
        }
      }
    }
  }

  lemma ConstWeight(e: Expr)
    ensures Weight(e) == 0 <==> e.Const?
  {
  }

  lemma SameOwn(e: Expr, kids: seq<Expr>)
    requires !e.Const? && |kids| == |Kids(e)|
    ensures var r := WithKids(e, kids);
            !r.Const? && Own(r) == Own(e) && Factor(r) == Factor(e) && Kids(r) == kids
  {
  }
}
