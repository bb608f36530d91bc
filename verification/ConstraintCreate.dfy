/** The simplifying constructors of boolean nodes and reads: constants are folded, boolean operators
    with a constant operand disappear, negations are pushed inside, equations are solved, reads are
    rolled back over updates. */
module ConstraintCreate {
  import opened Arithmetic
  import opened Bits
  import opened ConstraintOps
  import opened ConstraintExprs
  import opened ConstraintWeight
  import opened ConstraintWords
  import M = MemoryExprs

  // ---------------------------------------------------------------- and, or

  function CreateAnd(l: Expr, r: Expr): Expr {
    if l.Const? && r.Const? then Const(Truth(l.value == 1 && r.value == 1), 1)
    else if l.Const? then AndPartial(r, l)
    else if r.Const? then AndPartial(l, r)
    else And(l, r)
  }

  function AndPartial(l: Expr, cr: Expr): Expr {
    if cr == TRUE && IsBool(l) then l else if cr == FALSE then cr else And(l, cr)
  }

  function CreateOr(l: Expr, r: Expr): Expr {
    if l.Const? && r.Const? then Const(Truth(l.value == 1 || r.value == 1), 1)
    else if l.Const? then OrPartial(r, l)
    else if r.Const? then OrPartial(l, r)
    else Or(l, r)
  }

  function OrPartial(l: Expr, cr: Expr): Expr {
    if cr == TRUE then cr else if cr == FALSE && IsBool(l) then l else Or(l, cr)
  }

  // ---------------------------------------------------------------- equality

  function CreateEq(l: Expr, r: Expr): Expr {
    if l.Const? && r.Const? then Const(Truth(l.value == r.value), 1)
    else if l.Const? then EqPartial(l, r)
    else if r.Const? then EqPartial(r, l)
    else if l == r then TRUE
    else Eq(l, r)
  }

  function CreateIsZero(e: Expr): Expr
    decreases e, 1
  {
    var zero := Const(0, Width(e));
    if e.Const? then Const(Truth(e.value == 0), 1) else EqPartial(zero, e)
  }

  /** An equality with a constant on the left. */
  function EqPartial(cl: Expr, r: Expr): Expr
    requires cl.Const?
    decreases r, 0
  {
    if cl == TRUE && IsBool(r) then r
    else if cl == FALSE && r.Eq? && r.left == FALSE && IsBool(r.right) then r.right
    else if cl == FALSE && r.Or? && IsBool(r.left) && IsBool(r.right) then
      CreateAnd(CreateIsZero(r.left), CreateIsZero(r.right))
    else if cl.width != 1 && Shortens(cl, r) then
      var low := Const(Mod(cl.value, Pow2(r.from)), r.from);
      if cl.value != Extended(r.signed, low.value, r.from, r.width) then FALSE
      else if r.expr.Const? then Const(Truth(r.expr.value == low.value), 1)
      else EqPartial(low, r.expr)
    else if cl.width != 1 && Solvable(cl, r) then
      if r.Add? then EqPartial(Const(Minus(cl.value, r.left.value, r.width), r.width), r.right)
      else EqPartial(Const(Minus(r.left.value, cl.value, r.width), r.width), r.right)
    else Eq(cl, r)
  }

  /** A constant equal to an expression that was extended. */
  predicate Shortens(cl: Expr, r: Expr)
    requires cl.Const?
  {
    r.Cast? && r.from <= r.width && cl.value < Pow2(r.width) && Bounded(r.expr, r.from)
  }

  /** A constant equal to a sum or difference with a constant on its left. */
  predicate Solvable(cl: Expr, r: Expr)
    requires cl.Const?
  {
    (r.Add? || r.Sub?) && r.left.Const? && cl.value < Pow2(r.width) && Bounded(r.right, r.width)
  }

  // ---------------------------------------------------------------- select

  function CreateSelect(c: Expr, t: Expr, f: Expr): Expr {
    if c.Const? then if c.value == 1 then t else f
    else if t == f then t
    else if !IsBool(c) || !IsBool(t) || !IsBool(f) then Select(c, t, f)
    else if t == TRUE then CreateOr(c, f)
    else if t == FALSE then CreateAnd(CreateIsZero(c), f)
    else if f == TRUE then CreateOr(CreateIsZero(c), t)
    else if f == FALSE then CreateAnd(c, t)
    else Select(c, t, f)
  }

  // ---------------------------------------------------------------- reads

  /** The updates that are left after those that certainly do not matter. */
  function RollBack(u: Updates, index: Expr): Updates {
    if u.Node? && CreateEq(index, u.index) == FALSE then RollBack(u.next, index) else u
  }

  function CreateRead(root: M.Array, u: Updates, width: nat, index: Expr): Expr {
    var un := RollBack(u, index);
    if un.Node? && CreateEq(index, un.index) == TRUE && Bounded(un.value, width) then un.value
    else if !index.Const? || index.value >= M.ArraySize(root) then Read(root, u, width, index)
    else if root.ConstantArray? && un == Nil then Const(root.values[index.value] % Pow2(width), width)
    else Read(root, un, width, index)
  }

  // ---------------------------------------------------------------- meaning

  lemma AndMeans(sem: Operators, l: Expr, r: Expr, a: M.Assignment)
    ensures Eval(sem, CreateAnd(l, r), a) == Eval(sem, And(l, r), a)
  {
    forall e | IsBool(e)
      ensures Eval(sem, e, a) < 2
    {
      BoolIsBit(sem, e, a);
    }
  }

  lemma OrMeans(sem: Operators, l: Expr, r: Expr, a: M.Assignment)
    ensures Eval(sem, CreateOr(l, r), a) == Eval(sem, Or(l, r), a)
  {
    forall e | IsBool(e)
      ensures Eval(sem, e, a) < 2
    {
      BoolIsBit(sem, e, a);
    }
  }

  /** Solving for the summand that is not constant. */
  lemma SolveSum(c: nat, k: nat, b: nat, w: nat)
    requires c < Pow2(w) && b < Pow2(w)
    ensures c == Plus(k, b, w) <==> Minus(c, k, w) == b
    ensures c == Minus(k, b, w) <==> Minus(k, c, w) == b
  {
    hide Pow2, Mod;
    var m := Pow2(w);
    SmallMod(b, m);
    SmallMod(c, m);
    ReduceFirst(m, k + b, 0 - k);
    ReduceSecond(m, k, c - k);
    ReduceSecond(m, k, k - b);
    ReduceSecond(m, k, k - c);
  }

  lemma {:induction false} PartialMeans(sem: Operators, cl: Expr, r: Expr, a: M.Assignment)
    requires cl.Const?
    ensures Eval(sem, EqPartial(cl, r), a) == Eval(sem, Eq(cl, r), a)
    decreases r, 0
  {
    hide Pow2, Plus, Minus, Bounded, CreateAnd, Extended, Mod;
    if cl == TRUE && IsBool(r) {
      BoolIsBit(sem, r, a);
    } else if cl == FALSE && r.Eq? && r.left == FALSE && IsBool(r.right) {
      BoolIsBit(sem, r.right, a);
    } else if cl == FALSE && r.Or? && IsBool(r.left) && IsBool(r.right) {
      BoolIsBit(sem, r.left, a);
      BoolIsBit(sem, r.right, a);
      IsZeroMeans(sem, r.left, a);
      IsZeroMeans(sem, r.right, a);
      AndMeans(sem, CreateIsZero(r.left), CreateIsZero(r.right), a);
    } else if cl.width != 1 && Shortens(cl, r) {
      var x := Eval(sem, r.expr, a);
      BoundHolds(sem, r.expr, r.from, a);
      ExtensionSolved(r.signed, cl.value, x, r.from, r.width);
      PartialMeans(sem, Const(Mod(cl.value, Pow2(r.from)), r.from), r.expr, a);
    } else if cl.width != 1 && Solvable(cl, r) {
      var b := Eval(sem, r.right, a);
      BoundHolds(sem, r.right, r.width, a);
      SumValues(sem, r, r.width, a);
      SolveSum(cl.value, r.left.value, b, r.width);
      if r.Add? {
        PartialMeans(sem, Const(Minus(cl.value, r.left.value, r.width), r.width), r.right, a);
      } else {
        PartialMeans(sem, Const(Minus(r.left.value, cl.value, r.width), r.width), r.right, a);
      }
    }
  }

  lemma {:induction false} IsZeroMeans(sem: Operators, e: Expr, a: M.Assignment)
    ensures Eval(sem, CreateIsZero(e), a) == Truth(Eval(sem, e, a) == 0)
    decreases e, 1
  {
    if !e.Const? {
      PartialMeans(sem, Const(0, Width(e)), e, a);
    }
  }

  lemma EqMeans(sem: Operators, l: Expr, r: Expr, a: M.Assignment)
    ensures Eval(sem, CreateEq(l, r), a) == Eval(sem, Eq(l, r), a)
  {
    if l.Const? && !r.Const? {
      PartialMeans(sem, l, r, a);
    } else if r.Const? && !l.Const? {
      PartialMeans(sem, r, l, a);
    }
  }

  lemma SelectMeans(sem: Operators, c: Expr, t: Expr, f: Expr, a: M.Assignment)
    ensures Eval(sem, CreateSelect(c, t, f), a) == Eval(sem, Select(c, t, f), a)
  {
    hide CreateAnd, CreateOr, CreateIsZero, IsBool;
    if !c.Const? && t != f && IsBool(c) && IsBool(t) && IsBool(f) {
      BoolIsBit(sem, c, a);
      BoolIsBit(sem, t, a);
      BoolIsBit(sem, f, a);
      IsZeroMeans(sem, c, a);
      OrMeans(sem, c, f, a);
      AndMeans(sem, CreateIsZero(c), f, a);
      OrMeans(sem, CreateIsZero(c), t, a);
      AndMeans(sem, c, t, a);
    }
  }

  lemma {:induction false} RollBackMeans(sem: Operators, root: M.Array, u: Updates, index: Expr, a: M.Assignment)
    ensures var i := Eval(sem, index, a); Stored(sem, root, RollBack(u, index), i, a) == Stored(sem, root, u, i, a)
  {
    if u.Node? && CreateEq(index, u.index) == FALSE {
      EqMeans(sem, index, u.index, a);
      RollBackMeans(sem, root, u.next, index, a);
    }
  }

  lemma ReadMeans(sem: Operators, root: M.Array, u: Updates, width: nat, index: Expr, a: M.Assignment)
    ensures Eval(sem, CreateRead(root, u, width, index), a) == Eval(sem, Read(root, u, width, index), a)
  {
    hide CreateEq, RollBack, Pow2, Bounded;
    RollBackMeans(sem, root, u, index, a);
    var un := RollBack(u, index);
    if un.Node? {
      EqMeans(sem, index, un.index, a);
      if Bounded(un.value, width) {
        BoundHolds(sem, un.value, width, a);
        Remainder(Pow2(width), 0, Eval(sem, un.value, a));
      }
    }
  }

  // ---------------------------------------------------------------- no rule makes a node heavier

  lemma AndWeight(l: Expr, r: Expr)
    ensures Weight(CreateAnd(l, r)) <= 1 + Weight(l) + Weight(r)
  {
  }

  lemma OrWeight(l: Expr, r: Expr)
    ensures Weight(CreateOr(l, r)) <= 2 + Weight(l) + Weight(r)
  {
  }

  lemma {:induction false} PartialWeight(cl: Expr, r: Expr)
    requires cl.Const?
    ensures Weight(EqPartial(cl, r)) <= 1 + Weight(r)
    decreases r, 0
  {
    if cl == FALSE && r.Or? && IsBool(r.left) && IsBool(r.right) {
      IsZeroWeight(r.left);
      IsZeroWeight(r.right);
      AndWeight(CreateIsZero(r.left), CreateIsZero(r.right));
    } else if cl.width != 1 && Shortens(cl, r) {
      PartialWeight(Const(Mod(cl.value, Pow2(r.from)), r.from), r.expr);
    } else if cl.width != 1 && Solvable(cl, r) {
      if r.Add? {
        PartialWeight(Const(Minus(cl.value, r.left.value, r.width), r.width), r.right);
      } else {
        PartialWeight(Const(Minus(r.left.value, cl.value, r.width), r.width), r.right);
      }
    }
  }

  lemma {:induction false} IsZeroWeight(e: Expr)
    ensures Weight(CreateIsZero(e)) <= 1 + Weight(e)
    decreases e, 1
  {
    if !e.Const? {
      PartialWeight(Const(0, Width(e)), e);
    }
  }

  lemma EqWeight(l: Expr, r: Expr)
    ensures Weight(CreateEq(l, r)) <= 1 + Weight(l) + Weight(r)
  {
    if l.Const? {
      PartialWeight(l, r);
    } else if r.Const? {
      PartialWeight(r, l);
    }
  }

  lemma PlainSelectWeight(c: Expr, t: Expr, f: Expr)
    ensures Weight(Select(c, t, f)) == 3 + Weight(c) + Weight(t) + Weight(f)
  {
  }

  lemma SelectWeight(c: Expr, t: Expr, f: Expr)
    ensures Weight(CreateSelect(c, t, f)) <= 3 + Weight(c) + Weight(t) + Weight(f)
  {
    hide CreateAnd, CreateOr, CreateIsZero, IsBool, Weight;
    PlainSelectWeight(c, t, f);
    IsZeroWeight(c);
    OrWeight(c, f);
    AndWeight(CreateIsZero(c), f);
    OrWeight(CreateIsZero(c), t);
    AndWeight(c, t);
  }

  lemma {:induction false} RollBackWeight(u: Updates, index: Expr)
    ensures UpdatesWeight(RollBack(u, index)) <= UpdatesWeight(u)
  {
    if u.Node? {
      RollBackWeight(u.next, index);
    }
  }
}
