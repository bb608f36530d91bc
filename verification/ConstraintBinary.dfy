/** The constructors of the other binary operators, which on one bit become boolean ones. */
module ConstraintBinary {
  import opened Arithmetic
  import opened Bits
  import opened ConstraintOps
  import opened ConstraintExprs
  import opened ConstraintWeight
  import opened ConstraintWords
  import opened ConstraintCreate
  import M = MemoryExprs

  /** With a constant operand. */
  function WithConst(op: BinaryOp, w: nat, cl: Expr, r: Expr): Expr
    requires cl.Const? && (IsBitwise(op) || op.Times?)
  {
    var zero, ones := cl.value == 0, cl.value == AllOnes(w);
    match op
    case BitAnd => if ones then r else if zero then cl else Binary(op, w, r, cl)
    case BitOr => if ones then cl else if zero then r else Binary(op, w, r, cl)
    case BitXor => if zero then r else Binary(op, w, cl, r)
    case Times => if cl.value == 1 then r else if zero then cl else Binary(op, w, cl, r)
  }

  /** An exclusive or with a constant bit. */
  function XorBit(cl: Expr, r: Expr): Expr {
    if cl == FALSE then r else EqPartial(FALSE, r)
  }

  /** On one bit. */
  function CreateBit(op: BinaryOp, l: Expr, r: Expr): Expr {
    match op
    case BitAnd => CreateAnd(l, r)
    case BitOr => CreateOr(l, r)
    case BitXor =>
      if l.Const? then XorBit(l, r) else if r.Const? then XorBit(r, l) else Binary(op, 1, l, r)
    case Times => CreateAnd(l, r)
    case ShiftLeft => CreateAnd(l, CreateIsZero(r))
    case ShiftRight => CreateAnd(l, CreateIsZero(r))
    case ShiftSigned => l
    case Less => CreateAnd(CreateIsZero(l), r)
    case LessEq => CreateOr(CreateIsZero(l), r)
    case LessSigned => CreateAnd(l, CreateIsZero(r))
    case LessEqSigned => CreateOr(l, CreateIsZero(r))
  }

  function CreateBinary(op: BinaryOp, w: nat, l: Expr, r: Expr): Expr {
    if l.Const? && r.Const? then Const(Computed(op, l.value, r.value, w), if Compares(op) then 1 else w)
    else if w == 1 && IsBool(l) && IsBool(r) then CreateBit(op, l, r)
    else if !IsBitwise(op) && !op.Times? then Binary(op, w, l, r)
    else if l.Const? && Bounded(l, w) && Bounded(r, w) then WithConst(op, w, l, r)
    else if r.Const? && Bounded(r, w) && Bounded(l, w) then WithConst(op, w, r, l)
    else Binary(op, w, l, r)
  }

  /** Sums and differences of bits are exclusive ors. */
  function CreateAdd(w: nat, l: Expr, r: Expr): Expr {
    if w == 1 && IsBool(l) && IsBool(r) then CreateBinary(BitXor, 1, l, r) else CreateSum(w, l, r)
  }

  function CreateSub(w: nat, l: Expr, r: Expr): Expr {
    if w == 1 && IsBool(l) && IsBool(r) then CreateBinary(BitXor, 1, l, r) else CreateDifference(w, l, r)
  }

  // ---------------------------------------------------------------- meaning

  lemma WithConstMeans(sem: Operators, op: BinaryOp, w: nat, cl: Expr, r: Expr, a: M.Assignment)
    requires cl.Const? && (IsBitwise(op) || op.Times?) && Bounded(cl, w) && Bounded(r, w)
    ensures var x, y := cl.value, Eval(sem, r, a);
            Eval(sem, WithConst(op, w, cl, r), a) == Computed(op, x, y, w) == Computed(op, y, x, w)
  {
    hide Bounded, Computed, Eval;
    var y := Eval(sem, r, a);
    BoundHolds(sem, r, w, a);
    PlainBinary(sem, op, w, cl, r, a);
    PlainBinary(sem, op, w, r, cl, a);
    if op.Times? {
      TimesUnits(cl.value, y, w);
    } else {
      ComputedBitwise(op, cl.value, y, w);
      BitwiseUnits(y, w);
    }
  }

  lemma TimesUnits(x: nat, y: nat, w: nat)
    requires y < Pow2(w)
    ensures Computed(Times, x, y, w) == Computed(Times, y, x, w)
    ensures Computed(Times, 0, y, w) == 0 && Computed(Times, 1, y, w) == y
  {
    hide Pow2, Mod;
    assert x * y == y * x;
    SmallMod(y, Pow2(w));
    SmallMod(0, Pow2(w));
  }

  lemma ComputedBitwise(op: BinaryOp, x: nat, y: nat, w: nat)
    requires IsBitwise(op)
    ensures Computed(op, x, y, w) == Computed(op, y, x, w) == Bitwise(op, x, y, w)
  {
    BitwiseSwaps(op, x, y, w);
  }

  lemma XorBitMeans(sem: Operators, cl: Expr, r: Expr, a: M.Assignment)
    requires cl.Const? && IsBool(cl) && IsBool(r)
    ensures Eval(sem, XorBit(cl, r), a) == Truth(cl.value != Eval(sem, r, a))
  {
    hide EqPartial;
    BoolIsBit(sem, r, a);
    BoolIsBit(sem, cl, a);
    PartialMeans(sem, FALSE, r, a);
  }

  lemma CreateBitMeans(sem: Operators, op: BinaryOp, l: Expr, r: Expr, a: M.Assignment)
    requires IsBool(l) && IsBool(r)
    ensures Eval(sem, CreateBit(op, l, r), a) == Computed(op, Eval(sem, l, a), Eval(sem, r, a), 1)
  {
    hide CreateAnd, CreateOr, CreateIsZero, XorBit, IsBool, Computed, Plus, Minus, Eval;
    BoolIsBit(sem, l, a);
    BoolIsBit(sem, r, a);
    OneBitOperators(Eval(sem, l, a), Eval(sem, r, a));
    var nl, nr := CreateIsZero(l), CreateIsZero(r);
    PlainBool(sem, l, r, a);
    PlainBool(sem, nl, r, a);
    PlainBool(sem, l, nr, a);
    PlainBinary(sem, op, 1, l, r, a);
    IsZeroMeans(sem, l, a);
    IsZeroMeans(sem, r, a);
    match op
    case BitAnd => AndMeans(sem, l, r, a);
    case BitOr => OrMeans(sem, l, r, a);
    case BitXor =>
      if l.Const? {
        XorBitMeans(sem, l, r, a);
      } else if r.Const? {
        XorBitMeans(sem, r, l, a);
      }
    case Times => AndMeans(sem, l, r, a);
    case ShiftSigned =>
    case Less => AndMeans(sem, nl, r, a);
    case LessEq => OrMeans(sem, nl, r, a);
    case LessEqSigned => OrMeans(sem, l, nr, a);
    case _ => AndMeans(sem, l, nr, a);
  }

  lemma PlainBool(sem: Operators, l: Expr, r: Expr, a: M.Assignment)
    ensures Eval(sem, And(l, r), a) == Truth(Eval(sem, l, a) == 1 && Eval(sem, r, a) == 1)
    ensures Eval(sem, Or(l, r), a) == Truth(Eval(sem, l, a) == 1 || Eval(sem, r, a) == 1)
    ensures l.Const? ==> Eval(sem, l, a) == l.value
    ensures r.Const? ==> Eval(sem, r, a) == r.value
  {
  }

  lemma PlainBinary(sem: Operators, op: BinaryOp, w: nat, l: Expr, r: Expr, a: M.Assignment)
    ensures Eval(sem, Binary(op, w, l, r), a) == Computed(op, Eval(sem, l, a), Eval(sem, r, a), w)
    ensures forall c, u :: Eval(sem, Const(c, u), a) == c
  {
    hide Computed;
  }

  lemma BinaryMeans(sem: Operators, op: BinaryOp, w: nat, l: Expr, r: Expr, a: M.Assignment)
    ensures Eval(sem, CreateBinary(op, w, l, r), a) == Computed(op, Eval(sem, l, a), Eval(sem, r, a), w)
  {
    hide CreateBit, WithConst, Bounded, Computed, IsBool, IsBitwise, Compares, Eval;
    PlainBinary(sem, op, w, l, r, a);
    if l.Const? && r.Const? {
    } else if w == 1 && IsBool(l) && IsBool(r) {
      CreateBitMeans(sem, op, l, r, a);
    } else if !IsBitwise(op) && !op.Times? {
    } else if l.Const? && Bounded(l, w) && Bounded(r, w) {
      WithConstMeans(sem, op, w, l, r, a);
    } else if r.Const? && Bounded(r, w) && Bounded(l, w) {
      WithConstMeans(sem, op, w, r, l, a);
    }
  }

  lemma AddMeans(sem: Operators, w: nat, l: Expr, r: Expr, a: M.Assignment)
    ensures Eval(sem, CreateAdd(w, l, r), a) == Plus(Eval(sem, l, a), Eval(sem, r, a), w)
  {
    hide Plus, Minus, Computed, IsBool, CreateBinary, CreateSum;
    if w == 1 && IsBool(l) && IsBool(r) {
      BinaryMeans(sem, BitXor, 1, l, r, a);
      BoolIsBit(sem, l, a);
      BoolIsBit(sem, r, a);
      OneBitOperators(Eval(sem, l, a), Eval(sem, r, a));
    } else {
      SumMeans(sem, w, l, r, a);
    }
  }

  lemma SubMeans(sem: Operators, w: nat, l: Expr, r: Expr, a: M.Assignment)
    ensures Eval(sem, CreateSub(w, l, r), a) == Minus(Eval(sem, l, a), Eval(sem, r, a), w)
  {
    hide Plus, Minus, Computed, IsBool, CreateBinary, CreateDifference;
    if w == 1 && IsBool(l) && IsBool(r) {
      BinaryMeans(sem, BitXor, 1, l, r, a);
      BoolIsBit(sem, l, a);
      BoolIsBit(sem, r, a);
      OneBitOperators(Eval(sem, l, a), Eval(sem, r, a));
    } else {
      DifferenceMeans(sem, w, l, r, a);
    }
  }

  // ---------------------------------------------------------------- weight

  lemma PlainBinaryWeight(op: BinaryOp, l: Expr, r: Expr)
    ensures Weight(Binary(op, 1, l, r)) == OpWeight(op) + Weight(l) + Weight(r)
  {
  }

  lemma BitWeight(op: BinaryOp, l: Expr, r: Expr)
    ensures Weight(CreateBit(op, l, r)) <= OpWeight(op) + Weight(l) + Weight(r)
  {
    hide CreateAnd, CreateOr, CreateIsZero, EqPartial, Weight;
    PlainBinaryWeight(op, l, r);
    var nl, nr := CreateIsZero(l), CreateIsZero(r);
    IsZeroWeight(l);
    IsZeroWeight(r);
    PartialWeight(FALSE, l);
    PartialWeight(FALSE, r);
    AndWeight(l, r);
    AndWeight(l, nr);
    AndWeight(nl, r);
    OrWeight(l, r);
    OrWeight(nl, r);
    OrWeight(l, nr);
  }

  lemma WithConstWeight(op: BinaryOp, w: nat, l: Expr, r: Expr)
    requires IsBitwise(op) || op.Times?
    ensures l.Const? ==> Weight(WithConst(op, w, l, r)) <= OpWeight(op) + Weight(l) + Weight(r)
    ensures r.Const? ==> Weight(WithConst(op, w, r, l)) <= OpWeight(op) + Weight(l) + Weight(r)
  {
  }

  lemma BinaryWeight(op: BinaryOp, w: nat, l: Expr, r: Expr)
    ensures Weight(CreateBinary(op, w, l, r)) <= OpWeight(op) + Weight(l) + Weight(r)
  {
    hide CreateBit, Bounded, Computed, IsBool, IsBitwise, Compares, WithConst;
    BitWeight(op, l, r);
    if IsBitwise(op) || op.Times? {
      WithConstWeight(op, w, l, r);
    }
  }

  lemma SumsWeight(w: nat, l: Expr, r: Expr)
    ensures Weight(CreateAdd(w, l, r)) <= 1 + Weight(l) + Weight(r)
    ensures Weight(CreateSub(w, l, r)) <= 1 + Weight(l) + Weight(r)
  {
    hide CreateBinary, CreateSum, CreateDifference, IsBool, Weight;
    BinaryWeight(BitXor, 1, l, r);
  }
}
