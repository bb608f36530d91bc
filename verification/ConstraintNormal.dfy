/** What the constructors build is in normal form: no rule applies to any node of it. */
module ConstraintNormal {
  import opened Arithmetic
  import opened Bits
  import opened ConstraintOps
  import opened ConstraintExprs
  import opened ConstraintWeight
  import opened ConstraintWords
  import opened ConstraintCreate
  import opened ConstraintBinary
  import opened ConstraintRebuild
  import M = MemoryExprs

  // ---------------------------------------------------------------- nodes to which no rule applies

  /** A sum or difference with a constant on the left. */
  predicate Offset(e: Expr) {
    (e.Add? || e.Sub?) && e.left.Const?
  }

  predicate ReducedEq(l: Expr, r: Expr) {
    && !r.Const? && l != r
    && (l.Const? ==>
          if l.width == 1 then l == FALSE && !r.Or? && !(r.Eq? && r.left == FALSE)
          else !r.Cast? && !Offset(r))
  }

  predicate ReducedSum(e: Expr)
    requires e.Add? || e.Sub?
  {
    && e.width != 1 && !e.right.Const? && !Offset(e.left) && !Offset(e.right)
    && (e.Add? ==> e.left != Const(0, e.width))
    && (e.Sub? ==> e.left != e.right)
  }

  predicate ReducedBinary(op: BinaryOp, w: nat, l: Expr, r: Expr) {
    if w == 1 then op == BitXor && !l.Const? && !r.Const?
    else
      match op
      case BitAnd => !l.Const? && (r.Const? ==> r.value != 0 && r.value != AllOnes(w))
      case BitOr => !l.Const? && (r.Const? ==> r.value != 0 && r.value != AllOnes(w))
      case BitXor => !r.Const? && (l.Const? ==> l.value != 0)
      case Times => !r.Const? && (l.Const? ==> l.value != 0 && l.value != 1)
      case _ => !(l.Const? && r.Const?)
  }

  /** The last update that may be to `index` certainly is. */
  predicate Decided(u: Updates, index: Expr) {
    u.Node? && (CreateEq(index, u.index) == TRUE || (CreateEq(index, u.index) == FALSE && Decided(u.next, index)))
  }

  predicate ReducedRead(root: M.Array, u: Updates, index: Expr) {
    && !Decided(u, index)
    && (index.Const? && index.value < M.ArraySize(root) ==>
          if u.Nil? then !root.ConstantArray? else CreateEq(index, u.index) != FALSE)
  }

  predicate Reduced(e: Expr) {
    match e
    case Const(_, _) => true
    case And(l, r) => !l.Const? && !r.Const?
    case Or(l, r) => !l.Const? && !r.Const?
    case Eq(l, r) => ReducedEq(l, r)
    case Select(c, t, f) => !c.Const? && t != f && (Width(t) == 1 ==> !t.Const? && !f.Const?)
    case Add(_, _, _) => ReducedSum(e)
    case Sub(_, _, _) => ReducedSum(e)
    case Binary(op, w, l, r) => ReducedBinary(op, w, l, r)
    case Cast(_, x, from, w) => from < w && !x.Const?
    case Concat(l, r, low) => !(l.Const? && r.Const?) && !Contiguous(l, r, low)
    case Extract(x, _, w) => !x.Const? && !x.Concat? && w != Width(x)
    case Read(root, u, _, index) => ReducedRead(root, u, index)
    case App(_, _, kids) => exists k :: 0 <= k < |kids| && !kids[k].Const?
  }

  /** No rule applies anywhere, and operands have the widths they must have. */
  predicate Normal(e: Expr)
    decreases e
  {
    && WellTyped(e) && Reduced(e)
    && (forall k | 0 <= k < |Kids(e)| :: Normal(Kids(e)[k]))
    && (e.Read? ==> NormalUpdates(e.updates))
  }

  predicate NormalUpdates(u: Updates)
    decreases u
  {
    u.Node? ==> Normal(u.index) && Normal(u.value) && NormalUpdates(u.next)
  }

  /** Normal, of width `w`. */
  predicate NormalOf(e: Expr, w: nat) {
    Normal(e) && Width(e) == w
  }

  lemma ConstNormal(v: nat, w: nat)
    requires v < Pow2(w)
    ensures NormalOf(Const(v, w), w)
  {
  }

  lemma BitsNormal()
    ensures NormalOf(TRUE, 1) && NormalOf(FALSE, 1) && Pow2(1) == 2
  {
    OneBit();
  }

  /** A constant bit. */
  lemma NormalBit(e: Expr)
    requires NormalOf(e, 1)
    ensures IsBool(e) && (e.Const? ==> e == TRUE || e == FALSE)
  {
    OneBit();
    BoundedByWidth(e, 1);
  }

  // ---------------------------------------------------------------- boolean nodes

  lemma AndNormal(l: Expr, r: Expr)
    requires NormalOf(l, 1) && NormalOf(r, 1)
    ensures NormalOf(CreateAnd(l, r), 1)
  {
    BitsNormal();
    NormalBit(l);
    NormalBit(r);
    if !l.Const? && !r.Const? {
      NormalPair(And(l, r), l, r);
    }
  }

  lemma OrNormal(l: Expr, r: Expr)
    requires NormalOf(l, 1) && NormalOf(r, 1)
    ensures NormalOf(CreateOr(l, r), 1)
  {
    BitsNormal();
    NormalBit(l);
    NormalBit(r);
    if !l.Const? && !r.Const? {
      NormalPair(Or(l, r), l, r);
    }
  }

  /** A node with two operands. */
  lemma NormalPair(e: Expr, l: Expr, r: Expr)
    requires Kids(e) == [l, r] && Normal(l) && Normal(r) && WellTyped(e) && Reduced(e)
    ensures Normal(e)
  {
    hide WellTyped, Reduced;
    forall k | 0 <= k < |Kids(e)|
      ensures Normal(Kids(e)[k])
    {
      assert Kids(e)[k] == if k == 0 then l else r;
    }
  }

  lemma NormalOne(e: Expr, x: Expr)
    requires Kids(e) == [x] && Normal(x) && WellTyped(e) && Reduced(e) && (e.Read? ==> NormalUpdates(e.updates))
    ensures Normal(e)
  {
    hide WellTyped, Reduced;
  }

  // ---------------------------------------------------------------- equations

  lemma PartOf(e: Expr, k: nat)
    requires Normal(e) && k < |Kids(e)|
    ensures Normal(Kids(e)[k])
  {
  }

  /** The operands of a normal node, and their widths. */
  lemma Operands(e: Expr)
    requires Normal(e)
    ensures e.And? || e.Or? ==> NormalOf(e.left, 1) && NormalOf(e.right, 1)
    ensures e.Eq? ==> Normal(e.left) && NormalOf(e.right, Width(e.left))
    ensures e.Add? || e.Sub? ==> NormalOf(e.left, e.width) && NormalOf(e.right, e.width)
    ensures e.Cast? ==> NormalOf(e.expr, e.from)
    ensures e.Extract? ==> Normal(e.expr) && e.offset + e.width <= Width(e.expr)
    ensures e.Concat? ==> Normal(e.left) && NormalOf(e.right, e.low)
  {
    if e.And? || e.Or? || e.Eq? || e.Add? || e.Sub? || e.Concat? {
      assert Kids(e)[0] == e.left && Kids(e)[1] == e.right;
    } else if e.Cast? || e.Extract? {
      assert Kids(e)[0] == e.expr;
    }
  }

  lemma WordFits(x: int, w: nat)
    ensures Mod(x, Pow2(w)) < Pow2(w)
  {
  }

  lemma ConstantFits(e: Expr)
    requires Normal(e) && e.Const?
    ensures e.value < Pow2(e.width)
  {
  }

  lemma PlainEq(l: Expr, r: Expr)
    requires Normal(l) && NormalOf(r, Width(l)) && ReducedEq(l, r)
    ensures NormalOf(Eq(l, r), 1)
  {
    NormalPair(Eq(l, r), l, r);
  }

  lemma {:induction false} PartialNormal(cl: Expr, r: Expr)
    requires cl.Const? && Normal(cl) && !r.Const? && NormalOf(r, cl.width)
    ensures NormalOf(EqPartial(cl, r), 1)
    decreases r, 1
  {
    hide Pow2, Mod, Extended, CreateAnd, WellTyped, Bounded, Normal, Reduced, EqPartial;
    if cl.width == 1 {
      PartialBit(cl, r);
    } else if r.Cast? {
      PartialCast(cl, r);
    } else if Offset(r) {
      PartialOffset(cl, r);
    } else {
      NoRule(cl, r);
      PlainEq(cl, r);
    }
  }

  lemma NoRule(cl: Expr, r: Expr)
    requires cl.Const? && cl.width != 1 && !r.Cast? && !Offset(r)
    ensures EqPartial(cl, r) == Eq(cl, r)
  {
  }

  lemma {:induction false} PartialBit(cl: Expr, r: Expr)
    requires cl.Const? && cl.width == 1 && Normal(cl) && !r.Const? && NormalOf(r, 1)
    ensures NormalOf(EqPartial(cl, r), 1)
    decreases r, 0
  {
    hide CreateAnd, WellTyped, Normal, Reduced, CreateIsZero;
    BitsNormal();
    NormalBit(cl);
    NormalBit(r);
    Operands(r);
    if cl == FALSE && r.Or? {
      NormalBit(r.left);
      NormalBit(r.right);
      IsZeroNormal(r.left);
      IsZeroNormal(r.right);
      AndNormal(CreateIsZero(r.left), CreateIsZero(r.right));
    } else if cl == FALSE && r.Eq? && r.left == FALSE {
      NormalBit(r.right);
    } else if cl == FALSE {
      PlainEq(cl, r);
    }
  }

  lemma {:induction false} PartialCast(cl: Expr, r: Expr)
    requires cl.Const? && cl.width != 1 && Normal(cl) && r.Cast? && NormalOf(r, cl.width)
    ensures NormalOf(EqPartial(cl, r), 1)
    decreases r, 0
  {
    hide Pow2, Mod, Extended, WellTyped, Bounded, Normal;
    BitsNormal();
    Operands(r);
    ConstantFits(cl);
    NormalReduced(r);
    NormalBounded(r.expr);
    WordFits(cl.value, r.from);
    ConstNormal(Mod(cl.value, Pow2(r.from)), r.from);
    PartialNormal(Const(Mod(cl.value, Pow2(r.from)), r.from), r.expr);
  }

  lemma {:induction false} PartialOffset(cl: Expr, r: Expr)
    requires cl.Const? && cl.width != 1 && Normal(cl) && Offset(r) && NormalOf(r, cl.width)
    ensures NormalOf(EqPartial(cl, r), 1)
    decreases r, 0
  {
    hide Pow2, Mod, WellTyped, Bounded, Normal;
    Operands(r);
    ConstantFits(cl);
    NormalReduced(r);
    NormalBounded(r.right);
    var v := if r.Add? then Minus(cl.value, r.left.value, r.width) else Minus(r.left.value, cl.value, r.width);
    WordFits(if r.Add? then cl.value - r.left.value else r.left.value - cl.value, r.width);
    ConstNormal(v, r.width);
    PartialNormal(Const(v, r.width), r.right);
  }

  lemma NormalReduced(e: Expr)
    requires Normal(e)
    ensures Reduced(e) && WellTyped(e)
  {
  }

  lemma NormalBounded(e: Expr)
    requires Normal(e)
    ensures Bounded(e, Width(e))
  {
    BoundedByWidth(e, Width(e));
  }

  lemma {:induction false} IsZeroNormal(e: Expr)
    requires Normal(e)
    ensures NormalOf(CreateIsZero(e), 1)
    decreases e, 2
  {
    hide WellTyped, Normal, Pow2;
    BitsNormal();
    if !e.Const? {
      ConstNormal(0, Width(e));
      PartialNormal(Const(0, Width(e)), e);
    }
  }

  lemma EqNormal(l: Expr, r: Expr)
    requires Normal(l) && NormalOf(r, Width(l))
    ensures NormalOf(CreateEq(l, r), 1)
  {
    hide WellTyped, Normal, EqPartial;
    BitsNormal();
    if l.Const? && !r.Const? {
      PartialNormal(l, r);
    } else if r.Const? && !l.Const? {
      PartialNormal(r, l);
    } else if !l.Const? && l != r {
      PlainEq(l, r);
    }
  }

  lemma SelectNormal(c: Expr, t: Expr, f: Expr)
    requires NormalOf(c, 1) && Normal(t) && NormalOf(f, Width(t))
    ensures NormalOf(CreateSelect(c, t, f), Width(t))
  {
    hide CreateAnd, CreateOr, CreateIsZero, WellTyped, Normal, Reduced, Bounded;
    NormalBit(c);
    IsZeroNormal(c);
    if Width(t) == 1 {
      NormalBit(t);
      NormalBit(f);
      OrNormal(c, f);
      AndNormal(CreateIsZero(c), f);
      OrNormal(CreateIsZero(c), t);
      AndNormal(c, t);
    } else {
      WiderThanBit(t);
    }
    if !c.Const? && t != f && (Width(t) == 1 ==> !t.Const? && !f.Const?) {
      PlainSelect(c, t, f);
    }
  }

  lemma WiderThanBit(e: Expr)
    requires Normal(e) && Width(e) != 1
    ensures !IsBool(e)
  {
    BoundedByWidth(e, 1);
  }

  lemma PlainSelect(c: Expr, t: Expr, f: Expr)
    requires NormalOf(c, 1) && Normal(t) && NormalOf(f, Width(t)) && Reduced(Select(c, t, f))
    ensures NormalOf(Select(c, t, f), Width(t))
  {
    var e := Select(c, t, f);
    forall k | 0 <= k < |Kids(e)|
      ensures Normal(Kids(e)[k])
    {
      assert Kids(e)[k] == if k == 0 then c else if k == 1 then t else f;
    }
  }

  // ---------------------------------------------------------------- sums and differences

  lemma {:induction false} AddConstNormal(w: nat, c: nat, x: Expr)
    requires w != 1 && c < Pow2(w) && NormalOf(x, w)
    ensures NormalOf(AddConst(w, c, x), w)
    decreases Weight(x), 0
  {
    hide Pow2, Mod, WellTyped, Normal, Reduced, Bounded, Weight;
    Operands(x);
    NormalBounded(x);
    if x.Const? {
      WordFits(c + x.value, w);
      ConstNormal(Plus(c, x.value, w), w);
    } else if c != 0 && ConstPlus(x, w) {
      PartOfSum(x);
      WordFits(c + x.left.value, w);
      AddConstNormal(w, Plus(c, x.left.value, w), x.right);
    } else if c != 0 && ConstMinus(x, w) {
      PartOfSum(x);
      WordFits(c + x.left.value, w);
      SubConstNormal(w, Plus(c, x.left.value, w), x.right);
    } else if c != 0 {
      ConstNormal(c, w);
      PlainSumNormal(Add(w, Const(c, w), x));
    }
  }

  lemma {:induction false} SubConstNormal(w: nat, c: nat, x: Expr)
    requires w != 1 && c < Pow2(w) && NormalOf(x, w)
    ensures NormalOf(SubConst(w, c, x), w)
    decreases Weight(x), 0
  {
    hide Pow2, Mod, WellTyped, Normal, Reduced, Weight;
    Operands(x);
    if x.Const? {
      WordFits(c - x.value, w);
      ConstNormal(Minus(c, x.value, w), w);
    } else if ConstPlus(x, w) {
      PartOfSum(x);
      WordFits(c - x.left.value, w);
      SubConstNormal(w, Minus(c, x.left.value, w), x.right);
    } else if ConstMinus(x, w) {
      PartOfSum(x);
      WordFits(c - x.left.value, w);
      AddConstNormal(w, Minus(c, x.left.value, w), x.right);
    } else {
      ConstNormal(c, w);
      PlainSumNormal(Sub(w, Const(c, w), x));
    }
  }

  lemma PlainSumNormal(e: Expr)
    requires (e.Add? || e.Sub?) && NormalOf(e.left, e.width) && NormalOf(e.right, e.width) && ReducedSum(e)
    ensures NormalOf(e, e.width)
  {
    NormalPair(e, e.left, e.right);
  }

  lemma MinusConstNormal(w: nat, x: Expr, c: nat)
    requires w != 1 && NormalOf(x, w)
    ensures NormalOf(MinusConst(w, x, c), w)
  {
    hide Pow2, Mod, WellTyped, Normal;
    WordFits(0 - c, w);
    AddConstNormal(w, Minus(0, c, w), x);
  }

  /** Of a sum or difference with a constant on the left. */
  lemma OffsetParts(e: Expr, w: nat)
    requires NormalOf(e, w)
    ensures Offset(e) <==> ConstPlus(e, w) || ConstMinus(e, w)
    ensures Offset(e) ==> e.left.value < Pow2(w) && NormalOf(e.right, w) && Weight(e.right) < Weight(e)
  {
    hide Pow2;
    Operands(e);
    if Offset(e) {
      ConstantFits(e.left);
    }
  }

  lemma {:induction false} SumNormal(w: nat, l: Expr, r: Expr)
    requires w != 1 && NormalOf(l, w) && NormalOf(r, w)
    ensures NormalOf(CreateSum(w, l, r), w)
    decreases Weight(l) + Weight(r), 1
  {
    hide Pow2, Mod, WellTyped, Normal, Reduced, Weight, AddConst, SubConst, Bounded;
    OffsetParts(l, w);
    OffsetParts(r, w);
    if l.Const? {
      ConstantFits(l);
      AddConstNormal(w, l.value, r);
    } else if r.Const? {
      ConstantFits(r);
      AddConstNormal(w, r.value, l);
    } else if ConstPlus(l, w) {
      SumNormal(w, l.right, r);
      AddConstNormal(w, l.left.value, CreateSum(w, l.right, r));
    } else if ConstMinus(l, w) {
      DifferenceNormal(w, r, l.right);
      AddConstNormal(w, l.left.value, CreateDifference(w, r, l.right));
    } else if ConstPlus(r, w) {
      SumNormal(w, l, r.right);
      AddConstNormal(w, r.left.value, CreateSum(w, l, r.right));
    } else if ConstMinus(r, w) {
      DifferenceNormal(w, l, r.right);
      AddConstNormal(w, r.left.value, CreateDifference(w, l, r.right));
    } else {
      PlainSumNormal(Add(w, l, r));
    }
  }

  lemma {:induction false} DifferenceNormal(w: nat, l: Expr, r: Expr)
    requires w != 1 && NormalOf(l, w) && NormalOf(r, w)
    ensures NormalOf(CreateDifference(w, l, r), w)
    decreases Weight(l) + Weight(r), 1
  {
    hide Pow2, Mod, WellTyped, Normal, Reduced, Weight, AddConst, SubConst, MinusConst, Bounded;
    OffsetParts(l, w);
    OffsetParts(r, w);
    if l.Const? {
      ConstantFits(l);
      SubConstNormal(w, l.value, r);
    } else if r.Const? {
      MinusConstNormal(w, l, r.value);
    } else if l == r {
      ConstNormal(0, w);
    } else if ConstPlus(l, w) {
      DifferenceNormal(w, l.right, r);
      AddConstNormal(w, l.left.value, CreateDifference(w, l.right, r));
    } else if ConstMinus(l, w) {
      SumNormal(w, l.right, r);
      SubConstNormal(w, l.left.value, CreateSum(w, l.right, r));
    } else if ConstPlus(r, w) {
      DifferenceNormal(w, l, r.right);
      MinusConstNormal(w, CreateDifference(w, l, r.right), r.left.value);
    } else if ConstMinus(r, w) {
      SumNormal(w, l, r.right);
      MinusConstNormal(w, CreateSum(w, l, r.right), r.left.value);
    } else {
      PlainSumNormal(Sub(w, l, r));
    }
  }

  // ---------------------------------------------------------------- other binary operators

  function ResultWidth(op: BinaryOp, w: nat): nat {
    if Compares(op) then 1 else w
  }

  lemma PlainBinaryNormal(op: BinaryOp, w: nat, l: Expr, r: Expr)
    requires NormalOf(l, w) && NormalOf(r, w) && ReducedBinary(op, w, l, r)
    ensures NormalOf(Binary(op, w, l, r), ResultWidth(op, w))
  {
    NormalPair(Binary(op, w, l, r), l, r);
  }

  lemma WithConstNormal(op: BinaryOp, w: nat, cl: Expr, r: Expr)
    requires (IsBitwise(op) || op.Times?) && w != 1 && cl.Const? && NormalOf(cl, w) && !r.Const? && NormalOf(r, w)
    ensures NormalOf(WithConst(op, w, cl, r), w)
  {
    hide Normal, Pow2, AllOnes;
    if ReducedBinary(op, w, cl, r) {
      PlainBinaryNormal(op, w, cl, r);
    }
    if ReducedBinary(op, w, r, cl) {
      PlainBinaryNormal(op, w, r, cl);
    }
  }

  lemma BitNormal(op: BinaryOp, l: Expr, r: Expr)
    requires NormalOf(l, 1) && NormalOf(r, 1) && !(l.Const? && r.Const?)
    ensures NormalOf(CreateBit(op, l, r), 1)
  {
    hide Normal, CreateAnd, CreateOr, CreateIsZero, EqPartial;
    BitsNormal();
    NormalBit(l);
    NormalBit(r);
    var nl, nr := CreateIsZero(l), CreateIsZero(r);
    IsZeroNormal(l);
    IsZeroNormal(r);
    match op
    case BitAnd => AndNormal(l, r);
    case BitOr => OrNormal(l, r);
    case BitXor =>
      if l.Const? {
        PartialNormal(FALSE, r);
      } else if r.Const? {
        PartialNormal(FALSE, l);
      } else {
        PlainBinaryNormal(op, 1, l, r);
      }
    case Times => AndNormal(l, r);
    case ShiftSigned =>
    case Less => AndNormal(nl, r);
    case LessEq => OrNormal(nl, r);
    case LessEqSigned => OrNormal(l, nr);
    case _ => AndNormal(l, nr);
  }

  lemma BinaryNormal(op: BinaryOp, w: nat, l: Expr, r: Expr)
    requires NormalOf(l, w) && NormalOf(r, w)
    ensures NormalOf(CreateBinary(op, w, l, r), ResultWidth(op, w))
  {
    hide Normal, CreateBit, WithConst, Computed, Pow2, Bounded;
    NormalBounded(l);
    NormalBounded(r);
    if l.Const? && r.Const? {
      ComputedBound(op, l.value, r.value, w);
      ConstNormal(Computed(op, l.value, r.value, w), ResultWidth(op, w));
    } else if w == 1 {
      BitNormal(op, l, r);
    } else if (IsBitwise(op) || op.Times?) && l.Const? {
      WithConstNormal(op, w, l, r);
    } else if (IsBitwise(op) || op.Times?) && r.Const? {
      WithConstNormal(op, w, r, l);
    } else {
      PlainBinaryNormal(op, w, l, r);
    }
  }

  lemma AddNormal(w: nat, l: Expr, r: Expr)
    requires NormalOf(l, w) && NormalOf(r, w)
    ensures NormalOf(CreateAdd(w, l, r), w) && NormalOf(CreateSub(w, l, r), w)
  {
    hide Normal, CreateBinary, CreateSum, CreateDifference, IsBool;
    if w == 1 {
      NormalBit(l);
      NormalBit(r);
      BinaryNormal(BitXor, 1, l, r);
    } else {
      SumNormal(w, l, r);
      DifferenceNormal(w, l, r);
    }
  }

  // ---------------------------------------------------------------- concatenations, extractions, casts

  lemma SliceBound(x: nat, off: nat, w: nat)
    ensures Slice(x, off, w) < Pow2(w)
  {
  }

  lemma {:induction false} ConcatNormal(l: Expr, r: Expr, low: nat)
    requires Normal(l) && NormalOf(r, low)
    ensures NormalOf(CreateConcat(l, r, low), Width(l) + low)
    decreases 1 + Weight(l) + Weight(r), 0
  {
    hide Normal, Pow2, Above, Bounded, Weight;
    if l.Const? && r.Const? {
      ConstantFits(l);
      JoinedFits(l.value, r.value, l.width, low);
      ConstNormal(Joined(l.value, r.value, low), l.width + low);
    } else if Contiguous(l, r, low) {
      Operands(l);
      ExtractWeight(l, r);
      ExtractNormal(l.expr, r.offset, low + l.width);
    } else {
      PlainConcat(l, r, low);
    }
  }

  lemma ExtractWeight(l: Expr, r: Expr)
    requires l.Extract?
    ensures 1 + 2 * Weight(l.expr) <= Weight(l)
  {
  }

  function Joined(x: nat, y: nat, low: nat): nat {
    Above(x, y % Pow2(low), low)
  }

  lemma JoinedFits(x: nat, y: nat, w: nat, low: nat)
    requires x < Pow2(w)
    ensures Joined(x, y, low) < Pow2(w + low)
  {
    hide Pow2, Above;
    AboveBounded(x, y % Pow2(low), low, w + low);
  }

  lemma PlainConcat(l: Expr, r: Expr, low: nat)
    requires Normal(l) && NormalOf(r, low) && !(l.Const? && r.Const?) && !Contiguous(l, r, low)
    ensures NormalOf(Concat(l, r, low), Width(l) + low)
  {
    NormalPair(Concat(l, r, low), l, r);
  }

  lemma {:induction false} ExtractNormal(x: Expr, off: nat, w: nat)
    requires Normal(x) && off + w <= Width(x)
    ensures NormalOf(CreateExtract(x, off, w), w)
    decreases 1 + 2 * Weight(x), 1
  {
    hide Normal, Pow2, Bounded, Weight, CreateConcat, Slice;
    assert Bounded(x, w) <==> Width(x) == w by { NormalWidth(x, w); }
    if w == Width(x) {
    } else if x.Const? {
      SliceBound(x.value, off, w);
      ConstNormal(Slice(x.value, off, w), w);
    } else if !x.Concat? {
      PlainExtract(x, off, w);
    } else {
      Operands(x);
      NormalBounded(x.right);
      PartsOfConcat(x);
      if off >= x.low {
        ExtractNormal(x.left, off - x.low, w);
      } else if off + w <= x.low {
        ExtractNormal(x.right, off, w);
      } else {
        var d := x.low - off;
        ExtractNormal(x.left, 0, w - d);
        ExtractNormal(x.right, off, d);
        ConcatNormal(CreateExtract(x.left, 0, w - d), CreateExtract(x.right, off, d), d);
      }
    }
  }

  lemma NormalWidth(x: Expr, w: nat)
    requires Normal(x)
    ensures Bounded(x, w) <==> Width(x) == w
  {
    BoundedByWidth(x, w);
  }

  lemma PlainExtract(x: Expr, off: nat, w: nat)
    requires Normal(x) && off + w <= Width(x) && !x.Const? && !x.Concat? && w != Width(x)
    ensures NormalOf(Extract(x, off, w), w)
  {
    NormalOne(Extract(x, off, w), x);
  }

  lemma CastNormal(signed: bool, x: Expr, from: nat, w: nat)
    requires NormalOf(x, from)
    ensures NormalOf(CreateCast(signed, x, from, w), w)
  {
    hide Normal, Pow2, Bounded, CreateExtract, Extended;
    NormalBounded(x);
    if w < from {
      ExtractNormal(x, 0, w);
    } else if w > from && x.Const? {
      ExtendedFits(signed, x.value, from, w);
      ConstNormal(Extended(signed, x.value, from, w), w);
    } else if w > from {
      PlainCast(signed, x, from, w);
    }
  }

  lemma ExtendedFits(signed: bool, x: nat, from: nat, w: nat)
    ensures Extended(signed, x, from, w) < Pow2(w)
  {
  }

  lemma PlainCast(signed: bool, x: Expr, from: nat, w: nat)
    requires NormalOf(x, from) && from < w && !x.Const?
    ensures NormalOf(Cast(signed, x, from, w), w)
  {
    NormalOne(Cast(signed, x, from, w), x);
  }

  // ---------------------------------------------------------------- reads and other operators

  lemma {:induction false} RolledBackNormal(u: Updates, index: Expr, w: nat)
    requires NormalUpdates(u) && WellTypedUpdates(u, w)
    ensures var un := RollBack(u, index);
            && NormalUpdates(un) && WellTypedUpdates(un, w) && (un.Node? ==> CreateEq(index, un.index) != FALSE)
            && (Decided(u, index) <==> un.Node? && CreateEq(index, un.index) == TRUE)
            && (Decided(un, index) <==> Decided(u, index))
  {
    hide CreateEq, Normal, WellTyped;
    if u.Node? && CreateEq(index, u.index) == FALSE {
      RolledBackNormal(u.next, index, w);
    }
  }

  lemma ReadNormal(root: M.Array, u: Updates, w: nat, index: Expr)
    requires Normal(index) && NormalUpdates(u) && WellTypedUpdates(u, w)
    ensures NormalOf(CreateRead(root, u, w, index), w)
  {
    hide CreateEq, Normal, RollBack, Pow2, Bounded, WellTyped;
    RolledBackNormal(u, index, w);
    var un := RollBack(u, index);
    if un.Node? {
      assert Bounded(un.value, w) by { NormalBounded(un.value); }
    }
    if !Decided(u, index) {
      if !index.Const? || index.value >= M.ArraySize(root) {
        PlainReadNormal(root, u, w, index);
      } else if root.ConstantArray? && un == Nil {
        ByteFits(root.values[index.value], w);
        ConstNormal(root.values[index.value] % Pow2(w), w);
      } else {
        PlainReadNormal(root, un, w, index);
      }
    }
  }

  lemma ByteFits(x: nat, w: nat)
    ensures x % Pow2(w) < Pow2(w)
  {
  }

  lemma PlainReadNormal(root: M.Array, u: Updates, w: nat, index: Expr)
    requires Normal(index) && NormalUpdates(u) && WellTypedUpdates(u, w) && ReducedRead(root, u, index)
    ensures NormalOf(Read(root, u, w, index), w)
  {
    NormalOne(Read(root, u, w, index), index);
  }

  lemma FoldNormal(sem: Operators, op: nat, w: nat, kids: seq<Expr>)
    requires forall k :: 0 <= k < |kids| ==> Normal(kids[k])
    ensures NormalOf(Fold(sem, op, w, kids), w)
  {
    hide Pow2, Reduced;
    if forall k :: 0 <= k < |kids| ==> kids[k].Const? {
      ByteFits(sem(op, w, Values(kids)), w);
      ConstNormal(sem(op, w, Values(kids)) % Pow2(w), w);
    } else {
      assert Reduced(App(op, w, kids)) by { SomeSymbolic(op, w, kids); }
    }
  }

  lemma SomeSymbolic(op: nat, w: nat, kids: seq<Expr>)
    requires exists k :: 0 <= k < |kids| && !kids[k].Const?
    ensures Reduced(App(op, w, kids))
  {
  }

  // ---------------------------------------------------------------- rebuilding

  /** Operands that are in normal form, of the right widths. */
  predicate Ready(e: Expr) {
    && WellTyped(e) && (forall k | 0 <= k < |Kids(e)| :: Normal(Kids(e)[k]))
    && (e.Read? ==> NormalUpdates(e.updates))
  }

  /** Rebuilding a node whose operands are in normal form gives an expression in normal form, of the
      same width. */
  lemma RebuildNormal(sem: Operators, e: Expr)
    requires Ready(e)
    ensures NormalOf(Rebuild(sem, e), Width(e))
  {
    hide Normal, CreateAnd, CreateOr, CreateEq, CreateSelect, CreateRead, CreateAdd, CreateSub, CreateConcat,
         CreateExtract, CreateBinary, CreateCast, Fold, Bounded, Pow2;
    match e
    case Const(v, w) => ConstNormal(v, w);
    case And(l, r) =>
      TwoKids(e, l, r);
      AndNormal(l, r);
    case Or(l, r) =>
      TwoKids(e, l, r);
      OrNormal(l, r);
    case Eq(l, r) =>
      TwoKids(e, l, r);
      EqNormal(l, r);
    case Select(c, t, f) =>
      assert Kids(e)[0] == c && Kids(e)[1] == t && Kids(e)[2] == f;
      SelectNormal(c, t, f);
    case Add(w, l, r) =>
      TwoKids(e, l, r);
      AddNormal(w, l, r);
    case Sub(w, l, r) =>
      TwoKids(e, l, r);
      AddNormal(w, l, r);
    case Binary(op, w, l, r) =>
      TwoKids(e, l, r);
      BinaryNormal(op, w, l, r);
    case Cast(signed, x, from, w) =>
      assert Kids(e)[0] == x;
      CastNormal(signed, x, from, w);
    case Concat(l, r, low) =>
      TwoKids(e, l, r);
      ConcatNormal(l, r, low);
    case Extract(x, off, w) =>
      assert Kids(e)[0] == x;
      ExtractNormal(x, off, w);
    case Read(root, u, w, index) =>
      assert Kids(e)[0] == index;
      ReadNormal(root, u, w, index);
    case App(op, w, kids) => FoldNormal(sem, op, w, kids);
  }

  lemma TwoKids(e: Expr, l: Expr, r: Expr)
    requires Ready(e) && Kids(e) == [l, r]
    ensures Normal(l) && Normal(r)
  {
    hide Normal, WellTyped;
    assert Kids(e)[0] == l && Kids(e)[1] == r;
  }

  // ---------------------------------------------------------------- visiting

  /** What is put in place is as wide as what it replaces. */
  ghost predicate SameWidths(v: Visitor) {
    && (forall x :: x in v.before ==> NormalOf(v.before[x], Width(x)))
    && (forall x :: x in v.after ==> NormalOf(v.after[x], Width(x)))
  }

  ghost predicate Alike(kids: seq<Expr>, others: seq<Expr>) {
    |kids| == |others| && forall k :: 0 <= k < |kids| ==> NormalOf(kids[k], Width(others[k]))
  }

  lemma WithKidsReady(e: Expr, kids: seq<Expr>)
    requires Normal(e) && !e.Const? && Alike(kids, Kids(e))
    ensures Ready(WithKids(e, kids)) && Width(WithKids(e, kids)) == Width(e)
  {
    hide Pow2, Reduced;
    forall k | 0 <= k < |kids|
      ensures WellTyped(kids[k]) && WellTyped(Kids(e)[k])
    {
      PartOf(e, k);
    }
    assert Kids(WithKids(e, kids)) == kids;
  }

  /** Visiting keeps normal forms and widths. */
  lemma VisitNormal(sem: Operators, v: Visitor, e: Expr)
    requires ByConstants(v) && SameWidths(v) && Normal(e) && Shrinks(Weight, e => Rebuild(sem, e))
    ensures NormalOf(Visit(v, e => Rebuild(sem, e), Weight, e), Width(e))
    decreases Weight(e), 1, 0
  {
    hide Normal, WithKids, Rebuild, Weight, Measures;
    var mk := e => Rebuild(sem, e);
    if !e.Const? && e !in v.before {
      PartsLighter(Weight, e);
      forall k | 0 <= k < |Kids(e)|
        ensures Normal(Kids(e)[k])
      {
        PartOf(e, k);
      }
      VisitAllNormal(sem, v, Kids(e), e);
      var kids := VisitAll(v, mk, Weight, Kids(e), e);
      if kids != Kids(e) {
        RebuiltLighter(Weight, e, kids);
        WithKidsReady(e, kids);
        RebuildNormal(sem, WithKids(e, kids));
        if v.again {
          VisitNormal(sem, v, mk(WithKids(e, kids)));
        }
      }
    }
  }

  lemma {:induction false} VisitAllNormal(sem: Operators, v: Visitor, es: seq<Expr>, parent: Expr)
    requires ByConstants(v) && SameWidths(v) && Shrinks(Weight, e => Rebuild(sem, e))
    requires forall k :: 0 <= k < |es| ==> Weight(es[k]) < Weight(parent) && Normal(es[k])
    ensures Alike(VisitAll(v, e => Rebuild(sem, e), Weight, es, parent), es)
    decreases Weight(parent), 0, |es|
  {
    hide Normal, Rebuild, Weight, Measures;
    if es != [] {
      VisitNormal(sem, v, es[0]);
      VisitAllNormal(sem, v, es[1..], parent);
    }
  }
}
