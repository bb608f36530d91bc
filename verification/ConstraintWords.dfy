/** The constructors of sums and differences wider than a bit, which collect constants on the left, of
    concatenations and extractions, which undo each other, and of casts. */
module ConstraintWords {
  import opened Arithmetic
  import opened Bits
  import opened ConstraintOps
  import opened ConstraintExprs
  import opened ConstraintWeight
  import M = MemoryExprs

  // ---------------------------------------------------------------- sums and differences

  /** A sum of the given width with a constant on the left. */
  predicate ConstPlus(e: Expr, w: nat) {
    e.Add? && e.width == w && e.left.Const?
  }

  predicate ConstMinus(e: Expr, w: nat) {
    e.Sub? && e.width == w && e.left.Const?
  }

  /** `c + x` */
  function AddConst(w: nat, c: nat, x: Expr): (r: Expr)
    ensures Weight(r) <= 1 + Weight(x)
    decreases Weight(x), 0
  {
    if x.Const? then Const(Plus(c, x.value, w), w)
    else if c == 0 && Bounded(x, w) then x
    else if ConstPlus(x, w) then AddConst(w, Plus(c, x.left.value, w), x.right)
    else if ConstMinus(x, w) then SubConst(w, Plus(c, x.left.value, w), x.right)
    else Add(w, Const(c, w), x)
  }

  /** `c - x` */
  function SubConst(w: nat, c: nat, x: Expr): (r: Expr)
    ensures Weight(r) <= 1 + Weight(x)
    decreases Weight(x), 0
  {
    if x.Const? then Const(Minus(c, x.value, w), w)
    else if ConstPlus(x, w) then SubConst(w, Minus(c, x.left.value, w), x.right)
    else if ConstMinus(x, w) then AddConst(w, Minus(c, x.left.value, w), x.right)
    else Sub(w, Const(c, w), x)
  }

  /** `x - c` */
  function MinusConst(w: nat, x: Expr, c: nat): (r: Expr)
    ensures Weight(r) <= 1 + Weight(x)
  {
    AddConst(w, Minus(0, c, w), x)
  }

  function CreateSum(w: nat, l: Expr, r: Expr): (e: Expr)
    ensures Weight(e) <= 1 + Weight(l) + Weight(r)
    decreases Weight(l) + Weight(r), 1
  {
    if l.Const? then AddConst(w, l.value, r)
    else if r.Const? then AddConst(w, r.value, l)
    else if ConstPlus(l, w) then AddConst(w, l.left.value, CreateSum(w, l.right, r))
    else if ConstMinus(l, w) then AddConst(w, l.left.value, CreateDifference(w, r, l.right))
    else if ConstPlus(r, w) then AddConst(w, r.left.value, CreateSum(w, l, r.right))
    else if ConstMinus(r, w) then AddConst(w, r.left.value, CreateDifference(w, l, r.right))
    else Add(w, l, r)
  }

  function CreateDifference(w: nat, l: Expr, r: Expr): (e: Expr)
    ensures Weight(e) <= 1 + Weight(l) + Weight(r)
    decreases Weight(l) + Weight(r), 1
  {
    if l.Const? then SubConst(w, l.value, r)
    else if r.Const? then MinusConst(w, l, r.value)
    else if l == r then Const(0, w)
    else if ConstPlus(l, w) then AddConst(w, l.left.value, CreateDifference(w, l.right, r))
    else if ConstMinus(l, w) then SubConst(w, l.left.value, CreateSum(w, l.right, r))
    else if ConstPlus(r, w) then MinusConst(w, CreateDifference(w, l, r.right), r.left.value)
    else if ConstMinus(r, w) then MinusConst(w, CreateSum(w, l, r.right), r.left.value)
    else Sub(w, l, r)
  }

  lemma {:induction false} AddConstMeans(sem: Operators, w: nat, c: nat, x: Expr, a: M.Assignment)
    ensures Eval(sem, AddConst(w, c, x), a) == Plus(c, Eval(sem, x, a), w)
    decreases Weight(x), 0
  {
    hide Pow2, Plus, Minus, Weight;
    if x.Const? {
    } else if c == 0 && Bounded(x, w) {
      BoundHolds(sem, x, w, a);
      PlusZero(Eval(sem, x, a), w);
    } else if ConstPlus(x, w) {
      PartOfSum(x);
      AddConstMeans(sem, w, Plus(c, x.left.value, w), x.right, a);
      PlusPlus(c, x.left.value, Eval(sem, x.right, a), w);
    } else if ConstMinus(x, w) {
      PartOfSum(x);
      SubConstMeans(sem, w, Plus(c, x.left.value, w), x.right, a);
      PlusMinus(c, Eval(sem, x.right, a), x.left.value, w);
    }
  }

  lemma {:induction false} SubConstMeans(sem: Operators, w: nat, c: nat, x: Expr, a: M.Assignment)
    ensures Eval(sem, SubConst(w, c, x), a) == Minus(c, Eval(sem, x, a), w)
    decreases Weight(x), 0
  {
    hide Pow2, Plus, Minus, Weight;
    if x.Const? {
    } else if ConstPlus(x, w) {
      PartOfSum(x);
      SubConstMeans(sem, w, Minus(c, x.left.value, w), x.right, a);
      MinusMinus(c, x.left.value, Eval(sem, x.right, a), w);
    } else if ConstMinus(x, w) {
      PartOfSum(x);
      AddConstMeans(sem, w, Minus(c, x.left.value, w), x.right, a);
      MinusOfMinus(c, x.left.value, Eval(sem, x.right, a), w);
    }
  }

  lemma PartOfSum(x: Expr)
    requires x.Add? || x.Sub?
    ensures Weight(x.right) < Weight(x)
  {
  }

  lemma SumValues(sem: Operators, x: Expr, w: nat, a: M.Assignment)
    ensures x.Const? ==> Eval(sem, x, a) == x.value
    ensures ConstPlus(x, w) ==> Eval(sem, x, a) == Plus(x.left.value, Eval(sem, x.right, a), w)
    ensures ConstMinus(x, w) ==> Eval(sem, x, a) == Minus(x.left.value, Eval(sem, x.right, a), w)
  {
  }

  lemma PlainSum(sem: Operators, w: nat, l: Expr, r: Expr, a: M.Assignment)
    ensures Eval(sem, Add(w, l, r), a) == Plus(Eval(sem, l, a), Eval(sem, r, a), w)
    ensures Eval(sem, Sub(w, l, r), a) == Minus(Eval(sem, l, a), Eval(sem, r, a), w)
    ensures Eval(sem, Const(0, w), a) == 0
  {
  }

  lemma PlusZero(x: nat, w: nat)
    requires x < Pow2(w)
    ensures Plus(0, x, w) == x
  {
    hide Pow2;
    SmallMod(x, Pow2(w));
  }

  lemma MinusConstMeans(sem: Operators, w: nat, x: Expr, c: nat, a: M.Assignment)
    ensures Eval(sem, MinusConst(w, x, c), a) == Minus(Eval(sem, x, a), c, w)
  {
    hide Pow2;
    AddConstMeans(sem, w, Minus(0, c, w), x, a);
    ReduceFirst(Pow2(w), 0 - c, Eval(sem, x, a));
  }

  lemma {:induction false} SumMeans(sem: Operators, w: nat, l: Expr, r: Expr, a: M.Assignment)
    ensures Eval(sem, CreateSum(w, l, r), a) == Plus(Eval(sem, l, a), Eval(sem, r, a), w)
    decreases Weight(l) + Weight(r), 1
  {
    hide Pow2, Plus, Minus, Weight, AddConst, SubConst, MinusConst, Eval, Bounded;
    SumValues(sem, l, w, a);
    SumValues(sem, r, w, a);
    var x, y := Eval(sem, l, a), Eval(sem, r, a);
    if l.Const? {
      AddConstMeans(sem, w, l.value, r, a);
    } else if r.Const? {
      AddConstMeans(sem, w, r.value, l, a);
      PlusSwaps(x, y, w);
    } else if ConstPlus(l, w) {
      PartOfSum(l);
      SumMeans(sem, w, l.right, r, a);
      AddConstMeans(sem, w, l.left.value, CreateSum(w, l.right, r), a);
      PlusPlus(l.left.value, Eval(sem, l.right, a), y, w);
    } else if ConstMinus(l, w) {
      PartOfSum(l);
      DifferenceMeans(sem, w, r, l.right, a);
      AddConstMeans(sem, w, l.left.value, CreateDifference(w, r, l.right), a);
      PlusMinus(l.left.value, Eval(sem, l.right, a), y, w);
    } else if ConstPlus(r, w) {
      PartOfSum(r);
      SumMeans(sem, w, l, r.right, a);
      AddConstMeans(sem, w, r.left.value, CreateSum(w, l, r.right), a);
      PlusPlus(r.left.value, x, Eval(sem, r.right, a), w);
    } else if ConstMinus(r, w) {
      PartOfSum(r);
      DifferenceMeans(sem, w, l, r.right, a);
      AddConstMeans(sem, w, r.left.value, CreateDifference(w, l, r.right), a);
      PlusMinus(r.left.value, Eval(sem, r.right, a), x, w);
    } else {
      PlainSum(sem, w, l, r, a);
    }
  }

  lemma PlusSwaps(x: int, y: int, w: nat)
    ensures Plus(x, y, w) == Plus(y, x, w)
  {
  }

  lemma {:induction false} DifferenceMeans(sem: Operators, w: nat, l: Expr, r: Expr, a: M.Assignment)
    ensures Eval(sem, CreateDifference(w, l, r), a) == Minus(Eval(sem, l, a), Eval(sem, r, a), w)
    decreases Weight(l) + Weight(r), 1
  {
    hide Pow2, Plus, Minus, Weight, AddConst, SubConst, MinusConst, Eval, Bounded;
    SumValues(sem, l, w, a);
    SumValues(sem, r, w, a);
    var x, y := Eval(sem, l, a), Eval(sem, r, a);
    if l.Const? {
      SubConstMeans(sem, w, l.value, r, a);
    } else if r.Const? {
      MinusConstMeans(sem, w, l, r.value, a);
    } else if l == r {
      MinusSelf(x, w);
      PlainSum(sem, w, l, r, a);
    } else if ConstPlus(l, w) {
      PartOfSum(l);
      DifferenceMeans(sem, w, l.right, r, a);
      AddConstMeans(sem, w, l.left.value, CreateDifference(w, l.right, r), a);
      PlusMinus(l.left.value, y, Eval(sem, l.right, a), w);
    } else if ConstMinus(l, w) {
      PartOfSum(l);
      SumMeans(sem, w, l.right, r, a);
      SubConstMeans(sem, w, l.left.value, CreateSum(w, l.right, r), a);
      MinusMinus(l.left.value, Eval(sem, l.right, a), y, w);
    } else if ConstPlus(r, w) {
      PartOfSum(r);
      DifferenceMeans(sem, w, l, r.right, a);
      MinusConstMeans(sem, w, CreateDifference(w, l, r.right), r.left.value, a);
      MinusMinus(x, Eval(sem, r.right, a), r.left.value, w);
      PlusSwaps(r.left.value, Eval(sem, r.right, a), w);
    } else if ConstMinus(r, w) {
      PartOfSum(r);
      SumMeans(sem, w, l, r.right, a);
      MinusConstMeans(sem, w, CreateSum(w, l, r.right), r.left.value, a);
      MinusOfMinus(x, r.left.value, Eval(sem, r.right, a), w);
    } else {
      PlainSum(sem, w, l, r, a);
    }
  }

  lemma MinusSelf(x: int, w: nat)
    ensures Minus(x, x, w) == 0
  {
    hide Pow2;
    SmallMod(0, Pow2(w));
  }

  // ---------------------------------------------------------------- concatenations and extractions

  /** Two extractions from one expression that follow each other. */
  predicate Contiguous(l: Expr, r: Expr, low: nat) {
    && l.Extract? && r.Extract? && l.expr == r.expr
    && r.width == low && r.offset + r.width == l.offset
  }

  function CreateConcat(l: Expr, r: Expr, low: nat): (e: Expr)
    ensures Weight(e) <= 1 + Weight(l) + Weight(r)
    decreases 1 + Weight(l) + Weight(r), 0
  {
    if l.Const? && r.Const? then Const(Above(l.value, r.value % Pow2(low), low), l.width + low)
    else if Contiguous(l, r, low) then CreateExtract(l.expr, r.offset, low + l.width)
    else Concat(l, r, low)
  }

  function CreateExtract(x: Expr, off: nat, w: nat): (e: Expr)
    ensures Weight(e) <= 1 + 2 * Weight(x)
    decreases 1 + 2 * Weight(x), 1
  {
    if off == 0 && Bounded(x, w) then x
    else if x.Const? then Const(Slice(x.value, off, w), w)
    else if !x.Concat? || !Bounded(x.right, x.low) then Extract(x, off, w)
    else if off >= x.low then CreateExtract(x.left, off - x.low, w)
    else if off + w <= x.low then CreateExtract(x.right, off, w)
    else
      var d := x.low - off;
      CreateConcat(CreateExtract(x.left, 0, w - d), CreateExtract(x.right, off, d), d)
  }

  lemma {:induction false} ConcatMeans(sem: Operators, l: Expr, r: Expr, low: nat, a: M.Assignment)
    ensures Eval(sem, CreateConcat(l, r, low), a) == Eval(sem, Concat(l, r, low), a)
    decreases 1 + Weight(l) + Weight(r), 0
  {
    hide Pow2, Slice, Above, Bounded;
    if !(l.Const? && r.Const?) && Contiguous(l, r, low) {
      var v := Eval(sem, l.expr, a);
      ExtractMeans(sem, l.expr, r.offset, low + l.width, a);
      SlicesJoin(v, r.offset, low, l.width);
      SliceFits(v, r.offset, low);
    }
  }

  lemma SliceFits(x: nat, off: nat, w: nat)
    ensures Slice(x, off, w) % Pow2(w) == Slice(x, off, w)
  {
    hide Pow2;
    Remainder(Pow2(w), 0, Slice(x, off, w));
  }

  /** The value of a concatenation whose right part keeps to its bits. */
  lemma ConcatValue(sem: Operators, x: Expr, a: M.Assignment)
    requires x.Concat? && Bounded(x.right, x.low)
    ensures var l := Eval(sem, x.right, a);
            l < Pow2(x.low) && Eval(sem, x, a) == Above(Eval(sem, x.left, a), l, x.low)
  {
    hide Pow2, Above, Bounded;
    BoundHolds(sem, x.right, x.low, a);
    Remainder(Pow2(x.low), 0, Eval(sem, x.right, a));
  }

  lemma PartsOfConcat(x: Expr)
    requires x.Concat?
    ensures Weight(x) == 1 + Weight(x.left) + Weight(x.right)
  {
  }

  lemma SlicesAbove(sem: Operators, l: Expr, r: Expr, low: nat, x: nat, off: nat, a: M.Assignment)
    requires Eval(sem, r, a) == Slice(x, off, low)
    ensures Eval(sem, Concat(l, r, low), a) == Above(Eval(sem, l, a), Slice(x, off, low), low)
  {
    hide Pow2, Above, Slice;
    SliceFits(x, off, low);
  }

  lemma {:induction false} ExtractMeans(sem: Operators, x: Expr, off: nat, w: nat, a: M.Assignment)
    ensures Eval(sem, CreateExtract(x, off, w), a) == Slice(Eval(sem, x, a), off, w)
    decreases 1 + 2 * Weight(x), 1
  {
    hide Pow2, Slice, Above, Bounded, CreateConcat, Eval, Weight;
    if off == 0 && Bounded(x, w) {
      BoundHolds(sem, x, w, a);
      SliceSmall(Eval(sem, x, a), w);
    } else if x.Const? || !x.Concat? || !Bounded(x.right, x.low) {
      PlainSlice(sem, x, off, w, a);
    } else {
      var h, l := Eval(sem, x.left, a), Eval(sem, x.right, a);
      ConcatValue(sem, x, a);
      PartsOfConcat(x);
      if off >= x.low {
        ExtractMeans(sem, x.left, off - x.low, w, a);
        SliceAbove(h, l, x.low, off, w);
      } else if off + w <= x.low {
        ExtractMeans(sem, x.right, off, w, a);
        SliceBelow(h, l, x.low, off, w);
      } else {
        var d := x.low - off;
        var left, right := CreateExtract(x.left, 0, w - d), CreateExtract(x.right, off, d);
        ExtractMeans(sem, x.left, 0, w - d, a);
        ExtractMeans(sem, x.right, off, d, a);
        ConcatMeans(sem, left, right, d, a);
        SlicesAbove(sem, left, right, d, l, off, a);
        SliceAcross(h, l, x.low, off, w);
      }
    }
  }

  lemma PlainSlice(sem: Operators, x: Expr, off: nat, w: nat, a: M.Assignment)
    ensures Eval(sem, Extract(x, off, w), a) == Slice(Eval(sem, x, a), off, w)
    ensures x.Const? ==> Eval(sem, Const(Slice(x.value, off, w), w), a) == Slice(Eval(sem, x, a), off, w)
  {
  }

  // ---------------------------------------------------------------- casts

  function CreateCast(signed: bool, x: Expr, from: nat, w: nat): (e: Expr)
    ensures Weight(e) <= 1 + 2 * Weight(x)
  {
    if w == from && Bounded(x, w) then x
    else if w < from then CreateExtract(x, 0, w)
    else if x.Const? then Const(Extended(signed, x.value, from, w), w)
    else Cast(signed, x, from, w)
  }

  lemma CastMeans(sem: Operators, signed: bool, x: Expr, from: nat, w: nat, a: M.Assignment)
    ensures Eval(sem, CreateCast(signed, x, from, w), a) == Extended(signed, Eval(sem, x, a), from, w)
  {
    hide Pow2, Slice, Bounded, CreateExtract, Extended;
    var v := Eval(sem, x, a);
    if w == from && Bounded(x, w) {
      BoundHolds(sem, x, w, a);
      NotExtended(signed, v, w);
    } else if w < from {
      ExtractMeans(sem, x, 0, w, a);
      Truncated(signed, v, from, w);
    }
  }
}
