/** What the binary operators and the casts compute. */
module ConstraintOps {
  import opened Arithmetic
  import opened Bits

  datatype BinaryOp =
    BitAnd | BitOr | BitXor | Times | ShiftLeft | ShiftRight | ShiftSigned | Less | LessEq | LessSigned | LessEqSigned

  predicate Compares(op: BinaryOp) {
    op.Less? || op.LessEq? || op.LessSigned? || op.LessEqSigned?
  }

  predicate IsBitwise(op: BinaryOp) {
    op.BitAnd? || op.BitOr? || op.BitXor?
  }

  function Truth(b: bool): nat {
    if b then 1 else 0
  }

  function Bit(op: BinaryOp, x: nat, y: nat): (b: nat)
    ensures b < 2
  {
    match op
    case BitAnd => Truth(x == 1 && y == 1)
    case BitOr => Truth(x == 1 || y == 1)
    case _ => Truth(x != y)
  }

  /** Bit by bit, on the lower `w` bits. */
  function Bitwise(op: BinaryOp, x: nat, y: nat, w: nat): nat {
    if w == 0 then 0 else 2 * Bitwise(op, x / 2, y / 2, w - 1) + Bit(op, x % 2, y % 2)
  }

  /** The number that `w` bits stand for in two's complement. */
  function Signed(x: nat, w: nat): int {
    if 2 * x < Pow2(w) then x else x - Pow2(w)
  }

  function Computed(op: BinaryOp, x: nat, y: nat, w: nat): nat {
    match op
    case Times => Mod(x * y, Pow2(w))
    case ShiftLeft => Mod(x * Pow2(y), Pow2(w))
    case ShiftRight => Mod(x / Pow2(y), Pow2(w))
    case ShiftSigned => Mod(Signed(x, w) / Pow2(y), Pow2(w))
    case Less => Truth(x < y)
    case LessEq => Truth(x <= y)
    case LessSigned => Truth(Signed(x, w) < Signed(y, w))
    case LessEqSigned => Truth(Signed(x, w) <= Signed(y, w))
    case _ => Bitwise(op, x, y, w)
  }

  /** Of the lower `from` bits, a number of `w` bits. */
  function Extended(signed: bool, x: nat, from: nat, w: nat): nat {
    Mod(if signed then Signed(x, from) else x, Pow2(w))
  }

  lemma {:induction false} BitwiseBound(op: BinaryOp, x: nat, y: nat, w: nat)
    ensures Bitwise(op, x, y, w) < Pow2(w)
  {
    if w > 0 {
      BitwiseBound(op, x / 2, y / 2, w - 1);
    }
  }

  lemma {:induction false} BitwiseSwaps(op: BinaryOp, x: nat, y: nat, w: nat)
    ensures Bitwise(op, x, y, w) == Bitwise(op, y, x, w)
  {
    if w > 0 {
      BitwiseSwaps(op, x / 2, y / 2, w - 1);
    }
  }

  function AllOnes(w: nat): nat {
    Pow2(w) - 1
  }

  lemma {:induction false} BitwiseUnits(x: nat, w: nat)
    requires x < Pow2(w)
    ensures Bitwise(BitAnd, 0, x, w) == 0 && Bitwise(BitAnd, AllOnes(w), x, w) == x
    ensures Bitwise(BitOr, 0, x, w) == x && Bitwise(BitOr, AllOnes(w), x, w) == AllOnes(w)
    ensures Bitwise(BitXor, 0, x, w) == x
  {
    if w > 0 {
      BitwiseUnits(x / 2, w - 1);
      HalfOnes(w);
    }
  }

  lemma HalfOnes(w: nat)
    requires w > 0
    ensures AllOnes(w) / 2 == AllOnes(w - 1) && AllOnes(w) % 2 == 1
  {
  }

  /** On one bit all of them are boolean operators. */
  lemma OneBitOperators(x: nat, y: nat)
    requires x < 2 && y < 2
    ensures Computed(BitAnd, x, y, 1) == Computed(Times, x, y, 1) == Truth(x == 1 && y == 1)
    ensures Computed(BitOr, x, y, 1) == Truth(x == 1 || y == 1)
    ensures Computed(BitXor, x, y, 1) == Plus(x, y, 1) == Minus(x, y, 1) == Truth(x != y)
    ensures Computed(ShiftLeft, x, y, 1) == Computed(ShiftRight, x, y, 1) == Truth(x == 1 && y == 0)
    ensures Computed(ShiftSigned, x, y, 1) == x
    ensures Computed(Less, x, y, 1) == Truth(x == 0 && y == 1)
    ensures Computed(LessEq, x, y, 1) == Truth(x == 0 || y == 1)
    ensures Computed(LessSigned, x, y, 1) == Truth(x == 1 && y == 0)
    ensures Computed(LessEqSigned, x, y, 1) == Truth(x == 1 || y == 0)
  {
    hide Pow2, Computed, Plus, Minus, Bitwise;
    OneBitSums(x, y);
    OneBitShifts(x, y);
    OneBitSigned(x, y);
  }

  lemma OneBitSums(x: nat, y: nat)
    requires x < 2 && y < 2
    ensures Computed(BitAnd, x, y, 1) == Computed(Times, x, y, 1) == Truth(x == 1 && y == 1)
    ensures Computed(BitOr, x, y, 1) == Truth(x == 1 || y == 1)
    ensures Computed(BitXor, x, y, 1) == Plus(x, y, 1) == Minus(x, y, 1) == Truth(x != y)
  {
    assert Pow2(0) == 1 && Pow2(1) == 2;
    hide Pow2, Bitwise, Signed;
    OneBitwise(x, y);
  }

  lemma OneBitShifts(x: nat, y: nat)
    requires x < 2 && y < 2
    ensures Computed(ShiftLeft, x, y, 1) == Computed(ShiftRight, x, y, 1) == Truth(x == 1 && y == 0)
    ensures Computed(ShiftSigned, x, y, 1) == x
  {
    assert Pow2(0) == 1 && Pow2(1) == 2;
    hide Pow2, Bitwise;
  }

  lemma OneBitSigned(x: nat, y: nat)
    requires x < 2 && y < 2
    ensures Computed(Less, x, y, 1) == Truth(x == 0 && y == 1)
    ensures Computed(LessEq, x, y, 1) == Truth(x == 0 || y == 1)
    ensures Computed(LessSigned, x, y, 1) == Truth(x == 1 && y == 0)
    ensures Computed(LessEqSigned, x, y, 1) == Truth(x == 1 || y == 0)
  {
    assert Pow2(0) == 1 && Pow2(1) == 2;
    hide Pow2, Bitwise;
  }

  lemma OneBitwise(x: nat, y: nat)
    requires x < 2 && y < 2
    ensures forall op :: Bitwise(op, x, y, 1) == Bit(op, x, y)
  {
    forall op
      ensures Bitwise(op, x, y, 1) == Bit(op, x, y)
    {
      assert Bitwise(op, x / 2, y / 2, 0) == 0;
    }
  }

  lemma ComputedBound(op: BinaryOp, x: nat, y: nat, w: nat)
    ensures Computed(op, x, y, w) < Pow2(if Compares(op) then 1 else w)
  {
    assert Pow2(0) == 1 && Pow2(1) == 2;
    hide Pow2;
    if IsBitwise(op) {
      BitwiseBound(op, x, y, w);
    }
  }

  /** Extending loses nothing, so a number is an extension if and only if it is that of its lower bits. */
  lemma ExtensionSolved(signed: bool, c: nat, x: nat, from: nat, w: nat)
    requires from <= w && x < Pow2(from) && c < Pow2(w)
    ensures var low := Mod(c, Pow2(from));
            c == Extended(signed, x, from, w) <==> c == Extended(signed, low, from, w) && x == low
  {
    ExtensionKeepsLow(signed, x, from, w);
  }

  lemma ExtensionKeepsLow(signed: bool, x: nat, from: nat, w: nat)
    requires from <= w && x < Pow2(from)
    ensures Mod(Extended(signed, x, from, w), Pow2(from)) == x
  {
    hide Pow2, Mod;
    var v := if signed then Signed(x, from) else x;
    var m, n := Pow2(from), Pow2(w - from);
    Pow2Adds(from, w - from);
    var k := SplitOff(m * n, v);
    assert v - m * n * k == v + m * (n * -k);
    Shifted(m, n * -k, v);
    SmallMod(x, m);
    Shifted(m, -1, x);
  }

  lemma NotExtended(signed: bool, x: nat, w: nat)
    requires x < Pow2(w)
    ensures Extended(signed, x, w, w) == x
  {
    hide Pow2, Mod;
    SmallMod(x, Pow2(w));
    Shifted(Pow2(w), -1, x);
  }

  /** A cast to fewer bits takes the lower ones. */
  lemma Truncated(signed: bool, x: nat, from: nat, w: nat)
    requires w <= from
    ensures Extended(signed, x, from, w) == Slice(x, 0, w)
  {
    assert Pow2(0) == 1;
    hide Pow2;
    var m, k: int := Pow2(w), -1 * Pow2(from - w);
    Pow2Adds(w, from - w);
    assert x - Pow2(from) == x + m * k;
    Shifted(m, k, x);
  }
}
