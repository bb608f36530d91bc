/** Byte-valued expressions over arrays with update lists, and what they mean under an assignment. */
module MemoryExprs {
  import opened Options

  const TWO_32: nat := 0x1_0000_0000

  /** An array of symbolic bytes, or one with fixed contents. */
  datatype Array =
    | SymbolicArray(id: nat, size: nat)
    | ConstantArray(id: nat, values: seq<nat>)

  datatype Expr =
    | Const(value: nat)
    | Sym(id: nat)
    | Index32(arg: Expr)
    | AddIndex(arg: Expr, k: nat)
    | ByteOf(arg: Expr, k: nat)
    | Concat(high: Expr, low: Expr, bytes: nat)
    | Read(root: Array, updates: Updates, index: Expr)

  /** Writes to an array, the most recent first. */
  datatype Updates = Nil | Node(index: Expr, value: Expr, next: Updates)

  datatype Assignment = Assignment(sym: nat -> nat, initial: (nat, nat) -> nat)

  function Pow256(n: nat): (p: nat)
    ensures p > 0
  {
    if n == 0 then 1 else 256 * Pow256(n - 1)
  }

  function ArrayAt(r: Array, i: nat, a: Assignment): nat {
    match r
    case SymbolicArray(id, _) => a.initial(id, i)
    case ConstantArray(id, values) => if i < |values| then values[i] else a.initial(id, i)
  }

  function Eval(e: Expr, a: Assignment): nat
    decreases e
  {
    match e
    case Const(v) => v
    case Sym(id) => a.sym(id)
    case Index32(x) => Eval(x, a) % TWO_32
    case AddIndex(x, k) => (Eval(x, a) + k) % TWO_32
    case ByteOf(x, k) => Eval(x, a) / Pow256(k) % 256
    case Concat(h, l, n) => Eval(h, a) * Pow256(n) + Eval(l, a)
    case Read(r, u, x) => Lookup(r, u, Eval(x, a), a)
  }

  /** The i-th byte of an array after its updates. */
  function Lookup(r: Array, u: Updates, i: nat, a: Assignment): nat
    decreases u
  {
    match u
    case Nil => ArrayAt(r, i, a)
    case Node(x, v, next) => if Eval(x, a) == i then Eval(v, a) else Lookup(r, next, i, a)
  }

  /** Whether two expressions are equal, when that is known without an assignment. */
  function FoldEq(x: Expr, y: Expr): (r: Option<bool>)
    ensures r.Some? ==> forall a :: (Eval(x, a) == Eval(y, a)) == r.value
  {
    if x == y then Some(true) else if x.Const? && y.Const? then Some(false) else None
  }

  function ArraySize(r: Array): nat {
    match r
    case SymbolicArray(_, n) => n
    case ConstantArray(_, values) => |values|
  }

  /** The updates from the first one on that may be to `index`. */
  function RolledBack(u: Updates, index: Expr): (un: Updates)
    ensures un.Node? ==> FoldEq(index, un.index) != Some(false)
  {
    if u.Node? && FoldEq(index, u.index) == Some(false) then RolledBack(u.next, index) else u
  }

  /** Reads an array, rolling back over the updates that cannot matter: when the last one that may
      matter does, the result is what it wrote; when none may matter and the contents are fixed, it is
      the constant; at a constant index the updates that cannot matter are dropped. */
  method CreateRead(r: Array, u: Updates, index: Expr) returns (e: Expr)
    ensures forall a :: Eval(e, a) == Lookup(r, u, Eval(index, a), a)
    ensures var un, inside := RolledBack(u, index), index.Const? && index.value < ArraySize(r);
            if un.Node? && FoldEq(index, un.index).Some? then e == un.value
            else if un.Nil? && r.ConstantArray? && inside then e == Const(r.values[index.value])
            else e == Read(r, if inside then un else u, index)
  {
    var un := u;
    var symbolicWrites := false;
    while un.Node? && !symbolicWrites
      invariant RolledBack(un, index) == RolledBack(u, index)
      invariant symbolicWrites ==> un.Node? && FoldEq(index, un.index).None?
      invariant forall a :: Lookup(r, u, Eval(index, a), a) == Lookup(r, un, Eval(index, a), a)
      invariant !symbolicWrites || un.Node?
      decreases un, !symbolicWrites
    {
      var cond := FoldEq(index, un.index);
      if cond.None? {
        symbolicWrites := true;
      } else if cond.value {
        return un.value;
      } else {
        un := un.next;
      }
    }
    if r.ConstantArray? && !symbolicWrites && index.Const? && index.value < |r.values| {
      return Const(r.values[index.value]);
    }
    if index.Const? && index.value < ArraySize(r) {
      return Read(r, un, index);
    }
    return Read(r, u, index);
  }
}
