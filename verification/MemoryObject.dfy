/** The contents of a memory object: concrete bytes, cached symbolic bytes and an update list, which
    together behave like one plain array of bytes under every assignment. */
module MemoryObject {
  import opened Options
  import opened Arithmetic
  import opened MemoryExprs

  // ---------------------------------------------------------------- update lists, oldest write first

  type Write = (Expr, Expr)

  function Writes(u: Updates): seq<Write> {
    match u
    case Nil => []
    case Node(x, v, next) => Writes(next) + [(x, v)]
  }

  function Applied(ws: seq<Write>): Updates {
    if ws == [] then Nil else Node(ws[|ws| - 1].0, ws[|ws| - 1].1, Applied(ws[..|ws| - 1]))
  }

  lemma {:induction false} AppliedWrites(u: Updates)
    ensures Applied(Writes(u)) == u
  {
    if u.Node? {
      AppliedWrites(u.next);
      assert Writes(u)[..|Writes(u)| - 1] == Writes(u.next);
    }
  }

  /** Folding a prefix of the writes into the array itself changes no byte. */
  lemma {:induction false} FoldPrefix(r: Array, pre: seq<Write>, r': Array, rest: seq<Write>, i: nat, a: Assignment)
    requires ArrayAt(r', i, a) == Lookup(r, Applied(pre), i, a)
    ensures Lookup(r', Applied(rest), i, a) == Lookup(r, Applied(pre + rest), i, a)
  {
    if rest == [] {
      assert pre + rest == pre;
    } else {
      var n := |rest| - 1;
      assert (pre + rest)[..|pre + rest| - 1] == pre + rest[..n];
      FoldPrefix(r, pre, r', rest[..n], i, a);
    }
  }

  lemma AppliedMore(ws: seq<Write>, w: Write)
    ensures Applied(ws + [w]) == Node(w.0, w.1, Applied(ws))
  {
    assert (ws + [w])[..|ws|] == ws;
  }

  /** Constant indices are inside the object. */
  ghost predicate InBounds(ws: seq<Write>, size: nat) {
    forall k :: 0 <= k < |ws| && ws[k].0.Const? ==> ws[k].0.value < size
  }

  function Zeroes(size: nat): Array {
    ConstantArray(0, seq(size, _ => 0))
  }

  method Reapply(ws: seq<Write>) returns (u: Updates)
    ensures u == Applied(ws)
  {
    u := Nil;
    for k := 0 to |ws|
      invariant u == Applied(ws[..k])
    {
      assert ws[..k + 1] == ws[..k] + [ws[k]];
      AppliedMore(ws[..k], ws[k]);
      u := Node(ws[k].0, ws[k].1, u);
    }
    assert ws[..|ws|] == ws;
  }

  /** `contents` is what the first `n` writes, all constant, leave of an array of zeroes. */
  ghost predicate Folded(ws: seq<Write>, n: nat, contents: seq<nat>)
    requires n <= |ws|
  {
    forall i, a :: 0 <= i < |contents| ==> contents[i] == Lookup(Zeroes(|contents|), Applied(ws[..n]), i, a)
  }

  lemma FoldOne(ws: seq<Write>, n: nat, contents: seq<nat>)
    requires n < |ws| && Folded(ws, n, contents) && ws[n].0.Const? && ws[n].1.Const? && ws[n].0.value < |contents|
    ensures Folded(ws, n + 1, contents[ws[n].0.value := ws[n].1.value])
  {
    hide Applied, Zeroes;
    var k, v := ws[n].0.value, ws[n].1.value;
    var contents' := contents[k := v];
    assert ws[..n + 1] == ws[..n] + [ws[n]];
    AppliedMore(ws[..n], ws[n]);
    var z, u' := Zeroes(|contents|), Applied(ws[..n + 1]);
    forall i, a | 0 <= i < |contents'|
      ensures contents'[i] == Lookup(z, u', i, a)
    {
      LookupNode(z, ws[n].0, ws[n].1, Applied(ws[..n]), i, a);
    }
  }

  lemma LookupNode(r: Array, x: Expr, v: Expr, u: Updates, i: nat, a: Assignment)
    ensures Lookup(r, Node(x, v, u), i, a) == if Eval(x, a) == i then Eval(v, a) else Lookup(r, u, i, a)
  {
  }

  lemma FoldNone(ws: seq<Write>, contents: seq<nat>)
    requires forall i :: 0 <= i < |contents| ==> contents[i] == 0
    ensures Folded(ws, 0, contents)
  {
    assert ws[..0] == [];
  }

  /** Creates the constant array of an object lazily: the oldest writes, as long as they are
      constant, become its contents. */
  method FoldConstantWrites(u: Updates, size: nat, id: nat) returns (r: Array, u': Updates)
    requires InBounds(Writes(u), size)
    ensures r.ConstantArray? && |r.values| == size
    ensures InBounds(Writes(u'), size)
    ensures forall i, a :: 0 <= i < size ==> Lookup(r, u', i, a) == Lookup(Zeroes(size), u, i, a)
    ensures var ws, rest := Writes(u), Writes(u');
            && |rest| <= |ws| && rest == ws[|ws| - |rest|..]
            && (forall k :: 0 <= k < |ws| - |rest| ==> ws[k].0.Const? && ws[k].1.Const?)
            && (rest != [] ==> !(rest[0].0.Const? && rest[0].1.Const?))
  {
    hide Applied, Zeroes, Folded, Lookup;
    var ws := Writes(u);
    var contents: seq<nat> := seq(size, _ => 0);
    var begin := 0;
    FoldNone(ws, contents);
    while begin < |ws| && ws[begin].0.Const? && ws[begin].1.Const?
      invariant begin <= |ws| && |contents| == size && Folded(ws, begin, contents)
      invariant forall k :: 0 <= k < begin ==> ws[k].0.Const? && ws[k].1.Const?
    {
      FoldOne(ws, begin, contents);
      contents := contents[ws[begin].0.value := ws[begin].1.value];
      begin := begin + 1;
    }
    r := ConstantArray(id, contents);
    u' := Reapply(ws[begin..]);
    WritesApplied(ws[begin..]);
    forall i, a | 0 <= i < size
      ensures Lookup(r, u', i, a) == Lookup(Zeroes(size), u, i, a)
    {
      FoldedAt(ws, begin, contents, id, i, a);
      FoldPrefix(Zeroes(size), ws[..begin], r, ws[begin..], i, a);
      assert ws[..begin] + ws[begin..] == ws;
      AppliedWrites(u);
    }
  }

  lemma FoldedAt(ws: seq<Write>, n: nat, contents: seq<nat>, id: nat, i: nat, a: Assignment)
    requires n <= |ws| && Folded(ws, n, contents) && i < |contents|
    ensures ArrayAt(ConstantArray(id, contents), i, a) == Lookup(Zeroes(|contents|), Applied(ws[..n]), i, a)
  {
    hide Applied, Zeroes, Lookup;
  }

  lemma {:induction false} WritesApplied(ws: seq<Write>)
    ensures Writes(Applied(ws)) == ws
  {
    if ws != [] {
      WritesApplied(ws[..|ws| - 1]);
    }
  }

  // ---------------------------------------------------------------- the object

  predicate Concrete(mask: Option<seq<bool>>, i: nat) {
    mask.None? || (i < |mask.value| && mask.value[i])
  }

  predicate Flushed(mask: Option<seq<bool>>, i: nat) {
    mask.Some? && i < |mask.value| && !mask.value[i]
  }

  function Known(cache: Option<seq<Option<Expr>>>, i: nat): Option<Expr> {
    if cache.Some? && i < |cache.value| then cache.value[i] else None
  }

  /** A byte as the update list has it; before its array exists, unwritten bytes are zero. */
  ghost function Stored(root: Option<Array>, u: Updates, size: nat, i: nat, a: Assignment): nat {
    Lookup(if root.Some? then root.value else Zeroes(size), u, i, a)
  }

  class ObjectState {
    const size: nat
    var concreteStore: seq<nat>
    /** A one bit for every concrete byte; all are when there is no mask. */
    var concreteMask: Option<seq<bool>>
    /** A one bit for every byte that is not in the update list; none is when there is no mask. */
    var flushMask: Option<seq<bool>>
    var knownSymbolics: Option<seq<Option<Expr>>>
    /** The array of the update list, once it has been created. */
    var root: Option<Array>
    var updates: Updates
    var nextArrayId: nat

    /** The byte the object holds. */
    ghost function ByteAt(i: nat, a: Assignment): nat
      requires i < |concreteStore|
      reads this
    {
      if Concrete(concreteMask, i) then concreteStore[i]
      else if Known(knownSymbolics, i).Some? then Eval(Known(knownSymbolics, i).value, a)
      else Stored(root, updates, size, i, a)
    }

    ghost predicate Shape()
      reads this
    {
      && |concreteStore| == size
      && (concreteMask.Some? ==> |concreteMask.value| == size)
      && (flushMask.Some? ==> |flushMask.value| == size)
      && (knownSymbolics.Some? ==> |knownSymbolics.value| == size)
      && (root.Some? ==> ArraySize(root.value) == size)
      && InBounds(Writes(updates), size)
    }

    /** The cache invariants, and that the update list agrees with the cache on flushed bytes. */
    ghost predicate Valid()
      reads this
    {
      && Shape()
      && (forall i :: 0 <= i < size && Known(knownSymbolics, i).Some? ==> !Concrete(concreteMask, i))
      && (forall i :: 0 <= i < size && !Flushed(flushMask, i) ==>
          Concrete(concreteMask, i) || Known(knownSymbolics, i).Some?)
      && (forall i, a :: 0 <= i < size && Flushed(flushMask, i) ==> Stored(root, updates, size, i, a) == ByteAt(i, a))
    }

    /** Concrete contents, all zero.  Without constant arrays there is a nameless array beneath. */
    constructor (size: nat, useConstantArrays: bool, id: nat)
      ensures Valid() && this.size == size && forall i, a :: 0 <= i < size ==> ByteAt(i, a) == 0
      ensures forall i :: 0 <= i < size ==> Concrete(concreteMask, i)
    {
      this.size := size;
      concreteStore := seq(size, _ => 0);
      concreteMask, flushMask, knownSymbolics := None, None, None;
      root, updates, nextArrayId := if useConstantArrays then None else Some(SymbolicArray(id, size)), Nil, 0;
    }

    /** Symbolic contents. */
    constructor Symbolic(size: nat, contents: Array)
      requires contents.SymbolicArray? && contents.size == size
      ensures Valid() && this.size == size && forall i, a :: 0 <= i < size ==> ByteAt(i, a) == ArrayAt(contents, i, a)
      ensures forall i :: 0 <= i < size ==> !Concrete(concreteMask, i)
    {
      this.size := size;
      concreteStore := seq(size, _ => 0);
      concreteMask, flushMask, knownSymbolics := None, None, None;
      root, updates, nextArrayId := Some(contents), Nil, 0;
      new;
      for i := 0 to size
        invariant Shape() && root == Some(contents) && updates == Nil && knownSymbolics.None?
        invariant forall j :: 0 <= j < i ==> !Concrete(concreteMask, j) && Flushed(flushMask, j)
      {
        MarkByteSymbolic(i);
        SetKnownSymbolic(i, None);
        MarkByteFlushed(i);
      }
    }

    method MarkByteConcrete(i: nat)
      requires Shape() && i < size
      modifies this`concreteMask
      ensures Shape()
      ensures forall j :: 0 <= j < size ==> Concrete(concreteMask, j) == (j == i || Concrete(old(concreteMask), j))
    {
      if concreteMask.Some? {
        concreteMask := Some(concreteMask.value[i := true]);
      }
    }

    method MarkByteSymbolic(i: nat)
      requires Shape() && i < size
      modifies this`concreteMask
      ensures Shape()
      ensures forall j :: 0 <= j < size ==> Concrete(concreteMask, j) == (j != i && Concrete(old(concreteMask), j))
    {
      if concreteMask.None? {
        concreteMask := Some(seq(size, _ => true));
      }
      concreteMask := Some(concreteMask.value[i := false]);
    }

    method MarkByteUnflushed(i: nat)
      requires Shape() && i < size
      modifies this`flushMask
      ensures Shape()
      ensures forall j :: 0 <= j < size ==> Flushed(flushMask, j) == (j != i && Flushed(old(flushMask), j))
    {
      if flushMask.Some? {
        flushMask := Some(flushMask.value[i := true]);
      }
    }

    /** Without a mask, this marks every byte. */
    method MarkByteFlushed(i: nat)
      requires Shape() && i < size
      modifies this`flushMask
      ensures Shape()
      ensures forall j :: 0 <= j < size ==>
                Flushed(flushMask, j) == (j == i || old(flushMask).None? || Flushed(old(flushMask), j))
    {
      if flushMask.None? {
        flushMask := Some(seq(size, _ => false));
      } else {
        flushMask := Some(flushMask.value[i := false]);
      }
    }

    method SetKnownSymbolic(i: nat, value: Option<Expr>)
      requires Shape() && i < size
      modifies this`knownSymbolics
      ensures Shape()
      ensures value.None? && old(knownSymbolics).None? ==> knownSymbolics.None?
      ensures forall j :: 0 <= j < size ==>
              Known(knownSymbolics, j) == if j == i then value else Known(old(knownSymbolics), j)
    {
      if knownSymbolics.Some? {
        knownSymbolics := Some(knownSymbolics.value[i := value]);
      } else if value.Some? {
        knownSymbolics := Some(seq(size, _ => None));
        knownSymbolics := Some(knownSymbolics.value[i := value]);
      }
    }

    // -------------------------------------------------------------- constant offsets

    /** Writes a concrete byte. */
    method WriteConcrete(i: nat, value: nat)
      requires Valid() && i < size
      modifies this
      ensures Valid()
      ensures forall j, a :: 0 <= j < size ==> ByteAt(j, a) == if j == i then value else old(ByteAt(j, a))
      ensures forall j :: 0 <= j < size ==> Concrete(concreteMask, j) == (j == i || Concrete(old(concreteMask), j))
    {
      hide InBounds, Writes;
      concreteStore := concreteStore[i := value];
      SetKnownSymbolic(i, None);
      MarkByteConcrete(i);
      MarkByteUnflushed(i);
    }

    /** Writes a byte that may be symbolic. */
    method Write8(i: nat, value: Expr)
      requires Valid() && i < size
      modifies this
      ensures Valid()
      ensures forall j, a :: 0 <= j < size ==> ByteAt(j, a) == if j == i then Eval(value, a) else old(ByteAt(j, a))
      ensures forall j :: 0 <= j < size ==>
                Concrete(concreteMask, j) == if j == i then value.Const? else Concrete(old(concreteMask), j)
      ensures !value.Const? ==> Known(knownSymbolics, i) == Some(value)
    {
      hide InBounds, Writes;
      if value.Const? {
        WriteConcrete(i, value.value);
      } else {
        SetKnownSymbolic(i, Some(value));
        MarkByteSymbolic(i);
        MarkByteUnflushed(i);
      }
    }

    /** Reads the byte at a constant offset. */
    method Read8(i: nat) returns (e: Expr)
      requires Valid() && i < size
      modifies this`root, this`updates, this`nextArrayId
      ensures Valid()
      ensures forall j, a :: 0 <= j < size ==> ByteAt(j, a) == old(ByteAt(j, a))
      ensures forall a :: Eval(e, a) == old(ByteAt(i, a))
      ensures Concrete(concreteMask, i) ==> e.Const?
      ensures Known(knownSymbolics, i).Some? ==> e == Known(knownSymbolics, i).value
    {
      hide InBounds, Writes, Lookup;
      if Concrete(concreteMask, i) {
        EvalConst(concreteStore[i]);
        return Const(concreteStore[i]);
      } else if Known(knownSymbolics, i).Some? {
        return Known(knownSymbolics, i).value;
      } else {
        assert Flushed(flushMask, i);
        GetUpdates();
        e := CreateRead(root.value, updates, Const(i));
        EvalConst(i);
      }
    }

    /** Makes sure the update list has an array. */
    method GetUpdates()
      requires Valid()
      modifies this`root, this`updates, this`nextArrayId
      ensures Valid() && root.Some?
      ensures forall i, a :: 0 <= i < size ==>
              Stored(root, updates, size, i, a) == old(Stored(root, updates, size, i, a))
      ensures forall i, a :: 0 <= i < size ==> ByteAt(i, a) == old(ByteAt(i, a))
    {
      hide Lookup, Zeroes, InBounds, Writes;
      if root.None? {
        var r, u := FoldConstantWrites(updates, size, nextArrayId);
        nextArrayId := nextArrayId + 1;
        root, updates := Some(r), u;
        assert forall i, a :: 0 <= i < size ==>
               Stored(root, updates, size, i, a) == old(Stored(root, updates, size, i, a));
        assert forall i, a :: 0 <= i < size ==> ByteAt(i, a) == old(ByteAt(i, a));
        assert Shape();
      }
    }

    // -------------------------------------------------------------- symbolic offsets

    /** Adds a byte of the cache to the update list. */
    method FlushByte(i: nat)
      requires Valid() && i < size && flushMask.Some? && !Flushed(flushMask, i)
      modifies this`flushMask, this`updates
      ensures Valid() && flushMask.Some?
      ensures forall j :: 0 <= j < size ==> Flushed(flushMask, j) == (j == i || Flushed(old(flushMask), j))
      ensures forall j, a :: 0 <= j < size ==> ByteAt(j, a) == old(ByteAt(j, a))
    {
      hide Lookup, Zeroes, InBounds, Writes;
      var value: Expr;
      if Concrete(concreteMask, i) {
        value := Const(concreteStore[i]);
        EvalConst(concreteStore[i]);
      } else {
        assert Known(knownSymbolics, i).Some?;
        value := Known(knownSymbolics, i).value;
      }
      Extended(root, updates, size, i, value);
      updates := Node(Const(i), value, updates);
      flushMask := Some(flushMask.value[i := false]);
    }

    /** Writes the whole cache to the update list, before a read at a symbolic offset. */
    method FlushForRead()
      requires Valid()
      modifies this`flushMask, this`updates
      ensures Valid() && forall i :: 0 <= i < size ==> Flushed(flushMask, i)
      ensures forall i, a :: 0 <= i < size ==> ByteAt(i, a) == old(ByteAt(i, a))
    {
      hide Lookup, Zeroes, InBounds, Writes, Eval;
      if flushMask.None? {
        flushMask := Some(seq(size, _ => true));
      }
      for i := 0 to size
        invariant Valid() && flushMask.Some?
        invariant forall j :: 0 <= j < i ==> Flushed(flushMask, j)
        invariant forall j, a :: 0 <= j < size ==> ByteAt(j, a) == old(ByteAt(j, a))
      {
        if !Flushed(flushMask, i) {
          FlushByte(i);
        }
      }
    }

    /** Reads the byte at a symbolic offset. */
    method ReadSymbolic(offset: Expr) returns (e: Expr)
      requires Valid()
      modifies this`flushMask, this`root, this`updates, this`nextArrayId
      ensures Valid()
      ensures forall i, a :: 0 <= i < size ==> ByteAt(i, a) == old(ByteAt(i, a))
      ensures forall a :: Eval(Index32(offset), a) < size ==> Eval(e, a) == old(ByteAt(Eval(Index32(offset), a), a))
    {
      hide Lookup, Zeroes, InBounds, Writes, Eval;
      FlushForRead();
      GetUpdates();
      e := CreateRead(root.value, updates, Index32(offset));
    }

    /** Moves the whole cache to the update list, before a write at a symbolic offset. */
    method FlushForWrite()
      requires Valid()
      modifies this`flushMask, this`updates, this`concreteMask, this`knownSymbolics
      ensures Valid() && forall i :: 0 <= i < size ==> Flushed(flushMask, i)
      ensures forall i :: 0 <= i < size ==> !Concrete(concreteMask, i) && Known(knownSymbolics, i).None?
      ensures forall i, a :: 0 <= i < size ==> ByteAt(i, a) == old(ByteAt(i, a))
    {
      hide Lookup, Zeroes, InBounds, Writes, Eval;
      if flushMask.None? {
        flushMask := Some(seq(size, _ => true));
      }
      for i := 0 to size
        invariant Valid() && flushMask.Some?
        invariant forall j :: 0 <= j < i ==>
                  Flushed(flushMask, j) && !Concrete(concreteMask, j) && Known(knownSymbolics, j).None?
        invariant forall j, a :: 0 <= j < size ==> ByteAt(j, a) == old(ByteAt(j, a))
      {
        if !Flushed(flushMask, i) {
          FlushByte(i);
        }
        if Concrete(concreteMask, i) {
          MarkByteSymbolic(i);
        } else if Known(knownSymbolics, i).Some? {
          SetKnownSymbolic(i, None);
        }
      }
    }

    /** Writes a byte at a symbolic offset; a write outside changes nothing. */
    method WriteSymbolic(offset: Expr, value: Expr)
      requires Valid()
      modifies this
      ensures Valid()
      ensures forall i, a :: 0 <= i < size ==>
                ByteAt(i, a) == if Eval(Index32(offset), a) == i then Eval(value, a) else old(ByteAt(i, a))
      ensures forall i :: 0 <= i < size ==> !Concrete(concreteMask, i)
    {
      hide Lookup, Zeroes, InBounds, Writes, Eval;
      FlushForWrite();
      ExtendedSymbolic(root, updates, size, Index32(offset), value);
      updates := Node(Index32(offset), value, updates);
    }

    // -------------------------------------------------------------- whole objects

    /** Concrete contents again, every byte the same; the update list stays behind, unused. */
    method Fill(value: nat)
      requires Valid()
      modifies this
      ensures Valid() && forall i, a :: 0 <= i < size ==> ByteAt(i, a) == value
      ensures forall i :: 0 <= i < size ==> Concrete(concreteMask, i)
    {
      hide Lookup, Zeroes, InBounds, Writes, Eval;
      concreteMask, flushMask, knownSymbolics := None, None, None;
      concreteStore := seq(size, _ => value);
    }

    constructor Copy(other: ObjectState)
      requires other.Valid()
      ensures Valid() && size == other.size && forall i, a :: 0 <= i < size ==> ByteAt(i, a) == other.ByteAt(i, a)
      ensures forall i :: 0 <= i < size ==> (Concrete(concreteMask, i) <==> Concrete(other.concreteMask, i))
    {
      size := other.size;
      concreteStore, concreteMask, flushMask := other.concreteStore, other.concreteMask, other.flushMask;
      knownSymbolics, root, updates := other.knownSymbolics, other.root, other.updates;
      nextArrayId := other.nextArrayId;
      new;
      CopyBytes(other);
    }

    lemma CopyBytes(other: ObjectState)
      requires other.Valid() && size == other.size && concreteStore == other.concreteStore
               && concreteMask == other.concreteMask
      requires flushMask == other.flushMask && knownSymbolics == other.knownSymbolics && root == other.root
               && updates == other.updates
      ensures Valid() && forall i, a :: 0 <= i < size ==> ByteAt(i, a) == other.ByteAt(i, a)
    {
      hide Lookup, Zeroes, InBounds, Writes, Eval;
      assert forall i, a :: 0 <= i < size ==> ByteAt(i, a) == other.ByteAt(i, a);
    }

    // -------------------------------------------------------------- several bytes

    /** Writes a value of `n` bytes, in the byte order of the target. */
    method WriteWide(offset: nat, value: Expr, n: nat, little: bool)
      requires Valid() && offset + n <= size
      modifies this
      ensures Valid()
      ensures forall j, a :: 0 <= j < size ==>
                ByteAt(j, a) == if offset <= j < offset + n then Nth(Eval(value, a), Order(j - offset, n, little))
                  else old(ByteAt(j, a))
      ensures forall j :: 0 <= j < size && !(offset <= j < offset + n) ==>
                Concrete(concreteMask, j) == Concrete(old(concreteMask), j)
      ensures value.Const? ==> forall j :: offset <= j < offset + n ==> Concrete(concreteMask, j)
    {
      hide Lookup, Zeroes, InBounds, Writes, Eval, Nth;
      for i := 0 to n
        invariant Valid()
        invariant forall j :: 0 <= j < size && !(offset <= j < offset + n) ==>
                    Concrete(concreteMask, j) == Concrete(old(concreteMask), j)
        invariant value.Const? ==> forall j :: offset <= j < offset + n && Order(j - offset, n, little) < i ==>
                    Concrete(concreteMask, j)
        invariant forall j, a :: 0 <= j < size ==>
                    ByteAt(j, a) ==
                    if offset <= j < offset + n && Order(j - offset, n, little) < i
                    then Nth(Eval(value, a), Order(j - offset, n, little)) else old(ByteAt(j, a))
      {
        ExtractMeans(value, i);
        Write8(offset + Order(i, n, little), ExtractByte(value, i));
      }
    }

    /** Reads a value of `n` bytes, in the byte order of the target. */
    method ReadWide(offset: nat, n: nat, little: bool) returns (e: Expr)
      requires Valid() && 0 < n && offset + n <= size
      modifies this`root, this`updates, this`nextArrayId
      ensures Valid() && forall j, a :: 0 <= j < size ==> ByteAt(j, a) == old(ByteAt(j, a))
      ensures forall a :: Eval(e, a) == Number(old(Bytes(offset, n, n, little, a)))
      ensures (forall j :: offset <= j < offset + n ==> Concrete(concreteMask, j)) ==> e.Const?
    {
      hide Lookup, Zeroes, InBounds, Writes, Eval, Number, ByteAt, Concrete, Known, Flushed, Stored, Order, Join;
      e := Read8(offset + Order(0, n, little));
      forall a
        ensures Eval(e, a) == Number(old(Bytes(offset, n, 1, little, a)))
      {
        MoreBytes([], Eval(e, a));
        assert old(Bytes(offset, n, 1, little, a)) == [] + [Eval(e, a)];
      }
      for i := 1 to n
        invariant Valid() && forall j, a :: 0 <= j < size ==> ByteAt(j, a) == old(ByteAt(j, a))
        invariant forall a :: Eval(e, a) == Number(old(Bytes(offset, n, i, little, a)))
        invariant (forall j :: offset <= j < offset + n ==> Concrete(concreteMask, j)) ==> e.Const?
      {
        var byte := Read8(offset + Order(i, n, little));
        forall a
          ensures Eval(Join(byte, e, i), a) == Number(old(Bytes(offset, n, i + 1, little, a)))
        {
          JoinMeans(byte, e, i, a);
          MoreBytes(old(Bytes(offset, n, i, little, a)), Eval(byte, a));
          assert old(Bytes(offset, n, i + 1, little, a)) == old(Bytes(offset, n, i, little, a)) + [Eval(byte, a)];
        }
        e := Join(byte, e, i);
      }
    }

    /** The same at a symbolic offset, for every assignment under which the access is inside. */
    method WriteWideSymbolic(offset: Expr, value: Expr, n: nat, little: bool)
      requires Valid() && size <= TWO_32
      modifies this
      ensures Valid()
      ensures forall j, a :: 0 <= j < size && Eval(Index32(offset), a) + n <= size ==>
                var o := Eval(Index32(offset), a);
                ByteAt(j, a) == if o <= j < o + n then Nth(Eval(value, a), Order(j - o, n, little))
                  else old(ByteAt(j, a))
    {
      hide Lookup, Zeroes, InBounds, Writes, Eval, Nth;
      for i := 0 to n
        invariant Valid()
        invariant forall j, a :: 0 <= j < size && Eval(Index32(offset), a) + n <= size ==>
                    var o := Eval(Index32(offset), a);
                    ByteAt(j, a) ==
                    if o <= j < o + n && Order(j - o, n, little) < i
                    then Nth(Eval(value, a), Order(j - o, n, little)) else old(ByteAt(j, a))
      {
        ExtractMeans(value, i);
        var at := AddIndex(Index32(offset), Order(i, n, little));
        AtMeans(offset, Order(i, n, little), n, size);
        WriteSymbolic(at, ExtractByte(value, i));
      }
    }

    method ReadWideSymbolic(offset: Expr, n: nat, little: bool) returns (e: Expr)
      requires Valid() && 0 < n && size <= TWO_32
      modifies this`flushMask, this`root, this`updates, this`nextArrayId
      ensures Valid() && forall j, a :: 0 <= j < size ==> ByteAt(j, a) == old(ByteAt(j, a))
      ensures forall a :: Eval(Index32(offset), a) + n <= size ==>
                Eval(e, a) == Number(old(Bytes(Eval(Index32(offset), a), n, n, little, a)))
    {
      hide Lookup, Zeroes, InBounds, Writes, Eval, Number, ByteAt, Concrete, Known, Flushed, Stored, Order, Join;
      AtMeans(offset, Order(0, n, little), n, size);
      e := ReadSymbolic(AddIndex(Index32(offset), Order(0, n, little)));
      forall a | Eval(Index32(offset), a) + n <= size
        ensures Eval(e, a) == Number(old(Bytes(Eval(Index32(offset), a), n, 1, little, a)))
      {
        MoreBytes([], Eval(e, a));
        assert old(Bytes(Eval(Index32(offset), a), n, 1, little, a)) == [] + [Eval(e, a)];
      }
      for i := 1 to n
        invariant Valid() && forall j, a :: 0 <= j < size ==> ByteAt(j, a) == old(ByteAt(j, a))
        invariant forall a :: Eval(Index32(offset), a) + n <= size ==>
                    Eval(e, a) == Number(old(Bytes(Eval(Index32(offset), a), n, i, little, a)))
      {
        AtMeans(offset, Order(i, n, little), n, size);
        var byte := ReadSymbolic(AddIndex(Index32(offset), Order(i, n, little)));
        forall a | Eval(Index32(offset), a) + n <= size
          ensures Eval(Join(byte, e, i), a) == Number(old(Bytes(Eval(Index32(offset), a), n, i + 1, little, a)))
        {
          var o := Eval(Index32(offset), a);
          JoinMeans(byte, e, i, a);
          MoreBytes(old(Bytes(o, n, i, little, a)), Eval(byte, a));
          assert old(Bytes(o, n, i + 1, little, a)) == old(Bytes(o, n, i, little, a)) + [Eval(byte, a)];
        }
        e := Join(byte, e, i);
      }
    }

    /** The lowest `k` of `n` bytes, the least significant first. */
    ghost function Bytes(offset: nat, n: nat, k: nat, little: bool, a: Assignment): (bs: seq<nat>)
      requires k <= n && offset + n <= |concreteStore|
      reads this
      ensures |bs| == k
    {
      if k == 0 then [] else Bytes(offset, n, k - 1, little, a) + [ByteAt(offset + Order(k - 1, n, little), a)]
    }

    /** What was written comes back, whatever the byte order. */
    lemma ReadBack(offset: nat, n: nat, little: bool, a: Assignment, v: nat)
      requires offset + n <= |concreteStore|
      requires forall j :: offset <= j < offset + n ==> ByteAt(j, a) == Nth(v, Order(j - offset, n, little))
      ensures Number(Bytes(offset, n, n, little, a)) == v % Pow256(n)
    {
      hide Number, Nth;
      var bs := Bytes(offset, n, n, little, a);
      forall i | 0 <= i < n
        ensures bs[i] == Nth(v, i)
      {
        BytesAt(offset, n, n, little, a, i);
        assert Order(Order(i, n, little), n, little) == i;
      }
      RoundTrip(v, bs);
    }

    lemma {:induction false} BytesAt(offset: nat, n: nat, k: nat, little: bool, a: Assignment, i: nat)
      requires i < k <= n && offset + n <= |concreteStore|
      ensures Bytes(offset, n, k, little, a)[i] == ByteAt(offset + Order(i, n, little), a)
    {
      if i < k - 1 {
        BytesAt(offset, n, k - 1, little, a, i);
      }
    }
  }

  /** The place of the i-th byte of a value of `n`, counted from the least significant. */
  function Order(i: nat, n: nat, little: bool): (k: nat)
    requires i < n
    ensures k < n
  {
    if little then i else n - i - 1
  }

  function Nth(v: nat, k: nat): nat {
    v / Pow256(k) % 256
  }

  function ExtractByte(e: Expr, k: nat): Expr {
    if e.Const? then Const(Nth(e.value, k)) else ByteOf(e, k)
  }

  lemma ExtractMeans(e: Expr, k: nat)
    ensures forall a :: Eval(ExtractByte(e, k), a) == Nth(Eval(e, a), k)
  {
  }

  /** The offset of a byte of an access that is inside. */
  lemma AtMeans(offset: Expr, k: nat, n: nat, size: nat)
    requires k < n && size <= TWO_32
    ensures forall a :: Eval(Index32(offset), a) + n <= size ==>
              Eval(Index32(AddIndex(Index32(offset), k)), a) == Eval(Index32(offset), a) + k
  {
  }

  /** Puts bytes above others; of constants, a constant. */
  function Join(h: Expr, l: Expr, n: nat): (e: Expr)
    ensures h.Const? && l.Const? ==> e.Const?
  {
    if h.Const? && l.Const? then Const(h.value * Pow256(n) + l.value) else Concat(h, l, n)
  }

  lemma JoinMeans(h: Expr, l: Expr, n: nat, a: Assignment)
    ensures Eval(Join(h, l, n), a) == Eval(h, a) * Pow256(n) + Eval(l, a)
  {
  }

  /** The number that bytes stand for, the least significant first. */
  function Number(bs: seq<nat>): nat {
    if bs == [] then 0 else bs[|bs| - 1] * Pow256(|bs| - 1) + Number(bs[..|bs| - 1])
  }

  lemma MoreBytes(bs: seq<nat>, b: nat)
    ensures Number(bs + [b]) == b * Pow256(|bs|) + Number(bs)
    ensures bs == [] ==> Number(bs + [b]) == b
  {
    assert (bs + [b])[..|bs|] == bs;
  }

  /** Taking a value apart and putting it together again. */
  lemma {:induction false} RoundTrip(v: nat, bs: seq<nat>)
    requires forall i :: 0 <= i < |bs| ==> bs[i] == Nth(v, i)
    ensures Number(bs) == v % Pow256(|bs|)
  {
    if bs != [] {
      var n := |bs| - 1;
      RoundTrip(v, bs[..n]);
      SplitPower(v, n);
    }
  }

  lemma SplitPower(v: nat, n: nat)
    ensures v % Pow256(n + 1) == v / Pow256(n) % 256 * Pow256(n) + v % Pow256(n)
  {
    var p := Pow256(n);
    var q, r := v / p, v % p;
    var s, t := q / 256, q % 256;
    assert v == p * q + r && q == 256 * s + t;
    Regroup(p, s, t, r);
    assert v == (256 * p) * s + (t * p + r);
    Bounded(p, t, r);
    Remainder(256 * p, s, t * p + r);
  }

  lemma Regroup(p: nat, s: nat, t: nat, r: nat)
    ensures p * (256 * s + t) + r == (256 * p) * s + (t * p + r)
  {
  }

  lemma Bounded(p: nat, t: nat, r: nat)
    requires t < 256 && r < p
    ensures t * p + r < 256 * p
  {
    assert t * p <= 255 * p;
  }

  lemma EvalConst(i: nat)
    ensures forall a :: Eval(Const(i), a) == i
  {
  }

  lemma Extended(root: Option<Array>, u: Updates, size: nat, i: nat, value: Expr)
    requires InBounds(Writes(u), size) && i < size
    ensures InBounds(Writes(Node(Const(i), value, u)), size)
    ensures forall j, a :: Stored(root, Node(Const(i), value, u), size, j, a) == if j == i then Eval(value, a)
            else Stored(root, u, size, j, a)
  {
    hide Zeroes, Lookup;
    var r := if root.Some? then root.value else Zeroes(size);
    EvalConst(i);
    forall j, a
      ensures Lookup(r, Node(Const(i), value, u), j, a) == if j == i then Eval(value, a) else Lookup(r, u, j, a)
    {
      LookupNode(r, Const(i), value, u, j, a);
    }
  }

  lemma ExtendedSymbolic(root: Option<Array>, u: Updates, size: nat, x: Expr, value: Expr)
    requires InBounds(Writes(u), size) && !x.Const?
    ensures InBounds(Writes(Node(x, value, u)), size)
    ensures forall j, a :: Stored(root, Node(x, value, u), size, j, a) == if Eval(x, a) == j then Eval(value, a)
            else Stored(root, u, size, j, a)
  {
    hide Zeroes;
  }
}
