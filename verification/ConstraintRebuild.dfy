/** Rebuilding a node with the constructor of its kind. */
module ConstraintRebuild {
  import opened Arithmetic
  import opened Bits
  import opened ConstraintOps
  import opened ConstraintExprs
  import opened ConstraintFixes
  import opened ConstraintWeight
  import opened ConstraintWords
  import opened ConstraintCreate
  import opened ConstraintBinary
  import M = MemoryExprs

  function Fold(sem: Operators, op: nat, width: nat, kids: seq<Expr>): Expr {
    if forall k | 0 <= k < |kids| :: kids[k].Const?
    then Const(sem(op, width, Values(kids)) % Pow2(width), width)
    else App(op, width, kids)
  }

  function Values(kids: seq<Expr>): seq<nat>
    requires forall k :: 0 <= k < |kids| ==> kids[k].Const?
  {
    if kids == [] then [] else [kids[0].value] + Values(kids[1..])
  }

  function Rebuild(sem: Operators, e: Expr): Expr {
    match e
    case Const(_, _) => e
    case And(l, r) => CreateAnd(l, r)
    case Or(l, r) => CreateOr(l, r)
    case Eq(l, r) => CreateEq(l, r)
    case Select(c, t, f) => CreateSelect(c, t, f)
    case Add(w, l, r) => CreateAdd(w, l, r)
    case Sub(w, l, r) => CreateSub(w, l, r)
    case Binary(op, w, l, r) => CreateBinary(op, w, l, r)
    case Cast(signed, x, from, w) => CreateCast(signed, x, from, w)
    case Concat(l, r, low) => CreateConcat(l, r, low)
    case Extract(x, off, w) => CreateExtract(x, off, w)
    case Read(root, u, width, index) => CreateRead(root, u, width, index)
    case App(op, width, kids) => Fold(sem, op, width, kids)
  }

  lemma {:induction false} ValuesMean(sem: Operators, kids: seq<Expr>, a: M.Assignment)
    requires forall k :: 0 <= k < |kids| ==> kids[k].Const?
    ensures Values(kids) == EvalAll(sem, kids, a)
  {
    if kids != [] {
      ValuesMean(sem, kids[1..], a);
    }
  }

  /** Rebuilding a node preserves its meaning. */
  lemma RebuildMeans(sem: Operators, e: Expr, a: M.Assignment)
    ensures Eval(sem, Rebuild(sem, e), a) == Eval(sem, e, a)
  {
    hide CreateAnd, CreateOr, CreateEq, CreateSelect, CreateRead, CreateAdd, CreateSub, CreateConcat, CreateExtract,
         CreateBinary, CreateCast;
    match e
    case Const(_, _) =>
    case And(l, r) => AndMeans(sem, l, r, a);
    case Or(l, r) => OrMeans(sem, l, r, a);
    case Eq(l, r) => EqMeans(sem, l, r, a);
    case Select(c, t, f) => SelectMeans(sem, c, t, f, a);
    case Add(w, l, r) => AddMeans(sem, w, l, r, a);
    case Sub(w, l, r) => SubMeans(sem, w, l, r, a);
    case Binary(op, w, l, r) => BinaryMeans(sem, op, w, l, r, a);
    case Cast(signed, x, from, w) => CastMeans(sem, signed, x, from, w, a);
    case Concat(l, r, low) => ConcatMeans(sem, l, r, low, a);
    case Extract(x, off, w) => ExtractMeans(sem, x, off, w, a);
    case Read(root, u, width, index) => ReadMeans(sem, root, u, width, index, a);
    case App(op, width, kids) =>
      if forall k :: 0 <= k < |kids| ==> kids[k].Const? {
        ValuesMean(sem, kids, a);
      }
  }

  lemma RebuildWeight(sem: Operators, e: Expr)
    ensures Weight(Rebuild(sem, e)) <= Weight(e)
  {
    hide CreateAnd, CreateOr, CreateEq, CreateSelect, RollBack, CreateBinary, CreateAdd, CreateSub;
    match e
    case And(l, r) => AndWeight(l, r);
    case Or(l, r) => OrWeight(l, r);
    case Eq(l, r) => EqWeight(l, r);
    case Select(c, t, f) => SelectWeight(c, t, f);
    case Add(w, l, r) => SumsWeight(w, l, r);
    case Sub(w, l, r) => SumsWeight(w, l, r);
    case Binary(op, w, l, r) => BinaryWeight(op, w, l, r);
    case Read(_, u, _, index) => RollBackWeight(u, index);
    case _ =>
  }

  /** The constructors qualify as the rebuild of the visitors: adding a constraint terminates and is
      sound with them. */
  lemma RebuildSimplifies(sem: Operators)
    ensures Simplifies(sem, Weight, e => Rebuild(sem, e))
  {
    hide Rebuild, Weight, Eval, Measures;
    WeightMeasures();
    var mk := e => Rebuild(sem, e);
    forall e
      ensures Weight(mk(e)) <= Weight(e)
    {
      RebuildWeight(sem, e);
    }
    forall e, a
      ensures Eval(sem, mk(e), a) == Eval(sem, e, a)
    {
      RebuildMeans(sem, e, a);
    }
  }

  // ---------------------------------------------------------------- what the visitors of the executor leave

  /** A byte of a symbolic array. */
  function Byte(i: nat): Expr {
    Read(M.SymbolicArray(0, 8), Nil, 8, Const(i, 32))
  }

  /** The visitor of a single equality does not look at rebuilt nodes again: reading at a replaced index
      uncovers a written value, and what is to be replaced in there stays. */
  lemma SourceSurvives(sem: Operators)
    ensures var x, w := Byte(0), Add(8, Const(1, 8), Byte(0));
            var e := Read(M.SymbolicArray(1, 8), Node(Const(5, 8), w, Nil), 8, x);
            Simplifies(sem, Weight, e => Rebuild(sem, e)) &&
            Visit(Replace(x, Const(5, 8)), e => Rebuild(sem, e), Weight, e) == w && Within(w, x)
  {
    hide Simplifies, Rebuild, Weight, Visit;
    RebuildSimplifies(sem);
    var x, w, c := Byte(0), Add(8, Const(1, 8), Byte(0)), Const(5, 8);
    var u := Node(c, w, Nil);
    var e := Read(M.SymbolicArray(1, 8), u, 8, x);
    assert Shrinks(Weight, e => Rebuild(sem, e)) by { SimplifiesShrinks(sem); }
    VisitRead(Replace(x, c), e => Rebuild(sem, e), Weight, M.SymbolicArray(1, 8), u, 8, x, c);
    Uncovered(sem, w);
    assert Within(Kids(w)[1], x);
  }

  lemma SimplifiesShrinks(sem: Operators)
    ensures Shrinks(Weight, e => Rebuild(sem, e))
  {
    hide Rebuild, Weight, Measures;
    RebuildSimplifies(sem);
  }

  /** Visiting a read whose index is replaced. */
  lemma VisitRead(v: Visitor, mk: Expr -> Expr, wt: Expr -> nat, root: M.Array, u: Updates, w: nat, x: Expr, c: Expr)
    requires ByConstants(v) && Shrinks(wt, mk) && !v.again && !x.Const? && x in v.before && v.before[x] == c
    requires Read(root, u, w, x) !in v.before
    ensures Visit(v, mk, wt, Read(root, u, w, x)) == Finish(v, mk(Read(root, u, w, c)))
  {
    hide Finish;
    var e := Read(root, u, w, x);
    PartsLighter(wt, e);
    assert Kids(e) == [x];
    assert VisitAll(v, mk, wt, [x], e) == [c] + VisitAll(v, mk, wt, [], e);
  }

  lemma Uncovered(sem: Operators, w: Expr)
    requires Bounded(w, 8)
    ensures Rebuild(sem, Read(M.SymbolicArray(1, 8), Node(Const(5, 8), w, Nil), 8, Const(5, 8))) == w
  {
    hide Bounded;
  }

  /** Two constraints, of which the second fixes a part of what the first one fixes. */
  const PartFixed: seq<Expr> :=
    [Eq(Const(7, 8), App(0, 8, [Byte(0), Byte(1)])), Eq(Const(3, 8), Byte(0))]

  /** Operands come first: what is fixed as a whole need not become its constant when a part of it is
      fixed, too. */
  lemma PartFixedFirst(sem: Operators)
    ensures Simplifies(sem, Weight, e => Rebuild(sem, e))
    ensures Simplified(e => Rebuild(sem, e), Weight, PartFixed, KeyOf(PartFixed[0])) ==
            App(0, 8, [Const(3, 8), Byte(1)])
  {
    hide Simplifies, Rebuild, Weight, Visit, Settled, Within;
    RebuildSimplifies(sem);
    SimplifiesShrinks(sem);
    var mk, v := (e => Rebuild(sem, e)), ByFixes(PartFixed);
    var x, y, c := Byte(0), Byte(1), Const(3, 8);
    var e, r := App(0, 8, [x, y]), App(0, 8, [c, y]);
    BothFixed();
    ByteSettled(v, 1);
    SettledByParts(v, Const(0, 32));
    VisitChanges(v, mk, Weight, y);
    VisitKey(v, mk, Weight, x);
    SettledByParts(v, c);
    SettledByParts(v, r);
    VisitChanges(v, mk, Weight, r);
    assert mk(r) == r by { NotFolded(sem, y); }
    VisitOperands(v, mk, Weight, x, y, c, r);
  }

  lemma BothFixed()
    ensures var x, e := Byte(0), App(0, 8, [Byte(0), Byte(1)]);
            ByFixes(PartFixed) == Visitor(map[], map[x := Const(3, 8), e := Const(7, 8)], true)
  {
    var c := Eq(Const(3, 8), Byte(0));
    assert PartFixed[1..] == [c] && [c][1..] == [];
    assert Fixes([c]) == map[Byte(0) := Const(3, 8)];
  }

  lemma ByteSettled(v: Visitor, i: nat)
    requires !IsKey(v, Byte(i))
    ensures Settled(v, Byte(i))
  {
    hide Settled, Within;
    SettledByParts(v, Byte(i));
    SettledByParts(v, Const(i, 32));
  }

  /** What is fixed, with operands in which nothing is, becomes its constant. */
  lemma VisitKey(v: Visitor, mk: Expr -> Expr, wt: Expr -> nat, x: Expr)
    requires ByConstants(v) && Shrinks(wt, mk) && !x.Const? && x !in v.before && x in v.after
    requires forall k :: 0 <= k < |Kids(x)| ==> Settled(v, Kids(x)[k])
    ensures Visit(v, mk, wt, x) == v.after[x]
  {
    hide Settled;
    PartsLighter(wt, x);
    VisitAllChanges(v, mk, wt, Kids(x), x);
  }

  lemma VisitOperands(v: Visitor, mk: Expr -> Expr, wt: Expr -> nat, x: Expr, y: Expr, c: Expr, r: Expr)
    requires ByConstants(v) && Shrinks(wt, mk) && v.again && App(0, 8, [x, y]) !in v.before
    requires Visit(v, mk, wt, x) == c != x && Visit(v, mk, wt, y) == y && r == App(0, 8, [c, y])
    requires mk(r) == r && Visit(v, mk, wt, r) == r && r !in v.after
    ensures Visit(v, mk, wt, App(0, 8, [x, y])) == r
  {
    hide Visit, VisitAll, Measures;
    var e := App(0, 8, [x, y]);
    assert Kids(e) == [x, y] && [x, y][0] == x && [x, y][1] == y;
    PartsLighter(wt, e);
    VisitPair(v, mk, wt, x, y, e);
    VisitTwice(v, mk, wt, e, [c, y]);
  }

  lemma VisitPair(v: Visitor, mk: Expr -> Expr, wt: Expr -> nat, x: Expr, y: Expr, parent: Expr)
    requires ByConstants(v) && Shrinks(wt, mk) && wt(x) < wt(parent) && wt(y) < wt(parent)
    ensures VisitAll(v, mk, wt, [x, y], parent) == [Visit(v, mk, wt, x), Visit(v, mk, wt, y)]
  {
    hide Visit;
    assert [x, y][1..] == [y] && [y][1..] == [];
    assert VisitAll(v, mk, wt, [y], parent) == [Visit(v, mk, wt, y)] + [];
  }

  lemma VisitTwice(v: Visitor, mk: Expr -> Expr, wt: Expr -> nat, e: Expr, kids: seq<Expr>)
    requires ByConstants(v) && Shrinks(wt, mk) && v.again && !e.Const? && e !in v.before
    requires forall k :: 0 <= k < |Kids(e)| ==> wt(Kids(e)[k]) < wt(e)
    requires VisitAll(v, mk, wt, Kids(e), e) == kids != Kids(e)
    ensures Visit(v, mk, wt, e) == Finish(v, Visit(v, mk, wt, mk(WithKids(e, kids))))
  {
    hide VisitAll, WithKids, Finish, Shrinks;
  }

  lemma NotFolded(sem: Operators, y: Expr)
    requires !y.Const?
    ensures Rebuild(sem, App(0, 8, [Const(3, 8), y])) == App(0, 8, [Const(3, 8), y])
  {
    assert ![Const(3, 8), y][1].Const?;
  }
}
