/** Path constraints as expressions, and the visitors that replace subexpressions. */
module ConstraintExprs {
  import opened Arithmetic
  import opened Bits
  import opened ConstraintOps
  import M = MemoryExprs

  /** `And` and `Or` are those of width one; wider ones are among the binary operators, whose width is
      that of their operands.  The right operand of a concatenation has `low` bits, the operand of a
      cast `from` bits. */
  datatype Expr =
    | Const(value: nat, width: nat)
    | And(left: Expr, right: Expr)
    | Or(left: Expr, right: Expr)
    | Eq(left: Expr, right: Expr)
    | Select(cond: Expr, yes: Expr, no: Expr)
    | Add(width: nat, left: Expr, right: Expr)
    | Sub(width: nat, left: Expr, right: Expr)
    | Binary(op: BinaryOp, width: nat, left: Expr, right: Expr)
    | Cast(signed: bool, expr: Expr, from: nat, width: nat)
    | Concat(left: Expr, right: Expr, low: nat)
    | Extract(expr: Expr, offset: nat, width: nat)
    | Read(root: M.Array, updates: Updates, width: nat, index: Expr)
    | App(symbol: nat, width: nat, kids: seq<Expr>)

  /** Writes to the array that is read, the most recent first. */
  datatype Updates = Nil | Node(index: Expr, value: Expr, next: Updates)

  /** What the other operators compute from their width and operands. */
  type Operators = (nat, nat, seq<nat>) -> nat

  const TRUE := Const(1, 1)
  const FALSE := Const(0, 1)

  /** The operators are fixed; an assignment gives the contents of the arrays. */
  function Eval(sem: Operators, e: Expr, a: M.Assignment): nat
    decreases e
  {
    match e
    case Const(v, _) => v
    case And(l, r) => Truth(Eval(sem, l, a) == 1 && Eval(sem, r, a) == 1)
    case Or(l, r) => Truth(Eval(sem, l, a) == 1 || Eval(sem, r, a) == 1)
    case Eq(l, r) => Truth(Eval(sem, l, a) == Eval(sem, r, a))
    case Select(c, t, f) => if Eval(sem, c, a) == 1 then Eval(sem, t, a) else Eval(sem, f, a)
    case Add(w, l, r) => Plus(Eval(sem, l, a), Eval(sem, r, a), w)
    case Sub(w, l, r) => Minus(Eval(sem, l, a), Eval(sem, r, a), w)
    case Binary(op, w, l, r) => Computed(op, Eval(sem, l, a), Eval(sem, r, a), w)
    case Cast(signed, x, from, w) => Extended(signed, Eval(sem, x, a), from, w)
    case Concat(l, r, low) => Above(Eval(sem, l, a), Eval(sem, r, a) % Pow2(low), low)
    case Extract(x, off, w) => Slice(Eval(sem, x, a), off, w)
    case Read(root, updates, w, index) => Stored(sem, root, updates, Eval(sem, index, a), a) % Pow2(w)
    case App(op, width, kids) => sem(op, width, EvalAll(sem, kids, a)) % Pow2(width)
  }

  function EvalAll(sem: Operators, es: seq<Expr>, a: M.Assignment): seq<nat>
    decreases es
  {
    if es == [] then [] else [Eval(sem, es[0], a)] + EvalAll(sem, es[1..], a)
  }

  function Stored(sem: Operators, root: M.Array, u: Updates, i: nat, a: M.Assignment): nat
    decreases u
  {
    match u
    case Nil => M.ArrayAt(root, i, a)
    case Node(x, v, next) =>
      if Eval(sem, x, a) == i then Eval(sem, v, a) else Stored(sem, root, next, i, a)
  }

  predicate Holds(sem: Operators, e: Expr, a: M.Assignment) {
    Eval(sem, e, a) == 1
  }

  /** The subexpressions a visitor looks at: of a read, the index only. */
  function Kids(e: Expr): (kids: seq<Expr>)
    ensures forall k :: 0 <= k < |kids| ==> (e decreases to kids[k])
  {
    match e
    case Const(_, _) => []
    case And(l, r) => [l, r]
    case Or(l, r) => [l, r]
    case Eq(l, r) => [l, r]
    case Select(c, t, f) => [c, t, f]
    case Add(_, l, r) => [l, r]
    case Sub(_, l, r) => [l, r]
    case Binary(_, _, l, r) => [l, r]
    case Cast(_, x, _, _) => [x]
    case Concat(l, r, _) => [l, r]
    case Extract(x, _, _) => [x]
    case Read(_, _, _, index) => [index]
    case App(_, _, kids) => kids
  }

  function WithKids(e: Expr, kids: seq<Expr>): Expr
    requires |kids| == |Kids(e)|
  {
    match e
    case Const(_, _) => e
    case And(_, _) => And(kids[0], kids[1])
    case Or(_, _) => Or(kids[0], kids[1])
    case Eq(_, _) => Eq(kids[0], kids[1])
    case Select(_, _, _) => Select(kids[0], kids[1], kids[2])
    case Add(w, _, _) => Add(w, kids[0], kids[1])
    case Sub(w, _, _) => Sub(w, kids[0], kids[1])
    case Binary(op, w, _, _) => Binary(op, w, kids[0], kids[1])
    case Cast(signed, _, from, w) => Cast(signed, kids[0], from, w)
    case Concat(_, _, low) => Concat(kids[0], kids[1], low)
    case Extract(_, off, w) => Extract(kids[0], off, w)
    case Read(root, updates, width, _) => Read(root, updates, width, kids[0])
    case App(op, width, _) => App(op, width, kids)
  }

  lemma {:induction false} ValueOf(sem: Operators, es: seq<Expr>, a: M.Assignment, k: nat)
    requires k < |es|
    ensures |EvalAll(sem, es, a)| == |es| && EvalAll(sem, es, a)[k] == Eval(sem, es[k], a)
  {
    if k > 0 {
      ValueOf(sem, es[1..], a, k - 1);
    } else if |es| > 1 {
      ValueOf(sem, es[1..], a, 0);
    }
  }

  lemma WithKidsMeans(sem: Operators, e: Expr, kids: seq<Expr>, a: M.Assignment)
    requires |kids| == |Kids(e)| && EvalAll(sem, kids, a) == EvalAll(sem, Kids(e), a)
    ensures Eval(sem, WithKids(e, kids), a) == Eval(sem, e, a)
  {
    hide Pow2, Slice, Above, Plus, Minus, Computed, Extended;
    forall k: nat | k < |kids|
      ensures Eval(sem, kids[k], a) == Eval(sem, Kids(e)[k], a)
    {
      ValueOf(sem, kids, a, k);
      ValueOf(sem, Kids(e), a, k);
    }
  }

  // ---------------------------------------------------------------- measures

  function Total(wt: Expr -> nat, es: seq<Expr>): nat {
    if es == [] then 0 else wt(es[0]) + Total(wt, es[1..])
  }

  lemma {:induction false} OneOfTotal(wt: Expr -> nat, es: seq<Expr>, k: nat)
    requires k < |es|
    ensures wt(es[k]) <= Total(wt, es)
  {
    if k > 0 {
      OneOfTotal(wt, es[1..], k - 1);
    }
  }

  /** Every element stayed or became lighter. */
  ghost predicate Lighter(wt: Expr -> nat, es: seq<Expr>, than: seq<Expr>) {
    |es| == |than| && forall k :: 0 <= k < |es| ==> es[k] == than[k] || wt(es[k]) < wt(than[k])
  }

  ghost predicate Monotone(wt: Expr -> nat, e: Expr) {
    forall kids :: Lighter(wt, kids, Kids(e)) && kids != Kids(e) ==> wt(WithKids(e, kids)) < wt(e)
  }

  /** A measure under which replacing anything by a constant is progress: constants weigh nothing,
      everything else more than its parts, and a node with lighter parts is lighter. */
  ghost predicate Measures(wt: Expr -> nat) {
    && (forall e: Expr :: wt(e) == 0 <==> e.Const?)
    && (forall e: Expr :: !e.Const? ==> Total(wt, Kids(e)) < wt(e) && Monotone(wt, e))
  }

  /** Rebuilding a node may simplify it, but makes it no heavier. */
  ghost predicate Shrinks(wt: Expr -> nat, mk: Expr -> Expr) {
    Measures(wt) && forall e :: wt(mk(e)) <= wt(e)
  }

  /** Nor does it change the meaning under the operators of the program. */
  ghost predicate Preserves(sem: Operators, mk: Expr -> Expr) {
    forall e, a :: Eval(sem, mk(e), a) == Eval(sem, e, a)
  }

  ghost predicate Simplifies(sem: Operators, wt: Expr -> nat, mk: Expr -> Expr) {
    Shrinks(wt, mk) && Preserves(sem, mk)
  }

  // ---------------------------------------------------------------- the visitors

  /** Both visitors: `before` is looked up on the way down, `after` on the way up; when `again` is
      set, a rebuilt node is visited once more. */
  datatype Visitor = Visitor(before: map<Expr, Expr>, after: map<Expr, Expr>, again: bool)

  /** Only constants are put in place. */
  predicate ByConstants(v: Visitor) {
    && (forall e :: e in v.before ==> v.before[e].Const?)
    && (forall e :: e in v.after ==> v.after[e].Const?)
  }

  ghost predicate Respects(sem: Operators, v: Visitor, a: M.Assignment) {
    && (forall e :: e in v.before ==> Eval(sem, e, a) == Eval(sem, v.before[e], a))
    && (forall e :: e in v.after ==> Eval(sem, e, a) == Eval(sem, v.after[e], a))
  }

  function Replace(src: Expr, dst: Expr): Visitor {
    Visitor(map[src := dst], map[src := dst], false)
  }

  function Finish(v: Visitor, e: Expr): Expr {
    if !e.Const? && e in v.after then v.after[e] else e
  }

  /** The parts of a node are lighter than the node. */
  lemma PartsLighter(wt: Expr -> nat, e: Expr)
    requires Measures(wt)
    ensures forall k :: 0 <= k < |Kids(e)| ==> wt(Kids(e)[k]) < wt(e)
  {
    forall k | 0 <= k < |Kids(e)|
      ensures wt(Kids(e)[k]) < wt(e)
    {
      OneOfTotal(wt, Kids(e), k);
    }
  }

  lemma RebuiltLighter(wt: Expr -> nat, e: Expr, kids: seq<Expr>)
    requires Measures(wt) && !e.Const? && Lighter(wt, kids, Kids(e)) && kids != Kids(e)
    ensures wt(WithKids(e, kids)) < wt(e)
  {
    assert Monotone(wt, e);
  }

  function Visit(v: Visitor, mk: Expr -> Expr, ghost wt: Expr -> nat, e: Expr): (r: Expr)
    requires ByConstants(v) && Shrinks(wt, mk)
    ensures r == e || wt(r) < wt(e)
    decreases wt(e), 1, 0
  {
    if e.Const? then e
    else if e in v.before then v.before[e]
    else
      PartsLighter(wt, e);
      var kids := VisitAll(v, mk, wt, Kids(e), e);
      if kids == Kids(e) then Finish(v, e)
      else
        RebuiltLighter(wt, e, kids);
        var rebuilt := mk(WithKids(e, kids));
        var r := if v.again then Visit(v, mk, wt, rebuilt) else rebuilt;
        Finish(v, r)
  }

  function VisitAll(v: Visitor, mk: Expr -> Expr, ghost wt: Expr -> nat, es: seq<Expr>,
      ghost parent: Expr): (rs: seq<Expr>)
    requires ByConstants(v) && Shrinks(wt, mk) && forall k :: 0 <= k < |es| ==> wt(es[k]) < wt(parent)
    ensures Lighter(wt, rs, es)
    decreases wt(parent), 0, |es|
  {
    if es == [] then [] else [Visit(v, mk, wt, es[0])] + VisitAll(v, mk, wt, es[1..], parent)
  }

  /** A visit preserves the meaning under every assignment that respects the replacements. */
  lemma VisitMeans(sem: Operators, v: Visitor, mk: Expr -> Expr, wt: Expr -> nat, e: Expr, a: M.Assignment)
    requires ByConstants(v) && Simplifies(sem, wt, mk) && Respects(sem, v, a)
    ensures Eval(sem, Visit(v, mk, wt, e), a) == Eval(sem, e, a)
    decreases wt(e), 1, 0
  {
    hide Eval, WithKids;
    if !e.Const? && e !in v.before {
      PartsLighter(wt, e);
      var kids := VisitAll(v, mk, wt, Kids(e), e);
      VisitAllMeans(sem, v, mk, wt, Kids(e), e, a);
      if kids != Kids(e) {
        RebuiltLighter(wt, e, kids);
        WithKidsMeans(sem, e, kids, a);
        if v.again {
          VisitMeans(sem, v, mk, wt, mk(WithKids(e, kids)), a);
        }
      }
    }
  }

  lemma {:induction false} VisitAllMeans(
    sem: Operators, v: Visitor, mk: Expr -> Expr, wt: Expr -> nat, es: seq<Expr>, parent: Expr, a: M.Assignment)
    requires ByConstants(v) && Simplifies(sem, wt, mk) && Respects(sem, v, a)
    requires forall k :: 0 <= k < |es| ==> wt(es[k]) < wt(parent)
    ensures EvalAll(sem, VisitAll(v, mk, wt, es, parent), a) == EvalAll(sem, es, a)
    decreases wt(parent), 0, |es|
  {
    if es != [] {
      VisitMeans(sem, v, mk, wt, es[0], a);
      VisitAllMeans(sem, v, mk, wt, es[1..], parent, a);
      assert VisitAll(v, mk, wt, es, parent)[1..] == VisitAll(v, mk, wt, es[1..], parent);
    }
  }

  // ---------------------------------------------------------------- what a visit leaves

  /** `x` is `e` or below it, as far as a visitor looks. */
  ghost predicate Within(e: Expr, x: Expr)
    decreases e
  {
    e == x || exists k :: 0 <= k < |Kids(e)| && Within(Kids(e)[k], x)
  }

  ghost predicate IsKey(v: Visitor, x: Expr) {
    !x.Const? && (x in v.before || x in v.after)
  }

  /** Nothing below is to be replaced. */
  ghost predicate Settled(v: Visitor, e: Expr) {
    forall x :: Within(e, x) ==> !IsKey(v, x)
  }

  lemma SettledByParts(v: Visitor, e: Expr)
    ensures Settled(v, e) <==> !IsKey(v, e) && forall k :: 0 <= k < |Kids(e)| ==> Settled(v, Kids(e)[k])
  {
    if Settled(v, e) {
      assert Within(e, e);
      forall k, x | 0 <= k < |Kids(e)| && Within(Kids(e)[k], x)
        ensures !IsKey(v, x)
      {
        assert Within(e, x);
      }
    }
  }

  /** A visit changes an expression exactly if there is something to replace in it. */
  lemma VisitChanges(v: Visitor, mk: Expr -> Expr, wt: Expr -> nat, e: Expr)
    requires ByConstants(v) && Shrinks(wt, mk)
    ensures Visit(v, mk, wt, e) == e <==> Settled(v, e)
    decreases wt(e), 1, 0
  {
    hide Within, Settled;
    SettledByParts(v, e);
    if !e.Const? && e !in v.before {
      PartsLighter(wt, e);
      VisitAllChanges(v, mk, wt, Kids(e), e);
      var kids := VisitAll(v, mk, wt, Kids(e), e);
      if kids != Kids(e) {
        RebuiltLighter(wt, e, kids);
      }
    }
  }

  lemma {:induction false} VisitAllChanges(
    v: Visitor, mk: Expr -> Expr, wt: Expr -> nat, es: seq<Expr>, parent: Expr)
    requires ByConstants(v) && Shrinks(wt, mk) && forall k :: 0 <= k < |es| ==> wt(es[k]) < wt(parent)
    ensures VisitAll(v, mk, wt, es, parent) == es <==> forall k :: 0 <= k < |es| ==> Settled(v, es[k])
    decreases wt(parent), 0, |es|
  {
    hide Settled, Visit, Measures;
    if es != [] {
      VisitChanges(v, mk, wt, es[0]);
      VisitAllChanges(v, mk, wt, es[1..], parent);
      FirstAndRest(es, Visit(v, mk, wt, es[0]), VisitAll(v, mk, wt, es[1..], parent));
      SettledFirstAndRest(v, es);
    }
  }

  lemma FirstAndRest(es: seq<Expr>, first: Expr, rest: seq<Expr>)
    requires es != []
    ensures [first] + rest == es <==> first == es[0] && rest == es[1..]
  {
    assert es == [es[0]] + es[1..];
    assert ([first] + rest)[0] == first && ([first] + rest)[1..] == rest;
  }

  lemma SettledFirstAndRest(v: Visitor, es: seq<Expr>)
    requires es != []
    ensures (forall k :: 0 <= k < |es| ==> Settled(v, es[k])) <==>
            Settled(v, es[0]) && forall k :: 0 <= k < |es[1..]| ==> Settled(v, es[1..][k])
  {
    hide Settled;
    assert forall k :: 0 <= k < |es| - 1 ==> es[1..][k] == es[k + 1];
    assert forall k :: 0 < k < |es| ==> es[k] == es[1..][k - 1];
  }

  /** The result itself is never something to be replaced on the way up. */
  lemma VisitNeverKey(v: Visitor, mk: Expr -> Expr, wt: Expr -> nat, e: Expr)
    requires ByConstants(v) && Shrinks(wt, mk)
    ensures var r := Visit(v, mk, wt, e); r.Const? || r !in v.after
  {
  }

  /** A visitor that looks at rebuilt nodes once more leaves nothing to replace, however deep. */
  lemma VisitSettles(v: Visitor, mk: Expr -> Expr, wt: Expr -> nat, e: Expr)
    requires ByConstants(v) && Shrinks(wt, mk) && v.again
    ensures Settled(v, Visit(v, mk, wt, e))
    decreases wt(e)
  {
    hide Within, Settled;
    SettledByParts(v, Visit(v, mk, wt, e));
    if !e.Const? && e !in v.before {
      PartsLighter(wt, e);
      var kids := VisitAll(v, mk, wt, Kids(e), e);
      if kids != Kids(e) {
        RebuiltLighter(wt, e, kids);
        VisitSettles(v, mk, wt, mk(WithKids(e, kids)));
      } else {
        VisitAllChanges(v, mk, wt, Kids(e), e);
      }
    }
  }
}
