/** What the constraints fix to a constant, and what adding and rewriting them leaves in the list. */
module ConstraintFixes {
  import opened ConstraintExprs
  import opened Options

  // ---------------------------------------------------------------- what is fixed

  /** An equality with a constant on the left. */
  predicate Fixing(c: Expr) {
    c.Eq? && c.left.Const?
  }

  function KeyOf(c: Expr): Expr {
    if Fixing(c) then c.right else c
  }

  function Given(c: Expr): (r: Expr)
    ensures r.Const?
  {
    if Fixing(c) then c.left else TRUE
  }

  /** Every constraint fixes its key, unless an earlier one has done so. */
  function Fixes(cs: seq<Expr>): (m: map<Expr, Expr>)
    ensures forall x :: x in m ==> m[x].Const?
  {
    if cs == [] then map[] else Fixes(cs[1..])[KeyOf(cs[0]) := Given(cs[0])]
  }

  /** The first constraint with this key. */
  ghost predicate First(cs: seq<Expr>, x: Expr, i: nat) {
    i < |cs| && KeyOf(cs[i]) == x && forall j :: 0 <= j < i ==> KeyOf(cs[j]) != x
  }

  lemma {:induction false} FixesKeys(cs: seq<Expr>, x: Expr)
    ensures x in Fixes(cs) <==> exists k :: 0 <= k < |cs| && KeyOf(cs[k]) == x
  {
    hide KeyOf, Given;
    if cs != [] {
      FixesKeys(cs[1..], x);
      assert forall k :: 0 <= k < |cs| - 1 ==> cs[1..][k] == cs[k + 1];
      assert forall k :: 0 < k < |cs| ==> cs[k] == cs[1..][k - 1];
    }
  }

  lemma {:induction false} FixesFirst(cs: seq<Expr>, x: Expr, i: nat)
    requires First(cs, x, i)
    ensures x in Fixes(cs) && Fixes(cs)[x] == Given(cs[i])
  {
    hide KeyOf, Given;
    if i > 0 {
      assert forall j :: 0 <= j < i - 1 ==> cs[1..][j] == cs[j + 1];
      FixesFirst(cs[1..], x, i - 1);
      assert KeyOf(cs[0]) != x;
    }
  }

  lemma {:induction false} FixesMore(cs: seq<Expr>, c: Expr)
    ensures var m := Fixes(cs);
            Fixes(cs + [c]) == if KeyOf(c) in m then m else m[KeyOf(c) := Given(c)]
  {
    hide KeyOf, Given;
    if cs == [] {
      assert cs + [c] == [c] && [c][1..] == [];
    } else {
      assert (cs + [c])[1..] == cs[1..] + [c];
      FixesMore(cs[1..], c);
    }
  }

  /** The visitor of `simplifyExpr`. */
  function ByFixes(cs: seq<Expr>): (v: Visitor)
    ensures ByConstants(v)
  {
    Visitor(map[], Fixes(cs), true)
  }

  function Simplified(mk: Expr -> Expr, ghost wt: Expr -> nat, cs: seq<Expr>, e: Expr): (r: Expr)
    requires Shrinks(wt, mk)
    ensures r == e || wt(r) < wt(e)
  {
    Visit(ByFixes(cs), mk, wt, e)
  }

  lemma ConstantStays(mk: Expr -> Expr, wt: Expr -> nat, cs: seq<Expr>, e: Expr)
    requires Shrinks(wt, mk) && e.Const?
    ensures Simplified(mk, wt, cs, e) == e
  {
  }

  /** Nothing that a constraint fixes is left, however deep, and simplifying again changes nothing. */
  lemma NothingFixedLeft(mk: Expr -> Expr, wt: Expr -> nat, cs: seq<Expr>, e: Expr)
    requires Shrinks(wt, mk)
    ensures var r := Simplified(mk, wt, cs, e);
            && (forall k :: 0 <= k < |cs| && !KeyOf(cs[k]).Const? ==> !Within(r, KeyOf(cs[k])))
            && Simplified(mk, wt, cs, r) == r
  {
    hide Within, Visit, Fixes;
    var v, r := ByFixes(cs), Simplified(mk, wt, cs, e);
    VisitSettles(v, mk, wt, e);
    VisitChanges(v, mk, wt, r);
    forall k | 0 <= k < |cs| && !KeyOf(cs[k]).Const?
      ensures !Within(r, KeyOf(cs[k]))
    {
      FixesKeys(cs, KeyOf(cs[k]));
      assert IsKey(v, KeyOf(cs[k]));
    }
  }

  /** An expression is simplified exactly if there is something fixed in it. */
  lemma SimplifiesExactly(mk: Expr -> Expr, wt: Expr -> nat, cs: seq<Expr>, e: Expr)
    requires Shrinks(wt, mk)
    ensures Simplified(mk, wt, cs, e) != e <==>
            exists k :: 0 <= k < |cs| && !KeyOf(cs[k]).Const? && Within(e, KeyOf(cs[k]))
  {
    hide Within, Visit, Fixes;
    var v := ByFixes(cs);
    VisitChanges(v, mk, wt, e);
    forall x
      ensures IsKey(v, x) <==> !x.Const? && exists k :: 0 <= k < |cs| && KeyOf(cs[k]) == x
    {
      FixesKeys(cs, x);
    }
  }

  /** What is fixed, with nothing fixed below it, becomes the constant of the first constraint that
      fixes it. */
  lemma FixedBecomesConstant(mk: Expr -> Expr, wt: Expr -> nat, cs: seq<Expr>, e: Expr, i: nat)
    requires Shrinks(wt, mk) && !e.Const? && First(cs, e, i)
    requires forall k, j :: 0 <= k < |cs| && !KeyOf(cs[k]).Const? && 0 <= j < |Kids(e)| ==>
               !Within(Kids(e)[j], KeyOf(cs[k]))
    ensures Simplified(mk, wt, cs, e) == Given(cs[i])
  {
    hide Within, Fixes;
    var v := ByFixes(cs);
    FixesFirst(cs, e, i);
    PartsLighter(wt, e);
    forall j | 0 <= j < |Kids(e)|
      ensures Settled(v, Kids(e)[j])
    {
      forall x | IsKey(v, x)
        ensures !Within(Kids(e)[j], x)
      {
        FixesKeys(cs, x);
        var k :| 0 <= k < |cs| && KeyOf(cs[k]) == x;
      }
    }
    VisitAllChanges(v, mk, wt, Kids(e), e);
  }

  // ---------------------------------------------------------------- what is in the list

  /** The constraints that an expression is split into; one that is true is none. */
  function Conjuncts(e: Expr): seq<Expr> {
    match e
    case Const(v, _) => if v == 1 then [] else [e]
    case And(l, r) => Conjuncts(l) + Conjuncts(r)
    case _ => [e]
  }

  /** None of the parts is false or sets off a rewriting. */
  ghost predicate Plain(e: Expr, rewriting: bool) {
    forall c :: c in Conjuncts(e) ==> !c.Const? && !(rewriting && Fixing(c))
  }

  lemma PlainParts(l: Expr, r: Expr, rewriting: bool)
    ensures Plain(And(l, r), rewriting) <==> Plain(l, rewriting) && Plain(r, rewriting)
  {
    assert Conjuncts(And(l, r)) == Conjuncts(l) + Conjuncts(r);
  }

  /** Every constraint visited, those that change split anew. */
  ghost function Rewritten(v: Visitor, mk: Expr -> Expr, wt: Expr -> nat, cs: seq<Expr>): seq<Expr>
    requires ByConstants(v) && Shrinks(wt, mk)
  {
    if cs == [] then []
    else
      var c := cs[|cs| - 1];
      var r := Visit(v, mk, wt, c);
      Rewritten(v, mk, wt, cs[..|cs| - 1]) + if r == c then [c] else Conjuncts(r)
  }

  /** No constraint that changes is false or sets off another rewriting. */
  ghost predicate PlainRewriting(v: Visitor, mk: Expr -> Expr, wt: Expr -> nat, cs: seq<Expr>)
    requires ByConstants(v) && Shrinks(wt, mk)
  {
    forall c :: c in cs ==> var r := Visit(v, mk, wt, c); r == c || Plain(r, true)
  }

  /** What becomes of the list `cs` when `e` is added: its parts go to the end; if it fixes something,
      the others are rewritten before. */
  ghost predicate Effect(mk: Expr -> Expr, wt: Expr -> nat, rewriting: bool, cs: seq<Expr>, e: Expr, cs': seq<Expr>,
      ok: bool)
    requires Shrinks(wt, mk)
  {
    && (Plain(e, rewriting) ==> ok && cs' == cs + Conjuncts(e))
    && (rewriting && Fixing(e) && PlainRewriting(Replace(e.right, e.left), mk, wt, cs) ==>
          ok && cs' == Rewritten(Replace(e.right, e.left), mk, wt, cs) + [e])
    && (Fixing(e) && ok ==> cs' != [] && cs'[|cs'| - 1] == e)
  }

  /** The list after adding `e`, unless that meets a false constraint. */
  ghost function Added(mk: Expr -> Expr, wt: Expr -> nat, rewriting: bool, cs: seq<Expr>, e: Expr):
      (r: Option<seq<Expr>>)
    requires Shrinks(wt, mk)
    ensures r.Some? ==> Total(wt, r.value) <= Total(wt, cs) + wt(e)
    decreases Total(wt, cs) + wt(e), 1, 0
  {
    if e.Const? then if e.value == 1 then Some(cs) else None
    else if e.And? then
      HalvesLighter(wt, e.left, e.right);
      var mid := Added(mk, wt, rewriting, cs, e.left);
      if mid.None? then None else Added(mk, wt, rewriting, mid.value, e.right)
    else
      TotalNone(wt);
      var mid := if rewriting && Fixing(e) then Passed(mk, wt, rewriting, Replace(e.right, e.left), [], cs)
                 else Some(cs);
      if mid.None? then None
      else
        TotalMore(wt, mid.value, e);
        Some(mid.value + [e])
  }

  /** The list after a rewriting that has come to `rest` and has left `done` so far. */
  ghost function Passed(mk: Expr -> Expr, wt: Expr -> nat, rewriting: bool, v: Visitor, done: seq<Expr>,
      rest: seq<Expr>): (r: Option<seq<Expr>>)
    requires Shrinks(wt, mk) && ByConstants(v)
    ensures r.Some? ==> Total(wt, r.value) <= Total(wt, done) + Total(wt, rest)
    decreases Total(wt, done) + Total(wt, rest), 0, |rest|
  {
    if rest == [] then Some(done)
    else
      var c, e := rest[0], Visit(v, mk, wt, rest[0]);
      if e == c then
        TotalMore(wt, done, c);
        Passed(mk, wt, rewriting, v, done + [c], rest[1..])
      else
        var mid := Added(mk, wt, rewriting, done, e);
        if mid.None? then None else Passed(mk, wt, rewriting, v, mid.value, rest[1..])
  }

  lemma AddedCases(mk: Expr -> Expr, wt: Expr -> nat, rewriting: bool, cs: seq<Expr>, e: Expr)
    requires Shrinks(wt, mk)
    ensures e.Const? ==> Added(mk, wt, rewriting, cs, e) == if e.value == 1 then Some(cs) else None
    ensures e.And? ==>
              var mid := Added(mk, wt, rewriting, cs, e.left);
              Added(mk, wt, rewriting, cs, e) ==
              if mid.None? then None else Added(mk, wt, rewriting, mid.value, e.right)
    ensures !e.Const? && !e.And? ==>
              var mid := if rewriting && Fixing(e) then Passed(mk, wt, rewriting, Replace(e.right, e.left), [], cs)
                         else Some(cs);
              Added(mk, wt, rewriting, cs, e) == if mid.None? then None else Some(mid.value + [e])
  {
    hide Passed, Measures, Total;
  }

  lemma PassNone(mk: Expr -> Expr, wt: Expr -> nat, rewriting: bool, v: Visitor, done: seq<Expr>)
    requires Shrinks(wt, mk) && ByConstants(v)
    ensures Passed(mk, wt, rewriting, v, done, []) == Some(done)
  {
  }

  lemma PassOne(mk: Expr -> Expr, wt: Expr -> nat, rewriting: bool, v: Visitor, done: seq<Expr>, cs: seq<Expr>, i: nat)
    requires Shrinks(wt, mk) && ByConstants(v) && i < |cs|
    ensures var e := Visit(v, mk, wt, cs[i]);
            Passed(mk, wt, rewriting, v, done, cs[i..]) ==
            if e == cs[i] then Passed(mk, wt, rewriting, v, done + [cs[i]], cs[i + 1..])
            else
              var mid := Added(mk, wt, rewriting, done, e);
              if mid.None? then None else Passed(mk, wt, rewriting, v, mid.value, cs[i + 1..])
  {
    hide Visit, Added, Measures, Total;
    assert cs[i..][1..] == cs[i + 1..] && cs[i..][0] == cs[i];
  }

  lemma HalvesLighter(wt: Expr -> nat, l: Expr, r: Expr)
    requires Measures(wt)
    ensures wt(l) + wt(r) < wt(And(l, r))
  {
    assert Total(wt, Kids(And(l, r))) == wt(l) + Total(wt, [r]);
    assert Total(wt, [r]) == wt(r) + Total(wt, []);
  }

  lemma TotalNone(wt: Expr -> nat)
    ensures Total(wt, []) == 0
  {
  }

  lemma {:induction false} TotalMore(wt: Expr -> nat, cs: seq<Expr>, e: Expr)
    ensures Total(wt, cs + [e]) == Total(wt, cs) + wt(e)
  {
    if cs == [] {
      assert cs + [e] == [e] && [e][1..] == [];
    } else {
      assert (cs + [e])[1..] == cs[1..] + [e];
      TotalMore(wt, cs[1..], e);
    }
  }

  lemma PlainEffect(mk: Expr -> Expr, wt: Expr -> nat, rewriting: bool, cs: seq<Expr>, e: Expr)
    requires Shrinks(wt, mk) && !e.And? && !(rewriting && Fixing(e))
    ensures e.Const? ==> Effect(mk, wt, rewriting, cs, e, cs, e.value == 1)
    ensures !e.Const? ==> Effect(mk, wt, rewriting, cs, e, cs + [e], true)
  {
    hide Shrinks;
    if e.Const? {
      assert e.value != 1 ==> e in Conjuncts(e);
    }
  }

  lemma AndEffect(mk: Expr -> Expr, wt: Expr -> nat, rewriting: bool, cs: seq<Expr>, l: Expr, r: Expr,
      mid: seq<Expr>, ok1: bool, cs': seq<Expr>, ok2: bool)
    requires Shrinks(wt, mk) && Effect(mk, wt, rewriting, cs, l, mid, ok1)
    requires if ok1 then Effect(mk, wt, rewriting, mid, r, cs', ok2) else cs' == mid
    ensures Effect(mk, wt, rewriting, cs, And(l, r), cs', ok1 && ok2)
  {
    hide Shrinks, Plain;
    PlainParts(l, r, rewriting);
    assert (cs + Conjuncts(l)) + Conjuncts(r) == cs + Conjuncts(And(l, r));
  }

  lemma FixEffect(mk: Expr -> Expr, wt: Expr -> nat, cs: seq<Expr>, e: Expr, mid: seq<Expr>, ok: bool)
    requires Shrinks(wt, mk) && Fixing(e)
    requires var v := Replace(e.right, e.left);
             PlainRewriting(v, mk, wt, cs) ==> ok && mid == Rewritten(v, mk, wt, cs)
    ensures Effect(mk, wt, true, cs, e, mid + [e], ok)
  {
    hide Shrinks, PlainRewriting, Rewritten;
    assert e in Conjuncts(e);
  }

  lemma RewrittenNone(v: Visitor, mk: Expr -> Expr, wt: Expr -> nat)
    requires ByConstants(v) && Shrinks(wt, mk)
    ensures Rewritten(v, mk, wt, []) == []
  {
  }

  lemma RewrittenMore(v: Visitor, mk: Expr -> Expr, wt: Expr -> nat, cs: seq<Expr>, n: nat)
    requires ByConstants(v) && Shrinks(wt, mk) && n < |cs|
    ensures var r := Visit(v, mk, wt, cs[n]);
            Rewritten(v, mk, wt, cs[..n + 1]) ==
            Rewritten(v, mk, wt, cs[..n]) + if r == cs[n] then [cs[n]] else Conjuncts(r)
  {
    hide Visit, Conjuncts;
    assert cs[..n + 1][..n] == cs[..n];
  }
}
