/** The path constraints: adding one rewrites the others, in mutual recursion, and keeps the
    conjunction. */
module ConstraintManager {
  import opened ConstraintExprs
  import opened ConstraintFixes
  import ConstraintRebuild
  import ConstraintWeight
  import M = MemoryExprs

  type Assignment = M.Assignment

  ghost predicate Conj(sem: Operators, cs: seq<Expr>, a: Assignment) {
    forall k :: 0 <= k < |cs| ==> Holds(sem, cs[k], a)
  }

  /** Conjunctions have been split and constants dropped. */
  ghost predicate Split(cs: seq<Expr>) {
    forall k :: 0 <= k < |cs| ==> !cs[k].Const? && !cs[k].And?
  }

  lemma ConjMore(sem: Operators, cs: seq<Expr>, e: Expr, a: Assignment)
    ensures Conj(sem, cs + [e], a) <==> Conj(sem, cs, a) && Holds(sem, e, a)
  {
    assert (cs + [e])[|cs|] == e;
    assert forall k :: 0 <= k < |cs| ==> (cs + [e])[k] == cs[k];
  }

  class Manager {
    /** Rebuilds a node whose operands changed. */
    const mk: Expr -> Expr
    /** Whether an equality with a constant rewrites the other constraints. */
    const rewriteEqualities: bool
    /** The operators of the program, and the measure under which rebuilding is progress. */
    ghost const sem: Operators
    ghost const wt: Expr -> nat
    var constraints: seq<Expr>

    constructor (mk: Expr -> Expr, rewriteEqualities: bool, ghost sem: Operators, ghost wt: Expr -> nat)
      ensures this.mk == mk && this.rewriteEqualities == rewriteEqualities && this.sem == sem && this.wt == wt
      ensures constraints == []
    {
      this.mk, this.rewriteEqualities, this.sem, this.wt := mk, rewriteEqualities, sem, wt;
      constraints := [];
    }

    /** With the constructors of the executor. */
    constructor Default(operators: Operators, rewriteEqualities: bool)
      ensures Simplifies(sem, wt, mk) && sem == operators
      ensures this.rewriteEqualities == rewriteEqualities && constraints == []
    {
      mk, wt, sem := e => ConstraintRebuild.Rebuild(operators, e), ConstraintWeight.Weight, operators;
      this.rewriteEqualities := rewriteEqualities;
      constraints := [];
      new;
      ConstraintRebuild.RebuildSimplifies(operators);
    }

    /** Rewrites all constraints with the visitor of an equality that is about to be added; those
        that change are added anew. */
    method RewriteConstraints(src: Expr, dst: Expr) returns (ok: bool, changed: bool)
      requires Simplifies(sem, wt, mk) && dst.Const?
      modifies this
      ensures ok ==> forall a :: Eval(sem, src, a) == Eval(sem, dst, a) ==>
                       (Conj(sem, constraints, a) <==> Conj(sem, old(constraints), a))
      ensures ok ==> Total(wt, constraints) <= Total(wt, old(constraints))
      ensures old(Split(constraints)) ==> Split(constraints)
      ensures !ok ==> forall a :: Eval(sem, src, a) == Eval(sem, dst, a) ==> !Conj(sem, old(constraints), a)
      ensures ok ==> (changed <==> !src.Const? && exists c :: c in old(constraints) && Within(c, src))
      ensures ok && !changed ==> constraints == old(constraints)
      ensures var after := Passed(mk, wt, rewriteEqualities, Replace(src, dst), [], old(constraints));
              (ok <==> after.Some?) && (ok ==> constraints == after.value)
      ensures rewriteEqualities && PlainRewriting(Replace(src, dst), mk, wt, old(constraints)) ==>
                ok && constraints == Rewritten(Replace(src, dst), mk, wt, old(constraints))
      decreases Total(wt, constraints), 0
    {
      hide Visit, Eval, Measures, Preserves, Within, Conjuncts, Plain, PlainRewriting, Rewritten, Conj, Effect,
           Total, Added, Passed;
      var v := Replace(src, dst);
      var before := constraints;
      constraints := [];
      changed := false;
      EmptyConj(sem, wt);
      RewrittenNone(v, mk, wt);
      for i := 0 to |before|
        invariant forall a :: Eval(sem, src, a) == Eval(sem, dst, a) ==>
                    (Conj(sem, constraints, a) <==> Conj(sem, before[..i], a))
        invariant Total(wt, constraints) <= Total(wt, before[..i])
        invariant Split(before) ==> Split(constraints)
        invariant changed <==> !src.Const? && exists k :: 0 <= k < i && Within(before[k], src)
        invariant !changed ==> constraints == before[..i]
        invariant Passed(mk, wt, rewriteEqualities, v, [], before) ==
                  Passed(mk, wt, rewriteEqualities, v, constraints, before[i..])
        invariant rewriteEqualities && PlainRewriting(v, mk, wt, before) ==>
                    constraints == Rewritten(v, mk, wt, before[..i])
      {
        var ce := before[i];
        Touched(src, dst, mk, wt, ce);
        RewrittenMore(v, mk, wt, before, i);
        PassOne(mk, wt, rewriteEqualities, v, constraints, before, i);
        if PlainRewriting(v, mk, wt, before) {
          PlainAt(v, mk, wt, before, i);
        }
        PrefixFacts(sem, wt, before, i);
        var e := Visit(v, mk, wt, ce);
        forall a | Eval(sem, src, a) == Eval(sem, dst, a)
          ensures Eval(sem, e, a) == Eval(sem, ce, a)
        {
          VisitMeans(sem, v, mk, wt, ce, a);
        }
        if e != ce {
          ghost var mid := constraints;
          ok := AddConstraintInternal(e);
          PlainAdded(mk, wt, rewriteEqualities, mid, e, constraints, ok);
          if !ok {
            ConjPrefix(sem, before, i + 1);
            return;
          }
          changed := true;
        } else {
          AddedFacts(sem, wt, constraints, ce);
          constraints := constraints + [ce];
        }
      }
      assert before[..|before|] == before && before[|before|..] == [];
      PassNone(mk, wt, rewriteEqualities, v, constraints);
      assert forall c :: c in before <==> exists k :: 0 <= k < |before| && before[k] == c;
      ok := true;
    }

    /** Adds a constraint; fails only when it meets a false one. */
    method AddConstraintInternal(e: Expr) returns (ok: bool)
      requires Simplifies(sem, wt, mk)
      modifies this
      ensures ok ==> forall a :: Conj(sem, constraints, a) <==> Conj(sem, old(constraints), a) && Holds(sem, e, a)
      ensures ok ==> Total(wt, constraints) <= Total(wt, old(constraints)) + wt(e)
      ensures old(Split(constraints)) ==> Split(constraints)
      ensures !ok ==> forall a :: !(Conj(sem, old(constraints), a) && Holds(sem, e, a))
      ensures var after := Added(mk, wt, rewriteEqualities, old(constraints), e);
              (ok <==> after.Some?) && (ok ==> constraints == after.value)
      ensures Effect(mk, wt, rewriteEqualities, old(constraints), e, constraints, ok)
      decreases Total(wt, constraints) + wt(e), 1
    {
      hide Measures, Preserves, Effect, PlainRewriting, Rewritten, Within, Total, Added, Passed;
      AddedCases(mk, wt, rewriteEqualities, constraints, e);
      ghost var before := constraints;
      match e {
        case Const(v, _) =>
          ok := v == 1;
          PlainEffect(mk, wt, rewriteEqualities, before, e);
        case And(l, r) =>
          HalvesLighter(wt, l, r);
          ok := AddConstraintInternal(l);
          ghost var mid, first := constraints, ok;
          if ok {
            ok := AddConstraintInternal(r);
          }
          AndEffect(mk, wt, rewriteEqualities, before, l, r, mid, first, constraints, ok);
        case Eq(l, r) =>
          ok := true;
          NotConstant(wt, e);
          if rewriteEqualities && l.Const? {
            var changed;
            ok, changed := RewriteConstraints(r, l);
            FixEffect(mk, wt, before, e, constraints, ok);
          } else {
            PlainEffect(mk, wt, rewriteEqualities, before, e);
          }
          AddedFacts(sem, wt, constraints, e);
          constraints := constraints + [e];
        case _ =>
          ok := true;
          PlainEffect(mk, wt, rewriteEqualities, before, e);
          AddedFacts(sem, wt, constraints, e);
          constraints := constraints + [e];
      }
    }

    /** Replaces what the constraints fix to a constant. */
    method SimplifyExpr(e: Expr) returns (r: Expr)
      requires Simplifies(sem, wt, mk)
      ensures r == Simplified(mk, wt, constraints, e)
      ensures forall a :: Conj(sem, constraints, a) ==> Eval(sem, r, a) == Eval(sem, e, a)
      ensures r == e || wt(r) < wt(e)
      ensures forall c :: c in constraints && !KeyOf(c).Const? ==> !Within(r, KeyOf(c))
    {
      hide Visit, Eval, Measures, Preserves, Within, Conj;
      NothingFixedLeft(mk, wt, constraints, e);
      if e.Const? {
        ConstantStays(mk, wt, constraints, e);
        return e;
      }
      var equalities: map<Expr, Expr> := map[];
      for i := 0 to |constraints|
        invariant equalities == Fixes(constraints[..i])
        invariant forall a, x :: Conj(sem, constraints, a) && x in equalities ==>
                    Eval(sem, x, a) == Eval(sem, equalities[x], a)
      {
        var c := constraints[i];
        var fixing := c.Eq? && c.left.Const?;
        var key, value := if fixing then c.right else c, if fixing then c.left else TRUE;
        FixedBy(sem, constraints, i, key, value);
        FixesMore(constraints[..i], c);
        assert constraints[..i + 1] == constraints[..i] + [c];
        if key !in equalities {
          equalities := equalities[key := value];
        }
      }
      assert constraints[..|constraints|] == constraints;
      var v := Visitor(map[], equalities, true);
      r := Visit(v, mk, wt, e);
      forall a | Conj(sem, constraints, a)
        ensures Eval(sem, r, a) == Eval(sem, e, a)
      {
        assert Respects(sem, v, a);
        VisitMeans(sem, v, mk, wt, e, a);
      }
    }

    /** Adds a constraint: the list stays equivalent to the old conjunction and the new constraint,
        and the attempt to add a false constraint can only happen when there is no solution. */
    method AddConstraint(e: Expr) returns (ok: bool)
      requires Simplifies(sem, wt, mk)
      modifies this
      ensures ok ==> forall a :: Conj(sem, constraints, a) <==> Conj(sem, old(constraints), a) && Holds(sem, e, a)
      ensures (exists a :: Conj(sem, old(constraints), a) && Holds(sem, e, a)) ==> ok
      ensures old(Split(constraints)) ==> Split(constraints)
      ensures var simple := Simplified(mk, wt, old(constraints), e);
              var after := Added(mk, wt, rewriteEqualities, old(constraints), simple);
              && (ok <==> after.Some?) && (ok ==> constraints == after.value)
              && Effect(mk, wt, rewriteEqualities, old(constraints), simple, constraints, ok)
    {
      hide Eval, Measures, Preserves, Effect, Added, Simplified;
      var simple := SimplifyExpr(e);
      ok := AddConstraintInternal(simple);
    }
  }

  /** A constraint is rewritten exactly if the source is in it. */
  lemma Touched(src: Expr, dst: Expr, mk: Expr -> Expr, wt: Expr -> nat, e: Expr)
    requires Shrinks(wt, mk) && dst.Const?
    ensures Visit(Replace(src, dst), mk, wt, e) != e <==> !src.Const? && Within(e, src)
  {
    hide Visit, Within;
    VisitChanges(Replace(src, dst), mk, wt, e);
    assert forall x :: IsKey(Replace(src, dst), x) <==> !src.Const? && x == src;
  }

  lemma PlainAdded(mk: Expr -> Expr, wt: Expr -> nat, rewriting: bool, cs: seq<Expr>, e: Expr, cs': seq<Expr>, ok: bool)
    requires Shrinks(wt, mk) && Effect(mk, wt, rewriting, cs, e, cs', ok)
    ensures Plain(e, rewriting) ==> ok && cs' == cs + Conjuncts(e)
  {
    hide Shrinks;
  }

  lemma PlainAt(v: Visitor, mk: Expr -> Expr, wt: Expr -> nat, cs: seq<Expr>, i: nat)
    requires ByConstants(v) && Shrinks(wt, mk) && i < |cs| && PlainRewriting(v, mk, wt, cs)
    ensures var r := Visit(v, mk, wt, cs[i]); r == cs[i] || Plain(r, true)
  {
  }

  lemma NotConstant(wt: Expr -> nat, e: Expr)
    requires Measures(wt) && !e.Const?
    ensures wt(e) > 0
  {
  }

  /** A constraint that holds fixes its key. */
  lemma FixedBy(sem: Operators, cs: seq<Expr>, i: nat, key: Expr, value: Expr)
    requires i < |cs|
    requires if cs[i].Eq? && cs[i].left.Const? then key == cs[i].right && value == cs[i].left
             else key == cs[i] && value == TRUE
    ensures value.Const? && forall a :: Conj(sem, cs, a) ==> Eval(sem, key, a) == Eval(sem, value, a)
  {
    forall a | Conj(sem, cs, a)
      ensures Eval(sem, key, a) == Eval(sem, value, a)
    {
      assert Holds(sem, cs[i], a);
    }
  }

  lemma EmptyConj(sem: Operators, wt: Expr -> nat)
    ensures forall a :: Conj(sem, [], a)
    ensures Total(wt, []) == 0
  {
  }

  lemma PrefixFacts(sem: Operators, wt: Expr -> nat, cs: seq<Expr>, i: nat)
    requires i < |cs|
    ensures forall a :: Conj(sem, cs[..i + 1], a) <==> Conj(sem, cs[..i], a) && Holds(sem, cs[i], a)
    ensures Total(wt, cs[..i + 1]) == Total(wt, cs[..i]) + wt(cs[i]) <= Total(wt, cs)
  {
    assert cs[..i + 1] == cs[..i] + [cs[i]];
    AddedFacts(sem, wt, cs[..i], cs[i]);
    TotalPrefix(wt, cs, i + 1);
  }

  lemma AddedFacts(sem: Operators, wt: Expr -> nat, cs: seq<Expr>, e: Expr)
    ensures forall a :: Conj(sem, cs + [e], a) <==> Conj(sem, cs, a) && Holds(sem, e, a)
    ensures Total(wt, cs + [e]) == Total(wt, cs) + wt(e)
  {
    forall a
      ensures Conj(sem, cs + [e], a) <==> Conj(sem, cs, a) && Holds(sem, e, a)
    {
      ConjMore(sem, cs, e, a);
    }
    TotalMore(wt, cs, e);
  }

  lemma {:induction false} TotalPrefix(wt: Expr -> nat, cs: seq<Expr>, n: nat)
    requires n <= |cs|
    ensures Total(wt, cs[..n]) <= Total(wt, cs)
    decreases |cs| - n
  {
    if n == |cs| {
      assert cs[..n] == cs;
    } else {
      assert cs[..n + 1] == cs[..n] + [cs[n]];
      TotalMore(wt, cs[..n], cs[n]);
      TotalPrefix(wt, cs, n + 1);
    }
  }

  lemma ConjPrefix(sem: Operators, cs: seq<Expr>, n: nat)
    requires n <= |cs|
    ensures forall a :: Conj(sem, cs, a) ==> Conj(sem, cs[..n], a)
  {
    forall a | Conj(sem, cs, a)
      ensures Conj(sem, cs[..n], a)
    {
      assert forall k :: 0 <= k < n ==> cs[..n][k] == cs[k];
    }
  }
}
