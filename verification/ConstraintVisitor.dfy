/** The visitors remember what they have visited; that changes no result. */
module ConstraintVisitor {
  import opened ConstraintExprs

  class MemoVisitor {
    const visitor: Visitor
    const mk: Expr -> Expr
    ghost const wt: Expr -> nat
    var visited: map<Expr, Expr>

    constructor (visitor: Visitor, mk: Expr -> Expr, ghost wt: Expr -> nat)
      ensures this.visitor == visitor && this.mk == mk && this.wt == wt && visited == map[]
    {
      this.visitor, this.mk, this.wt := visitor, mk, wt;
      visited := map[];
    }

    /** Everything remembered is what a visit yields. */
    ghost predicate Remembers()
      requires ByConstants(visitor) && Shrinks(wt, mk)
      reads this
    {
      forall e :: e in visited ==> visited[e] == Visit(visitor, mk, wt, e)
    }

    method VisitMemo(e: Expr) returns (r: Expr)
      requires ByConstants(visitor) && Shrinks(wt, mk) && Remembers()
      modifies this
      ensures Remembers() && r == Visit(visitor, mk, wt, e)
      ensures old(visited.Keys) <= visited.Keys && (e.Const? || e in visited)
      decreases wt(e), 2, 0
    {
      if e.Const? {
        r := VisitActual(e);
      } else if e in visited {
        r := visited[e];
      } else {
        r := VisitActual(e);
        visited := visited[e := r];
      }
    }

    method VisitActual(e: Expr) returns (r: Expr)
      requires ByConstants(visitor) && Shrinks(wt, mk) && Remembers()
      modifies this
      ensures Remembers() && r == Visit(visitor, mk, wt, e) && old(visited.Keys) <= visited.Keys
      decreases wt(e), 1, 0
    {
      if e.Const? {
        return e;
      }
      if e in visitor.before {
        return visitor.before[e];
      }
      PartsLighter(wt, e);
      var kids := VisitKids(Kids(e), e);
      r := e;
      if kids != Kids(e) {
        RebuiltLighter(wt, e, kids);
        r := mk(WithKids(e, kids));
        if visitor.again {
          r := VisitMemo(r);
        }
      }
      if !r.Const? && r in visitor.after {
        r := visitor.after[r];
      }
    }

    method VisitKids(es: seq<Expr>, ghost parent: Expr) returns (rs: seq<Expr>)
      requires ByConstants(visitor) && Shrinks(wt, mk) && Remembers()
      requires forall k :: 0 <= k < |es| ==> wt(es[k]) < wt(parent)
      modifies this
      ensures Remembers() && rs == VisitAll(visitor, mk, wt, es, parent) && old(visited.Keys) <= visited.Keys
      decreases wt(parent), 0, |es|
    {
      if es == [] {
        return [];
      }
      var first := VisitMemo(es[0]);
      var rest := VisitKids(es[1..], parent);
      return [first] + rest;
    }
  }
}
