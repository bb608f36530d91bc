/** The tree of call paths and its inclusive statistics. */
module CallPaths {

  /** A call site and the function called there. */
  datatype Key = Key(callSite: nat, callee: nat)

  /** Nodes are numbered in the order of their creation, starting with one; zero is the root. */
  datatype Node = Node(parent: nat, key: Key, statistics: nat, count: nat)

  /** Parents are created before their children. */
  ghost predicate Ordered(paths: seq<Node>) {
    forall i :: 0 <= i < |paths| ==> paths[i].parent <= i
  }

  /** The key occurs on the way from the node to the root. */
  ghost predicate OnPath(paths: seq<Node>, id: nat, k: Key)
    requires Ordered(paths) && id <= |paths|
    decreases id
  {
    id > 0 && (paths[id - 1].key == k || OnPath(paths, paths[id - 1].parent, k))
  }

  /** No key repeats on the way to the root. */
  ghost predicate KeysDiffer(paths: seq<Node>)
    requires Ordered(paths)
  {
    forall i :: 0 <= i < |paths| ==> !OnPath(paths, paths[i].parent, paths[i].key)
  }

  ghost predicate Ancestor(paths: seq<Node>, id: nat, a: nat)
    requires Ordered(paths) && id <= |paths|
    decreases id
  {
    a == id || (id > 0 && Ancestor(paths, paths[id - 1].parent, a))
  }

  lemma {:induction false} AppendKeeps(paths: seq<Node>, n: Node, id: nat, k: Key)
    requires Ordered(paths) && n.parent <= |paths| && id <= |paths|
    ensures Ordered(paths + [n]) && (OnPath(paths + [n], id, k) <==> OnPath(paths, id, k))
    decreases id
  {
    var more := paths + [n];
    assert forall i :: 0 <= i < |paths| ==> more[i] == paths[i];
    if id > 0 {
      AppendKeeps(paths, n, paths[id - 1].parent, k);
    }
  }

  // ---------------------------------------------------------------- inclusive statistics

  /** The statistics of the first `n` nodes that have the key on their path, each counted once. */
  ghost function Inclusive(paths: seq<Node>, n: nat, k: Key): nat
    requires Ordered(paths) && n <= |paths|
  {
    if n == 0 then 0 else Inclusive(paths, n - 1, k) + if OnPath(paths, n, k) then paths[n - 1].statistics else 0
  }

  ghost function Calls(paths: seq<Node>, n: nat, k: Key): nat
    requires n <= |paths|
  {
    if n == 0 then 0 else Calls(paths, n - 1, k) + if paths[n - 1].key == k then paths[n - 1].count else 0
  }

  /** What the first `n` nodes still have to hand to the entry of the key. */
  ghost function Pending(paths: seq<Node>, summary: seq<nat>, n: nat, k: Key): nat
    requires Ordered(paths) && n <= |paths| && |summary| == |paths| + 1
  {
    if n == 0 then 0 else Pending(paths, summary, n - 1, k) + if OnPath(paths, n, k) then summary[n] else 0
  }

  lemma {:induction false} PendingInitially(paths: seq<Node>, summary: seq<nat>, n: nat, k: Key)
    requires Ordered(paths) && n <= |paths| && |summary| == |paths| + 1
    requires forall i :: 0 < i <= |paths| ==> summary[i] == paths[i - 1].statistics
    ensures Pending(paths, summary, n, k) == Inclusive(paths, n, k)
  {
    if n > 0 {
      PendingInitially(paths, summary, n - 1, k);
    }
  }

  lemma {:induction false} PendingAfter(paths: seq<Node>, summary: seq<nat>, n: nat, k: Key, p: nat, x: nat)
    requires Ordered(paths) && n <= |paths| && |summary| == |paths| + 1 && p <= |paths|
    ensures Pending(paths, summary[p := summary[p] + x], n, k) ==
            Pending(paths, summary, n, k) + if p <= n && OnPath(paths, p, k) then x else 0
  {
    if n > 0 {
      PendingAfter(paths, summary, n - 1, k, p, x);
    }
  }

  datatype Info = Info(count: nat, statistics: nat)

  function Entry(results: map<Key, Info>, k: Key): Info {
    if k in results then results[k] else Info(0, 0)
  }

  /** Handing a node's summary to its parent and to the entry of its key keeps, for every key, the
      sum of its entry and of what is pending for it. */
  lemma HandOver(paths: seq<Node>, summary: seq<nat>, n: nat, k: Key)
    requires Ordered(paths) && KeysDiffer(paths) && 0 < n <= |paths| && |summary| == |paths| + 1
    ensures var node := paths[n - 1];
            var after := summary[node.parent := summary[node.parent] + summary[n]];
            Pending(paths, after, n - 1, k) + (if node.key == k then summary[n] else 0) == Pending(paths, summary, n, k)
  {
    var node := paths[n - 1];
    PendingAfter(paths, summary, n - 1, k, node.parent, summary[n]);
    assert !OnPath(paths, node.parent, node.key);
  }

  class CallPathManager {
    var paths: seq<Node>
    /** The child of a node for a call, which is an ancestor when the call recurs. */
    var children: map<(nat, Key), nat>

    ghost predicate Valid()
      reads this
    {
      && Ordered(paths) && KeysDiffer(paths)
      && (forall p, k :: (p, k) in children ==>
            && p <= |paths| && 0 < children[(p, k)] <= |paths| && paths[children[(p, k)] - 1].key == k
            && (Ancestor(paths, p, children[(p, k)]) || paths[children[(p, k)] - 1].parent == p))
    }

    constructor ()
      ensures Valid() && paths == []
    {
      paths, children := [], map[];
    }

    /** Looks for the call on the way to the root and only then creates a node. */
    method ComputeCallPath(parent: nat, k: Key) returns (id: nat)
      requires Valid() && parent <= |paths|
      modifies this`paths
      ensures Valid() && 0 < id <= |paths| && paths[id - 1].key == k
      ensures old(OnPath(paths, parent, k)) ==> paths == old(paths) && Ancestor(paths, parent, id)
      ensures !old(OnPath(paths, parent, k)) ==> paths == old(paths) + [Node(parent, k, 0, 0)] && id == |paths|
    {
      hide KeysDiffer;
      var p: nat := parent;
      while p > 0
        invariant p <= parent && (OnPath(paths, parent, k) <==> OnPath(paths, p, k))
        invariant forall a: nat :: Ancestor(paths, p, a) ==> Ancestor(paths, parent, a)
      {
        if paths[p - 1].key == k {
          return p;
        }
        p := paths[p - 1].parent;
      }
      NodeAppended(paths, children, Node(parent, k, 0, 0));
      paths := paths + [Node(parent, k, 0, 0)];
      id := |paths|;
    }

    /** The node of a call; asking again gives the same one. */
    method GetCallPath(parent: nat, k: Key) returns (id: nat)
      requires Valid() && parent <= |paths|
      modifies this
      ensures Valid() && 0 < id <= |paths| && paths[id - 1].key == k
      ensures old(paths) <= paths && |paths| <= |old(paths)| + 1
      ensures Ancestor(paths, parent, id) || paths[id - 1].parent == parent
      ensures old((parent, k) in children) ==> id == old(children)[(parent, k)] && paths == old(paths)
      ensures (parent, k) in children && children[(parent, k)] == id
    {
      hide KeysDiffer;
      if (parent, k) !in children {
        id := ComputeCallPath(parent, k);
        children := children[(parent, k) := id];
      } else {
        id := children[(parent, k)];
      }
    }

    /** Sums up, for every call site and function, the statistics of everything called from there. */
    method GetSummaryStatistics() returns (results: map<Key, Info>)
      requires Valid()
      ensures forall k :: Entry(results, k) == Info(Calls(paths, |paths|, k), Inclusive(paths, |paths|, k))
    {
      hide Inclusive, KeysDiffer, OnPath, Pending;
      var summary: seq<nat> :=
        seq(|paths| + 1, i requires 0 <= i <= |paths| reads this => if i == 0 then 0 else paths[i - 1].statistics);
      results := map[];
      var n := |paths|;
      forall k
        ensures Pending(paths, summary, n, k) == Inclusive(paths, n, k)
      {
        PendingInitially(paths, summary, n, k);
      }
      while n > 0
        invariant 0 <= n <= |paths| && |summary| == |paths| + 1
        invariant forall k ::
                    Entry(results, k).statistics + Pending(paths, summary, n, k)
                    == Inclusive(paths, |paths|, k)
        invariant forall k :: Entry(results, k).count + Calls(paths, n, k) == Calls(paths, |paths|, k)
      {
        var node := paths[n - 1];
        ghost var before := results;
        forall k
          ensures var after := summary[node.parent := summary[node.parent] + summary[n]];
                  Pending(paths, after, n - 1, k) + (if node.key == k then summary[n] else 0)
                  == Pending(paths, summary, n, k)
        {
          HandOver(paths, summary, n, k);
        }
        var info := Entry(results, node.key);
        results := results[node.key := Info(info.count + node.count, info.statistics + summary[n])];
        summary := summary[node.parent := summary[node.parent] + summary[n]];
        n := n - 1;
      }
      forall k
        ensures Pending(paths, summary, 0, k) == 0
      {
        NothingPending(paths, summary, k);
      }
    }
  }

  lemma NothingPending(paths: seq<Node>, summary: seq<nat>, k: Key)
    requires Ordered(paths) && |summary| == |paths| + 1
    ensures Pending(paths, summary, 0, k) == 0
  {
  }

  lemma NodeAppended(paths: seq<Node>, children: map<(nat, Key), nat>, n: Node)
    requires Ordered(paths) && KeysDiffer(paths) && n.parent <= |paths| && !OnPath(paths, n.parent, n.key)
    ensures Ordered(paths + [n]) && KeysDiffer(paths + [n])
    ensures forall id, a :: 0 <= id <= |paths| ==> (Ancestor(paths + [n], id, a) <==> Ancestor(paths, id, a))
  {
    var more := paths + [n];
    forall i | 0 <= i < |more|
      ensures more[i].parent <= |paths| && !OnPath(more, more[i].parent, more[i].key)
    {
      AppendKeeps(paths, n, more[i].parent, more[i].key);
    }
    forall id, a | 0 <= id <= |paths|
      ensures Ancestor(more, id, a) <==> Ancestor(paths, id, a)
    {
      AncestorsKept(paths, n, id, a);
    }
  }

  lemma {:induction false} AncestorsKept(paths: seq<Node>, n: Node, id: nat, a: nat)
    requires Ordered(paths) && n.parent <= |paths| && id <= |paths| && Ordered(paths + [n])
    ensures Ancestor(paths + [n], id, a) <==> Ancestor(paths, id, a)
    decreases id
  {
    if id > 0 {
      AncestorsKept(paths, n, paths[id - 1].parent, a);
    }
  }
}
