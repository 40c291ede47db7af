// What is drawn from the walk's lists: the nodes some edge touches, and degrees.
module GraphLists {
  import opened Prelude
  import opened RelationGraph
  import opened WalkState

  function Retain(ids: seq<NodeId>, keep: set<NodeId>): (kept: seq<NodeId>)
    ensures forall id :: id in kept <==> id in ids && id in keep
  {
    if ids == [] then [] else (if ids[0] in keep then [ids[0]] else []) + Retain(ids[1..], keep)
  }

  lemma {:induction false} RetainDistinct(ids: seq<NodeId>, keep: set<NodeId>)
    requires NoDuplicates(ids)
    ensures NoDuplicates(Retain(ids, keep))
    decreases |ids|
  {
    if ids != [] {
      RetainDistinct(ids[1..], keep);
      assert ids[0] !in ids[1..];
      var kept := Retain(ids[1..], keep);
      assert forall j | 0 <= j < |kept| :: kept[j] in kept;
    }
  }

  // Of two nodes kept, the one listed first stays first.
  lemma {:induction false} RetainKeepsOrder(ids: seq<NodeId>, keep: set<NodeId>, i: nat, j: nat) returns (k: nat, l: nat)
    requires i < j < |ids| && ids[i] in keep && ids[j] in keep
    ensures k < l < |Retain(ids, keep)| && Retain(ids, keep)[k] == ids[i] && Retain(ids, keep)[l] == ids[j]
    decreases |ids|
  {
    if i > 0 {
      k, l := RetainKeepsOrder(ids[1..], keep, i - 1, j - 1);
      if ids[0] in keep {
        k, l := k + 1, l + 1;
      }
    } else {
      var rest := Retain(ids[1..], keep);
      assert ids[1..][j - 1] == ids[j] && ids[j] in rest;
      var m :| 0 <= m < |rest| && rest[m] == ids[j];
      k, l := 0, m + 1;
    }
  }

  // How often edges end at `n`; a loop counts twice.
  function Degree(edges: seq<Edge>, n: NodeId): nat
  {
    if edges == [] then 0
    else Ends(edges[|edges| - 1], n) + Degree(edges[..|edges| - 1], n)
  }

  function Ends(x: Edge, n: NodeId): nat
  {
    (if x.from == n then 1 else 0) + (if x.to == n then 1 else 0)
  }

  function ConnectedNodeIds(edges: seq<Edge>): set<NodeId>
  {
    if edges == [] then {}
    else ConnectedNodeIds(edges[..|edges| - 1]) + {edges[|edges| - 1].from, edges[|edges| - 1].to}
  }

  // A node is connected exactly when its degree is positive.
  lemma {:induction false} ConnectedHasDegree(edges: seq<Edge>, n: NodeId)
    ensures n in ConnectedNodeIds(edges) <==> Degree(edges, n) > 0
    decreases |edges|
  {
    if edges != [] {
      ConnectedHasDegree(edges[..|edges| - 1], n);
    }
  }

  // When no edge leaves the listed nodes, the ones kept are exactly those some
  // edge touches, so every node that is drawn has a positive degree.
  lemma KeptAreConnected(ids: seq<NodeId>, edges: seq<Edge>)
    requires forall x | x in edges :: x.from in ids && x.to in ids
    ensures Elements(Retain(ids, ConnectedNodeIds(edges))) == ConnectedNodeIds(edges)
  {
    ConnectedWithin(edges, Elements(ids));
  }

  lemma {:induction false} ConnectedWithin(edges: seq<Edge>, nodes: set<NodeId>)
    requires forall x | x in edges :: x.from in nodes && x.to in nodes
    ensures ConnectedNodeIds(edges) <= nodes
    decreases |edges|
  {
    if edges != [] {
      ConnectedWithin(edges[..|edges| - 1], nodes);
    }
  }

  // ---- degrees as a map, and their sum ----

  ghost function Total(m: map<NodeId, nat>): nat
    decreases |m|
  {
    if m == map[] then 0
    else
      var k :| k in m;
      m[k] + Total(m - {k})
  }

  lemma {:induction false} TotalTake(m: map<NodeId, nat>, k: NodeId)
    requires k in m
    ensures Total(m) == m[k] + Total(m - {k})
    decreases |m|
  {
    var j :| j in m && Total(m) == m[j] + Total(m - {j});
    if j != k {
      TotalTake(m - {j}, k);
      TotalTake(m - {k}, j);
      assert (m - {j}) - {k} == (m - {k}) - {j};
    }
  }

  function Increment(m: map<NodeId, nat>, n: NodeId): map<NodeId, nat>
  {
    m[n := (if n in m then m[n] else 0) + 1]
  }

  lemma TotalIncrement(m: map<NodeId, nat>, n: NodeId)
    ensures Total(Increment(m, n)) == Total(m) + 1
  {
    var after := Increment(m, n);
    TotalTake(after, n);
    if n in m {
      TotalTake(m, n);
      assert after - {n} == m - {n};
    } else {
      assert after - {n} == m;
    }
  }

  ghost predicate Counts(m: map<NodeId, nat>, edges: seq<Edge>)
  {
    forall n: NodeId :: (if n in m then m[n] else 0) == Degree(edges, n) && (n in m ==> m[n] > 0)
  }

  // The map holds each node's degree, no zeros, and sums to twice the edges.
  method GraphDegrees(edges: seq<Edge>) returns (degree: map<NodeId, nat>)
    ensures Counts(degree, edges)
    ensures Total(degree) == 2 * |edges|
  {
    degree := map[];
    for i := 0 to |edges|
      invariant Counts(degree, edges[..i])
      invariant Total(degree) == 2 * i
    {
      assert edges[..i + 1][..i] == edges[..i];
      TotalIncrement(degree, edges[i].from);
      TotalIncrement(Increment(degree, edges[i].from), edges[i].to);
      degree := Increment(degree, edges[i].from);
      degree := Increment(degree, edges[i].to);
    }
    assert edges[..|edges|] == edges;
  }
}
