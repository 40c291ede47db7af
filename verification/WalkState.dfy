// What one relation walk accumulates, as folds over the relations it is given,
// and the theorems about the finished walk.
module WalkState {
  import opened Prelude
  import opened RelationGraph

  const MAX_GRAPH_NODES: nat := 180

  datatype Edge = Edge(id: RelationId, from: NodeId, to: NodeId, kind: string, depth: nat)

  // The node half of the walk; `next` is the frontier being collected.
  datatype Nodes = Nodes(order: seq<NodeId>, visited: set<NodeId>, next: seq<NodeId>, truncated: bool)

  // The edge half of the walk.
  datatype Edges = Edges(keys: set<RelationId>, list: seq<Edge>)

  // ---- nodes ----

  function AddNode(n: Nodes, id: NodeId): Nodes
  {
    if n.truncated || id in n.visited then n
    else if |n.visited| >= MAX_GRAPH_NODES then n.(truncated := true)
    else Nodes(n.order + [id], n.visited + {id}, n.next + [id], false)
  }

  function AddNodes(n: Nodes, ids: seq<NodeId>): Nodes
    decreases |ids|
  {
    if ids == [] then n else AddNodes(AddNode(n, ids[0]), ids[1..])
  }

  function Dedup(ids: seq<NodeId>, seen: seq<NodeId>): seq<NodeId>
    decreases |ids|
  {
    if ids == [] then seen
    else Dedup(ids[1..], if ids[0] in seen then seen else seen + [ids[0]])
  }

  function Started(roots: seq<NodeId>): Nodes
  {
    var order := Dedup(roots, []);
    Nodes(order, Elements(order), order, false)
  }

  predicate ValidNodes(n: Nodes)
  {
    NoDuplicates(n.order) && n.visited == Elements(n.order)
  }

  function Max(a: nat, b: nat): nat
  {
    if a < b then b else a
  }

  // What adding `ids` did to `n`.
  predicate Added(n: Nodes, ids: seq<NodeId>, after: Nodes)
  {
    && n.visited <= after.visited <= n.visited + Elements(ids)
    && |after.visited| <= Max(MAX_GRAPH_NODES, |n.visited|)
    && Elements(after.next) == Elements(n.next) + (after.visited - n.visited)
    && (if after.truncated then |after.visited| >= MAX_GRAPH_NODES && !(Elements(ids) <= after.visited)
        else Elements(ids) <= after.visited)
  }

  lemma AddOne(n: Nodes, id: NodeId)
    requires ValidNodes(n)
    ensures ValidNodes(AddNode(n, id))
    ensures !n.truncated ==> Added(n, [id], AddNode(n, id))
  {
    ElementsSnoc(n.order, id);
    ElementsSnoc(n.next, id);
  }

  lemma AddedThen(n: Nodes, id: NodeId, ids: seq<NodeId>, mid: Nodes, after: Nodes)
    requires Added(n, [id], mid) && !mid.truncated && Added(mid, ids, after)
    ensures Added(n, [id] + ids, after)
  {
    var all := [id] + ids;
    assert Elements(all) == {id} + Elements(ids);
    assert Elements([id]) == {id};
  }

  lemma AddStuck(n: Nodes, ids: seq<NodeId>)
    requires n.truncated
    ensures AddNodes(n, ids) == n
  {
  }

  lemma AddedStuck(n: Nodes, id: NodeId, ids: seq<NodeId>, mid: Nodes)
    requires Added(n, [id], mid) && mid.truncated
    ensures Added(n, [id] + ids, mid)
  {
    assert Elements([id]) == {id};
    assert id in [id] + ids;
    assert Elements([id] + ids) == {id} + Elements(ids);
  }

  lemma AddedNone(n: Nodes)
    requires ValidNodes(n) && !n.truncated
    ensures AddNodes(n, []) == n && Added(n, [], n)
  {
  }

  // Every id is visited unless the cap stops the walk, which leaves one out.
  lemma {:induction false} AddNodesAdds(n: Nodes, ids: seq<NodeId>)
    requires ValidNodes(n) && !n.truncated
    ensures ValidNodes(AddNodes(n, ids)) && Added(n, ids, AddNodes(n, ids))
    decreases |ids|
  {
    if ids == [] {
      AddedNone(n);
    } else {
      var mid := AddNode(n, ids[0]);
      AddOne(n, ids[0]);
      assert ids == [ids[0]] + ids[1..];
      if mid.truncated {
        AddStuck(mid, ids[1..]);
        AddedStuck(n, ids[0], ids[1..], mid);
      } else {
        AddNodesAdds(mid, ids[1..]);
        AddedThen(n, ids[0], ids[1..], mid, AddNodes(mid, ids[1..]));
      }
    }
  }

  lemma {:induction false} DedupKeepsOne(ids: seq<NodeId>, seen: seq<NodeId>)
    requires NoDuplicates(seen)
    ensures NoDuplicates(Dedup(ids, seen)) && Elements(Dedup(ids, seen)) == Elements(ids) + Elements(seen)
    decreases |ids|
  {
    if ids != [] {
      ElementsSnoc(seen, ids[0]);
      DedupKeepsOne(ids[1..], if ids[0] in seen then seen else seen + [ids[0]]);
      assert ids == [ids[0]] + ids[1..];
      assert Elements(ids) == {ids[0]} + Elements(ids[1..]);
    }
  }

  // ---- edges ----

  function EdgeOf(r: Relation, depth: nat): Edge
  {
    Edge(r.id, r.from, r.to, r.kind, depth)
  }

  // The edge tells of the relation: its id, its two ends in their direction, its kind.
  predicate DrawnFrom(x: Edge, r: Relation)
  {
    x.id == r.id && x.from == r.from && x.to == r.to && x.kind == r.kind
  }

  function RecordEdge(e: Edges, r: Relation, depth: nat): Edges
  {
    if r.id in e.keys then e else Edges(e.keys + {r.id}, e.list + [EdgeOf(r, depth)])
  }

  function RecordEdges(e: Edges, rs: seq<Relation>, depth: nat): Edges
    decreases |rs|
  {
    if rs == [] then e else RecordEdges(RecordEdge(e, rs[0], depth), rs[1..], depth)
  }

  function EdgeIds(list: seq<Edge>): set<RelationId>
  {
    set x <- list :: x.id
  }

  function Ids(rs: seq<Relation>): set<RelationId>
  {
    set r <- rs :: r.id
  }

  predicate ValidEdges(e: Edges)
  {
    e.keys == EdgeIds(e.list) && forall i, j | 0 <= i < j < |e.list| :: e.list[i].id != e.list[j].id
  }

  predicate FreshEdge(x: Edge, keys: set<RelationId>, rs: seq<Relation>, depth: nat)
  {
    exists r :: r in rs && r.id !in keys && DrawnFrom(x, r) && x.depth == depth
  }

  lemma RecordOne(e: Edges, r: Relation, depth: nat)
    requires ValidEdges(e)
    ensures ValidEdges(RecordEdge(e, r, depth)) && RecordEdge(e, r, depth).keys == e.keys + {r.id}
  {
    var list := e.list + [EdgeOf(r, depth)];
    forall k ensures k in EdgeIds(list) <==> k in EdgeIds(e.list) || k == r.id {
      if k == r.id {
        assert list[|e.list|].id == k;
      } else if k in EdgeIds(e.list) {
        var x :| x in e.list && x.id == k;
        assert x in list;
      }
    }
    if r.id !in e.keys {
      forall i, j | 0 <= i < j < |list| ensures list[i].id != list[j].id {
        if j == |e.list| {
          assert e.list[i].id in EdgeIds(e.list);
        }
      }
    }
  }

  // A relation is recorded unless one with its id already was.
  lemma {:induction false} RecordEdgesRecords(e: Edges, rs: seq<Relation>, depth: nat)
    requires ValidEdges(e)
    ensures
      var after := RecordEdges(e, rs, depth);
      && ValidEdges(after) && after.keys == e.keys + Ids(rs)
      && forall x | x in after.list :: x in e.list || FreshEdge(x, e.keys, rs, depth)
    decreases |rs|
  {
    if rs != [] {
      var mid := RecordEdge(e, rs[0], depth);
      var after := RecordEdges(e, rs, depth);
      RecordOne(e, rs[0], depth);
      RecordEdgesRecords(mid, rs[1..], depth);
      assert rs == [rs[0]] + rs[1..];
      assert Ids(rs) == {rs[0].id} + Ids(rs[1..]);
      forall x | x in after.list ensures x in e.list || FreshEdge(x, e.keys, rs, depth) {
        if FreshEdge(x, mid.keys, rs[1..], depth) {
          var r :| r in rs[1..] && r.id !in mid.keys && x == EdgeOf(r, depth);
          assert r in rs;
        } else if x !in e.list {
          assert x == EdgeOf(rs[0], depth) && rs[0] in rs;
        }
      }
    }
  }
}
