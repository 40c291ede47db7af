// The walk as the server runs it: one mutable accumulator, filled level by level.
module RelationWalker {
  import opened Prelude
  import opened RelationGraph
  import opened WalkState
  import T = WalkTheorems
  import opened GraphLists

  class RelationWalk {
    var roots: seq<NodeId>
    var nodeOrder: seq<NodeId>
    var visited: set<NodeId>
    var edgeKeys: set<RelationId>
    var edges: seq<Edge>
    var truncated: bool

    function NodeState(next: seq<NodeId>): Nodes
      reads this
    {
      Nodes(nodeOrder, visited, next, truncated)
    }

    function EdgeState(): Edges
      reads this
    {
      Edges(edgeKeys, edges)
    }

    constructor (ids: seq<NodeId>)
      ensures roots == ids && NodeState(nodeOrder) == Started(ids) && EdgeState() == Edges({}, [])
    {
      roots := ids;
      var order, seen := [], {};
      for i := 0 to |ids|
        invariant Dedup(ids[i..], order) == Dedup(ids, []) && seen == Elements(order)
      {
        assert ids[i..][1..] == ids[i + 1..];
        if ids[i] !in seen {
          ElementsSnoc(order, ids[i]);
          seen := seen + {ids[i]};
          order := order + [ids[i]];
        }
      }
      nodeOrder, visited := order, seen;
      edgeKeys, edges, truncated := {}, [], false;
    }

    method AddNode(id: NodeId, next: seq<NodeId>) returns (grown: seq<NodeId>)
      modifies `nodeOrder, `visited, `truncated
      ensures NodeState(grown) == WalkState.AddNode(old(NodeState(next)), id)
    {
      if truncated || id in visited {
        return next;
      }
      if |visited| >= MAX_GRAPH_NODES {
        truncated := true;
        return next;
      }
      visited := visited + {id};
      nodeOrder := nodeOrder + [id];
      grown := next + [id];
    }

    method RecordEdge(r: Relation, depth: nat)
      modifies `edgeKeys, `edges
      ensures EdgeState() == WalkState.RecordEdge(old(EdgeState()), r, depth)
    {
      if r.id in edgeKeys {
        return;
      }
      edgeKeys := edgeKeys + {r.id};
      edges := edges + [EdgeOf(r, depth)];
    }

    method Take(r: Relation, depth: nat, next: seq<NodeId>) returns (grown: seq<NodeId>)
      modifies `nodeOrder, `visited, `truncated, `edgeKeys, `edges
      ensures NodeState(grown) == WalkState.AddNode(WalkState.AddNode(old(NodeState(next)), r.from), r.to)
      ensures EdgeState() == WalkState.RecordEdge(old(EdgeState()), r, depth)
    {
      RecordEdge(r, depth);
      grown := AddNode(r.from, next);
      grown := AddNode(r.to, grown);
    }

    // One level: the relations are taken in the order the query gave them.
    method TakeLevel(relations: seq<Relation>, kind: Option<string>, depth: nat) returns (next: seq<NodeId>)
      modifies `nodeOrder, `visited, `truncated, `edgeKeys, `edges
      ensures
        var rs := T.Select(relations, kind);
        && NodeState(next) == AddNodes(old(NodeState([])), T.Endpoints(rs))
        && EdgeState() == RecordEdges(old(EdgeState()), rs, depth)
    {
      ghost var rs := T.Select(relations, kind);
      next := TakeEach(relations, kind, depth, AddNodes(NodeState([]), T.Endpoints(rs)), RecordEdges(EdgeState(), rs, depth));
    }

    method TakeEach(relations: seq<Relation>, kind: Option<string>, depth: nat, ghost nodesAfter: Nodes, ghost edgesAfter: Edges)
      returns (next: seq<NodeId>)
      requires Due(NodeState([]), EdgeState(), relations, kind, depth, nodesAfter, edgesAfter)
      modifies `nodeOrder, `visited, `truncated, `edgeKeys, `edges
      ensures NodeState(next) == nodesAfter && EdgeState() == edgesAfter
    {
      next := [];
      assert relations[0..] == relations;
      for i := 0 to |relations|
        invariant Due(NodeState(next), EdgeState(), relations[i..], kind, depth, nodesAfter, edgesAfter)
      {
        var relation := relations[i];
        assert relations[i..] == [relation] + relations[i + 1..];
        TakesOne(NodeState(next), EdgeState(), relation, relations[i + 1..], kind, depth, nodesAfter, edgesAfter);
        if T.Wanted(kind, relation) {
          next := Take(relation, depth, next);
        }
      }
      assert relations[|relations|..] == [];
      TakesNone(NodeState(next), EdgeState(), kind, depth, nodesAfter, edgesAfter);
    }

    // Taking the relations still to come leads to the given states.
    static predicate Due(n: Nodes, e: Edges, relations: seq<Relation>, kind: Option<string>, depth: nat, nodesAfter: Nodes, edgesAfter: Edges)
    {
      var rs := T.Select(relations, kind);
      AddNodes(n, T.Endpoints(rs)) == nodesAfter && RecordEdges(e, rs, depth) == edgesAfter
    }

    static lemma TakesNone(n: Nodes, e: Edges, kind: Option<string>, depth: nat, nodesAfter: Nodes, edgesAfter: Edges)
      requires Due(n, e, [], kind, depth, nodesAfter, edgesAfter)
      ensures n == nodesAfter && e == edgesAfter
    {
    }

    static lemma TakesOne(n: Nodes, e: Edges, r: Relation, rest: seq<Relation>, kind: Option<string>, depth: nat, nodesAfter: Nodes, edgesAfter: Edges)
      requires Due(n, e, [r] + rest, kind, depth, nodesAfter, edgesAfter)
      ensures T.Wanted(kind, r) ==>
                Due(WalkState.AddNode(WalkState.AddNode(n, r.from), r.to), WalkState.RecordEdge(e, r, depth), rest, kind, depth, nodesAfter, edgesAfter)
      ensures !T.Wanted(kind, r) ==> Due(n, e, rest, kind, depth, nodesAfter, edgesAfter)
    {
      SelectOne(r, rest, kind);
      if T.Wanted(kind, r) {
        WantedNodes(n, r, T.Select(rest, kind));
        WantedEdges(e, r, T.Select(rest, kind), depth);
      }
    }

    static lemma SelectOne(r: Relation, rest: seq<Relation>, kind: Option<string>)
      ensures T.Select([r] + rest, kind) == if T.Wanted(kind, r) then [r] + T.Select(rest, kind) else T.Select(rest, kind)
    {
      assert ([r] + rest)[1..] == rest;
      assert [] + T.Select(rest, kind) == T.Select(rest, kind);
    }

    static lemma WantedNodes(n: Nodes, r: Relation, rest: seq<Relation>)
      ensures AddNodes(n, T.Endpoints([r] + rest))
           == AddNodes(WalkState.AddNode(WalkState.AddNode(n, r.from), r.to), T.Endpoints(rest))
    {
      assert ([r] + rest)[1..] == rest;
      var ids := T.Endpoints(rest);
      assert ([r.from, r.to] + ids)[1..] == [r.to] + ids;
      assert ([r.to] + ids)[1..] == ids;
    }

    static lemma WantedEdges(e: Edges, r: Relation, rest: seq<Relation>, depth: nat)
      ensures RecordEdges(e, [r] + rest, depth) == RecordEdges(WalkState.RecordEdge(e, r, depth), rest, depth)
    {
      assert ([r] + rest)[1..] == rest;
    }

    // Drops the nodes and roots that no recorded edge touches, when there is an edge.
    method RetainConnected()
      modifies `nodeOrder, `roots, `visited
      ensures edges == [] ==> nodeOrder == old(nodeOrder) && roots == old(roots) && visited == old(visited)
      ensures edges != [] ==>
                && nodeOrder == Retain(old(nodeOrder), ConnectedNodeIds(edges))
                && roots == Retain(old(roots), ConnectedNodeIds(edges))
                && visited == Elements(nodeOrder)
      ensures old(NoDuplicates(nodeOrder)) ==> NoDuplicates(nodeOrder)
      ensures old(NoDuplicates(roots)) ==> NoDuplicates(roots)
    {
      var connected := {};
      for i := 0 to |edges|
        invariant connected == ConnectedNodeIds(edges[..i])
      {
        assert edges[..i + 1][..i] == edges[..i];
        connected := connected + {edges[i].from, edges[i].to};
      }
      assert edges[..|edges|] == edges;
      if connected == {} {
        return;
      }
      if NoDuplicates(nodeOrder) {
        RetainDistinct(nodeOrder, connected);
      }
      if NoDuplicates(roots) {
        RetainDistinct(roots, connected);
      }
      nodeOrder := Retain(nodeOrder, connected);
      roots := Retain(roots, connected);
      visited := Elements(nodeOrder);
    }
  }

  method WalkRelations(query: T.Query, kind: Option<string>, roots: seq<NodeId>, depth: nat) returns (walk: RelationWalk)
    ensures fresh(walk) && walk.roots == roots
    ensures
      var w := T.WalkRelations(query, kind, roots, depth);
      walk.NodeState(w.nodes.next) == w.nodes && walk.EdgeState() == w.edges
  {
    walk := new RelationWalk(roots);
    var frontier := walk.nodeOrder;
    var current := 1;
    while current <= depth && frontier != [] && !walk.truncated
      invariant walk.roots == roots
      invariant T.WalkFrom(query, kind, T.Walk(walk.NodeState(frontier), walk.EdgeState()), current, depth)
             == T.WalkRelations(query, kind, roots, depth)
      decreases depth + 1 - current
    {
      T.WalkUnfolds(query, kind, T.Walk(walk.NodeState(frontier), walk.EdgeState()), current, depth);
      var neighbors := query(frontier);
      frontier := walk.TakeLevel(neighbors, kind, current);
      current := current + 1;
    }
    T.WalkStops(query, kind, T.Walk(walk.NodeState(frontier), walk.EdgeState()), current, depth);
  }
}
