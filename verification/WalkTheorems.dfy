// The relation walk as a whole: which nodes and edges it lists, and when it
// reports that it was cut short.
module WalkTheorems {
  import opened Prelude
  import opened RelationGraph
  import opened WalkState

  // The neighbour query of the memory store, for one scope.
  type Query = seq<NodeId> -> seq<Relation>

  datatype Walk = Walk(nodes: Nodes, edges: Edges)

  // The query returns the stored relations incident to the frontier, in any
  // order and possibly more than once.
  ghost predicate Exact(query: Query, store: set<Relation>)
  {
    forall frontier :: Elements(query(frontier)) == set r | r in store && Incident(r, Elements(frontier))
  }

  predicate UniqueIds(store: set<Relation>)
  {
    forall r, s | r in store && s in store && r.id == s.id :: r == s
  }

  predicate Wanted(kind: Option<string>, r: Relation)
  {
    kind.None? || r.kind == kind.value
  }

  function Eligible(store: set<Relation>, kind: Option<string>): set<Relation>
  {
    set r | r in store && Wanted(kind, r)
  }

  function Select(rs: seq<Relation>, kind: Option<string>): (wanted: seq<Relation>)
    ensures forall r :: r in wanted <==> r in rs && Wanted(kind, r)
  {
    if rs == [] then [] else (if Wanted(kind, rs[0]) then [rs[0]] else []) + Select(rs[1..], kind)
  }

  function Endpoints(rs: seq<Relation>): seq<NodeId>
  {
    if rs == [] then [] else [rs[0].from, rs[0].to] + Endpoints(rs[1..])
  }

  function Level(query: Query, kind: Option<string>, w: Walk, depth: nat): Walk
  {
    var rs := Select(query(w.nodes.next), kind);
    Walk(AddNodes(w.nodes.(next := []), Endpoints(rs)), RecordEdges(w.edges, rs, depth))
  }

  function WalkFrom(query: Query, kind: Option<string>, w: Walk, current: nat, depth: nat): Walk
    decreases depth + 1 - current
  {
    if current > depth || w.nodes.next == [] || w.nodes.truncated then w
    else WalkFrom(query, kind, Level(query, kind, w, current), current + 1, depth)
  }

  function WalkRelations(query: Query, kind: Option<string>, roots: seq<NodeId>, depth: nat): Walk
  {
    WalkFrom(query, kind, Walk(Started(roots), Edges({}, [])), 1, depth)
  }

  // ---- what holds between levels ----

  predicate Describes(edges: set<Relation>, levels: nat -> set<NodeId>, x: Edge, k: nat)
  {
    1 <= x.depth <= k && exists r :: r in edges && DrawnFrom(x, r) && Touches(levels, r, x.depth - 1)
  }

  // The list holds each relation incident to a level before `k` once, with a
  // depth of one plus the smaller distance of its endpoints.
  predicate Tells(edges: set<Relation>, levels: nat -> set<NodeId>, e: Edges, k: nat)
  {
    && ValidEdges(e)
    && (forall r | r in edges :: Incident(r, Nearer(levels, k)) <==> r.id in e.keys)
    && (forall x | x in e.list :: Describes(edges, levels, x, k))
  }

  function Cap(levels: nat -> set<NodeId>): nat
  {
    Max(180, |levels(0)|)
  }

  // Exactly `nodes` are visited, and those beyond `inner` are the frontier.
  predicate Visited(n: Nodes, inner: set<NodeId>, nodes: set<NodeId>, cap: nat)
  {
    ValidNodes(n) && !n.truncated && n.visited == nodes && |nodes| <= cap && Elements(n.next) == nodes - inner
  }

  predicate Stopped(n: Nodes, inner: set<NodeId>, nodes: set<NodeId>, cap: nat)
  {
    ValidNodes(n) && n.truncated && inner <= n.visited < nodes && |n.visited| == cap
  }

  predicate NodesAt(levels: nat -> set<NodeId>, n: Nodes, k: nat)
  {
    Visited(n, Nearer(levels, k), levels(k), Cap(levels))
  }

  // The cap stopped the walk on the way to level `k`.
  predicate NodesStopped(levels: nat -> set<NodeId>, n: Nodes, k: nat)
  {
    Stopped(n, Nearer(levels, k), levels(k), Cap(levels))
  }

  lemma SubsetCount<T>(a: set<T>, b: set<T>)
    requires a <= b
    ensures |a| <= |b| && (a != b ==> |a| < |b|)
  {
    assert b == a + (b - a);
    assert a != b ==> b - a != {};
  }

  function Froms(rs: seq<Relation>): set<NodeId>
  {
    set r | r in rs :: r.from
  }

  function Tos(rs: seq<Relation>): set<NodeId>
  {
    set r | r in rs :: r.to
  }

  lemma EndpointsCons(r: Relation, rest: seq<Relation>)
    ensures Froms([r] + rest) == {r.from} + Froms(rest) && Tos([r] + rest) == {r.to} + Tos(rest)
    ensures Elements([r.from, r.to] + Endpoints(rest)) == {r.from, r.to} + Elements(Endpoints(rest))
  {
  }

  lemma {:induction false} EndpointsAre(rs: seq<Relation>)
    ensures Elements(Endpoints(rs)) == Froms(rs) + Tos(rs)
    decreases |rs|
  {
    if rs != [] {
      EndpointsAre(rs[1..]);
      EndpointsCons(rs[0], rs[1..]);
      assert rs == [rs[0]] + rs[1..];
    }
  }

  // The relations fetched for a frontier.
  lemma Fetched(query: Query, store: set<Relation>, kind: Option<string>, frontier: seq<NodeId>)
    requires Exact(query, store)
    ensures forall r :: r in Select(query(frontier), kind) <==> r in Eligible(store, kind) && Incident(r, Elements(frontier))
  {
    var rs := query(frontier);
    assert forall r :: r in rs <==> r in Elements(rs);
  }

  // With the frontier's relations one level becomes the next.
  lemma FrontierGrows(edges: set<Relation>, inner: set<NodeId>, nodes: set<NodeId>, rs: seq<Relation>)
    requires forall r :: r in rs <==> r in edges && Incident(r, nodes - inner)
    requires Grow(edges, inner) <= nodes
    ensures nodes + Elements(Endpoints(rs)) == Grow(edges, nodes)
  {
    EndpointsAre(rs);
    forall r | r in edges && Incident(r, nodes) && r !in rs ensures r.from in nodes && r.to in nodes {
      assert r.from in Grow(edges, inner) && r.to in Grow(edges, inner);
    }
  }

  lemma LevelGrows(edges: set<Relation>, levels: nat -> set<NodeId>, rs: seq<Relation>, k: nat)
    requires Layered(edges, levels)
    requires forall r :: r in rs <==> r in edges && Incident(r, levels(k) - Nearer(levels, k))
    ensures levels(k) + Elements(Endpoints(rs)) == levels(k + 1)
  {
    assert GrowsAt(edges, levels, k);
    if k > 0 {
      assert GrowsAt(edges, levels, k - 1);
    }
    assert Grow(edges, {}) == {};
    FrontierGrows(edges, Nearer(levels, k), levels(k), rs);
  }

  lemma AddedMakesLevel(n: Nodes, ids: seq<NodeId>, after: Nodes, roots: set<NodeId>, nodes: set<NodeId>)
    requires ValidNodes(after) && Added(n, ids, after) && n.next == [] && n.visited == nodes && roots <= nodes
    requires |nodes| <= Max(MAX_GRAPH_NODES, |roots|)
    ensures
      var cap := Max(MAX_GRAPH_NODES, |roots|);
      if after.truncated then Stopped(after, nodes, nodes + Elements(ids), cap)
      else Visited(after, nodes, nodes + Elements(ids), cap)
  {
    SubsetCount(roots, after.visited);
    assert Elements(n.next) == {};
    if !after.truncated {
      assert after.visited == nodes + Elements(ids);
    }
  }

  lemma NodesStep(levels: nat -> set<NodeId>, n: Nodes, ids: seq<NodeId>, k: nat)
    requires NodesAt(levels, n, k)
    requires levels(k) + Elements(ids) == levels(k + 1) && levels(0) <= levels(k)
    ensures
      var after := AddNodes(n.(next := []), ids);
      NodesAt(levels, after, k + 1) || NodesStopped(levels, after, k + 1)
  {
    var cleared := n.(next := []);
    AddNodesAdds(cleared, ids);
    AddedMakesLevel(cleared, ids, AddNodes(cleared, ids), levels(0), levels(k));
  }

  lemma EdgesStep(edges: set<Relation>, levels: nat -> set<NodeId>, e: Edges, rs: seq<Relation>, k: nat)
    requires UniqueIds(edges) && Tells(edges, levels, e, k) && Nearer(levels, k) <= levels(k)
    requires forall r :: r in rs <==> r in edges && Incident(r, levels(k) - Nearer(levels, k))
    ensures Tells(edges, levels, RecordEdges(e, rs, k + 1), k + 1)
  {
    RecordEdgesRecords(e, rs, k + 1);
    KeysStep(edges, levels, e, rs, k);
    ListStep(edges, levels, e, rs, k);
  }

  lemma IncidentSplits(r: Relation, inner: set<NodeId>, outer: set<NodeId>)
    requires inner <= outer
    ensures Incident(r, outer) <==> Incident(r, inner) || Incident(r, outer - inner)
  {
  }

  // The keys after a level are those of the relations incident to the nodes walked.
  lemma KeysStep(edges: set<Relation>, levels: nat -> set<NodeId>, e: Edges, rs: seq<Relation>, k: nat)
    requires UniqueIds(edges) && Tells(edges, levels, e, k) && Nearer(levels, k) <= levels(k)
    requires forall r :: r in rs <==> r in edges && Incident(r, levels(k) - Nearer(levels, k))
    ensures
      var inner, after := Nearer(levels, k + 1), RecordEdges(e, rs, k + 1);
      forall r | r in edges :: Incident(r, inner) <==> r.id in after.keys
  {
    var inner, after := Nearer(levels, k + 1), RecordEdges(e, rs, k + 1);
    RecordEdgesRecords(e, rs, k + 1);
    forall r | r in edges ensures Incident(r, inner) <==> r.id in after.keys {
      KeyIsOwn(edges, rs, r);
      IncidentSplits(r, Nearer(levels, k), inner);
    }
  }

  lemma ListStep(edges: set<Relation>, levels: nat -> set<NodeId>, e: Edges, rs: seq<Relation>, k: nat)
    requires Tells(edges, levels, e, k)
    requires forall r :: r in rs <==> r in edges && Incident(r, levels(k) - Nearer(levels, k))
    ensures
      var after := RecordEdges(e, rs, k + 1);
      forall x | x in after.list :: Describes(edges, levels, x, k + 1)
  {
    var after := RecordEdges(e, rs, k + 1);
    RecordEdgesRecords(e, rs, k + 1);
    forall x | x in after.list ensures Describes(edges, levels, x, k + 1) {
      if x in e.list {
        assert Describes(edges, levels, x, k);
      } else {
        NewEdgeDescribes(edges, levels, e.keys, rs, k, x);
      }
    }
  }

  lemma KeyIsOwn(edges: set<Relation>, rs: seq<Relation>, r: Relation)
    requires UniqueIds(edges) && r in edges && forall s :: s in rs ==> s in edges
    ensures r.id in Ids(rs) <==> r in rs
  {
  }

  lemma NewEdgeDescribes(edges: set<Relation>, levels: nat -> set<NodeId>, keys: set<RelationId>, rs: seq<Relation>, k: nat, x: Edge)
    requires FreshEdge(x, keys, rs, k + 1)
    requires forall r | r in rs :: r in edges && Incident(r, levels(k))
    requires forall r | r in edges && Incident(r, Nearer(levels, k)) :: r.id in keys
    ensures Describes(edges, levels, x, k + 1)
  {
    var r :| r in rs && r.id !in keys && DrawnFrom(x, r) && x.depth == k + 1;
    assert r in edges && Touches(levels, r, x.depth - 1);
  }

  predicate WalkAt(edges: set<Relation>, levels: nat -> set<NodeId>, w: Walk, k: nat)
  {
    NodesAt(levels, w.nodes, k) && Tells(edges, levels, w.edges, k)
  }

  lemma LevelStep(query: Query, store: set<Relation>, kind: Option<string>, levels: nat -> set<NodeId>, w: Walk, k: nat)
    requires Exact(query, store) && UniqueIds(store) && Layered(Eligible(store, kind), levels)
    requires WalkAt(Eligible(store, kind), levels, w, k)
    ensures
      var after := Level(query, kind, w, k + 1);
      && Tells(Eligible(store, kind), levels, after.edges, k + 1)
      && (NodesAt(levels, after.nodes, k + 1) || NodesStopped(levels, after.nodes, k + 1))
  {
    var edges := Eligible(store, kind);
    var rs := Select(query(w.nodes.next), kind);
    Fetched(query, store, kind, w.nodes.next);
    LevelGrows(edges, levels, rs, k);
    LevelsMonotone(edges, levels, 0, k);
    NodesStep(levels, w.nodes, Endpoints(rs), k);
    NearerMonotone(edges, levels, k, k);
    EdgesStep(edges, levels, w.edges, rs, k);
  }

  // ---- the finished walk ----

  // The levels that are too big to list.
  function Overflow(levels: nat -> set<NodeId>): nat -> bool
  {
    (level: nat) => |levels(level)| > Cap(levels)
  }

  // The first level from `k` on that is too big, or the last one.
  function FirstLevel(big: nat -> bool, k: nat, depth: nat): (level: nat)
    requires k <= depth
    ensures k <= level <= depth
    decreases depth - k
  {
    if k == depth || big(k) then k else FirstLevel(big, k + 1, depth)
  }

  lemma {:induction false} NoneTooBig(big: nat -> bool, k: nat, depth: nat)
    requires k <= depth && forall j | k <= j <= depth :: !big(j)
    ensures FirstLevel(big, k, depth) == depth
    decreases depth - k
  {
    if k < depth {
      NoneTooBig(big, k + 1, depth);
    }
  }

  predicate NodesFinished(levels: nat -> set<NodeId>, n: Nodes, depth: nat, level: nat)
  {
    && ValidNodes(n)
    && (n.truncated <==> |levels(depth)| > Cap(levels))
    && (if n.truncated
        then |n.visited| == Cap(levels) && Nearer(levels, level) <= n.visited <= levels(level)
        else n.visited == levels(depth))
  }

  predicate Finished(edges: set<Relation>, levels: nat -> set<NodeId>, w: Walk, depth: nat, level: nat)
  {
    NodesFinished(levels, w.nodes, depth, level) && Tells(edges, levels, w.edges, level)
  }

  lemma StoppedFinishes(levels: nat -> set<NodeId>, n: Nodes, k: nat, depth: nat)
    requires k <= depth && NodesStopped(levels, n, k) && levels(k) <= levels(depth)
    ensures FirstLevel(Overflow(levels), k, depth) == k && NodesFinished(levels, n, depth, k)
  {
    SubsetCount(n.visited, levels(k));
    SubsetCount(levels(k), levels(depth));
  }

  lemma NothingBetween<T>(inner: set<T>, outer: set<T>)
    requires inner <= outer && outer - inner == {}
    ensures inner == outer
  {
    assert outer == inner + (outer - inner);
  }

  lemma DrainedFinishes(edges: set<Relation>, levels: nat -> set<NodeId>, w: Walk, k: nat, depth: nat)
    requires Layered(edges, levels)
    requires k <= depth && WalkAt(edges, levels, w, k) && (k == depth || w.nodes.next == [])
    ensures FirstLevel(Overflow(levels), k, depth) == depth
    ensures NodesFinished(levels, w.nodes, depth, depth) && Tells(edges, levels, w.edges, depth)
  {
    if k < depth {
      assert Elements(w.nodes.next) == {};
      NearerMonotone(edges, levels, k, k);
      NothingBetween(Nearer(levels, k), levels(k));
      forall j | k <= j <= depth ensures !Overflow(levels)(j) {
        LevelsStable(edges, levels, k, j);
      }
      NoneTooBig(Overflow(levels), k, depth);
      LevelsStable(edges, levels, k, depth);
      forall x | x in w.edges.list ensures Describes(edges, levels, x, depth) {
        assert Describes(edges, levels, x, k);
      }
    }
  }

  lemma WalkUnfolds(query: Query, kind: Option<string>, w: Walk, current: nat, depth: nat)
    requires current <= depth && w.nodes.next != [] && !w.nodes.truncated
    ensures WalkFrom(query, kind, w, current, depth) == WalkFrom(query, kind, Level(query, kind, w, current), current + 1, depth)
  {
  }

  lemma WalkStops(query: Query, kind: Option<string>, w: Walk, current: nat, depth: nat)
    requires current > depth || w.nodes.next == [] || w.nodes.truncated
    ensures WalkFrom(query, kind, w, current, depth) == w
  {
  }

  lemma {:induction false} WalkFinishes(query: Query, store: set<Relation>, kind: Option<string>, levels: nat -> set<NodeId>, w: Walk, k: nat, depth: nat)
    requires Exact(query, store) && UniqueIds(store) && Layered(Eligible(store, kind), levels)
    requires k <= depth && WalkAt(Eligible(store, kind), levels, w, k)
    ensures Finished(Eligible(store, kind), levels, WalkFrom(query, kind, w, k + 1, depth), depth, FirstLevel(Overflow(levels), k, depth))
    decreases depth - k
  {
    var edges := Eligible(store, kind);
    if k == depth || w.nodes.next == [] {
      WalkStops(query, kind, w, k + 1, depth);
      DrainedFinishes(edges, levels, w, k, depth);
    } else {
      var next := Level(query, kind, w, k + 1);
      WalkUnfolds(query, kind, w, k + 1, depth);
      LevelStep(query, store, kind, levels, w, k);
      assert FirstLevel(Overflow(levels), k, depth) == FirstLevel(Overflow(levels), k + 1, depth);
      if next.nodes.truncated {
        WalkStops(query, kind, next, k + 2, depth);
        LevelsMonotone(edges, levels, k + 1, depth);
        StoppedFinishes(levels, next.nodes, k + 1, depth);
      } else {
        WalkFinishes(query, store, kind, levels, next, k + 1, depth);
      }
    }
  }

  lemma WalkStarts(edges: set<Relation>, levels: nat -> set<NodeId>, roots: seq<NodeId>)
    requires levels(0) == Elements(roots)
    ensures WalkAt(edges, levels, Walk(Started(roots), Edges({}, [])), 0)
  {
    DedupKeepsOne(roots, []);
    assert Elements<NodeId>([]) == {};
  }

  // The listed nodes are distinct and within `depth` hops along wanted edges. All
  // of them are listed unless the walk says it is truncated, which it says
  // exactly when they are too many; then as many as allowed are listed, and all
  // that are nearer than the level at which the count overflows. Never are more
  // listed than allowed.
  // Each wanted edge incident to a level walked is listed once, with a depth of
  // one plus the smaller distance of its endpoints, cap or no cap.
  lemma WalkIsExact(query: Query, store: set<Relation>, kind: Option<string>, roots: seq<NodeId>, depth: nat)
    requires Exact(query, store) && UniqueIds(store)
    ensures
      var levels := Balls(Eligible(store, kind), Elements(roots));
      var w := WalkRelations(query, kind, roots, depth);
      FinishedWithin(Eligible(store, kind), levels, w, depth, FirstLevel(Overflow(levels), 0, depth))
  {
    BallsAreLayered(Eligible(store, kind), Elements(roots));
    WalkIsExactOn(query, store, kind, roots, Balls(Eligible(store, kind), Elements(roots)), depth);
  }

  lemma WalkIsExactOn(query: Query, store: set<Relation>, kind: Option<string>, roots: seq<NodeId>, levels: nat -> set<NodeId>, depth: nat)
    requires Exact(query, store) && UniqueIds(store)
    requires Layered(Eligible(store, kind), levels) && levels(0) == Elements(roots)
    ensures FinishedWithin(Eligible(store, kind), levels, WalkRelations(query, kind, roots, depth), depth, FirstLevel(Overflow(levels), 0, depth))
  {
    WalkStarts(Eligible(store, kind), levels, roots);
    WalkFinishesWithin(query, store, kind, levels, Walk(Started(roots), Edges({}, [])), 0, depth);
  }

  // Finished, with no more nodes listed than allowed.
  predicate FinishedWithin(edges: set<Relation>, levels: nat -> set<NodeId>, w: Walk, depth: nat, level: nat)
  {
    Finished(edges, levels, w, depth, level) && |w.nodes.order| == |w.nodes.visited| <= Cap(levels)
  }

  lemma FinishedIsWithin(edges: set<Relation>, levels: nat -> set<NodeId>, w: Walk, depth: nat, level: nat)
    requires Finished(edges, levels, w, depth, level)
    ensures FinishedWithin(edges, levels, w, depth, level)
  {
    DistinctCount(w.nodes.order);
  }

  lemma WalkFinishesWithin(query: Query, store: set<Relation>, kind: Option<string>, levels: nat -> set<NodeId>, w: Walk, k: nat, depth: nat)
    requires Exact(query, store) && UniqueIds(store) && Layered(Eligible(store, kind), levels)
    requires k <= depth && WalkAt(Eligible(store, kind), levels, w, k)
    ensures FinishedWithin(Eligible(store, kind), levels, WalkFrom(query, kind, w, k + 1, depth), depth, FirstLevel(Overflow(levels), k, depth))
  {
    var level := FirstLevel(Overflow(levels), k, depth);
    WalkFinishes(query, store, kind, levels, w, k, depth);
    FinishedIsWithin(Eligible(store, kind), levels, WalkFrom(query, kind, w, k + 1, depth), depth, level);
  }

  // ---- what follows for one relation, and for the graph drawn from the lists ----

  lemma DescribedRelation(edges: set<Relation>, levels: nat -> set<NodeId>, x: Edge, k: nat) returns (r: Relation)
    requires Describes(edges, levels, x, k)
    ensures r in edges && 1 <= x.depth <= k && DrawnFrom(x, r) && Touches(levels, r, x.depth - 1)
  {
    r :| r in edges && DrawnFrom(x, r) && Touches(levels, r, x.depth - 1);
  }

  lemma KeyIsListed(e: Edges, key: RelationId) returns (x: Edge)
    requires ValidEdges(e) && key in e.keys
    ensures x in e.list && x.id == key
  {
    assert key in EdgeIds(e.list);
    x :| x in e.list && x.id == key;
  }

  // The edge listed under a relation's id is that relation's.
  lemma ListedAs(edges: set<Relation>, levels: nat -> set<NodeId>, x: Edge, k: nat, r: Relation, hops: nat)
    requires UniqueIds(edges) && Layered(edges, levels) && Describes(edges, levels, x, k)
    requires r in edges && x.id == r.id && Touches(levels, r, hops)
    ensures DrawnFrom(x, r) && x.depth == hops + 1
  {
    var s := DescribedRelation(edges, levels, x, k);
    assert s == r;
    TouchesOnce(edges, levels, r, hops, x.depth - 1);
  }

  // A relation at distance `hops` below the walked level is listed with depth `hops + 1`.
  lemma RelationIsListed(edges: set<Relation>, levels: nat -> set<NodeId>, e: Edges, k: nat, r: Relation, hops: nat)
    requires UniqueIds(edges) && Layered(edges, levels) && Tells(edges, levels, e, k)
    requires r in edges && Touches(levels, r, hops) && hops < k
    ensures exists x :: x in e.list && DrawnFrom(x, r) && x.depth == hops + 1
  {
    LevelsMonotone(edges, levels, hops, k - 1);
    var x := KeyIsListed(e, r.id);
    ListedAs(edges, levels, x, k, r, hops);
  }

  lemma EndsWithin(edges: set<Relation>, levels: nat -> set<NodeId>, x: Edge, k: nat, depth: nat)
    requires Layered(edges, levels) && Describes(edges, levels, x, k) && k <= depth
    ensures x.from in levels(depth) && x.to in levels(depth)
  {
    var r := DescribedRelation(edges, levels, x, k);
    assert GrowsAt(edges, levels, x.depth - 1);
    assert r.from in Grow(edges, levels(x.depth - 1)) && r.to in Grow(edges, levels(x.depth - 1));
    LevelsMonotone(edges, levels, x.depth, depth);
  }

  // Unless the walk is truncated, no listed edge leaves the listed nodes.
  lemma NoDanglingEdges(edges: set<Relation>, levels: nat -> set<NodeId>, w: Walk, depth: nat, level: nat, x: Edge)
    requires Layered(edges, levels) && level <= depth && Finished(edges, levels, w, depth, level)
    requires !w.nodes.truncated && x in w.edges.list
    ensures x.from in w.nodes.visited && x.to in w.nodes.visited
  {
    EndsWithin(edges, levels, x, level, depth);
  }
}
