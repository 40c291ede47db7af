// In which order the walk lists what it finds, and what the lists say of the store.
module WalkOrder {
  import opened Prelude
  import opened RelationGraph
  import opened WalkState
  import opened WalkTheorems

  // `a` is no farther from the roots than `b`.
  ghost predicate NotFarther(levels: nat -> set<NodeId>, a: NodeId, b: NodeId)
  {
    forall k: nat :: b in levels(k) ==> a in levels(k)
  }

  ghost predicate InOrder(levels: nat -> set<NodeId>, order: seq<NodeId>)
  {
    forall i, j | 0 <= i < j < |order| :: NotFarther(levels, order[i], order[j])
  }

  // New nodes go to the end of the list and of the frontier.
  lemma {:induction false} AddNodesAppends(n: Nodes, ids: seq<NodeId>)
    ensures
      var after := AddNodes(n, ids);
      n.order <= after.order && n.next <= after.next && after.order[|n.order|..] == after.next[|n.next|..]
    decreases |ids|
  {
    if ids != [] {
      AddNodesAppends(AddNode(n, ids[0]), ids[1..]);
    }
  }

  lemma AppendsInOrder(edges: set<Relation>, levels: nat -> set<NodeId>, front: seq<NodeId>, back: seq<NodeId>, k: nat)
    requires Layered(edges, levels) && InOrder(levels, front)
    requires (forall n <- front :: n in levels(k)) && forall n <- back :: n in levels(k + 1) && n !in levels(k)
    ensures InOrder(levels, front + back)
  {
    var order := front + back;
    forall i, j | 0 <= i < j < |order| ensures NotFarther(levels, order[i], order[j]) {
      if j < |front| {
        assert NotFarther(levels, front[i], front[j]);
      } else {
        assert order[j] in back && (i < |front| ==> order[i] in front) && (i >= |front| ==> order[i] in back);
        NewIsNotNearer(edges, levels, order[i], order[j], k);
      }
    }
  }

  lemma NewIsNotNearer(edges: set<Relation>, levels: nat -> set<NodeId>, a: NodeId, b: NodeId, k: nat)
    requires Layered(edges, levels)
    requires a in levels(k) || a in levels(k + 1)
    requires b !in levels(k)
    ensures NotFarther(levels, a, b)
  {
    LevelsMonotone(edges, levels, k, k + 1);
    forall m: nat | b in levels(m) ensures a in levels(m) {
      if m <= k {
        LevelsMonotone(edges, levels, m, k);
      } else {
        LevelsMonotone(edges, levels, k + 1, m);
      }
    }
  }

  lemma LevelKeepsOrder(query: Query, store: set<Relation>, kind: Option<string>, levels: nat -> set<NodeId>, w: Walk, k: nat)
    requires Exact(query, store) && UniqueIds(store) && Layered(Eligible(store, kind), levels)
    requires WalkAt(Eligible(store, kind), levels, w, k) && InOrder(levels, w.nodes.order)
    ensures
      var order := Level(query, kind, w, k + 1).nodes.order;
      w.nodes.order <= order && InOrder(levels, order)
  {
    var after := Level(query, kind, w, k + 1).nodes;
    var ids := Endpoints(Select(query(w.nodes.next), kind));
    LevelStep(query, store, kind, levels, w, k);
    AddNodesAppends(w.nodes.(next := []), ids);
    var more := after.order[|w.nodes.order|..];
    assert after.order == w.nodes.order + more;
    NewNodes(w.nodes, after, more);
    AppendsInOrder(Eligible(store, kind), levels, w.nodes.order, more, k);
  }

  lemma NewNodes(n: Nodes, after: Nodes, more: seq<NodeId>)
    requires ValidNodes(n) && ValidNodes(after) && after.order == n.order + more
    ensures forall x <- more :: x in after.visited && x !in n.visited
    ensures forall x <- n.order :: x in n.visited
  {
    forall x <- more ensures x in after.visited && x !in n.visited {
      var j :| 0 <= j < |more| && more[j] == x;
      assert after.order[|n.order| + j] == x;
      forall i | 0 <= i < |n.order| ensures n.order[i] != x {
        assert after.order[i] == n.order[i];
      }
    }
  }

  lemma {:induction false} WalkFromKeepsOrder(query: Query, store: set<Relation>, kind: Option<string>, levels: nat -> set<NodeId>, w: Walk, k: nat, depth: nat)
    requires Exact(query, store) && UniqueIds(store) && Layered(Eligible(store, kind), levels)
    requires k <= depth && WalkAt(Eligible(store, kind), levels, w, k) && InOrder(levels, w.nodes.order)
    ensures
      var order := WalkFrom(query, kind, w, k + 1, depth).nodes.order;
      w.nodes.order <= order && InOrder(levels, order)
    decreases depth - k
  {
    if k == depth || w.nodes.next == [] {
      WalkStops(query, kind, w, k + 1, depth);
    } else {
      var next := Level(query, kind, w, k + 1);
      WalkUnfolds(query, kind, w, k + 1, depth);
      LevelStep(query, store, kind, levels, w, k);
      LevelKeepsOrder(query, store, kind, levels, w, k);
      if next.nodes.truncated {
        WalkStops(query, kind, next, k + 2, depth);
      } else {
        WalkFromKeepsOrder(query, store, kind, levels, next, k + 1, depth);
      }
    }
  }

  lemma RootsInOrder(edges: set<Relation>, levels: nat -> set<NodeId>, order: seq<NodeId>)
    requires Layered(edges, levels) && levels(0) == Elements(order)
    ensures InOrder(levels, order)
  {
    forall i, j | 0 <= i < j < |order| ensures NotFarther(levels, order[i], order[j]) {
      assert order[i] in levels(0);
      forall m: nat | order[j] in levels(m) ensures order[i] in levels(m) {
        LevelsMonotone(edges, levels, 0, m);
      }
    }
  }

  // The roots come first, each once, and no node comes before one that is nearer.
  lemma NodesInOrderOfDistance(query: Query, store: set<Relation>, kind: Option<string>, roots: seq<NodeId>, depth: nat)
    requires Exact(query, store) && UniqueIds(store)
    ensures
      var order := WalkRelations(query, kind, roots, depth).nodes.order;
      Started(roots).order <= order && InOrder(Balls(Eligible(store, kind), Elements(roots)), order)
  {
    BallsAreLayered(Eligible(store, kind), Elements(roots));
    OrderOn(query, store, kind, roots, Balls(Eligible(store, kind), Elements(roots)), depth);
  }

  lemma OrderOn(query: Query, store: set<Relation>, kind: Option<string>, roots: seq<NodeId>, levels: nat -> set<NodeId>, depth: nat)
    requires Exact(query, store) && UniqueIds(store)
    requires Layered(Eligible(store, kind), levels) && levels(0) == Elements(roots)
    ensures
      var order := WalkRelations(query, kind, roots, depth).nodes.order;
      Started(roots).order <= order && InOrder(levels, order)
  {
    WalkStarts(Eligible(store, kind), levels, roots);
    StartInOrder(Eligible(store, kind), levels, roots);
    OrderFrom(query, store, kind, levels, Walk(Started(roots), Edges({}, [])), depth);
  }

  lemma OrderFrom(query: Query, store: set<Relation>, kind: Option<string>, levels: nat -> set<NodeId>, start: Walk, depth: nat)
    requires Exact(query, store) && UniqueIds(store) && Layered(Eligible(store, kind), levels)
    requires WalkAt(Eligible(store, kind), levels, start, 0) && InOrder(levels, start.nodes.order)
    ensures
      var order := WalkFrom(query, kind, start, 1, depth).nodes.order;
      start.nodes.order <= order && InOrder(levels, order)
  {
    WalkFromKeepsOrder(query, store, kind, levels, start, 0, depth);
  }

  lemma StartInOrder(edges: set<Relation>, levels: nat -> set<NodeId>, roots: seq<NodeId>)
    requires Layered(edges, levels) && levels(0) == Elements(roots)
    ensures InOrder(levels, Started(roots).order)
  {
    DedupKeepsOne(roots, []);
    assert Elements<NodeId>([]) == {};
    RootsInOrder(edges, levels, Started(roots).order);
  }

  // Roots that are given once each are listed as they are given.
  lemma DistinctRootsAsGiven(roots: seq<NodeId>)
    requires NoDuplicates(roots)
    ensures Started(roots).order == roots
  {
    assert [] + roots == roots;
    DistinctRootsStay(roots, []);
  }

  lemma {:induction false} DistinctRootsStay(roots: seq<NodeId>, before: seq<NodeId>)
    requires NoDuplicates(before + roots)
    ensures Dedup(roots, before) == before + roots
    decreases |roots|
  {
    if roots == [] {
      assert before + [] == before;
    } else {
      var all := before + roots;
      assert all[|before|] == roots[0] && forall i | 0 <= i < |before| :: all[i] == before[i];
      assert before + [roots[0]] + roots[1..] == all;
      DistinctRootsStay(roots[1..], before + [roots[0]]);
    }
  }

  // ---- what the lists say of the store ----

  // Every listed edge is a stored relation with its direction and its kind, of the
  // kind asked for if one was; and every such relation nearer than the level walked
  // is listed so, one deeper than its nearer end is far from the roots.
  lemma EdgesTellTheStore(query: Query, store: set<Relation>, kind: Option<string>, roots: seq<NodeId>, depth: nat)
    requires Exact(query, store) && UniqueIds(store)
    ensures
      var levels := Balls(Eligible(store, kind), Elements(roots));
      var edges := WalkRelations(query, kind, roots, depth).edges.list;
      var level := FirstLevel(Overflow(levels), 0, depth);
      && (forall x | x in edges :: (exists r :: r in store && DrawnFrom(x, r)) && (kind.Some? ==> x.kind == kind.value))
      && (forall r, hops: nat | r in store && (kind.Some? ==> r.kind == kind.value) && hops < level && Touches(levels, r, hops) ::
            exists x :: x in edges && DrawnFrom(x, r) && x.depth == hops + 1)
  {
    var levels := Balls(Eligible(store, kind), Elements(roots));
    WalkIsExact(query, store, kind, roots, depth);
    BallsAreLayered(Eligible(store, kind), Elements(roots));
    EdgesTell(store, kind, levels, WalkRelations(query, kind, roots, depth).edges, FirstLevel(Overflow(levels), 0, depth));
  }

  lemma EdgesTell(store: set<Relation>, kind: Option<string>, levels: nat -> set<NodeId>, e: Edges, level: nat)
    requires UniqueIds(store) && Layered(Eligible(store, kind), levels) && Tells(Eligible(store, kind), levels, e, level)
    ensures forall x | x in e.list :: (exists r :: r in store && DrawnFrom(x, r)) && (kind.Some? ==> x.kind == kind.value)
    ensures forall r, hops: nat | r in store && (kind.Some? ==> r.kind == kind.value) && hops < level && Touches(levels, r, hops) ::
              exists x :: x in e.list && DrawnFrom(x, r) && x.depth == hops + 1
  {
    forall x | x in e.list ensures (exists r :: r in store && DrawnFrom(x, r)) && (kind.Some? ==> x.kind == kind.value) {
      var r := DescribedRelation(Eligible(store, kind), levels, x, level);
    }
    forall r, hops: nat | r in store && (kind.Some? ==> r.kind == kind.value) && hops < level && Touches(levels, r, hops)
      ensures exists x :: x in e.list && DrawnFrom(x, r) && x.depth == hops + 1
    {
      RelationIsListed(Eligible(store, kind), levels, e, level, r, hops);
    }
  }
}
