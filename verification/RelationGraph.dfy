// The graph the relation walk explores: nodes joined by relations, taken in
// either direction, and the nodes within so many hops of the roots.
module RelationGraph {
  import opened Prelude

  // Memory and relation ids are UUIDs, numbers whose text form is injective.
  type NodeId = nat
  type RelationId = nat

  datatype Relation = Relation(id: RelationId, from: NodeId, to: NodeId, kind: string)

  function Elements<T(!new, ==)>(s: seq<T>): (r: set<T>)
    ensures forall x :: x in r <==> x in s
  {
    set x <- s
  }

  lemma ElementsSnoc<T(!new)>(front: seq<T>, last: T)
    ensures Elements(front + [last]) == Elements(front) + {last}
  {
  }

  lemma {:induction false} DistinctCount<T(!new)>(s: seq<T>)
    requires NoDuplicates(s)
    ensures |Elements(s)| == |s|
  {
    if s != [] {
      var front, last := s[..|s| - 1], s[|s| - 1];
      DistinctCount(front);
      ElementsSnoc(front, last);
      assert s == front + [last] && last !in Elements(front);
    }
  }

  predicate Incident(r: Relation, nodes: set<NodeId>)
  {
    r.from in nodes || r.to in nodes
  }

  function Grow(edges: set<Relation>, nodes: set<NodeId>): (g: set<NodeId>)
    ensures nodes <= g
  {
    nodes + (set r | r in edges && Incident(r, nodes) :: r.from) + (set r | r in edges && Incident(r, nodes) :: r.to)
  }

  // The nodes at most `hops` relations away from a root.
  function Ball(edges: set<Relation>, roots: set<NodeId>, hops: nat): set<NodeId>
  {
    if hops == 0 then roots else Grow(edges, Ball(edges, roots, hops - 1))
  }

  function Balls(edges: set<Relation>, roots: set<NodeId>): nat -> set<NodeId>
  {
    (hops: nat) => Ball(edges, roots, hops)
  }

  lemma {:induction false} BallMonotone(edges: set<Relation>, roots: set<NodeId>, i: nat, j: nat)
    requires i <= j
    ensures Ball(edges, roots, i) <= Ball(edges, roots, j)
    decreases j
  {
    if i < j {
      BallMonotone(edges, roots, i, j - 1);
      var inner := Ball(edges, roots, j - 1);
      assert inner <= Grow(edges, inner);
    }
  }

  predicate Joins(r: Relation, a: NodeId, b: NodeId)
  {
    (r.from == a && r.to == b) || (r.from == b && r.to == a)
  }

  predicate Adjacent(edges: set<Relation>, a: NodeId, b: NodeId)
  {
    exists r :: r in edges && Joins(r, a, b)
  }

  // A walk from a root to `n` along the edges.
  predicate IsPath(edges: set<Relation>, roots: set<NodeId>, path: seq<NodeId>, n: NodeId)
  {
    && path != [] && path[0] in roots && path[|path| - 1] == n
    && forall i | 0 <= i < |path| - 1 :: Adjacent(edges, path[i], path[i + 1])
  }

  // The ball holds exactly the nodes some path of at most `hops` edges leads to.
  lemma BallIsReachable(edges: set<Relation>, roots: set<NodeId>, n: NodeId, hops: nat)
    ensures n in Ball(edges, roots, hops) <==> exists path :: IsPath(edges, roots, path, n) && |path| <= hops + 1
  {
    if n in Ball(edges, roots, hops) {
      var path := PathTo(edges, roots, n, hops);
    }
    forall path | IsPath(edges, roots, path, n) && |path| <= hops + 1 ensures n in Ball(edges, roots, hops) {
      PathStaysIn(edges, roots, path, n);
      BallMonotone(edges, roots, |path| - 1, hops);
    }
  }

  lemma {:induction false} PathStaysIn(edges: set<Relation>, roots: set<NodeId>, path: seq<NodeId>, n: NodeId)
    requires IsPath(edges, roots, path, n)
    ensures n in Ball(edges, roots, |path| - 1)
    decreases |path|
  {
    if |path| > 1 {
      var shorter := path[..|path| - 1];
      var m := shorter[|shorter| - 1];
      assert forall i | 0 <= i < |shorter| :: shorter[i] == path[i];
      PathStaysIn(edges, roots, shorter, m);
      assert Adjacent(edges, path[|path| - 2], path[|path| - 2 + 1]);
    }
  }

  lemma {:induction false} PathTo(edges: set<Relation>, roots: set<NodeId>, n: NodeId, hops: nat) returns (path: seq<NodeId>)
    requires n in Ball(edges, roots, hops)
    ensures IsPath(edges, roots, path, n) && |path| <= hops + 1
    decreases hops
  {
    if hops == 0 {
      return [n];
    }
    var inner := Ball(edges, roots, hops - 1);
    if n in inner {
      path := PathTo(edges, roots, n, hops - 1);
    } else {
      var r :| r in edges && Incident(r, inner) && (r.from == n || r.to == n);
      var m := if r.from in inner then r.from else r.to;
      path := PathTo(edges, roots, m, hops - 1);
      assert Joins(r, m, n);
      path := path + [n];
    }
  }

  // ---- levels, abstractly: each one grown from the one before ----

  predicate GrowsAt(edges: set<Relation>, levels: nat -> set<NodeId>, k: nat)
  {
    levels(k + 1) == Grow(edges, levels(k))
  }

  ghost predicate Layered(edges: set<Relation>, levels: nat -> set<NodeId>)
  {
    forall k: nat :: GrowsAt(edges, levels, k)
  }

  lemma BallsAreLayered(edges: set<Relation>, roots: set<NodeId>)
    ensures Layered(edges, Balls(edges, roots)) && Balls(edges, roots)(0) == roots
  {
    forall k: nat ensures GrowsAt(edges, Balls(edges, roots), k) {
    }
  }

  // The nodes strictly nearer than `hops`.
  function Nearer(levels: nat -> set<NodeId>, hops: nat): set<NodeId>
  {
    if hops == 0 then {} else levels(hops - 1)
  }

  // `hops` is the smaller distance of the relation's endpoints from the roots.
  predicate Touches(levels: nat -> set<NodeId>, r: Relation, hops: nat)
  {
    Incident(r, levels(hops)) && !Incident(r, Nearer(levels, hops))
  }

  lemma LevelUp(edges: set<Relation>, levels: nat -> set<NodeId>, k: nat)
    requires Layered(edges, levels)
    ensures levels(k) <= levels(k + 1)
  {
    assert GrowsAt(edges, levels, k);
  }

  lemma {:induction false} LevelsMonotone(edges: set<Relation>, levels: nat -> set<NodeId>, i: nat, j: nat)
    requires Layered(edges, levels) && i <= j
    ensures levels(i) <= levels(j)
    decreases j
  {
    if i < j {
      LevelsMonotone(edges, levels, i, j - 1);
      LevelUp(edges, levels, j - 1);
    }
  }

  lemma NearerMonotone(edges: set<Relation>, levels: nat -> set<NodeId>, i: nat, j: nat)
    requires Layered(edges, levels) && i <= j
    ensures Nearer(levels, i) <= Nearer(levels, j) <= levels(j)
  {
    if i > 0 {
      LevelsMonotone(edges, levels, i - 1, j - 1);
    }
    if j > 0 {
      LevelsMonotone(edges, levels, j - 1, j);
    }
  }

  // Once a level adds nothing, no later level does.
  lemma {:induction false} LevelsStable(edges: set<Relation>, levels: nat -> set<NodeId>, i: nat, j: nat)
    requires Layered(edges, levels) && i <= j && levels(i) == Nearer(levels, i)
    ensures levels(j) == Nearer(levels, j) == levels(i)
    decreases j
  {
    if i < j {
      LevelsStable(edges, levels, i, j - 1);
      assert GrowsAt(edges, levels, j - 1);
      if j > 1 {
        assert GrowsAt(edges, levels, j - 2);
      }
    }
  }

  lemma TouchesOnce(edges: set<Relation>, levels: nat -> set<NodeId>, r: Relation, i: nat, j: nat)
    requires Layered(edges, levels) && Touches(levels, r, i) && Touches(levels, r, j)
    ensures i == j
  {
    if i < j {
      LevelsMonotone(edges, levels, i, j - 1);
    } else if j < i {
      LevelsMonotone(edges, levels, j, i - 1);
    }
  }
}
