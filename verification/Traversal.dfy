/** Breadth-first, variable-length traversal and the shortest-distance specification it meets. */
module Traversal {
  import opened Prelude
  import opened Values
  import opened Ast
  import opened GraphStore

  // ---------- one hop ----------

  function HopsFrom(g: Graph, n: NodeId, dir: Direction): seq<Hop> {
    match dir
    case Right => Neighbours(g, n, None)
    case Left => NeighboursIncoming(g, n, None)
    case Both => Neighbours(g, n, None) + NeighboursIncoming(g, n, None)
  }

  function OfTypes(hops: seq<Hop>, types: seq<string>): seq<Hop> {
    if hops == [] then []
    else
      OfTypes(hops[..|hops| - 1], types) +
      if hops[|hops| - 1].edge.edgeType in types then [hops[|hops| - 1]] else []
  }

  /** The hops a traversal may take from `n`; an empty list of types allows every type. */
  function Successors(g: Graph, n: NodeId, types: seq<string>, dir: Direction): seq<Hop> {
    if types == [] then HopsFrom(g, n, dir) else OfTypes(HopsFrom(g, n, dir), types)
  }

  // ---------- the search ----------

  datatype Entry = Entry(node: NodeId, depth: nat)

  datatype Frontier = Frontier(queue: seq<Entry>, visited: set<NodeId>, found: seq<Node>)

  /** What one traversal looks for: the depths `lo..hi` from `start`. */
  datatype Goal = Goal(start: NodeId, lo: nat, hi: nat)

  function Discover(n: Node, depth: nat, goal: Goal, f: Frontier): Frontier {
    if n.id in f.visited then f
    else
      Frontier(
        if depth < goal.hi then f.queue + [Entry(n.id, depth)] else f.queue,
        f.visited + {n.id},
        if goal.lo <= depth <= goal.hi && n.id != goal.start then f.found + [n] else f.found)
  }

  function Visit(hops: seq<Hop>, depth: nat, goal: Goal, f: Frontier): Frontier {
    if hops == [] then f
    else Discover(hops[|hops| - 1].node, depth + 1, goal, Visit(hops[..|hops| - 1], depth, goal, f))
  }

  function StoredIds(g: Graph): set<NodeId> {
    set k | k in g.nodes :: g.nodes[k].id
  }

  lemma {:induction false} HopsAreStored(ids: seq<EdgeId>, g: Graph, edgeType: Option<string>, forward: bool)
    ensures forall h :: h in HopsOf(ids, g, edgeType, forward) ==> h.node.id in StoredIds(g)
  {
    if ids != [] {
      HopsAreStored(ids[..|ids| - 1], g, edgeType, forward);
    }
  }

  lemma {:induction false} OfTypesIn(hops: seq<Hop>, types: seq<string>)
    ensures forall h :: h in OfTypes(hops, types) <==> h in hops && h.edge.edgeType in types
  {
    if hops != [] {
      OfTypesIn(hops[..|hops| - 1], types);
      assert hops == hops[..|hops| - 1] + [hops[|hops| - 1]];
    }
  }

  lemma SuccessorsAreStored(g: Graph, n: NodeId, types: seq<string>, dir: Direction)
    ensures forall h :: h in Successors(g, n, types, dir) ==> h.node.id in StoredIds(g)
  {
    HopsAreStored(Look(g.outgoing, n), g, None, true);
    HopsAreStored(Look(g.incoming, n), g, None, false);
    OfTypesIn(HopsFrom(g, n, dir), types);
  }

  /** Visiting hops only adds stored nodes; when it adds none, nothing changes at all. */
  lemma {:induction false} VisitGrows(hops: seq<Hop>, depth: nat, goal: Goal, f: Frontier, stored: set<NodeId>)
    requires forall h :: h in hops ==> h.node.id in stored
    ensures var f' := Visit(hops, depth, goal, f);
      f' == f || (f.visited < f'.visited && |stored - f'.visited| < |stored - f.visited|)
  {
    if hops != [] {
      var front := hops[..|hops| - 1];
      VisitGrows(front, depth, goal, f, stored);
      var m, n := Visit(front, depth, goal, f), hops[|hops| - 1].node.id;
      assert hops[|hops| - 1] in hops;
      if n !in m.visited {
        assert stored - (m.visited + {n}) < stored - m.visited;
        SmallerSubset(stored - (m.visited + {n}), stored - m.visited);
        assert n !in f.visited;
      }
    }
  }

  lemma {:induction false} SmallerSubset<T>(a: set<T>, b: set<T>)
    requires a < b
    ensures |a| < |b|
  {
    var x :| x in b && x !in a;
    assert a <= b - {x};
    SubsetSize(a, b - {x});
  }

  lemma {:induction false} SubsetSize<T>(a: set<T>, b: set<T>)
    requires a <= b
    ensures |a| <= |b|
  {
    if a != {} {
      var x :| x in a;
      SubsetSize(a - {x}, b - {x});
    }
  }

  /** Terminates on cyclic graphs whatever the bound: every step discovers a stored node or shortens
      the queue. */
  function Search(g: Graph, types: seq<string>, dir: Direction, goal: Goal, f: Frontier): seq<Node>
    decreases |StoredIds(g) - f.visited|, |f.queue|
  {
    if f.queue == [] then f.found
    else
      var u, rest := f.queue[0], f.(queue := f.queue[1..]);
      if goal.hi <= u.depth then Search(g, types, dir, goal, rest)
      else
        var hops := Successors(g, u.node, types, dir);
        SuccessorsAreStored(g, u.node, types, dir);
        VisitGrows(hops, u.depth, goal, rest, StoredIds(g));
        Search(g, types, dir, goal, Visit(hops, u.depth, goal, rest))
  }

  function Traverse(g: Graph, types: seq<string>, dir: Direction, goal: Goal): seq<Node> {
    Search(g, types, dir, goal, Frontier([Entry(goal.start, 0)], {goal.start}, []))
  }

  method CollectHops(store: InMemoryGraphStore, n: NodeId, types: seq<string>, dir: Direction) returns (r: seq<Hop>)
    ensures r == Successors(store.State(), n, types, dir)
  {
    match dir {
      case Right => r := store.GetNeighbours(n, None);
      case Left => r := store.GetNeighboursIncoming(n, None);
      case Both =>
        r := store.GetNeighbours(n, None);
        var incoming := store.GetNeighboursIncoming(n, None);
        r := r + incoming;
    }
    if types != [] {
      r := OfTypes(r, types);
    }
  }

  method TraverseVariableLength(store: InMemoryGraphStore, start: NodeId, types: seq<string>, dir: Direction,
                                minDepth: nat, maxDepth: nat) returns (result: seq<Node>)
    ensures result == Traverse(store.State(), types, dir, Goal(start, minDepth, maxDepth))
  {
    var g, goal := store.State(), Goal(start, minDepth, maxDepth);
    result := [];
    var visited := {start};
    var queue := [Entry(start, 0)];
    while queue != []
      invariant Search(g, types, dir, goal, Frontier(queue, visited, result)) == Traverse(g, types, dir, goal)
      decreases |StoredIds(g) - visited|, |queue|
    {
      var u := queue[0];
      ghost var popped := Frontier(queue[1..], visited, result);
      queue := queue[1..];
      if maxDepth <= u.depth {
        continue;
      }
      var neighbours := CollectHops(store, u.node, types, dir);
      var i := 0;
      while i < |neighbours|
        invariant 0 <= i <= |neighbours|
        invariant Frontier(queue, visited, result) == Visit(neighbours[..i], u.depth, goal, popped)
      {
        assert neighbours[..i + 1][..i] == neighbours[..i];
        var n := neighbours[i].node;
        i := i + 1;
        if n.id in visited {
          continue;
        }
        visited := visited + {n.id};
        var nextDepth := u.depth + 1;
        if minDepth <= nextDepth <= maxDepth && n.id != start {
          result := result + [n];
        }
        if nextDepth < maxDepth {
          queue := queue + [Entry(n.id, nextDepth)];
        }
      }
      assert neighbours[..i] == neighbours;
      SuccessorsAreStored(g, u.node, types, dir);
      VisitGrows(neighbours, u.depth, goal, popped, StoredIds(g));
    }
  }
}
