/** Shortest distances over allowed edges, and the proof that the breadth-first search returns
    exactly the nodes in the requested band of distances, nearest first, each once. */
module Distances {
  import opened Prelude
  import opened Ast
  import opened GraphStore
  import opened Traversal

  /** The edges a traversal may use: an empty list of types allows every type. */
  datatype Net = Net(g: Graph, types: seq<string>, dir: Direction)

  predicate TypeAllowed(types: seq<string>, edgeType: string) {
    types == [] || edgeType in types
  }

  predicate DirectionAllowed(dir: Direction, forward: bool) {
    dir == Both || (if forward then dir == Right else dir == Left)
  }

  /** Edge `id` leads from `u` to the stored node `v` when followed in the given sense. */
  predicate Leads(net: Net, id: EdgeId, forward: bool, u: NodeId, v: NodeId) {
    && id in net.g.edges
    && TypeAllowed(net.types, net.g.edges[id].edgeType)
    && DirectionAllowed(net.dir, forward)
    && NearEnd(net.g.edges[id], forward) == u
    && FarEnd(net.g.edges[id], forward) == v
    && v in net.g.nodes
  }

  ghost predicate Linked(net: Net, u: NodeId, v: NodeId) {
    exists id, forward :: Leads(net, id, forward, u, v)
  }

  /** Some walk of exactly `k` edges leads from `u` to `v`. */
  ghost predicate Reaches(net: Net, u: NodeId, v: NodeId, k: nat)
    decreases k
  {
    if k == 0 then u == v else exists w :: Reaches(net, u, w, k - 1) && Linked(net, w, v)
  }

  /** The shortest walk from `u` to `v` has `k` edges. */
  ghost predicate AtDistance(net: Net, u: NodeId, v: NodeId, k: nat) {
    Reaches(net, u, v, k) && forall j: nat :: j < k ==> !Reaches(net, u, v, j)
  }

  // ---------- successors are exactly the links ----------

  lemma {:induction false} HopsExact(ids: seq<EdgeId>, g: Graph, forward: bool, h: Hop)
    requires DenseIds(g)
    ensures h in HopsOf(ids, g, None, forward) <==>
      && h.edge.id in ids && h.edge.id in g.edges && h.edge == g.edges[h.edge.id]
      && FarEnd(h.edge, forward) in g.nodes && h.node == g.nodes[FarEnd(h.edge, forward)]
  {
    if ids != [] {
      HopsExact(ids[..|ids| - 1], g, forward, h);
      assert ids == ids[..|ids| - 1] + [ids[|ids| - 1]];
    }
  }

  /** `h` is the hop over one of `n`'s edges in the given sense. */
  predicate IsHop(g: Graph, n: NodeId, forward: bool, h: Hop) {
    && h.edge.id in g.edges && h.edge == g.edges[h.edge.id]
    && NearEnd(h.edge, forward) == n
    && FarEnd(h.edge, forward) in g.nodes && h.node == g.nodes[FarEnd(h.edge, forward)]
  }

  lemma IndexedHops(g: Graph, n: NodeId, forward: bool, h: Hop)
    requires WellFormed(g)
    ensures h in (if forward then Neighbours(g, n, None) else NeighboursIncoming(g, n, None)) <==> IsHop(g, n, forward, h)
  {
    var idx := if forward then g.outgoing else g.incoming;
    HopsExact(Look(idx, n), g, forward, h);
    var e := h.edge.id;
    assert e in Look(idx, n) <==> multiset(Look(idx, n))[e] > 0;
    if forward {
      assert multiset(Look(g.outgoing, n))[e] == if e in g.edges && NearEnd(g.edges[e], true) == n then 1 else 0;
    } else {
      assert multiset(Look(g.incoming, n))[e] == if e in g.edges && NearEnd(g.edges[e], false) == n then 1 else 0;
    }
  }

  lemma SuccessorsExact(net: Net, n: NodeId, h: Hop)
    requires WellFormed(net.g)
    ensures h in Successors(net.g, n, net.types, net.dir) <==>
      && TypeAllowed(net.types, h.edge.edgeType)
      && exists forward :: DirectionAllowed(net.dir, forward) && IsHop(net.g, n, forward, h)
  {
    IndexedHops(net.g, n, true, h);
    IndexedHops(net.g, n, false, h);
    OfTypesIn(HopsFrom(net.g, n, net.dir), net.types);
    assert DirectionAllowed(net.dir, true) <==> net.dir != Left;
    assert DirectionAllowed(net.dir, false) <==> net.dir != Right;
  }

  lemma SuccessorsAreLinks(net: Net, u: NodeId, h: Hop)
    requires WellFormed(net.g) && h in Successors(net.g, u, net.types, net.dir)
    ensures Linked(net, u, h.node.id) && h.node.id in net.g.nodes && h.node == net.g.nodes[h.node.id]
  {
    SuccessorsExact(net, u, h);
    var forward :| DirectionAllowed(net.dir, forward) && IsHop(net.g, u, forward, h);
    assert Leads(net, h.edge.id, forward, u, h.node.id);
  }

  lemma LinksAreSuccessors(net: Net, u: NodeId, v: NodeId) returns (h: Hop)
    requires WellFormed(net.g) && Linked(net, u, v)
    ensures h in Successors(net.g, u, net.types, net.dir) && h.node.id == v
  {
    var id, forward :| Leads(net, id, forward, u, v);
    h := Hop(net.g.edges[id], net.g.nodes[v]);
    assert IsHop(net.g, u, forward, h);
    SuccessorsExact(net, u, h);
  }

  // ---------- facts about distances ----------

  lemma DistanceUnique(net: Net, u: NodeId, v: NodeId, j: nat, k: nat)
    requires AtDistance(net, u, v, j) && AtDistance(net, u, v, k)
    ensures j == k
  {
  }

  lemma Nearest(net: Net, u: NodeId, v: NodeId, k: nat) returns (d: nat)
    requires Reaches(net, u, v, k)
    ensures d <= k && AtDistance(net, u, v, d)
  {
    d := 0;
    while !Reaches(net, u, v, d)
      invariant d <= k && forall j: nat :: j < d ==> !Reaches(net, u, v, j)
      decreases k - d
    {
      d := d + 1;
    }
  }

  /** The last but one node of a shortest walk is one closer. */
  lemma Predecessor(net: Net, u: NodeId, v: NodeId, k: nat) returns (w: NodeId)
    requires k > 0 && AtDistance(net, u, v, k)
    ensures AtDistance(net, u, w, k - 1) && Linked(net, w, v)
  {
    w :| Reaches(net, u, w, k - 1) && Linked(net, w, v);
    var d := Nearest(net, u, w, k - 1);
    if d < k - 1 {
      assert Reaches(net, u, v, d + 1);
      assert false;
    }
  }

  // ---------- the search invariant ----------

  /** Distances of the visited nodes found so far. */
  type Known = map<NodeId, nat>

  ghost predicate Sound(net: Net, goal: Goal, depth: nat, known: Known) {
    && goal.start in known && known[goal.start] == 0
    && forall v :: v in known ==> AtDistance(net, goal.start, v, known[v]) && known[v] <= depth + 1 && known[v] <= goal.hi
  }

  /** Every node within `depth` is known. */
  ghost predicate Complete(net: Net, start: NodeId, depth: nat, known: Known) {
    forall v, k: nat :: k <= depth && AtDistance(net, start, v, k) ==> v in known
  }

  ghost predicate QueueOk(goal: Goal, depth: nat, queue: seq<Entry>, known: Known) {
    && (forall e :: e in queue ==> e.node in known && known[e.node] == e.depth && depth <= e.depth <= depth + 1 && e.depth < goal.hi)
    && forall i, j :: 0 <= i < j < |queue| ==> queue[i].depth <= queue[j].depth
  }

  ghost predicate Queued(v: NodeId, queue: seq<Entry>) {
    exists e :: e in queue && e.node == v
  }

  /** Every visited node that is not waiting (and is not among `busy`) has had its links followed. */
  ghost predicate Processed(net: Net, goal: Goal, queue: seq<Entry>, known: Known, busy: set<NodeId>) {
    forall v, w :: v in known && known[v] < goal.hi && !Queued(v, queue) && v !in busy && Linked(net, v, w) ==> w in known
  }

  ghost predicate FoundOk(net: Net, goal: Goal, depth: nat, found: seq<Node>, known: Known) {
    && (forall n :: n in found ==> n.id in net.g.nodes && n == net.g.nodes[n.id] && n.id in known && 1 <= known[n.id] && goal.lo <= known[n.id])
    && (forall v :: v in known && v != goal.start && goal.lo <= known[v] ==> v in net.g.nodes && net.g.nodes[v] in found)
    && (forall i, j :: 0 <= i < j < |found| ==> found[i] != found[j])
    && (forall i, j :: 0 <= i < j < |found| && found[i].id in known && found[j].id in known ==> known[found[i].id] <= known[found[j].id])
  }

  ghost predicate Stage(net: Net, goal: Goal, depth: nat, f: Frontier, known: Known, busy: set<NodeId>) {
    && known.Keys == f.visited
    && Sound(net, goal, depth, known)
    && Complete(net, goal.start, depth, known)
    && QueueOk(goal, depth, f.queue, known)
    && Processed(net, goal, f.queue, known, busy)
    && FoundOk(net, goal, depth, f.found, known)
  }

  function Mark(n: NodeId, depth: nat, known: Known): Known {
    if n in known then known else known[n := depth]
  }

  lemma NewDistance(net: Net, goal: Goal, depth: nat, known: Known, u: NodeId, v: NodeId)
    requires Sound(net, goal, depth, known) && Complete(net, goal.start, depth, known)
    requires u in known && known[u] == depth && Linked(net, u, v) && v !in known
    ensures AtDistance(net, goal.start, v, depth + 1)
  {
    assert Reaches(net, goal.start, v, depth + 1);
    forall j: nat | j < depth + 1
      ensures !Reaches(net, goal.start, v, j)
    {
      if Reaches(net, goal.start, v, j) {
        var d := Nearest(net, goal.start, v, j);
        assert false;
      }
    }
  }

  lemma DiscoverKeepsQueue(goal: Goal, depth: nat, f: Frontier, known: Known, n: NodeId)
    requires QueueOk(goal, depth, f.queue, known) && n !in known
    ensures var queue' := if depth + 1 < goal.hi then f.queue + [Entry(n, depth + 1)] else f.queue;
            QueueOk(goal, depth, queue', known[n := depth + 1])
  {
  }

  lemma DiscoverKeepsProcessed(net: Net, goal: Goal, depth: nat, queue: seq<Entry>, known: Known, busy: set<NodeId>, n: NodeId)
    requires Processed(net, goal, queue, known, busy) && n !in known && depth < goal.hi
    ensures var queue' := if depth + 1 < goal.hi then queue + [Entry(n, depth + 1)] else queue;
            Processed(net, goal, queue', known[n := depth + 1], busy)
  {
    var queue' := if depth + 1 < goal.hi then queue + [Entry(n, depth + 1)] else queue;
    var known' := known[n := depth + 1];
    assert depth + 1 < goal.hi ==> queue'[|queue|] == Entry(n, depth + 1) && queue'[|queue|] in queue';
    forall v | Queued(v, queue)
      ensures Queued(v, queue')
    {
      var e :| e in queue && e.node == v;
      assert e in queue';
    }
  }

  lemma DiscoverKeepsFound(net: Net, goal: Goal, depth: nat, found: seq<Node>, known: Known, n: Node)
    requires FoundOk(net, goal, depth, found, known) && n.id !in known
    requires Sound(net, goal, depth, known) && depth < goal.hi
    requires n.id in net.g.nodes && n == net.g.nodes[n.id]
    ensures var found' := if goal.lo <= depth + 1 then found + [n] else found;
            FoundOk(net, goal, depth, found', known[n.id := depth + 1])
  {
  }

  lemma DiscoverKeepsStage(net: Net, goal: Goal, depth: nat, f: Frontier, known: Known, u: NodeId, n: Node)
    requires Stage(net, goal, depth, f, known, {u})
    requires u in known && known[u] == depth && depth < goal.hi && Linked(net, u, n.id)
    requires n.id in net.g.nodes && n == net.g.nodes[n.id]
    ensures Stage(net, goal, depth, Discover(n, depth + 1, goal, f), Mark(n.id, depth + 1, known), {u})
  {
    if n.id !in known {
      NewDistance(net, goal, depth, known, u, n.id);
      DiscoverKeepsQueue(goal, depth, f, known, n.id);
      DiscoverKeepsProcessed(net, goal, depth, f.queue, known, {u}, n.id);
      DiscoverKeepsFound(net, goal, depth, f.found, known, n);
    }
  }

  function MarkAll(hops: seq<Hop>, depth: nat, known: Known): Known {
    if hops == [] then known else Mark(hops[|hops| - 1].node.id, depth, MarkAll(hops[..|hops| - 1], depth, known))
  }

  lemma {:induction false} MarkAllKeys(hops: seq<Hop>, depth: nat, known: Known)
    ensures known.Keys <= MarkAll(hops, depth, known).Keys
    ensures forall v :: v in known ==> MarkAll(hops, depth, known)[v] == known[v]
    ensures forall h :: h in hops ==> h.node.id in MarkAll(hops, depth, known)
  {
    if hops != [] {
      MarkAllKeys(hops[..|hops| - 1], depth, known);
      assert hops == hops[..|hops| - 1] + [hops[|hops| - 1]];
    }
  }

  lemma {:induction false} VisitKeepsStage(net: Net, goal: Goal, depth: nat, f: Frontier, known: Known, u: NodeId, hops: seq<Hop>)
    requires WellFormed(net.g)
    requires Stage(net, goal, depth, f, known, {u})
    requires u in known && known[u] == depth && depth < goal.hi
    requires forall h :: h in hops ==> h in Successors(net.g, u, net.types, net.dir)
    ensures Stage(net, goal, depth, Visit(hops, depth, goal, f), MarkAll(hops, depth + 1, known), {u})
  {
    if hops != [] {
      var front, h := hops[..|hops| - 1], hops[|hops| - 1];
      assert h in hops && forall x :: x in front ==> x in hops;
      VisitKeepsStage(net, goal, depth, f, known, u, front);
      MarkAllKeys(front, depth + 1, known);
      SuccessorsAreLinks(net, u, h);
      DiscoverKeepsStage(net, goal, depth, Visit(front, depth, goal, f), MarkAll(front, depth + 1, known), u, h.node);
    }
  }

  // ---------- exactness ----------

  ghost predicate Band(net: Net, goal: Goal, v: NodeId, d: nat) {
    1 <= d && goal.lo <= d <= goal.hi && AtDistance(net, goal.start, v, d)
  }

  /** The found nodes are the nodes whose distance lies in the band, nearest first, each once. */
  ghost predicate Exact(net: Net, goal: Goal, found: seq<Node>) {
    && (forall n :: n in found ==> n.id in net.g.nodes && n == net.g.nodes[n.id] && exists d :: Band(net, goal, n.id, d))
    && (forall v, d :: Band(net, goal, v, d) ==> v in net.g.nodes && net.g.nodes[v] in found)
    && Distinct(found)
    && (forall i, j, d, e :: 0 <= i < j < |found| && Band(net, goal, found[i].id, d) && Band(net, goal, found[j].id, e) ==> d <= e)
  }

  /** Once nothing waits, every node within the bound is known. */
  lemma {:induction false} ExhaustedIsComplete(net: Net, goal: Goal, known: Known, v: NodeId, k: nat)
    requires goal.start in known && known[goal.start] == 0
    requires forall w :: w in known ==> AtDistance(net, goal.start, w, known[w])
    requires Processed(net, goal, [], known, {})
    requires k <= goal.hi && AtDistance(net, goal.start, v, k)
    ensures v in known
    decreases k
  {
    if k > 0 {
      var w := Predecessor(net, goal.start, v, k);
      ExhaustedIsComplete(net, goal, known, w, k - 1);
      DistanceUnique(net, goal.start, w, known[w], k - 1);
    }
  }

  lemma ExhaustedIsExact(net: Net, goal: Goal, depth: nat, f: Frontier, known: Known)
    requires Stage(net, goal, depth, f, known, {}) && f.queue == []
    ensures Exact(net, goal, f.found)
  {
    forall n | n in f.found
      ensures exists d :: Band(net, goal, n.id, d)
    {
      assert Band(net, goal, n.id, known[n.id]);
    }
    forall v, d | Band(net, goal, v, d)
      ensures v in known && known[v] == d && v != goal.start
    {
      ExhaustedIsComplete(net, goal, known, v, d);
      DistanceUnique(net, goal.start, v, known[v], d);
    }
  }

  /** Turning to the next waiting node, one level deeper if need be. */
  lemma NextLevel(net: Net, goal: Goal, depth: nat, f: Frontier, known: Known)
    requires Stage(net, goal, depth, f, known, {}) && f.queue != []
    ensures Stage(net, goal, f.queue[0].depth, f, known, {})
  {
    var next := f.queue[0].depth;
    assert f.queue[0] in f.queue;
    if next == depth + 1 {
      forall v, k: nat | k <= next && AtDistance(net, goal.start, v, k)
        ensures v in known
      {
        if k == next {
          var w := Predecessor(net, goal.start, v, k);
          DistanceUnique(net, goal.start, w, known[w], depth);
          assert !Queued(w, f.queue);
        }
      }
      forall e | e in f.queue
        ensures next <= e.depth
      {
        var i :| 0 <= i < |f.queue| && f.queue[i] == e;
      }
    }
  }

  lemma PopKeepsStage(net: Net, goal: Goal, f: Frontier, known: Known)
    requires f.queue != [] && Stage(net, goal, f.queue[0].depth, f, known, {})
    ensures Stage(net, goal, f.queue[0].depth, f.(queue := f.queue[1..]), known, {f.queue[0].node})
  {
    var u, rest := f.queue[0], f.queue[1..];
    assert f.queue == [u] + rest;
    forall v | Queued(v, f.queue) && v != u.node
      ensures Queued(v, rest)
    {
      var e :| e in f.queue && e.node == v;
      assert e in rest;
    }
  }

  /** After its links are followed, a node no longer counts as busy. */
  lemma FinishKeepsStage(net: Net, goal: Goal, depth: nat, f: Frontier, known: Known, u: NodeId)
    requires WellFormed(net.g)
    requires Stage(net, goal, depth, f, known, {u})
    requires forall h :: h in Successors(net.g, u, net.types, net.dir) ==> h.node.id in known
    ensures Stage(net, goal, depth, f, known, {})
  {
    forall w | Linked(net, u, w)
      ensures w in known
    {
      var h := LinksAreSuccessors(net, u, w);
    }
  }

  lemma {:induction false} SearchIsExact(net: Net, goal: Goal, depth: nat, f: Frontier, known: Known)
    requires WellFormed(net.g) && Stage(net, goal, depth, f, known, {})
    ensures Exact(net, goal, Search(net.g, net.types, net.dir, goal, f))
    decreases |StoredIds(net.g) - f.visited|, |f.queue|
  {
    if f.queue == [] {
      ExhaustedIsExact(net, goal, depth, f, known);
    } else {
      NextLevel(net, goal, depth, f, known);
      PopKeepsStage(net, goal, f, known);
      var u, rest := f.queue[0], f.(queue := f.queue[1..]);
      assert u in f.queue;
      var hops := Successors(net.g, u.node, net.types, net.dir);
      VisitKeepsStage(net, goal, u.depth, rest, known, u.node, hops);
      MarkAllKeys(hops, u.depth + 1, known);
      var f', known' := Visit(hops, u.depth, goal, rest), MarkAll(hops, u.depth + 1, known);
      FinishKeepsStage(net, goal, u.depth, f', known', u.node);
      SuccessorsAreStored(net.g, u.node, net.types, net.dir);
      VisitGrows(hops, u.depth, goal, rest, StoredIds(net.g));
      SearchIsExact(net, goal, u.depth, f', known');
    }
  }

  /** Variable-length traversal returns exactly the nodes whose shortest distance from the start lies
      in [max(1, lo), hi], in non-decreasing distance and without duplicates. */
  lemma TraverseIsExact(net: Net, goal: Goal)
    requires WellFormed(net.g)
    ensures Exact(net, goal, Traverse(net.g, net.types, net.dir, goal))
  {
    var f, known := Frontier([Entry(goal.start, 0)], {goal.start}, []), map[goal.start := 0];
    assert AtDistance(net, goal.start, goal.start, 0);
    if goal.hi == 0 {
      var popped := f.(queue := f.queue[1..]);
      assert popped.queue == [];
      assert Search(net.g, net.types, net.dir, goal, popped) == [];
      assert Search(net.g, net.types, net.dir, goal, f) == [];
      assert Traverse(net.g, net.types, net.dir, goal) == [];
    } else {
      assert f.queue[0] in f.queue && Queued(goal.start, f.queue);
      SearchIsExact(net, goal, 0, f, known);
    }
  }
}
