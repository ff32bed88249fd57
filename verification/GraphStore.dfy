/** The in-memory graph store: node and edge maps, a label index, two adjacency indexes and the id
    counters. `Graph` is the abstract value; `InMemoryGraphStore` is the object that updates it. */
module GraphStore {
  import opened Prelude
  import opened Values

  type NodeId = nat
  type EdgeId = nat

  datatype Node = Node(id: NodeId, labels: seq<string>, properties: map<string, Value>)

  datatype Edge = Edge(id: EdgeId, source: NodeId, target: NodeId, edgeType: string, properties: map<string, Value>)

  /** An edge followed from one of its endpoints, with the node at its other end. */
  datatype Hop = Hop(edge: Edge, node: Node)

  type Index<K, V> = map<K, seq<V>>

  datatype Graph = Graph(
    nodes: map<NodeId, Node>,
    edges: map<EdgeId, Edge>,
    labelIndex: Index<string, NodeId>,
    outgoing: Index<NodeId, EdgeId>,
    incoming: Index<NodeId, EdgeId>,
    nextNode: NodeId,
    nextEdge: EdgeId)

  const EmptyGraph := Graph(map[], map[], map[], map[], map[], 1, 1)

  function Look<K, V>(idx: Index<K, V>, k: K): seq<V> {
    if k in idx then idx[k] else []
  }

  function Push<K(!new), V>(idx: Index<K, V>, k: K, v: V): (r: Index<K, V>)
    ensures forall k' :: Look(r, k') == if k' == k then Look(idx, k) + [v] else Look(idx, k')
  {
    idx[k := Look(idx, k) + [v]]
  }

  function PushAll<K(!new), V>(idx: Index<K, V>, ks: seq<K>, v: V): Index<K, V>
    decreases |ks|
  {
    if ks == [] then idx
    else Push(PushAll(idx, ks[..|ks| - 1], v), ks[|ks| - 1], v)
  }

  function InsertNode(g: Graph, n: Node): Graph {
    g.(nodes := g.nodes[n.id := n], labelIndex := PushAll(g.labelIndex, n.labels, n.id))
  }

  function InsertEdge(g: Graph, e: Edge): Graph {
    g.(edges := g.edges[e.id := e],
       outgoing := Push(g.outgoing, e.source, e.id),
       incoming := Push(g.incoming, e.target, e.id))
  }

  function AddNode(g: Graph, labels: seq<string>, properties: map<string, Value>): Graph {
    InsertNode(g, Node(g.nextNode, labels, properties)).(nextNode := g.nextNode + 1)
  }

  function AddEdge(g: Graph, source: NodeId, target: NodeId, edgeType: string, properties: map<string, Value>): Graph {
    InsertEdge(g, Edge(g.nextEdge, source, target, edgeType, properties)).(nextEdge := g.nextEdge + 1)
  }

  // ---------- reads ----------

  function NodesOf(ids: seq<NodeId>, g: Graph): seq<Node> {
    if ids == [] then []
    else NodesOf(ids[..|ids| - 1], g) +
         if ids[|ids| - 1] in g.nodes then [g.nodes[ids[|ids| - 1]]] else []
  }

  function ScanByLabel(g: Graph, lbl: string): seq<Node> {
    NodesOf(Look(g.labelIndex, lbl), g)
  }

  function FarEnd(e: Edge, forward: bool): NodeId {
    if forward then e.target else e.source
  }

  function NearEnd(e: Edge, forward: bool): NodeId {
    if forward then e.source else e.target
  }

  /** The hops over the listed edges: unknown edges, edges of another type and edges whose far end
      is missing from the store are skipped. */
  function HopsOf(ids: seq<EdgeId>, g: Graph, edgeType: Option<string>, forward: bool): seq<Hop> {
    if ids == [] then []
    else
      var id := ids[|ids| - 1];
      HopsOf(ids[..|ids| - 1], g, edgeType, forward) +
      if id in g.edges && (edgeType.None? || g.edges[id].edgeType == edgeType.value)
         && FarEnd(g.edges[id], forward) in g.nodes
      then [Hop(g.edges[id], g.nodes[FarEnd(g.edges[id], forward)])] else []
  }

  function Neighbours(g: Graph, n: NodeId, edgeType: Option<string>): seq<Hop> {
    HopsOf(Look(g.outgoing, n), g, edgeType, true)
  }

  function NeighboursIncoming(g: Graph, n: NodeId, edgeType: Option<string>): seq<Hop> {
    HopsOf(Look(g.incoming, n), g, edgeType, false)
  }

  // ---------- the invariant ----------

  ghost predicate LabelsAgree(g: Graph) {
    forall l, id {:trigger multiset(Look(g.labelIndex, l))[id]} ::
      multiset(Look(g.labelIndex, l))[id] == if id in g.nodes then multiset(g.nodes[id].labels)[l] else 0
  }

  ghost predicate AdjacencyAgrees(idx: Index<NodeId, EdgeId>, edges: map<EdgeId, Edge>, forward: bool) {
    forall n, id {:trigger multiset(Look(idx, n))[id]} ::
      multiset(Look(idx, n))[id] == if id in edges && NearEnd(edges[id], forward) == n then 1 else 0
  }

  ghost predicate DenseIds(g: Graph) {
    && 1 <= g.nextNode && 1 <= g.nextEdge
    && (forall id :: id in g.nodes <==> 1 <= id < g.nextNode)
    && (forall id :: id in g.edges <==> 1 <= id < g.nextEdge)
    && (forall id :: id in g.nodes ==> g.nodes[id].id == id)
    && (forall id :: id in g.edges ==> g.edges[id].id == id)
  }

  ghost predicate WellFormed(g: Graph) {
    && DenseIds(g)
    && LabelsAgree(g)
    && AdjacencyAgrees(g.outgoing, g.edges, true)
    && AdjacencyAgrees(g.incoming, g.edges, false)
  }

  lemma EmptyIsWellFormed()
    ensures WellFormed(EmptyGraph)
  {
  }

  lemma CountLast<K>(ks: seq<K>, k: K)
    requires ks != []
    ensures multiset(ks)[k] == multiset(ks[..|ks| - 1])[k] + if ks[|ks| - 1] == k then 1 else 0
  {
    assert ks == ks[..|ks| - 1] + [ks[|ks| - 1]];
  }

  lemma {:induction false} PushAllCounts<K(!new), V>(idx: Index<K, V>, ks: seq<K>, v: V, k: K, x: V)
    ensures multiset(Look(PushAll(idx, ks, v), k))[x] ==
            multiset(Look(idx, k))[x] + if x == v then multiset(ks)[k] else 0
  {
    hide Push, Look;
    if ks != [] {
      var front := ks[..|ks| - 1];
      PushAllCounts(idx, front, v, k, x);
      PushCounts(PushAll(idx, front, v), ks[|ks| - 1], v, k, x);
      CountLast(ks, k);
    }
  }

  lemma InsertKeepsLabels(g: Graph, n: Node)
    requires LabelsAgree(g) && n.id !in g.nodes
    ensures LabelsAgree(InsertNode(g, n))
  {
    var h := InsertNode(g, n);
    forall l, id
      ensures multiset(Look(h.labelIndex, l))[id] == if id in h.nodes then multiset(h.nodes[id].labels)[l] else 0
    {
      PushAllCounts(g.labelIndex, n.labels, n.id, l, id);
      assert multiset(Look(g.labelIndex, l))[id] == if id in g.nodes then multiset(g.nodes[id].labels)[l] else 0;
    }
  }

  lemma AddNodeKeepsInvariant(g: Graph, labels: seq<string>, properties: map<string, Value>)
    requires WellFormed(g)
    ensures WellFormed(AddNode(g, labels, properties))
  {
    hide PushAll;
    InsertKeepsLabels(g, Node(g.nextNode, labels, properties));
  }

  lemma PushCounts<K(!new), V>(idx: Index<K, V>, k: K, v: V, k': K, x: V)
    ensures multiset(Look(Push(idx, k, v), k'))[x] ==
            multiset(Look(idx, k'))[x] + if k == k' && x == v then 1 else 0
  {
  }

  lemma PushKeepsAdjacency(idx: Index<NodeId, EdgeId>, edges: map<EdgeId, Edge>, forward: bool, e: Edge)
    requires AdjacencyAgrees(idx, edges, forward)
    requires e.id !in edges
    ensures AdjacencyAgrees(Push(idx, NearEnd(e, forward), e.id), edges[e.id := e], forward)
  {
    var idx', edges' := Push(idx, NearEnd(e, forward), e.id), edges[e.id := e];
    forall n, id
      ensures multiset(Look(idx', n))[id] == if id in edges' && NearEnd(edges'[id], forward) == n then 1 else 0
    {
      PushCounts(idx, NearEnd(e, forward), e.id, n, id);
      assert multiset(Look(idx, n))[id] == if id in edges && NearEnd(edges[id], forward) == n then 1 else 0;
    }
  }

  lemma AddEdgeKeepsInvariant(g: Graph, source: NodeId, target: NodeId, edgeType: string, properties: map<string, Value>)
    requires WellFormed(g)
    ensures WellFormed(AddEdge(g, source, target, edgeType, properties))
  {
    var e := Edge(g.nextEdge, source, target, edgeType, properties);
    PushKeepsAdjacency(g.outgoing, g.edges, true, e);
    PushKeepsAdjacency(g.incoming, g.edges, false, e);
    var h := AddEdge(g, source, target, edgeType, properties);
    assert LabelsAgree(h) by {
      assert h.labelIndex == g.labelIndex && h.nodes == g.nodes;
      forall l, id
        ensures multiset(Look(h.labelIndex, l))[id] == if id in h.nodes then multiset(h.nodes[id].labels)[l] else 0
      {
        assert multiset(Look(g.labelIndex, l))[id] == if id in g.nodes then multiset(g.nodes[id].labels)[l] else 0;
      }
    }
  }

  // ---------- runs of updates ----------

  datatype Update =
    | NewNode(labels: seq<string>, properties: map<string, Value>)
    | NewEdge(source: NodeId, target: NodeId, edgeType: string, properties: map<string, Value>)

  function Apply(g: Graph, u: Update): Graph {
    match u
    case NewNode(labels, properties) => AddNode(g, labels, properties)
    case NewEdge(source, target, edgeType, properties) => AddEdge(g, source, target, edgeType, properties)
  }

  function Run(g: Graph, us: seq<Update>): Graph {
    if us == [] then g else Apply(Run(g, us[..|us| - 1]), us[|us| - 1])
  }

  /** The ids below `bound` of the edges that leave (or enter) `n`, in ascending order: a filter over
      the plain edge map. */
  function EdgeIds(edges: map<EdgeId, Edge>, n: NodeId, forward: bool, bound: nat): seq<EdgeId> {
    if bound == 0 then []
    else
      EdgeIds(edges, n, forward, bound - 1) +
      if bound - 1 in edges && NearEnd(edges[bound - 1], forward) == n then [bound - 1] else []
  }

  /** `id` once for every occurrence of `lbl` in `labels`. */
  function Copies(id: NodeId, labels: seq<string>, lbl: string): seq<NodeId> {
    if labels == [] then []
    else Copies(id, labels[..|labels| - 1], lbl) + if labels[|labels| - 1] == lbl then [id] else []
  }

  /** The ids below `bound` of the nodes that carry `lbl`, each as often as the node lists it. */
  function LabelledIds(nodes: map<NodeId, Node>, lbl: string, bound: nat): seq<NodeId> {
    if bound == 0 then []
    else
      LabelledIds(nodes, lbl, bound - 1) +
      if bound - 1 in nodes then Copies(bound - 1, nodes[bound - 1].labels, lbl) else []
  }

  ghost predicate LabelsInOrder(idx: Index<string, NodeId>, nodes: map<NodeId, Node>, bound: nat) {
    forall l :: Look(idx, l) == LabelledIds(nodes, l, bound)
  }

  ghost predicate EdgesInOrder(idx: Index<NodeId, EdgeId>, edges: map<EdgeId, Edge>, forward: bool, bound: nat) {
    forall n :: Look(idx, n) == EdgeIds(edges, n, forward, bound)
  }

  ghost predicate InOrder(g: Graph) {
    && LabelsInOrder(g.labelIndex, g.nodes, g.nextNode)
    && EdgesInOrder(g.outgoing, g.edges, true, g.nextEdge)
    && EdgesInOrder(g.incoming, g.edges, false, g.nextEdge)
  }

  lemma {:induction false} EdgeIdsFrame(edges: map<EdgeId, Edge>, e: Edge, n: NodeId, forward: bool, bound: nat)
    requires bound <= e.id
    ensures EdgeIds(edges[e.id := e], n, forward, bound) == EdgeIds(edges, n, forward, bound)
  {
    if bound > 0 {
      EdgeIdsFrame(edges, e, n, forward, bound - 1);
    }
  }

  lemma {:induction false} LabelledIdsFrame(nodes: map<NodeId, Node>, x: Node, lbl: string, bound: nat)
    requires bound <= x.id
    ensures LabelledIds(nodes[x.id := x], lbl, bound) == LabelledIds(nodes, lbl, bound)
  {
    if bound > 0 {
      LabelledIdsFrame(nodes, x, lbl, bound - 1);
    }
  }

  lemma {:induction false} PushAllAppends(idx: Index<string, NodeId>, ks: seq<string>, v: NodeId, k: string)
    ensures Look(PushAll(idx, ks, v), k) == Look(idx, k) + Copies(v, ks, k)
  {
    hide Push;
    if ks != [] {
      PushAllAppends(idx, ks[..|ks| - 1], v, k);
    }
  }

  lemma AddNodeKeepsOrder(g: Graph, labels: seq<string>, properties: map<string, Value>)
    requires LabelsInOrder(g.labelIndex, g.nodes, g.nextNode)
    ensures var h := AddNode(g, labels, properties);
            LabelsInOrder(h.labelIndex, h.nodes, h.nextNode)
  {
    var h := AddNode(g, labels, properties);
    forall l ensures Look(h.labelIndex, l) == LabelledIds(h.nodes, l, h.nextNode) {
      PushAllAppends(g.labelIndex, labels, g.nextNode, l);
      LabelledIdsFrame(g.nodes, Node(g.nextNode, labels, properties), l, g.nextNode);
    }
  }

  lemma PushKeepsOrder(idx: Index<NodeId, EdgeId>, edges: map<EdgeId, Edge>, e: Edge, forward: bool)
    requires EdgesInOrder(idx, edges, forward, e.id)
    ensures EdgesInOrder(Push(idx, NearEnd(e, forward), e.id), edges[e.id := e], forward, e.id + 1)
  {
    forall n ensures Look(Push(idx, NearEnd(e, forward), e.id), n) == EdgeIds(edges[e.id := e], n, forward, e.id + 1) {
      EdgeIdsFrame(edges, e, n, forward, e.id);
    }
  }

  lemma ApplyKeepsOrder(g: Graph, u: Update)
    requires InOrder(g)
    ensures InOrder(Apply(g, u))
  {
    match u
    case NewNode(labels, properties) =>
      AddNodeKeepsOrder(g, labels, properties);
    case NewEdge(source, target, edgeType, properties) =>
      var e := Edge(g.nextEdge, source, target, edgeType, properties);
      PushKeepsOrder(g.outgoing, g.edges, e, true);
      PushKeepsOrder(g.incoming, g.edges, e, false);
  }

  /** Every reachable store satisfies the index invariant, and its index lists are the ascending
      filters over the plain maps. */
  lemma {:induction false} ReachableStores(us: seq<Update>)
    ensures WellFormed(Run(EmptyGraph, us)) && InOrder(Run(EmptyGraph, us))
  {
    if us == [] {
      EmptyIsWellFormed();
      EmptyIsInOrder();
    } else {
      var front, u := us[..|us| - 1], us[|us| - 1];
      ReachableStores(front);
      var g := Run(EmptyGraph, front);
      ApplyKeepsOrder(g, u);
      match u
      case NewNode(labels, properties) => AddNodeKeepsInvariant(g, labels, properties);
      case NewEdge(source, target, edgeType, properties) =>
        AddEdgeKeepsInvariant(g, source, target, edgeType, properties);
    }
  }

  lemma EmptyIsInOrder()
    ensures InOrder(EmptyGraph)
  {
    forall l ensures LabelledIds(EmptyGraph.nodes, l, 1) == [] {
      assert LabelledIds(EmptyGraph.nodes, l, 0) == [];
    }
    forall n, forward ensures EdgeIds(EmptyGraph.edges, n, forward, 1) == [] {
      assert EdgeIds(EmptyGraph.edges, n, forward, 0) == [];
    }
  }

  /** In every reachable store the three indexed reads are filters over the plain maps. */
  lemma ReadsAreFilters(us: seq<Update>, lbl: string, n: NodeId, edgeType: Option<string>)
    ensures var g := Run(EmptyGraph, us);
      && ScanByLabel(g, lbl) == NodesOf(LabelledIds(g.nodes, lbl, g.nextNode), g)
      && Neighbours(g, n, edgeType) == HopsOf(EdgeIds(g.edges, n, true, g.nextEdge), g, edgeType, true)
      && NeighboursIncoming(g, n, edgeType) == HopsOf(EdgeIds(g.edges, n, false, g.nextEdge), g, edgeType, false)
  {
    ReachableStores(us);
  }

  // ---------- the mutable store ----------

  /** Iterating over a hash map visits its keys once each, in an order nobody promises. */
  method HashOrder(keys: set<NodeId>) returns (order: seq<NodeId>)
    ensures Enumerates(order, keys)
  {
    order := [];
    var rest := keys;
    while rest != {}
      invariant rest <= keys && Enumerates(order, keys - rest)
      decreases rest
    {
      var id :| id in rest;
      DistinctAppend(order, [id]);
      order, rest := order + [id], rest - {id};
    }
  }

  /** `order` is the iteration order of the node hash map: any enumeration of its keys, chosen afresh
      whenever the map changes. */
  class InMemoryGraphStore {
    var nodes: map<NodeId, Node>
    var edges: map<EdgeId, Edge>
    var labelIndex: Index<string, NodeId>
    var adjacencyOut: Index<NodeId, EdgeId>
    var adjacencyIn: Index<NodeId, EdgeId>
    var nextNodeId: NodeId
    var nextEdgeId: EdgeId
    var order: seq<NodeId>

    function State(): Graph
      reads this
    {
      Graph(nodes, edges, labelIndex, adjacencyOut, adjacencyIn, nextNodeId, nextEdgeId)
    }

    ghost predicate Valid()
      reads this
    {
      Enumerates(order, nodes.Keys)
    }

    constructor ()
      ensures State() == EmptyGraph && Valid()
    {
      nodes, edges, labelIndex := map[], map[], map[];
      adjacencyOut, adjacencyIn := map[], map[];
      nextNodeId, nextEdgeId := 1, 1;
      order := [];
    }

    method InsertNodeRecord(n: Node)
      requires Valid()
      modifies this
      ensures Valid() && State() == InsertNode(old(State()), n)
    {
      nodes := nodes[n.id := n];
      order := HashOrder(nodes.Keys);
      var i := 0;
      while i < |n.labels|
        invariant 0 <= i <= |n.labels|
        invariant labelIndex == PushAll(old(labelIndex), n.labels[..i], n.id)
        invariant State().(labelIndex := old(labelIndex)) == old(State()).(nodes := old(nodes)[n.id := n])
        invariant Valid()
      {
        assert n.labels[..i + 1][..i] == n.labels[..i];
        labelIndex := Push(labelIndex, n.labels[i], n.id);
        i := i + 1;
      }
      assert n.labels[..i] == n.labels;
    }

    method InsertEdgeRecord(e: Edge)
      requires Valid()
      modifies this
      ensures Valid() && State() == InsertEdge(old(State()), e)
    {
      edges := edges[e.id := e];
      adjacencyOut := Push(adjacencyOut, e.source, e.id);
      adjacencyIn := Push(adjacencyIn, e.target, e.id);
    }

    method AddNode(labels: seq<string>, properties: map<string, Value>) returns (id: NodeId)
      requires Valid()
      modifies this
      ensures Valid() && id == old(nextNodeId)
      ensures State() == Apply(old(State()), NewNode(labels, properties))
    {
      id := nextNodeId;
      nextNodeId := nextNodeId + 1;
      InsertNodeRecord(Node(id, labels, properties));
    }

    method AddEdge(source: NodeId, target: NodeId, edgeType: string, properties: map<string, Value>) returns (id: EdgeId)
      requires Valid()
      modifies this
      ensures Valid() && id == old(nextEdgeId)
      ensures State() == Apply(old(State()), NewEdge(source, target, edgeType, properties))
      ensures order == old(order)
    {
      id := nextEdgeId;
      nextEdgeId := nextEdgeId + 1;
      edges := edges[id := Edge(id, source, target, edgeType, properties)];
      adjacencyOut := Push(adjacencyOut, source, id);
      adjacencyIn := Push(adjacencyIn, target, id);
    }

    method ScanAll() returns (r: seq<Node>)
      requires Valid()
      ensures r == NodesOf(order, State())
    {
      r := NodesOf(order, State());
    }

    method FindByLabel(lbl: string) returns (r: seq<Node>)
      ensures r == ScanByLabel(State(), lbl)
    {
      r := [];
      var ids := Look(labelIndex, lbl);
      var i := 0;
      while i < |ids|
        invariant 0 <= i <= |ids|
        invariant r == NodesOf(ids[..i], State())
      {
        assert ids[..i + 1][..i] == ids[..i];
        if ids[i] in nodes {
          r := r + [nodes[ids[i]]];
        }
        i := i + 1;
      }
      assert ids[..i] == ids;
    }

    method GetNeighbours(n: NodeId, edgeType: Option<string>) returns (r: seq<Hop>)
      ensures r == Neighbours(State(), n, edgeType)
    {
      r := [];
      var ids := Look(adjacencyOut, n);
      var i := 0;
      while i < |ids|
        invariant 0 <= i <= |ids|
        invariant r == HopsOf(ids[..i], State(), edgeType, true)
      {
        assert ids[..i + 1][..i] == ids[..i];
        var id := ids[i];
        i := i + 1;
        if id in edges {
          var edge := edges[id];
          if edgeType.Some? && edge.edgeType != edgeType.value {
            continue;
          }
          if edge.target in nodes {
            r := r + [Hop(edge, nodes[edge.target])];
          }
        }
      }
      assert ids[..i] == ids;
    }

    method GetNeighboursIncoming(n: NodeId, edgeType: Option<string>) returns (r: seq<Hop>)
      ensures r == NeighboursIncoming(State(), n, edgeType)
    {
      r := [];
      var ids := Look(adjacencyIn, n);
      var i := 0;
      while i < |ids|
        invariant 0 <= i <= |ids|
        invariant r == HopsOf(ids[..i], State(), edgeType, false)
      {
        assert ids[..i + 1][..i] == ids[..i];
        var id := ids[i];
        i := i + 1;
        if id in edges {
          var edge := edges[id];
          if edgeType.Some? && edge.edgeType != edgeType.value {
            continue;
          }
          if edge.source in nodes {
            r := r + [Hop(edge, nodes[edge.source])];
          }
        }
      }
      assert ids[..i] == ids;
    }
  }
}
