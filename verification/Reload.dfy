/** Flushing a store and loading it back gives a store that no later update or query can tell apart,
    except by the order of its answers. */
module Reload {
  import opened Prelude
  import opened Values
  import opened GraphStore
  import opened Json
  import opened Persistence

  /** Two well-formed stores with the same nodes, edges and counters. */
  ghost predicate Twins(g: Graph, h: Graph) {
    && WellFormed(g) && WellFormed(h)
    && g.nodes == h.nodes && g.edges == h.edges && g.nextNode == h.nextNode && g.nextEdge == h.nextEdge
  }

  lemma LabelPermutation(g: Graph, h: Graph, l: string)
    requires LabelsAgree(g) && LabelsAgree(h) && g.nodes == h.nodes
    ensures multiset(Look(g.labelIndex, l)) == multiset(Look(h.labelIndex, l))
  {
    forall id
      ensures multiset(Look(g.labelIndex, l))[id] == multiset(Look(h.labelIndex, l))[id]
    {
      assert multiset(Look(g.labelIndex, l))[id] == if id in g.nodes then multiset(g.nodes[id].labels)[l] else 0;
      assert multiset(Look(h.labelIndex, l))[id] == if id in h.nodes then multiset(h.nodes[id].labels)[l] else 0;
    }
  }

  lemma AdjacencyPermutation(a: Index<NodeId, EdgeId>, b: Index<NodeId, EdgeId>, edges: map<EdgeId, Edge>, forward: bool, n: NodeId)
    requires AdjacencyAgrees(a, edges, forward) && AdjacencyAgrees(b, edges, forward)
    ensures multiset(Look(a, n)) == multiset(Look(b, n))
  {
    forall id
      ensures multiset(Look(a, n))[id] == multiset(Look(b, n))[id]
    {
      assert multiset(Look(a, n))[id] == if id in edges && NearEnd(edges[id], forward) == n then 1 else 0;
      assert multiset(Look(b, n))[id] == if id in edges && NearEnd(edges[id], forward) == n then 1 else 0;
    }
  }

  lemma {:induction false} NodesOfCounts(ids: seq<NodeId>, g: Graph, n: Node)
    requires DenseIds(g)
    ensures multiset(NodesOf(ids, g))[n] == if n.id in g.nodes && g.nodes[n.id] == n then multiset(ids)[n.id] else 0
    decreases |ids|
  {
    if ids != [] {
      NodesOfCounts(ids[..|ids| - 1], g, n);
      assert ids == ids[..|ids| - 1] + [ids[|ids| - 1]];
    }
  }

  predicate HopOver(g: Graph, h: Hop, edgeType: Option<string>, forward: bool) {
    && h.edge.id in g.edges && g.edges[h.edge.id] == h.edge
    && (edgeType.None? || h.edge.edgeType == edgeType.value)
    && FarEnd(h.edge, forward) in g.nodes && h.node == g.nodes[FarEnd(h.edge, forward)]
  }

  lemma HopsOfStep(id: EdgeId, g: Graph, edgeType: Option<string>, forward: bool, h: Hop)
    requires DenseIds(g)
    ensures id in g.edges && (edgeType.None? || g.edges[id].edgeType == edgeType.value) && FarEnd(g.edges[id], forward) in g.nodes
            && Hop(g.edges[id], g.nodes[FarEnd(g.edges[id], forward)]) == h
            <==> HopOver(g, h, edgeType, forward) && h.edge.id == id
  {
  }

  lemma {:induction false} HopsOfCounts(ids: seq<EdgeId>, g: Graph, edgeType: Option<string>, forward: bool, h: Hop)
    requires DenseIds(g)
    ensures multiset(HopsOf(ids, g, edgeType, forward))[h] == if HopOver(g, h, edgeType, forward) then multiset(ids)[h.edge.id] else 0
    decreases |ids|
  {
    hide HopOver, DenseIds;
    if ids != [] {
      HopsOfCounts(ids[..|ids| - 1], g, edgeType, forward, h);
      HopsOfStep(ids[|ids| - 1], g, edgeType, forward, h);
      assert ids == ids[..|ids| - 1] + [ids[|ids| - 1]];
    }
  }

  lemma NodesPermute(a: seq<NodeId>, b: seq<NodeId>, g: Graph, h: Graph)
    requires DenseIds(g) && DenseIds(h) && g.nodes == h.nodes && multiset(a) == multiset(b)
    ensures multiset(NodesOf(a, g)) == multiset(NodesOf(b, h))
  {
    forall n ensures multiset(NodesOf(a, g))[n] == multiset(NodesOf(b, h))[n] {
      NodesOfCounts(a, g, n);
      NodesOfCounts(b, h, n);
    }
  }

  lemma HopsPermute(a: seq<EdgeId>, b: seq<EdgeId>, g: Graph, h: Graph, edgeType: Option<string>, forward: bool)
    requires DenseIds(g) && DenseIds(h) && g.nodes == h.nodes && g.edges == h.edges && multiset(a) == multiset(b)
    ensures multiset(HopsOf(a, g, edgeType, forward)) == multiset(HopsOf(b, h, edgeType, forward))
  {
    forall x ensures multiset(HopsOf(a, g, edgeType, forward))[x] == multiset(HopsOf(b, h, edgeType, forward))[x] {
      HopsOfCounts(a, g, edgeType, forward, x);
      HopsOfCounts(b, h, edgeType, forward, x);
    }
  }

  /** Every read answers the same on twins, up to order. */
  lemma TwinsReadAlike(g: Graph, h: Graph, lbl: string, n: NodeId, edgeType: Option<string>)
    requires Twins(g, h)
    ensures multiset(ScanByLabel(g, lbl)) == multiset(ScanByLabel(h, lbl))
    ensures multiset(Neighbours(g, n, edgeType)) == multiset(Neighbours(h, n, edgeType))
    ensures multiset(NeighboursIncoming(g, n, edgeType)) == multiset(NeighboursIncoming(h, n, edgeType))
  {
    hide NodesOf, HopsOf, LabelsAgree, AdjacencyAgrees;
    LabelPermutation(g, h, lbl);
    NodesPermute(Look(g.labelIndex, lbl), Look(h.labelIndex, lbl), g, h);
    AdjacencyPermutation(g.outgoing, h.outgoing, g.edges, true, n);
    AdjacencyPermutation(g.incoming, h.incoming, g.edges, false, n);
    HopsPermute(Look(g.outgoing, n), Look(h.outgoing, n), g, h, edgeType, true);
    HopsPermute(Look(g.incoming, n), Look(h.incoming, n), g, h, edgeType, false);
  }

  /** Twins stay twins under any run of updates; in particular the same ids are given out. */
  lemma {:induction false} TwinsRunAlike(g: Graph, h: Graph, us: seq<Update>)
    requires Twins(g, h)
    ensures Twins(Run(g, us), Run(h, us))
    decreases |us|
  {
    hide WellFormed;
    if us != [] {
      var u := us[|us| - 1];
      TwinsRunAlike(g, h, us[..|us| - 1]);
      TwinsStepAlike(Run(g, us[..|us| - 1]), Run(h, us[..|us| - 1]), u);
    }
  }

  lemma TwinsStepAlike(g: Graph, h: Graph, u: Update)
    requires Twins(g, h)
    ensures Twins(Apply(g, u), Apply(h, u))
  {
    hide WellFormed, PushAll, Push;
    match u
    case NewNode(labels, properties) =>
      AddNodeKeepsInvariant(g, labels, properties);
      AddNodeKeepsInvariant(h, labels, properties);
    case NewEdge(source, target, edgeType, properties) =>
      AddEdgeKeepsInvariant(g, source, target, edgeType, properties);
      AddEdgeKeepsInvariant(h, source, target, edgeType, properties);
  }

  // ---------- the reloaded store ----------

  lemma LoadedNodes(g: Graph, order: seq<NodeId>) returns (h: Graph)
    requires WellFormed(g) && IdsInRange(g) && Enumerates(order, g.nodes.Keys)
    requires forall i :: 0 <= i < |order| ==> order[i] in g.nodes
    ensures h == Replay(EmptyGraph, NodeRecords(Items(NodesSegment(g, order), "nodes")))
    ensures NodesLoaded(g, order, |order|, h)
  {
    hide Replay, NodesLoaded, NodesSegment, NodeRecords, StoredNode, LabelsAgree, AdjacencyAgrees;
    var rs := NodeRecords(Items(NodesSegment(g, order), "nodes"));
    h := Replay(EmptyGraph, rs);
    assert |rs| == |order| by {
      SegmentSizes(g, order);
    }
    forall i | 0 <= i < |order|
      ensures rs[i] == NodeRecord(StoredNode(g.nodes[order[i]]))
    {
      FlushedNodeRecords(g, order, i);
    }
    LoadNodesStepwise(g, order, rs, |order|);
    assert rs[..|order|] == rs;
  }

  lemma SegmentSizes(g: Graph, order: seq<NodeId>)
    requires forall i :: 0 <= i < |order| ==> order[i] in g.nodes
    ensures |Items(NodesSegment(g, order), "nodes")| == |order|
  {
  }

  lemma EdgeSegmentSizes(g: Graph, order: seq<EdgeId>)
    requires forall i :: 0 <= i < |order| ==> order[i] in g.edges
    ensures |Items(EdgesSegment(g, order), "edges")| == |order|
  {
  }

  lemma LoadedEdges(g: Graph, order: seq<EdgeId>, h: Graph) returns (k: Graph)
    requires WellFormed(g) && IdsInRange(g) && Enumerates(order, g.edges.Keys)
    requires forall i :: 0 <= i < |order| ==> order[i] in g.edges
    requires h.edges == map[] && h.outgoing == map[] && h.incoming == map[] && h.nextEdge == 1
    ensures k == Replay(h, EdgeRecords(Items(EdgesSegment(g, order), "edges")))
    ensures EdgesLoaded(g, order, |order|, k) && k.nodes == h.nodes && k.labelIndex == h.labelIndex && k.nextNode == h.nextNode
  {
    hide Replay, EdgesSegment, EdgeRecords, StoredEdge, LabelsAgree;
    var rs := EdgeRecords(Items(EdgesSegment(g, order), "edges"));
    k := Replay(h, rs);
    assert |rs| == |order| by {
      EdgeSegmentSizes(g, order);
    }
    forall i | 0 <= i < |order|
      ensures rs[i] == EdgeRecord(StoredEdge(g.edges[order[i]]))
    {
      FlushedEdgeRecords(g, order, i);
    }
    LoadEdgesStepwise(g, order, rs, h, |order|);
    assert rs[..|order|] == rs;
  }

  lemma NextIsLast(keys: set<nat>, next: nat, loaded: nat)
    requires forall id :: id in keys <==> 1 <= id < next
    requires 1 <= loaded <= next && forall id :: id in keys ==> id < loaded
    ensures loaded == next
  {
    assert loaded < next ==> loaded in keys;
  }

  /** The reloaded store has the nodes and edges of the flushed one, with property values as written and
      read back, the same counters, and indexes that agree with them. */
  lemma ReloadedStore(g: Graph, nodeOrder: seq<NodeId>, edgeOrder: seq<EdgeId>) returns (h: Graph)
    requires WellFormed(g) && IdsInRange(g)
    requires Enumerates(nodeOrder, g.nodes.Keys) && Enumerates(edgeOrder, g.edges.Keys)
    requires forall i :: 0 <= i < |nodeOrder| ==> nodeOrder[i] in g.nodes
    requires forall i :: 0 <= i < |edgeOrder| ==> edgeOrder[i] in g.edges
    ensures h == Load(Some(NodesSegment(g, nodeOrder)), Some(EdgesSegment(g, edgeOrder)))
    ensures WellFormed(h) && h.nodes == StoredNodes(g.nodes) && h.edges == StoredEdges(g.edges)
    ensures h.nextNode == g.nextNode && h.nextEdge == g.nextEdge
  {
    hide Replay, NodesSegment, EdgesSegment, NodeRecords, EdgeRecords, StoredNode, StoredEdge, LabelsAgree, AdjacencyAgrees, IdsInRange;
    var loaded := LoadedNodes(g, nodeOrder);
    h := LoadedEdges(g, edgeOrder, loaded);
    assert nodeOrder[..|nodeOrder|] == nodeOrder && edgeOrder[..|edgeOrder|] == edgeOrder;
    NextIsLast(g.nodes.Keys, g.nextNode, h.nextNode);
    NextIsLast(g.edges.Keys, g.nextEdge, h.nextEdge);
    SameLabels(loaded, h);
    assert forall id :: id in h.nodes ==> h.nodes[id].id == id by {
      forall id | id in h.nodes ensures h.nodes[id].id == id { StoredNodeId(g.nodes[id]); }
    }
    assert forall id :: id in h.edges ==> h.edges[id].id == id by {
      forall id | id in h.edges ensures h.edges[id].id == id { StoredEdgeId(g.edges[id]); }
    }
  }

  /** Every property value in the store survives JSON. */
  ghost predicate StorableGraph(g: Graph) {
    && (forall id :: id in g.nodes ==> StorableProps(g.nodes[id].properties))
    && (forall id :: id in g.edges ==> StorableProps(g.edges[id].properties))
  }

  lemma StorableStays(props: map<string, Value>)
    ensures StoredProps(props) == props <==> StorableProps(props)
  {
    PropsRoundTrip(props);
  }

  /** Load after flush is a bisimulation exactly when every property value is storable: then, and only
      then, is the reloaded store a twin of the original. */
  lemma ReloadIsTwin(g: Graph, nodeOrder: seq<NodeId>, edgeOrder: seq<EdgeId>)
    requires WellFormed(g) && IdsInRange(g)
    requires Enumerates(nodeOrder, g.nodes.Keys) && Enumerates(edgeOrder, g.edges.Keys)
    requires forall i :: 0 <= i < |nodeOrder| ==> nodeOrder[i] in g.nodes
    requires forall i :: 0 <= i < |edgeOrder| ==> edgeOrder[i] in g.edges
    ensures Twins(g, Load(Some(NodesSegment(g, nodeOrder)), Some(EdgesSegment(g, edgeOrder)))) <==> StorableGraph(g)
  {
    hide Load, NodesSegment, EdgesSegment, WellFormed, IdsInRange, StorableProps, StoredProps;
    var h := ReloadedStore(g, nodeOrder, edgeOrder);
    forall id | id in g.nodes
      ensures StoredNode(g.nodes[id]) == g.nodes[id] <==> StorableProps(g.nodes[id].properties)
    {
      StorableStays(g.nodes[id].properties);
    }
    forall id | id in g.edges
      ensures StoredEdge(g.edges[id]) == g.edges[id] <==> StorableProps(g.edges[id].properties)
    {
      StorableStays(g.edges[id].properties);
    }
    assert g.nodes == h.nodes <==> forall id :: id in g.nodes ==> StoredNode(g.nodes[id]) == g.nodes[id] by {
      assert forall id :: id in g.nodes ==> h.nodes[id] == StoredNode(g.nodes[id]);
    }
    assert g.edges == h.edges <==> forall id :: id in g.edges ==> StoredEdge(g.edges[id]) == g.edges[id] by {
      assert forall id :: id in g.edges ==> h.edges[id] == StoredEdge(g.edges[id]);
    }
  }
}
