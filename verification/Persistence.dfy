/** Rebuilding a graph store: replay of the write-ahead log, and flush to and load from segments. */
module Persistence {
  import opened Prelude
  import opened Values
  import opened GraphStore
  import opened Json

  datatype WalRecord =
    | NodeRecord(node: Node)
    | EdgeRecord(edge: Edge)

  // ---------- record encoding ----------

  function NodeFields(n: Node): map<string, Json> {
    map["id" := JInt(n.id), "labels" := FromStrings(n.labels), "properties" := PropsToJson(n.properties)]
  }

  function EncodeRecord(r: WalRecord): Json {
    match r
    case NodeRecord(n) => JObj(NodeFields(n)["type" := JStr("add_node")])
    case EdgeRecord(e) =>
      JObj(map["type" := JStr("add_edge"), "id" := JInt(e.id), "from" := JInt(e.source), "to" := JInt(e.target),
               "edge_type" := JStr(e.edgeType), "properties" := PropsToJson(e.properties)])
  }

  function NodeFromJson(j: Json): Node {
    Node(AsNat(Field(j, "id")), AsStrings(Field(j, "labels")), PropsFromJson(Field(j, "properties")))
  }

  function DecodeRecord(j: Json): Result<WalRecord> {
    if !Field(j, "type").JStr? then Err(StorageIo("missing type"))
    else if Field(j, "type").s == "add_node" then Ok(NodeRecord(NodeFromJson(j)))
    else if Field(j, "type").s == "add_edge" then
      Ok(EdgeRecord(Edge(AsNat(Field(j, "id")), AsNat(Field(j, "from")), AsNat(Field(j, "to")),
                         AsString(Field(j, "edge_type")), PropsFromJson(Field(j, "properties")))))
    else Err(StorageIo("unknown WAL record type"))
  }

  function StoredNode(n: Node): Node {
    n.(properties := StoredProps(n.properties))
  }

  function StoredEdge(e: Edge): Edge {
    e.(properties := StoredProps(e.properties))
  }

  function StoredRecord(r: WalRecord): WalRecord {
    match r
    case NodeRecord(n) => NodeRecord(StoredNode(n))
    case EdgeRecord(e) => EdgeRecord(StoredEdge(e))
  }

  predicate IdsFit(r: WalRecord) {
    match r
    case NodeRecord(n) => n.id < TWO_64
    case EdgeRecord(e) => e.id < TWO_64 && e.source < TWO_64 && e.target < TWO_64
  }

  ghost predicate StorableProps(props: map<string, Value>) {
    forall k :: k in props ==> Storable(props[k])
  }

  ghost predicate StorableRecord(r: WalRecord) {
    match r
    case NodeRecord(n) => StorableProps(n.properties)
    case EdgeRecord(e) => StorableProps(e.properties)
  }

  /** A record survives encoding up to its property values, and completely exactly when every property
      value is storable. */
  lemma RecordRoundTrip(r: WalRecord)
    requires IdsFit(r)
    ensures DecodeRecord(EncodeRecord(r)) == Ok(StoredRecord(r))
    ensures DecodeRecord(EncodeRecord(r)) == Ok(r) <==> StorableRecord(r)
  {
    hide PropsToJson, PropsFromJson, StoredProps, FromStrings, AsStrings;
    match r
    case NodeRecord(n) =>
      StringsRoundTrip(n.labels);
      PropsRoundTrip(n.properties);
      assert Field(EncodeRecord(r), "properties") == PropsToJson(n.properties);
    case EdgeRecord(e) =>
      PropsRoundTrip(e.properties);
      assert Field(EncodeRecord(r), "properties") == PropsToJson(e.properties);
  }

  // ---------- replay ----------

  function Raise(next: nat, id: nat): nat {
    if next <= id then id + 1 else next
  }

  function ReplayRecord(g: Graph, r: WalRecord): Graph {
    match r
    case NodeRecord(n) => InsertNode(g, n).(nextNode := Raise(g.nextNode, n.id))
    case EdgeRecord(e) => InsertEdge(g, e).(nextEdge := Raise(g.nextEdge, e.id))
  }

  function Replay(g: Graph, rs: seq<WalRecord>): Graph {
    if rs == [] then g else ReplayRecord(Replay(g, rs[..|rs| - 1]), rs[|rs| - 1])
  }

  method ReplayWal(store: InMemoryGraphStore, rs: seq<WalRecord>)
    requires store.Valid()
    modifies store
    ensures store.Valid() && store.State() == Replay(old(store.State()), rs)
  {
    for i := 0 to |rs|
      invariant store.Valid() && store.State() == Replay(old(store.State()), rs[..i])
    {
      hide InsertNode, InsertEdge;
      assert rs[..i + 1][..i] == rs[..i];
      match rs[i] {
        case NodeRecord(n) =>
          store.InsertNodeRecord(n);
          if store.nextNodeId <= n.id {
            store.nextNodeId := n.id + 1;
          }
        case EdgeRecord(e) =>
          store.InsertEdgeRecord(e);
          if store.nextEdgeId <= e.id {
            store.nextEdgeId := e.id + 1;
          }
      }
    }
    assert rs[..|rs|] == rs;
  }

  /** The record that logs an update made in state `g`. */
  function RecordOf(g: Graph, u: Update): WalRecord {
    match u
    case NewNode(labels, properties) => NodeRecord(Node(g.nextNode, labels, properties))
    case NewEdge(source, target, edgeType, properties) => EdgeRecord(Edge(g.nextEdge, source, target, edgeType, properties))
  }

  function LogOf(g: Graph, us: seq<Update>): (r: seq<WalRecord>)
    ensures |r| == |us|
  {
    if us == [] then []
    else LogOf(g, us[..|us| - 1]) + [RecordOf(Run(g, us[..|us| - 1]), us[|us| - 1])]
  }

  /** Replaying the log of a run rebuilds the live store exactly, index lists and counters included. */
  lemma {:induction false} ReplayRebuilds(g: Graph, us: seq<Update>)
    ensures Replay(g, LogOf(g, us)) == Run(g, us)
  {
    hide InsertNode, InsertEdge;
    if us != [] {
      var front := us[..|us| - 1];
      ReplayRebuilds(g, front);
      assert LogOf(g, us)[..|us| - 1] == LogOf(g, front);
    }
  }

  /** Replaying one log after another is replaying their concatenation. */
  lemma {:induction false} ReplayComposes(g: Graph, a: seq<WalRecord>, b: seq<WalRecord>)
    ensures Replay(g, a + b) == Replay(Replay(g, a), b)
    decreases |b|
  {
    hide ReplayRecord;
    if b == [] {
      assert a + b == a;
    } else {
      ReplayComposes(g, a, b[..|b| - 1]);
      assert (a + b)[..|a + b| - 1] == a + b[..|b| - 1];
    }
  }

  /** A log may be cut anywhere: a store taken after some updates plus the rest of the log is the store
      after all of them. */
  lemma {:induction false} LogComposes(g: Graph, a: seq<Update>, b: seq<Update>)
    ensures LogOf(g, a + b) == LogOf(g, a) + LogOf(Run(g, a), b) && Run(g, a + b) == Run(Run(g, a), b)
    decreases |b|
  {
    hide Apply, RecordOf;
    if b == [] {
      assert a + b == a;
    } else {
      LogComposes(g, a, b[..|b| - 1]);
      assert (a + b)[..|a + b| - 1] == a + b[..|b| - 1];
    }
  }

  lemma ListedCount(idx: Index<NodeId, EdgeId>, edges: map<EdgeId, Edge>, forward: bool, n: NodeId)
    requires AdjacencyAgrees(idx, edges, forward)
    ensures forall id :: multiset(Look(idx, n))[id] == if id in edges && NearEnd(edges[id], forward) == n then 1 else 0
  {
    forall id
      ensures multiset(Look(idx, n))[id] == if id in edges && NearEnd(edges[id], forward) == n then 1 else 0
    {
    }
  }

  lemma ReplayedTwice(g: Graph, e: Edge)
    requires WellFormed(g) && e.id in g.edges
    ensures !AdjacencyAgrees(Push(g.outgoing, e.source, e.id), g.edges[e.id := e], true)
  {
    hide Push, AdjacencyAgrees;
    var idx, edges := Push(g.outgoing, e.source, e.id), g.edges[e.id := e];
    var n := g.edges[e.id].source;
    if AdjacencyAgrees(idx, edges, true) {
      ListedCount(g.outgoing, g.edges, true, n);
      ListedCount(idx, edges, true, n);
      ListedCount(g.outgoing, g.edges, true, e.source);
      ListedCount(idx, edges, true, e.source);
      PushCounts(g.outgoing, e.source, e.id, n, e.id);
      PushCounts(g.outgoing, e.source, e.id, e.source, e.id);
    }
  }

  lemma ReplayedAhead(g: Graph, e: Edge)
    requires WellFormed(g) && e.id !in g.edges && e.id != g.nextEdge
    ensures !DenseIds(ReplayRecord(g, EdgeRecord(e)))
  {
    var h := ReplayRecord(g, EdgeRecord(e));
    assert e.id in h.edges && g.nextEdge !in h.edges;
  }

  /** Replay trusts the log: replaying an edge record into a well-formed store keeps it well formed
      exactly when the record is the next one in line. A record replayed twice is listed twice. */
  lemma EdgeReplayIsExact(g: Graph, e: Edge)
    requires WellFormed(g)
    ensures WellFormed(ReplayRecord(g, EdgeRecord(e))) <==> e.id == g.nextEdge
  {
    hide LabelsAgree, Push;
    if e.id == g.nextEdge {
      AddEdgeKeepsInvariant(g, e.source, e.target, e.edgeType, e.properties);
      assert ReplayRecord(g, EdgeRecord(e)) == AddEdge(g, e.source, e.target, e.edgeType, e.properties);
    } else if e.id in g.edges {
      ReplayedTwice(g, e);
    } else {
      ReplayedAhead(g, e);
    }
  }

  lemma NodeReplayLabels(g: Graph, n: Node, lbl: string)
    ensures var h := ReplayRecord(g, NodeRecord(n));
            multiset(Look(h.labelIndex, lbl))[n.id] == multiset(Look(g.labelIndex, lbl))[n.id] + multiset(n.labels)[lbl]
  {
    PushAllCounts(g.labelIndex, n.labels, n.id, lbl, n.id);
  }

  lemma LabelCount(g: Graph, lbl: string, id: NodeId)
    requires LabelsAgree(g)
    ensures multiset(Look(g.labelIndex, lbl))[id] == if id in g.nodes then multiset(g.nodes[id].labels)[lbl] else 0
  {
    var ids := Look(g.labelIndex, lbl);
    forall i ensures multiset(ids)[i] == if i in g.nodes then multiset(g.nodes[i].labels)[lbl] else 0 {
      assert multiset(Look(g.labelIndex, lbl))[i] == if i in g.nodes then multiset(g.nodes[i].labels)[lbl] else 0;
    }
  }

  lemma LabelsLeftOver(g: Graph, n: Node)
    requires LabelsAgree(g) && n.id in g.nodes && g.nodes[n.id].labels != []
    ensures !LabelsAgree(ReplayRecord(g, NodeRecord(n)))
  {
    hide LabelsAgree, PushAll, Push, Look;
    var h, lbl := ReplayRecord(g, NodeRecord(n)), g.nodes[n.id].labels[0];
    assert h.nodes[n.id] == n && multiset(g.nodes[n.id].labels)[lbl] > 0;
    LabelCount(g, lbl, n.id);
    NodeReplayLabels(g, n, lbl);
    if LabelsAgree(h) {
      LabelCount(h, lbl, n.id);
    }
  }

  lemma OverwritesUnlabelled(g: Graph, n: Node)
    requires LabelsAgree(g) && n.id in g.nodes && g.nodes[n.id].labels == []
    ensures LabelsAgree(ReplayRecord(g, NodeRecord(n)))
  {
    hide PushAll, Push;
    var h := ReplayRecord(g, NodeRecord(n));
    forall l, id
      ensures multiset(Look(h.labelIndex, l))[id] == if id in h.nodes then multiset(h.nodes[id].labels)[l] else 0
    {
      PushAllCounts(g.labelIndex, n.labels, n.id, l, id);
      LabelCount(g, l, id);
    }
  }

  lemma NodeAhead(g: Graph, n: Node)
    requires WellFormed(g) && n.id !in g.nodes && n.id != g.nextNode
    ensures !DenseIds(ReplayRecord(g, NodeRecord(n)))
  {
    hide PushAll;
    var h := ReplayRecord(g, NodeRecord(n));
    assert n.id in h.nodes && g.nextNode !in h.nodes;
  }

  /** Replaying a node record keeps the store well formed exactly when the record is the next one in line, or
      overwrites a node that has no labels: any label it had stays in the index. */
  lemma NodeReplayIsExact(g: Graph, n: Node)
    requires WellFormed(g)
    ensures WellFormed(ReplayRecord(g, NodeRecord(n))) <==>
      n.id == g.nextNode || (n.id in g.nodes && g.nodes[n.id].labels == [])
  {
    hide LabelsAgree, PushAll, AdjacencyAgrees;
    if n.id == g.nextNode {
      AddNodeKeepsInvariant(g, n.labels, n.properties);
      assert ReplayRecord(g, NodeRecord(n)) == AddNode(g, n.labels, n.properties);
    } else if n.id in g.nodes {
      if g.nodes[n.id].labels == [] {
        OverwritesUnlabelled(g, n);
      } else {
        LabelsLeftOver(g, n);
      }
    } else {
      NodeAhead(g, n);
    }
  }

  // ---------- segments ----------

  function NodeToJson(n: Node): Json {
    JObj(NodeFields(n))
  }

  function EdgeToJson(e: Edge): Json {
    JObj(map["id" := JInt(e.id), "from" := JInt(e.source), "to" := JInt(e.target), "type" := JStr(e.edgeType),
             "properties" := PropsToJson(e.properties)])
  }

  function EdgeFromJson(j: Json): Edge {
    Edge(AsNat(Field(j, "id")), AsNat(Field(j, "from")), AsNat(Field(j, "to")), AsString(Field(j, "type")),
         PropsFromJson(Field(j, "properties")))
  }

  /** The node segment: every node once, in the iteration order of the node map. */
  function NodesSegment(g: Graph, order: seq<NodeId>): Json
    requires forall i :: 0 <= i < |order| ==> order[i] in g.nodes
  {
    JObj(map["count" := JInt(|order|),
             "nodes" := JArr(seq(|order|, i requires 0 <= i < |order| => NodeToJson(g.nodes[order[i]])))])
  }

  function EdgesSegment(g: Graph, order: seq<EdgeId>): Json
    requires forall i :: 0 <= i < |order| ==> order[i] in g.edges
  {
    JObj(map["count" := JInt(|order|),
             "edges" := JArr(seq(|order|, i requires 0 <= i < |order| => EdgeToJson(g.edges[order[i]])))])
  }

  function Items(j: Json, name: string): seq<Json> {
    if Field(j, name).JArr? then Field(j, name).items else []
  }

  /** Loading adds the decoded elements one by one, exactly as replay does. */
  function NodeRecords(items: seq<Json>): (r: seq<WalRecord>)
    ensures |r| == |items|
  {
    seq(|items|, i requires 0 <= i < |items| => NodeRecord(NodeFromJson(items[i])))
  }

  function EdgeRecords(items: seq<Json>): (r: seq<WalRecord>)
    ensures |r| == |items|
  {
    seq(|items|, i requires 0 <= i < |items| => EdgeRecord(EdgeFromJson(items[i])))
  }

  /** A missing segment contributes nothing. */
  function Load(nodes: Option<Json>, edges: Option<Json>): Graph {
    var withNodes := Replay(EmptyGraph, if nodes.Some? then NodeRecords(Items(nodes.value, "nodes")) else []);
    Replay(withNodes, if edges.Some? then EdgeRecords(Items(edges.value, "edges")) else [])
  }

  method FlushToSegments(store: InMemoryGraphStore) returns (nodes: Json, edges: Json, nodeOrder: seq<NodeId>, edgeOrder: seq<EdgeId>)
    requires store.Valid()
    ensures Enumerates(nodeOrder, store.nodes.Keys) && Enumerates(edgeOrder, store.edges.Keys)
    ensures (forall i :: 0 <= i < |nodeOrder| ==> nodeOrder[i] in store.nodes) && nodes == NodesSegment(store.State(), nodeOrder)
    ensures (forall i :: 0 <= i < |edgeOrder| ==> edgeOrder[i] in store.edges) && edges == EdgesSegment(store.State(), edgeOrder)
  {
    nodeOrder := store.order;
    edgeOrder := HashOrder(store.edges.Keys);
    forall i | 0 <= i < |nodeOrder| ensures nodeOrder[i] in store.nodes {
      assert nodeOrder[i] in nodeOrder;
    }
    forall i | 0 <= i < |edgeOrder| ensures edgeOrder[i] in store.edges {
      assert edgeOrder[i] in edgeOrder;
    }
    nodes := NodesSegment(store.State(), nodeOrder);
    edges := EdgesSegment(store.State(), edgeOrder);
  }

  method LoadFromSegments(nodes: Option<Json>, edges: Option<Json>) returns (store: InMemoryGraphStore)
    ensures fresh(store) && store.Valid() && store.State() == Load(nodes, edges)
  {
    store := new InMemoryGraphStore();
    if nodes.Some? {
      LoadNodes(store, Items(nodes.value, "nodes"));
    }
    if edges.Some? {
      LoadEdges(store, Items(edges.value, "edges"));
    }
  }

  lemma MoreNodes(g: Graph, items: seq<Json>, i: nat)
    requires i < |items|
    ensures Replay(g, NodeRecords(items[..i + 1])) == ReplayRecord(Replay(g, NodeRecords(items[..i])), NodeRecord(NodeFromJson(items[i])))
  {
    hide ReplayRecord, NodeFromJson;
    assert NodeRecords(items[..i + 1])[..i] == NodeRecords(items[..i]);
  }

  method LoadNodes(store: InMemoryGraphStore, items: seq<Json>)
    requires store.Valid()
    modifies store
    ensures store.Valid() && store.State() == Replay(old(store.State()), NodeRecords(items))
  {
    assert NodeRecords(items[..0]) == [];
    for i := 0 to |items|
      invariant store.Valid() && store.State() == Replay(old(store.State()), NodeRecords(items[..i]))
    {
      hide InsertNode, NodeFromJson, Replay, NodeRecords;
      MoreNodes(old(store.State()), items, i);
      var n := NodeFromJson(items[i]);
      store.InsertNodeRecord(n);
      if store.nextNodeId <= n.id {
        store.nextNodeId := n.id + 1;
      }
    }
    assert items[..|items|] == items;
  }

  lemma MoreEdges(g: Graph, items: seq<Json>, i: nat)
    requires i < |items|
    ensures Replay(g, EdgeRecords(items[..i + 1])) == ReplayRecord(Replay(g, EdgeRecords(items[..i])), EdgeRecord(EdgeFromJson(items[i])))
  {
    hide ReplayRecord, EdgeFromJson;
    assert EdgeRecords(items[..i + 1])[..i] == EdgeRecords(items[..i]);
  }

  method LoadEdges(store: InMemoryGraphStore, items: seq<Json>)
    requires store.Valid()
    modifies store
    ensures store.Valid() && store.State() == Replay(old(store.State()), EdgeRecords(items))
  {
    assert EdgeRecords(items[..0]) == [];
    for i := 0 to |items|
      invariant store.Valid() && store.State() == Replay(old(store.State()), EdgeRecords(items[..i]))
    {
      hide InsertEdge, EdgeFromJson, Replay, EdgeRecords;
      MoreEdges(old(store.State()), items, i);
      var e := EdgeFromJson(items[i]);
      store.InsertEdgeRecord(e);
      if store.nextEdgeId <= e.id {
        store.nextEdgeId := e.id + 1;
      }
    }
    assert items[..|items|] == items;
  }

  // ---------- loading what was flushed ----------

  /** `g` with its property values as they are after writing and reading back. */
  function StoredNodes(nodes: map<NodeId, Node>): map<NodeId, Node> {
    map id | id in nodes :: StoredNode(nodes[id])
  }

  function StoredEdges(edges: map<EdgeId, Edge>): map<EdgeId, Edge> {
    map id | id in edges :: StoredEdge(edges[id])
  }

  /** Partly loaded: the nodes with the first `k` ids of `order`, none of the edges. */
  ghost predicate NodesLoaded(g: Graph, order: seq<NodeId>, k: nat, h: Graph) {
    && k <= |order|
    && (forall id :: id in h.nodes <==> id in order[..k])
    && (forall id :: id in h.nodes ==> id in g.nodes && h.nodes[id] == StoredNode(g.nodes[id]))
    && LabelsAgree(h)
    && 1 <= h.nextNode <= g.nextNode && (forall id :: id in h.nodes ==> id < h.nextNode)
    && h.edges == map[] && h.outgoing == map[] && h.incoming == map[] && h.nextEdge == 1
  }

  ghost predicate IdsInRange(g: Graph) {
    g.nextNode <= TWO_64 && g.nextEdge <= TWO_64 && forall id :: id in g.edges ==> g.edges[id].source < TWO_64 && g.edges[id].target < TWO_64
  }

  lemma NodeBack(n: Node)
    requires n.id < TWO_64
    ensures NodeFromJson(NodeToJson(n)) == StoredNode(n)
  {
    hide PropsToJson, PropsFromJson, StoredProps, FromStrings, AsStrings;
    StringsRoundTrip(n.labels);
    PropsRoundTrip(n.properties);
  }

  lemma EdgeBack(e: Edge)
    requires e.id < TWO_64 && e.source < TWO_64 && e.target < TWO_64
    ensures EdgeFromJson(EdgeToJson(e)) == StoredEdge(e)
  {
    hide PropsToJson, PropsFromJson, StoredProps;
    PropsRoundTrip(e.properties);
  }

  lemma LoadOneNode(g: Graph, order: seq<NodeId>, k: nat, h: Graph)
    requires DenseIds(g) && Enumerates(order, g.nodes.Keys) && NodesLoaded(g, order, k, h) && k < |order|
    ensures NodesLoaded(g, order, k + 1, ReplayRecord(h, NodeRecord(StoredNode(g.nodes[order[k]]))))
  {
    hide PushAll, StoredNode, LabelsAgree;
    assert order[k] in order;
    assert order[..k + 1] == order[..k] + [order[k]];
    assert order[k] !in order[..k];
    StoredNodeId(g.nodes[order[k]]);
    InsertKeepsLabels(h, StoredNode(g.nodes[order[k]]));
    SameLabels(InsertNode(h, StoredNode(g.nodes[order[k]])), ReplayRecord(h, NodeRecord(StoredNode(g.nodes[order[k]]))));
  }

  lemma StoredNodeId(n: Node)
    ensures StoredNode(n).id == n.id && StoredNode(n).labels == n.labels
  {
  }

  lemma SameLabels(g: Graph, h: Graph)
    requires LabelsAgree(g) && h.nodes == g.nodes && h.labelIndex == g.labelIndex
    ensures LabelsAgree(h)
  {
    forall l, id
      ensures multiset(Look(h.labelIndex, l))[id] == if id in h.nodes then multiset(h.nodes[id].labels)[l] else 0
    {
      assert multiset(Look(g.labelIndex, l))[id] == if id in g.nodes then multiset(g.nodes[id].labels)[l] else 0;
    }
  }

  lemma {:induction false} LoadNodesStepwise(g: Graph, order: seq<NodeId>, rs: seq<WalRecord>, k: nat)
    requires DenseIds(g) && Enumerates(order, g.nodes.Keys) && |rs| == |order| && k <= |order|
    requires forall i :: 0 <= i < |order| ==> order[i] in g.nodes && rs[i] == NodeRecord(StoredNode(g.nodes[order[i]]))
    ensures NodesLoaded(g, order, k, Replay(EmptyGraph, rs[..k]))
  {
    hide ReplayRecord, StoredNode, DenseIds, NodesLoaded, Enumerates;
    if k == 0 {
      NothingLoaded(g, order);
    } else {
      LoadNodesStepwise(g, order, rs, k - 1);
      LoadOneNode(g, order, k - 1, Replay(EmptyGraph, rs[..k - 1]));
      assert rs[..k][..k - 1] == rs[..k - 1];
    }
  }

  lemma NothingLoaded(g: Graph, order: seq<NodeId>)
    requires DenseIds(g)
    ensures NodesLoaded(g, order, 0, EmptyGraph)
  {
  }

  /** Partly loaded: all nodes, and the edges with the first `k` ids of `order`. */
  ghost predicate EdgesLoaded(g: Graph, order: seq<EdgeId>, k: nat, h: Graph) {
    && k <= |order|
    && (forall id :: id in h.edges <==> id in order[..k])
    && (forall id :: id in h.edges ==> id in g.edges && h.edges[id] == StoredEdge(g.edges[id]))
    && AdjacencyAgrees(h.outgoing, h.edges, true) && AdjacencyAgrees(h.incoming, h.edges, false)
    && 1 <= h.nextEdge <= g.nextEdge && (forall id :: id in h.edges ==> id < h.nextEdge)
  }

  lemma LoadOneEdge(g: Graph, order: seq<EdgeId>, k: nat, h: Graph)
    requires DenseIds(g) && Enumerates(order, g.edges.Keys) && EdgesLoaded(g, order, k, h) && k < |order|
    ensures EdgesLoaded(g, order, k + 1, ReplayRecord(h, EdgeRecord(StoredEdge(g.edges[order[k]]))))
  {
    hide Push, StoredEdge, AdjacencyAgrees;
    assert order[k] in order;
    assert order[..k + 1] == order[..k] + [order[k]];
    assert order[k] !in order[..k];
    var e := StoredEdge(g.edges[order[k]]);
    StoredEdgeId(g.edges[order[k]]);
    PushKeepsAdjacency(h.outgoing, h.edges, true, e);
    PushKeepsAdjacency(h.incoming, h.edges, false, e);
  }

  lemma StoredEdgeId(e: Edge)
    ensures StoredEdge(e).id == e.id && StoredEdge(e).source == e.source && StoredEdge(e).target == e.target
  {
  }

  lemma {:induction false} LoadEdgesStepwise(g: Graph, order: seq<EdgeId>, rs: seq<WalRecord>, h: Graph, k: nat)
    requires DenseIds(g) && Enumerates(order, g.edges.Keys) && |rs| == |order| && k <= |order|
    requires forall i :: 0 <= i < |order| ==> order[i] in g.edges && rs[i] == EdgeRecord(StoredEdge(g.edges[order[i]]))
    requires EdgesLoaded(g, order, 0, h)
    ensures EdgesLoaded(g, order, k, Replay(h, rs[..k]))
    ensures var r := Replay(h, rs[..k]); r.nodes == h.nodes && r.labelIndex == h.labelIndex && r.nextNode == h.nextNode
  {
    hide StoredEdge, DenseIds, EdgesLoaded;
    if k == 0 {
      assert Replay(h, rs[..0]) == h;
    } else {
      LoadEdgesStepwise(g, order, rs, h, k - 1);
      LoadOneEdge(g, order, k - 1, Replay(h, rs[..k - 1]));
      assert rs[..k][..k - 1] == rs[..k - 1];
    }
  }

  lemma FlushedNodeRecords(g: Graph, order: seq<NodeId>, i: nat)
    requires DenseIds(g) && IdsInRange(g) && Enumerates(order, g.nodes.Keys) && i < |order|
    requires forall j :: 0 <= j < |order| ==> order[j] in g.nodes
    ensures |Items(NodesSegment(g, order), "nodes")| == |order|
    ensures NodeRecords(Items(NodesSegment(g, order), "nodes"))[i] == NodeRecord(StoredNode(g.nodes[order[i]]))
  {
    hide NodeToJson, NodeFromJson, StoredNode;
    assert order[i] in g.nodes;
    NodeBack(g.nodes[order[i]]);
  }

  lemma FlushedEdgeRecords(g: Graph, order: seq<EdgeId>, i: nat)
    requires DenseIds(g) && IdsInRange(g) && i < |order|
    requires forall j :: 0 <= j < |order| ==> order[j] in g.edges
    ensures |Items(EdgesSegment(g, order), "edges")| == |order|
    ensures EdgeRecords(Items(EdgesSegment(g, order), "edges"))[i] == EdgeRecord(StoredEdge(g.edges[order[i]]))
  {
    hide EdgeToJson, EdgeFromJson, StoredEdge;
    assert order[i] in g.edges;
    EdgeBack(g.edges[order[i]]);
  }
}
