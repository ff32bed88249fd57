/** A store made to fit one chain pattern: a path of fresh nodes and one node for every standalone pattern,
    carrying what is compiled of the pattern and nothing else. */
module PathStores {
  import opened Prelude
  import opened Values
  import opened Ast
  import opened GraphStore
  import opened Traversal
  import opened Distances
  import opened Semantics
  import opened Chains
  import opened Bindings
  import opened Matching
  import opened MatchTheorem
  import opened Compilation

  // ---------- a store from lists ----------

  datatype NodeData = NodeData(labels: seq<string>, properties: map<string, Value>)

  datatype EdgeData = EdgeData(source: NodeId, target: NodeId, edgeType: string, properties: map<string, Value>)

  const Blank := NodeData([], map[])

  function Filled(ns: seq<NodeData>): Graph {
    if ns == [] then EmptyGraph
    else
      var last := ns[|ns| - 1];
      AddNode(Filled(ns[..|ns| - 1]), last.labels, last.properties)
  }

  function Wired(ns: seq<NodeData>, es: seq<EdgeData>): Graph {
    if es == [] then Filled(ns)
    else
      var last := es[|es| - 1];
      AddEdge(Wired(ns, es[..|es| - 1]), last.source, last.target, last.edgeType, last.properties)
  }

  ghost predicate HoldsNodes(g: Graph, ns: seq<NodeData>) {
    && g.nextNode == |ns| + 1
    && (forall id :: id in g.nodes <==> 1 <= id <= |ns|)
    && (forall id :: 1 <= id <= |ns| ==> g.nodes[id] == Node(id, ns[id - 1].labels, ns[id - 1].properties))
  }

  ghost predicate HoldsEdges(g: Graph, es: seq<EdgeData>) {
    && g.nextEdge == |es| + 1
    && (forall id :: id in g.edges <==> 1 <= id <= |es|)
    && (forall id :: 1 <= id <= |es| ==>
          g.edges[id] == Edge(id, es[id - 1].source, es[id - 1].target, es[id - 1].edgeType, es[id - 1].properties))
  }

  lemma {:induction false} FilledShape(ns: seq<NodeData>)
    ensures var g := Filled(ns); WellFormed(g) && HoldsNodes(g, ns) && HoldsEdges(g, [])
  {
    hide WellFormed, PushAll;
    if ns == [] {
      EmptyIsWellFormed();
    } else {
      var front, last := ns[..|ns| - 1], ns[|ns| - 1];
      FilledShape(front);
      AddNodeKeepsInvariant(Filled(front), last.labels, last.properties);
    }
  }

  lemma {:induction false} WiredShape(ns: seq<NodeData>, es: seq<EdgeData>)
    ensures var g := Wired(ns, es); WellFormed(g) && HoldsNodes(g, ns) && HoldsEdges(g, es)
  {
    hide WellFormed, Push;
    if es == [] {
      FilledShape(ns);
    } else {
      var front, last := es[..|es| - 1], es[|es| - 1];
      WiredShape(ns, front);
      AddEdgeKeepsInvariant(Wired(ns, front), last.source, last.target, last.edgeType, last.properties);
    }
  }

  function Counting(n: nat): (order: seq<NodeId>)
    ensures |order| == n && forall i :: 0 <= i < n ==> order[i] == i + 1
  {
    seq(n, i => i + 1)
  }

  lemma CountingEnumerates(g: Graph, ns: seq<NodeData>)
    requires HoldsNodes(g, ns)
    ensures Enumerates(Counting(|ns|), g.nodes.Keys)
  {
    forall id | id in g.nodes ensures id in Counting(|ns|) {
      assert Counting(|ns|)[id - 1] == id;
    }
  }

  // ---------- properties that can be met ----------

  /** Two literals no value can fail to tell apart, and no null. */
  predicate Agree(p: Literal, q: Literal) {
    IsTrue(EvalBinaryOp(LiteralValue(p), BinOp.Eq, LiteralValue(q)))
  }

  /** No null literal, and no two literals for one key that differ. */
  predicate NoClash(props: Properties) {
    forall i, j :: 0 <= i < |props| && 0 <= j < |props| && props[i].0 == props[j].0 ==> Agree(props[i].1, props[j].1)
  }

  ghost predicate FromProps(props: Properties, k: string, v: Value) {
    exists i :: 0 <= i < |props| && props[i].0 == k && LiteralValue(props[i].1) == v
  }

  lemma {:induction false} MapOfProps(props: Properties)
    ensures forall k :: k in LiteralProps(props) ==> FromProps(props, k, LiteralProps(props)[k])
    ensures forall i :: 0 <= i < |props| ==> props[i].0 in LiteralProps(props)
  {
    if props != [] {
      var front, last := props[..|props| - 1], props[|props| - 1];
      MapOfProps(front);
      forall k | k in LiteralProps(props) ensures FromProps(props, k, LiteralProps(props)[k]) {
        if k == last.0 {
          assert props[|props| - 1].0 == k;
        } else {
          assert FromProps(front, k, LiteralProps(front)[k]);
          var i :| 0 <= i < |front| && front[i].0 == k && LiteralValue(front[i].1) == LiteralProps(front)[k];
          assert props[i] == front[i];
        }
      }
      forall i | 0 <= i < |props| ensures props[i].0 in LiteralProps(props) {
        assert i < |front| ==> props[i] == front[i];
      }
    }
  }

  /** A node can have the inline properties exactly when they do not clash. */
  lemma NoClashMeets(id: NodeId, labels: seq<string>, props: Properties)
    requires NoClash(props)
    ensures PropertiesHold(Node(id, labels, LiteralProps(props)), props)
  {
    MapOfProps(props);
    var n := Node(id, labels, LiteralProps(props));
    forall j | 0 <= j < |props| ensures PropertyHolds(n, props[j]) {
      var i :| 0 <= i < |props| && props[i].0 == props[j].0 && LiteralValue(props[i].1) == LiteralProps(props)[props[j].0];
    }
  }

  lemma MetHaveNoClash(n: Node, props: Properties)
    requires PropertiesHold(n, props)
    ensures NoClash(props)
  {
    forall i, j | 0 <= i < |props| && 0 <= j < |props| && props[i].0 == props[j].0 ensures Agree(props[i].1, props[j].1) {
      assert PropertyHolds(n, props[i]) && PropertyHolds(n, props[j]);
      EqualsAgree(n.properties[props[i].0], props[i].1, props[j].1);
    }
  }

  lemma EqualsAgree(v: Value, p: Literal, q: Literal)
    requires IsTrue(EvalBinaryOp(v, BinOp.Eq, LiteralValue(p))) && IsTrue(EvalBinaryOp(v, BinOp.Eq, LiteralValue(q)))
    ensures Agree(p, q)
  {
  }

  // ---------- the path of a chain ----------

  predicate RangeOk(e: EdgePattern) {
    e.depth.Some? ==> e.depth.value.min <= e.depth.value.max && 1 <= e.depth.value.max
  }

  /** What is compiled of the pattern can be met: no clashing properties where they are compiled, and no
      empty depth range. */
  ghost predicate Meetable(ch: Chain) {
    && NoClash(ch.first.properties)
    && (forall i :: 0 <= i < |ch.edges| ==> NoClash(NodeOf(ch, i).properties) && RangeOk(ch.edges[i]))
    && (forall j :: 0 <= j < |ch.others| ==> NoClash(ch.others[j].properties))
  }

  /** How many stored edges the pattern edge is given. */
  function Length(e: EdgePattern): (n: nat)
    ensures 1 <= n
  {
    if e.depth.None? then 1 else Prelude.Max(1, e.depth.value.min)
  }

  /** The id of the `i`-th node of the chain on the path. */
  function Place(ch: Chain, i: nat): (id: nat)
    requires i <= |ch.edges|
    ensures 1 <= id
  {
    if i == 0 then 1 else Place(ch, i - 1) + Length(ch.edges[i - 1])
  }

  lemma PlaceGrows(ch: Chain, i: nat)
    requires i < |ch.edges|
    ensures Place(ch, i + 1) == Place(ch, i) + Length(ch.edges[i]) > Place(ch, i)
  {
  }

  lemma {:induction false} PlacesRise(ch: Chain, i: nat, j: nat)
    requires i <= j <= |ch.edges|
    ensures Place(ch, i) <= Place(ch, j)
  {
    if i < j {
      PlacesRise(ch, i, j - 1);
    }
  }

  function OneLabelOf(labels: seq<string>): seq<string> {
    if labels == [] then [] else [labels[0]]
  }

  /** What the `i`-th node of the chain carries: the part of its pattern that is compiled. */
  function Data(ch: Chain, i: nat): NodeData
    requires i <= |ch.edges|
  {
    NodeData(if i == 0 then OneLabelOf(ch.first.labels) else [],
             if i == 0 || i < |ch.edges| then LiteralProps(NodeOf(ch, i).properties) else map[])
  }

  function Blanks(n: nat): (ns: seq<NodeData>)
    ensures |ns| == n && forall i :: 0 <= i < n ==> ns[i] == Blank
  {
    seq(n, _ => Blank)
  }

  function PathNodes(ch: Chain, k: nat): (ns: seq<NodeData>)
    requires k <= |ch.edges|
    ensures |ns| == Place(ch, k)
  {
    if k == 0 then [Data(ch, 0)] else PathNodes(ch, k - 1) + Blanks(Length(ch.edges[k - 1]) - 1) + [Data(ch, k)]
  }

  lemma {:induction false} PathNodeAt(ch: Chain, k: nat, i: nat)
    requires i <= k <= |ch.edges|
    ensures Place(ch, i) <= Place(ch, k) && PathNodes(ch, k)[Place(ch, i) - 1] == Data(ch, i)
  {
    PlacesRise(ch, i, k);
    if i < k {
      PathNodeAt(ch, k - 1, i);
    }
  }

  /** The type of the stored edges: one the pattern edge allows. */
  function TypeOf(e: EdgePattern): string {
    var types := if e.depth.None? then HopTypes(e.edgeType) else PathTypes(e.edgeType);
    if types == [] then "" else types[0]
  }

  function Onward(e: EdgePattern): bool {
    e.direction != Left
  }

  /** The stored edge from place `p` to the next one. */
  function Link(e: EdgePattern, p: NodeId): EdgeData {
    if Onward(e) then EdgeData(p, p + 1, TypeOf(e), map[]) else EdgeData(p + 1, p, TypeOf(e), map[])
  }

  function Links(e: EdgePattern, p: NodeId, n: nat): (es: seq<EdgeData>)
    ensures |es| == n && forall i :: 0 <= i < n ==> es[i] == Link(e, p + i)
  {
    seq(n, i requires 0 <= i < n => Link(e, p + i))
  }

  function PathEdges(ch: Chain, k: nat): (es: seq<EdgeData>)
    requires k <= |ch.edges|
    ensures |es| == Place(ch, k) - 1
  {
    if k == 0 then [] else PathEdges(ch, k - 1) + Links(ch.edges[k - 1], Place(ch, k - 1), Length(ch.edges[k - 1]))
  }

  lemma {:induction false} PathEdgeAt(ch: Chain, k: nat, i: nat, p: NodeId)
    requires i < k <= |ch.edges| && Place(ch, i) <= p < Place(ch, i + 1)
    ensures p < Place(ch, k) && PathEdges(ch, k)[p - 1] == Link(ch.edges[i], p)
  {
    hide Link, Length;
    PlacesRise(ch, i + 1, k);
    if i + 1 < k {
      PlacesRise(ch, i + 1, k - 1);
      PathEdgeAt(ch, k - 1, i, p);
      assert PathEdges(ch, k)[p - 1] == PathEdges(ch, k - 1)[p - 1];
    } else {
      assert PathEdges(ch, k)[p - 1] == Links(ch.edges[i], Place(ch, i), Length(ch.edges[i]))[p - Place(ch, i)];
    }
  }

  lemma {:induction false} PathEdgeJoins(ch: Chain, k: nat, p: NodeId)
    requires k <= |ch.edges| && 1 <= p < Place(ch, k)
    ensures var e := PathEdges(ch, k)[p - 1]; e.properties == map[] && ((e.source == p && e.target == p + 1) || (e.source == p + 1 && e.target == p))
  {
    if p < Place(ch, k - 1) {
      PathEdgeJoins(ch, k - 1, p);
    } else {
      PathEdgeAt(ch, k, k - 1, p);
    }
  }

  function LoneData(p: NodePattern): NodeData {
    NodeData(OneLabelOf(p.labels), LiteralProps(p.properties))
  }

  /** The ids of the standalone nodes follow those on the path. */
  function LonePlace(ch: Chain, j: nat): NodeId {
    Place(ch, |ch.edges|) + 1 + j
  }

  function LoneNodes(ch: Chain, j: nat): (ns: seq<NodeData>)
    requires j <= |ch.others|
    ensures |ns| == j
    ensures forall i :: 0 <= i < j ==> ns[i] == LoneData(ch.others[i])
  {
    if j == 0 then []
    else LoneNodes(ch, j - 1) + [LoneData(ch.others[j - 1])]
  }

  function AllNodes(ch: Chain): seq<NodeData> {
    PathNodes(ch, |ch.edges|) + LoneNodes(ch, |ch.others|)
  }

  function PathStore(ch: Chain): Graph {
    Wired(AllNodes(ch), PathEdges(ch, |ch.edges|))
  }

  /** The match that follows the path. */
  function StepAt(ch: Chain, i: nat): Step
    requires i < |ch.edges|
  {
    if ch.edges[i].depth.None? then Along(Place(ch, i), Onward(ch.edges[i]), Place(ch, i + 1)) else Jump(Place(ch, i + 1))
  }

  function PathMatch(ch: Chain): (m: Match)
    ensures |m.steps| == |ch.edges| && |m.others| == |ch.others|
    ensures forall i :: 0 <= i < |ch.edges| ==> m.steps[i] == StepAt(ch, i)
    ensures forall j :: 0 <= j < |ch.others| ==> m.others[j] == LonePlace(ch, j)
    ensures |m.copies| == 1 + |ch.others| && forall j :: 0 <= j < |m.copies| ==> m.copies[j] == 0
  {
    Match(1, seq(|ch.edges|, i requires 0 <= i < |ch.edges| => StepAt(ch, i)),
          seq(|ch.others|, j requires 0 <= j < |ch.others| => LonePlace(ch, j)),
          seq(1 + |ch.others|, _ => 0))
  }

  lemma PathMatchAt(ch: Chain, i: nat)
    requires i <= |ch.edges|
    ensures At(PathMatch(ch), i) == Place(ch, i)
  {
  }

  // ---------- what the store holds ----------

  predicate HasNode(g: Graph, id: NodeId, data: NodeData) {
    id in g.nodes && g.nodes[id] == Node(id, data.labels, data.properties)
  }

  ghost predicate HoldsPath(ch: Chain, g: Graph) {
    && (forall i :: 0 <= i <= |ch.edges| ==> HasNode(g, Place(ch, i), Data(ch, i)))
    && (forall j :: 0 <= j < |ch.others| ==> HasNode(g, LonePlace(ch, j), LoneData(ch.others[j])))
  }

  lemma PathStoreHas(ch: Chain, id: NodeId)
    requires 1 <= id <= |AllNodes(ch)|
    ensures HasNode(PathStore(ch), id, AllNodes(ch)[id - 1])
  {
    hide AllNodes, PathEdges, Wired, WellFormed;
    WiredShape(AllNodes(ch), PathEdges(ch, |ch.edges|));
  }

  lemma PathStoreNodes(ch: Chain)
    ensures HoldsPath(ch, PathStore(ch))
  {
    hide Data, LoneData, Place, PathStore, HasNode, PathNodes, LoneNodes;
    var g := PathStore(ch);
    forall i | 0 <= i <= |ch.edges| ensures HasNode(g, Place(ch, i), Data(ch, i)) {
      PathNodeAt(ch, |ch.edges|, i);
      PathStoreHas(ch, Place(ch, i));
    }
    forall j | 0 <= j < |ch.others| ensures HasNode(g, LonePlace(ch, j), LoneData(ch.others[j])) {
      PathStoreHas(ch, LonePlace(ch, j));
    }
  }

  lemma PathStoreEdges(ch: Chain, i: nat, p: NodeId)
    requires i < |ch.edges| && Place(ch, i) <= p < Place(ch, i + 1)
    ensures p in PathStore(ch).edges
    ensures var l := Link(ch.edges[i], p); PathStore(ch).edges[p] == Edge(p, l.source, l.target, l.edgeType, l.properties)
    ensures p + 1 <= Place(ch, |ch.edges|)
  {
    hide Link;
    WiredShape(AllNodes(ch), PathEdges(ch, |ch.edges|));
    PathEdgeAt(ch, |ch.edges|, i, p);
  }

  /** Every stored edge joins neighbours on the path, and has no properties. */
  lemma PathStoreJoins(ch: Chain, id: EdgeId)
    requires id in PathStore(ch).edges
    ensures var e := PathStore(ch).edges[id];
            e.properties == map[] && ((e.source == id && e.target == id + 1) || (e.source == id + 1 && e.target == id))
  {
    WiredShape(AllNodes(ch), PathEdges(ch, |ch.edges|));
    PathEdgeJoins(ch, |ch.edges|, id);
  }

  function PathCtx(ch: Chain): Ctx {
    Ctx(PathStore(ch), Counting(|AllNodes(ch)|), map[], true, [])
  }

  lemma PathStoreIsOk(ch: Chain)
    ensures StoreOk(PathCtx(ch))
  {
    hide WellFormed, Enumerates;
    WiredShape(AllNodes(ch), PathEdges(ch, |ch.edges|));
    CountingEnumerates(PathStore(ch), AllNodes(ch));
  }

  // ---------- the path matches ----------

  lemma PathLeads(ch: Chain, i: nat, p: NodeId)
    requires i < |ch.edges| && Place(ch, i) <= p < Place(ch, i + 1)
    ensures var e := ch.edges[i];
            var types := if e.depth.None? then HopTypes(e.edgeType) else PathTypes(e.edgeType);
            Leads(Net(PathStore(ch), types, e.direction), p, Onward(e), p, p + 1)
  {
    hide PathStore, HopTypes, PathTypes, Place;
    PathStoreEdges(ch, i, p);
    PathStoreHas(ch, p);
    PathStoreHas(ch, p + 1);
  }

  lemma {:induction false} PathReaches(ch: Chain, i: nat, n: nat)
    requires i < |ch.edges| && ch.edges[i].depth.Some? && n <= Length(ch.edges[i])
    ensures var e := ch.edges[i];
            Reaches(Net(PathStore(ch), PathTypes(e.edgeType), e.direction), Place(ch, i), Place(ch, i) + n, n)
  {
    hide PathStore, PathTypes, Leads;
    if n > 0 {
      PathReaches(ch, i, n - 1);
      PathLeads(ch, i, Place(ch, i) + n - 1);
      var e := ch.edges[i];
      assert Linked(Net(PathStore(ch), PathTypes(e.edgeType), e.direction), Place(ch, i) + n - 1, Place(ch, i) + n);
    }
  }

  /** On the path no walk gets further than its number of edges. */
  lemma {:induction false} WalksAreShort(ch: Chain, types: seq<string>, dir: Direction, u: NodeId, v: NodeId, k: nat)
    requires Reaches(Net(PathStore(ch), types, dir), u, v, k)
    ensures v <= u + k
    decreases k
  {
    hide PathStore;
    var net := Net(PathStore(ch), types, dir);
    if k > 0 {
      var w :| Reaches(net, u, w, k - 1) && Linked(net, w, v);
      WalksAreShort(ch, types, dir, u, w, k - 1);
      var id, forward :| Leads(net, id, forward, w, v);
      PathStoreJoins(ch, id);
    }
  }

  lemma PathJumps(ch: Chain, i: nat)
    requires i < |ch.edges| && ch.edges[i].depth.Some? && RangeOk(ch.edges[i])
    ensures var e := ch.edges[i];
            Band(Net(PathStore(ch), PathTypes(e.edgeType), e.direction),
                 Goal(Place(ch, i), e.depth.value.min, e.depth.value.max), Place(ch, i + 1), Length(e))
  {
    hide PathStore, PathTypes, Reaches;
    var e := ch.edges[i];
    var net := Net(PathStore(ch), PathTypes(e.edgeType), e.direction);
    var u, v := Place(ch, i), Place(ch, i + 1);
    PathReaches(ch, i, Length(e));
    forall j: nat | j < Length(e) ensures !Reaches(net, u, v, j) {
      if Reaches(net, u, v, j) {
        WalksAreShort(ch, PathTypes(e.edgeType), e.direction, u, v, j);
      }
    }
  }

  lemma PathStep(ch: Chain, i: nat)
    requires i < |ch.edges| && RangeOk(ch.edges[i])
    ensures StepOk(PathStore(ch), ch.edges[i], Place(ch, i), StepAt(ch, i))
  {
    hide PathStore, HopTypes, PathTypes, Leads, Band, Place;
    PlaceGrows(ch, i);
    if ch.edges[i].depth.None? {
      PathLeads(ch, i, Place(ch, i));
    } else {
      PathJumps(ch, i);
      PathStoreNodes(ch);
    }
  }

  lemma PathSteps(ch: Chain)
    requires WellShaped(ch) && Meetable(ch)
    ensures StepsOk(ch, PathStore(ch), PathMatch(ch))
  {
    hide PathStore, StepOk, Place, PropertyHolds, LiteralProps, NoClash, StepAt;
    var g, m := PathStore(ch), PathMatch(ch);
    PathStoreNodes(ch);
    forall i | 0 <= i < |m.steps|
      ensures StepOk(g, ch.edges[i], At(m, i), m.steps[i]) && PropertiesHold(NodeIn(g, At(m, i)), ch.edges[i].fromNode.properties)
    {
      PathMatchAt(ch, i);
      PathStep(ch, i);
      NoClashMeets(Place(ch, i), Data(ch, i).labels, NodeOf(ch, i).properties);
    }
  }

  lemma PathOthers(ch: Chain)
    requires Meetable(ch)
    ensures OthersOk(ch, PathStore(ch), PathMatch(ch))
  {
    hide PathStore, Place, PropertyHolds, LiteralProps, NoClash;
    var g, m := PathStore(ch), PathMatch(ch);
    PathStoreNodes(ch);
    forall j | 0 <= j < |m.others|
      ensures m.others[j] in g.nodes && Carries(g.nodes[m.others[j]], ch.others[j].labels)
           && PropertiesHold(g.nodes[m.others[j]], ch.others[j].properties)
    {
      NoClashMeets(m.others[j], OneLabelOf(ch.others[j].labels), ch.others[j].properties);
    }
  }

  lemma OnceEach(id: NodeId, labels: seq<string>, props: map<string, Value>)
    ensures Times(Node(id, OneLabelOf(labels), props), labels) == 1
  {
  }

  lemma PathCopies(ch: Chain)
    ensures CopiesOk(ch, map[], PathStore(ch), PathMatch(ch))
  {
    hide PathStore, Place, LiteralProps, Times, OneLabelOf, LonePlace;
    PathStoreNodes(ch);
    assert HasNode(PathStore(ch), Place(ch, 0), Data(ch, 0)) && Place(ch, 0) == 1 by { PathMatchAt(ch, 0); }
    OnceEach(1, ch.first.labels, LiteralProps(ch.first.properties));
    forall j | 0 <= j < |ch.others|
      ensures Times(NodeIn(PathStore(ch), PathMatch(ch).others[j]), ch.others[j].labels) == 1
    {
      assert HasNode(PathStore(ch), LonePlace(ch, j), LoneData(ch.others[j]));
      OnceEach(LonePlace(ch, j), ch.others[j].labels, LiteralProps(ch.others[j].properties));
    }
  }

  /** The path is a match of the pattern as far as it is compiled. */
  lemma PathIsMatch(ch: Chain)
    requires WellShaped(ch) && Meetable(ch)
    ensures FullMatch(ch, map[], PathStore(ch), PathMatch(ch))
  {
    hide PathStore, PropertyHolds, LiteralProps, NoClash, StepsOk, OthersOk, CopiesOk;
    PathSteps(ch);
    PathCopies(ch);
    PathOthers(ch);
    PathStoreNodes(ch);
    assert Place(ch, 0) == 1;
    NoClashMeets(1, OneLabelOf(ch.first.labels), ch.first.properties);
  }

  /** Some store has a match exactly when what is compiled of the pattern can be met. */
  lemma MeetableExactly(ch: Chain)
    requires WellShaped(ch)
    ensures Meetable(ch) <==> exists c: Ctx, m :: StoreOk(c) && FullMatch(ch, map[], c.g, m)
  {
    hide StoreOk, FullMatch, Meetable, PathStore, WellShaped;
    if Meetable(ch) {
      PathStoreIsOk(ch);
      PathIsMatch(ch);
      assert StoreOk(PathCtx(ch)) && FullMatch(ch, map[], PathCtx(ch).g, PathMatch(ch));
    }
    if c: Ctx, m :| StoreOk(c) && FullMatch(ch, map[], c.g, m) {
      MatchedIsMeetable(ch, c.g, m);
    }
  }

  lemma MatchedIsMeetable(ch: Chain, g: Graph, m: Match)
    requires WellShaped(ch) && FullMatch(ch, map[], g, m)
    ensures Meetable(ch)
  {
    hide NoClash, PropertiesHold, Leads, Reaches;
    MetHaveNoClash(g.nodes[m.start], ch.first.properties);
    forall i | 0 <= i < |ch.edges| ensures NoClash(NodeOf(ch, i).properties) && RangeOk(ch.edges[i]) {
      assert StepOk(g, ch.edges[i], At(m, i), m.steps[i]);
      MetHaveNoClash(NodeIn(g, At(m, i)), ch.edges[i].fromNode.properties);
    }
    forall j | 0 <= j < |ch.others| ensures NoClash(ch.others[j].properties) {
      MetHaveNoClash(g.nodes[m.others[j]], ch.others[j].properties);
    }
  }
}
