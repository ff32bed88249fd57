/** A store made to hold a match in the full sense: every pattern edge becomes a stored edge between the places
    of its ends and a loop at the second one, with all properties asked for. Variable-length edges may be
    glued: both their ends then have the same place. */
module LoopStores {
  import opened Prelude
  import opened Values
  import opened Ast
  import opened GraphStore
  import opened Traversal
  import opened Distances
  import opened Semantics
  import opened Chains
  import opened Bindings
  import opened Matching
  import opened MatchTheorem
  import opened Compilation
  import opened PathStores
  import opened FullSense

  /** Indices of variable-length edges whose ends are to be the same node. */
  type Glue = set<nat>

  // ---------- what can be met ----------

  /** All properties asked of the place of the `i`-th node by the nodes up to it. */
  function Joined(ch: Chain, glue: Glue, i: nat): Properties
    requires i <= |ch.edges|
  {
    (if i > 0 && i - 1 in glue then Joined(ch, glue, i - 1) else []) + NodeOf(ch, i).properties
  }

  function JoinedLabels(ch: Chain, glue: Glue, i: nat): seq<string>
    requires i <= |ch.edges|
  {
    (if i > 0 && i - 1 in glue then JoinedLabels(ch, glue, i - 1) else []) + NodeOf(ch, i).labels
  }

  /** The edge pattern can be met by a stored edge or by a walk, between different nodes or, when glued, from a
      node to itself. */
  predicate Walkable(e: EdgePattern, glued: bool) {
    if e.depth.None? then !glued && NoClash(e.properties)
    else if e.depth.value.min > e.depth.value.max then false
    else if glued then e.depth.value.min == 0 || NoClash(e.properties)
    else e.depth.value.max > 0 && NoClash(e.properties)
  }

  /** The whole pattern can be met with just the glued edges returning to their origin: no clashing properties
      at any place or edge, and no empty range. */
  ghost predicate Joinable(ch: Chain, glue: Glue) {
    && (forall i :: 0 <= i <= |ch.edges| ==> NoClash(Joined(ch, glue, i)))
    && (forall i :: 0 <= i < |ch.edges| ==> Walkable(ch.edges[i], i in glue))
    && (forall j :: 0 <= j < |ch.others| ==> NoClash(ch.others[j].properties))
  }

  /** Some variable-length edge returns to its origin, or has a range that starts behind 1. */
  ghost predicate Evasive(ch: Chain, glue: Glue) {
    exists i: nat :: i < |ch.edges| && ch.edges[i].depth.Some? && (i in glue || ch.edges[i].depth.value.min >= 2)
  }

  // ---------- places ----------

  function Spot(ch: Chain, glue: Glue, i: nat): (id: nat)
    requires i <= |ch.edges|
    ensures 1 <= id <= i + 1
  {
    if i == 0 then 1 else Spot(ch, glue, i - 1) + if i - 1 in glue then 0 else 1
  }

  function SpotData(ch: Chain, glue: Glue, i: nat): NodeData
    requires i <= |ch.edges|
  {
    NodeData(JoinedLabels(ch, glue, i), LiteralProps(Joined(ch, glue, i)))
  }

  function SpotNodes(ch: Chain, glue: Glue, k: nat): (ns: seq<NodeData>)
    requires k <= |ch.edges|
    ensures |ns| == Spot(ch, glue, k)
  {
    if k == 0 then [SpotData(ch, glue, 0)]
    else
      var before := SpotNodes(ch, glue, k - 1);
      (if k - 1 in glue then before[..|before| - 1] else before) + [SpotData(ch, glue, k)]
  }

  /** The data at the place of node `i` are those of the last node there. */
  lemma {:induction false} SpotNodeAt(ch: Chain, glue: Glue, k: nat, i: nat) returns (j: nat)
    requires i <= k <= |ch.edges|
    ensures i <= j <= k && Spot(ch, glue, j) == Spot(ch, glue, i) <= Spot(ch, glue, k)
    ensures forall l :: i <= l < j ==> l in glue
    ensures SpotNodes(ch, glue, k)[Spot(ch, glue, i) - 1] == SpotData(ch, glue, j)
  {
    hide SpotData;
    if i == k {
      j := k;
    } else {
      j := SpotNodeAt(ch, glue, k - 1, i);
      if Spot(ch, glue, i) == Spot(ch, glue, k) {
        assert k - 1 in glue && Spot(ch, glue, k - 1) == Spot(ch, glue, k);
        AllGlued(ch, glue, i, k);
        j := k;
      }
    }
  }

  lemma {:induction false} AllGlued(ch: Chain, glue: Glue, i: nat, k: nat)
    requires i <= k <= |ch.edges|
    ensures Spot(ch, glue, i) <= Spot(ch, glue, k)
    ensures Spot(ch, glue, i) == Spot(ch, glue, k) ==> forall l :: i <= l < k ==> l in glue
  {
    if i < k {
      AllGlued(ch, glue, i, k - 1);
    }
  }

  /** What is joined at the last node of a place covers every earlier one there. */
  lemma {:induction false} JoinedCovers(ch: Chain, glue: Glue, i: nat, j: nat)
    requires i <= j <= |ch.edges| && forall l :: i <= l < j ==> l in glue
    ensures forall p :: p in NodeOf(ch, i).properties ==> p in Joined(ch, glue, j)
    ensures forall l :: l in NodeOf(ch, i).labels ==> l in JoinedLabels(ch, glue, j)
  {
    if i < j {
      JoinedCovers(ch, glue, i, j - 1);
    }
  }

  // ---------- the store ----------

  function Between(e: EdgePattern, u: NodeId, v: NodeId): EdgeData {
    if Onward(e) then EdgeData(u, v, TypeOf(e), LiteralProps(e.properties)) else EdgeData(v, u, TypeOf(e), LiteralProps(e.properties))
  }

  function LoopEdges(ch: Chain, glue: Glue, k: nat): (es: seq<EdgeData>)
    requires k <= |ch.edges|
    ensures |es| == 2 * k
  {
    if k == 0 then []
    else
      var e, u, v := ch.edges[k - 1], Spot(ch, glue, k - 1), Spot(ch, glue, k);
      LoopEdges(ch, glue, k - 1) + [Between(e, u, v), Between(e, v, v)]
  }

  lemma {:induction false} LoopEdgeAt(ch: Chain, glue: Glue, k: nat, i: nat)
    requires i < k <= |ch.edges|
    ensures LoopEdges(ch, glue, k)[2 * i] == Between(ch.edges[i], Spot(ch, glue, i), Spot(ch, glue, i + 1))
    ensures LoopEdges(ch, glue, k)[2 * i + 1] == Between(ch.edges[i], Spot(ch, glue, i + 1), Spot(ch, glue, i + 1))
  {
    hide Between, Spot;
    if i + 1 < k {
      LoopEdgeAt(ch, glue, k - 1, i);
      assert LoopEdges(ch, glue, k)[2 * i] == LoopEdges(ch, glue, k - 1)[2 * i];
      assert LoopEdges(ch, glue, k)[2 * i + 1] == LoopEdges(ch, glue, k - 1)[2 * i + 1];
    }
  }

  function Lone(p: NodePattern): NodeData {
    NodeData(p.labels, LiteralProps(p.properties))
  }

  function Lones(ch: Chain, j: nat): (ns: seq<NodeData>)
    requires j <= |ch.others|
    ensures |ns| == j && forall i :: 0 <= i < j ==> ns[i] == Lone(ch.others[i])
  {
    if j == 0 then [] else Lones(ch, j - 1) + [Lone(ch.others[j - 1])]
  }

  function LoopNodes(ch: Chain, glue: Glue): seq<NodeData> {
    SpotNodes(ch, glue, |ch.edges|) + Lones(ch, |ch.others|)
  }

  function LoopStore(ch: Chain, glue: Glue): Graph {
    Wired(LoopNodes(ch, glue), LoopEdges(ch, glue, |ch.edges|))
  }

  function LoopCtx(ch: Chain, glue: Glue): Ctx {
    Ctx(LoopStore(ch, glue), Counting(|LoopNodes(ch, glue)|), map[], true, [])
  }

  lemma LoopStoreIsOk(ch: Chain, glue: Glue)
    ensures StoreOk(LoopCtx(ch, glue))
  {
    hide WellFormed, Enumerates;
    WiredShape(LoopNodes(ch, glue), LoopEdges(ch, glue, |ch.edges|));
    CountingEnumerates(LoopStore(ch, glue), LoopNodes(ch, glue));
  }

  lemma LoopStoreHas(ch: Chain, glue: Glue, id: NodeId)
    requires 1 <= id <= |LoopNodes(ch, glue)|
    ensures HasNode(LoopStore(ch, glue), id, LoopNodes(ch, glue)[id - 1])
  {
    hide LoopNodes, LoopEdges, Wired, WellFormed;
    WiredShape(LoopNodes(ch, glue), LoopEdges(ch, glue, |ch.edges|));
  }

  predicate HasEdge(g: Graph, id: EdgeId, d: EdgeData) {
    id in g.edges && g.edges[id] == Edge(id, d.source, d.target, d.edgeType, d.properties)
  }

  lemma LoopStoreEdges(ch: Chain, glue: Glue, i: nat)
    requires i < |ch.edges|
    ensures var e, u, v := ch.edges[i], Spot(ch, glue, i), Spot(ch, glue, i + 1);
            HasEdge(LoopStore(ch, glue), 2 * i + 1, Between(e, u, v)) && HasEdge(LoopStore(ch, glue), 2 * i + 2, Between(e, v, v))
  {
    hide LoopNodes, Wired, WellFormed, Between, Spot;
    WiredShape(LoopNodes(ch, glue), LoopEdges(ch, glue, |ch.edges|));
    LoopEdgeAt(ch, glue, |ch.edges|, i);
  }

  function LoneSpot(ch: Chain, glue: Glue, j: nat): NodeId {
    Spot(ch, glue, |ch.edges|) + 1 + j
  }

  function LoopStep(ch: Chain, glue: Glue, i: nat): Step
    requires i < |ch.edges|
  {
    if ch.edges[i].depth.None? then Along(2 * i + 1, Onward(ch.edges[i]), Spot(ch, glue, i + 1)) else Jump(Spot(ch, glue, i + 1))
  }

  function LoopMatch(ch: Chain, glue: Glue): (m: Match)
    ensures |m.steps| == |ch.edges| && |m.others| == |ch.others|
    ensures forall i :: 0 <= i < |ch.edges| ==> m.steps[i] == LoopStep(ch, glue, i)
    ensures forall j :: 0 <= j < |ch.others| ==> m.others[j] == LoneSpot(ch, glue, j)
    ensures |m.copies| == 1 + |ch.others| && forall j :: 0 <= j < |m.copies| ==> m.copies[j] == 0
  {
    Match(1, seq(|ch.edges|, i requires 0 <= i < |ch.edges| => LoopStep(ch, glue, i)),
          seq(|ch.others|, j requires 0 <= j < |ch.others| => LoneSpot(ch, glue, j)), seq(1 + |ch.others|, _ => 0))
  }

  lemma LoopMatchAt(ch: Chain, glue: Glue, i: nat)
    requires i <= |ch.edges|
    ensures At(LoopMatch(ch, glue), i) == Spot(ch, glue, i)
  {
  }

  // ---------- the match in it ----------

  lemma PartMeets(id: NodeId, labels: seq<string>, props: Properties, p: NodePattern)
    requires NoClash(props)
    requires forall q :: q in p.properties ==> q in props
    requires forall l :: l in p.labels ==> l in labels
    ensures Meets(Node(id, labels, LiteralProps(props)), p)
  {
    hide PropertyHolds, NoClash, LiteralProps;
    NoClashMeets(id, labels, props);
    var n := Node(id, labels, LiteralProps(props));
    forall i | 0 <= i < |p.properties| ensures PropertyHolds(n, p.properties[i]) {
      assert p.properties[i] in props;
      var j :| 0 <= j < |props| && props[j] == p.properties[i];
    }
  }

  lemma SpotMeets(ch: Chain, glue: Glue, i: nat)
    requires Joinable(ch, glue) && i <= |ch.edges|
    ensures NodeMeets(LoopStore(ch, glue), Spot(ch, glue, i), NodeOf(ch, i))
  {
    hide LoopStore, Meets, NoClash, LiteralProps, Joined, JoinedLabels, SpotNodes, Spot;
    var j := SpotNodeAt(ch, glue, |ch.edges|, i);
    LoopStoreHas(ch, glue, Spot(ch, glue, i));
    JoinedCovers(ch, glue, i, j);
    PartMeets(Spot(ch, glue, i), JoinedLabels(ch, glue, j), Joined(ch, glue, j), NodeOf(ch, i));
  }

  lemma LoneMeets(ch: Chain, glue: Glue, j: nat)
    requires Joinable(ch, glue) && j < |ch.others|
    ensures NodeMeets(LoopStore(ch, glue), LoneSpot(ch, glue, j), ch.others[j])
  {
    hide LoopStore, Meets, NoClash, LiteralProps, SpotNodes, Spot;
    LoopStoreHas(ch, glue, LoneSpot(ch, glue, j));
    var p := ch.others[j];
    PartMeets(LoneSpot(ch, glue, j), p.labels, p.properties, p);
  }

  /** A stored edge made for the pattern leads from one end to the other, with its properties. */
  lemma BetweenLeads(g: Graph, e: EdgePattern, id: EdgeId, u: NodeId, v: NodeId)
    requires HasEdge(g, id, Between(e, u, v)) && v in g.nodes && NoClash(e.properties)
    ensures EdgeHas(g.edges[id], e.properties)
    ensures Leads(Net(g, if e.depth.None? then HopTypes(e.edgeType) else PathTypes(e.edgeType), e.direction), id, Onward(e), u, v)
  {
    hide HopTypes, PathTypes, NoClash, LiteralProps, PropertyHolds;
    NoClashMeets(0, [], e.properties);
  }

  lemma HavingLeads(g: Graph, e: EdgePattern, id: EdgeId, u: NodeId, v: NodeId)
    requires e.depth.Some? && HasEdge(g, id, Between(e, u, v)) && v in g.nodes && NoClash(e.properties)
    ensures Linked(HavingNet(g, e), u, v)
  {
    hide PathTypes, NoClash, Between, EdgeHas;
    BetweenLeads(g, e, id, u, v);
    assert Leads(HavingNet(g, e), id, Onward(e), u, v);
  }

  /** From the first end to the second, then round the loop as often as needed. */
  lemma {:induction false} LoopReaches(ch: Chain, glue: Glue, i: nat, k: nat)
    requires i < |ch.edges| && ch.edges[i].depth.Some? && NoClash(ch.edges[i].properties) && k > 0
    ensures Reaches(HavingNet(LoopStore(ch, glue), ch.edges[i]), Spot(ch, glue, i), Spot(ch, glue, i + 1), k)
  {
    hide LoopStore, HavingNet, Between, NoClash, Linked, Spot, SpotNodes, HasEdge;
    var g, e, u, v := LoopStore(ch, glue), ch.edges[i], Spot(ch, glue, i), Spot(ch, glue, i + 1);
    LoopStoreEdges(ch, glue, i);
    SpotStored(ch, glue, i + 1);
    if k == 1 {
      HavingLeads(g, e, 2 * i + 1, u, v);
      assert Reaches(HavingNet(g, e), u, u, 0);
    } else {
      LoopReaches(ch, glue, i, k - 1);
      HavingLeads(g, e, 2 * i + 2, v, v);
    }
  }

  lemma SpotStored(ch: Chain, glue: Glue, i: nat)
    requires i <= |ch.edges|
    ensures Spot(ch, glue, i) in LoopStore(ch, glue).nodes
  {
    hide LoopStore, Spot;
    AllGlued(ch, glue, i, |ch.edges|);
    LoopStoreHas(ch, glue, Spot(ch, glue, i));
  }

  lemma GluedSpots(ch: Chain, glue: Glue, i: nat)
    requires i < |ch.edges|
    ensures Spot(ch, glue, i) == Spot(ch, glue, i + 1) <==> i in glue
  {
  }

  lemma LoopStepMeets(ch: Chain, glue: Glue, i: nat)
    requires Joinable(ch, glue) && i < |ch.edges|
    ensures StepMeets(LoopStore(ch, glue), ch.edges[i], Spot(ch, glue, i), LoopStep(ch, glue, i))
  {
    hide LoopStore, HavingNet, Between, NoClash, Spot, Leads, EdgeHas, HopTypes, PathTypes, Joined, Reaches;
    var g, e, u, v := LoopStore(ch, glue), ch.edges[i], Spot(ch, glue, i), Spot(ch, glue, i + 1);
    assert Walkable(e, i in glue);
    GluedSpots(ch, glue, i);
    SpotStored(ch, glue, i + 1);
    if e.depth.None? {
      LoopStoreEdges(ch, glue, i);
      BetweenLeads(g, e, 2 * i + 1, u, v);
    } else if e.depth.value.min == 0 && i in glue {
      NoStepNoMove(HavingNet(g, e), u, v);
    } else {
      LoopReaches(ch, glue, i, Prelude.Max(1, e.depth.value.min));
    }
  }

  lemma LabelTimes(n: Node, labels: seq<string>)
    requires HasLabels(n, labels)
    ensures Times(n, labels) > 0
  {
  }

  lemma LoopCopies(ch: Chain, glue: Glue)
    requires Joinable(ch, glue)
    ensures CopiesOk(ch, map[], LoopStore(ch, glue), LoopMatch(ch, glue))
  {
    hide LoopStore, HasLabels, PropertiesHold, Times, Joinable, LoneSpot;
    var g := LoopStore(ch, glue);
    SpotMeets(ch, glue, 0);
    LabelTimes(g.nodes[1], ch.first.labels);
    forall j | 0 <= j < |ch.others| ensures Times(NodeIn(g, LoneSpot(ch, glue, j)), ch.others[j].labels) > 0 {
      LoneMeets(ch, glue, j);
      LabelTimes(g.nodes[LoneSpot(ch, glue, j)], ch.others[j].labels);
    }
  }

  /** The store holds a match in the full sense. */
  lemma LoopIsIntended(ch: Chain, glue: Glue)
    requires Joinable(ch, glue)
    ensures IsIntended(ch, map[], LoopStore(ch, glue), LoopMatch(ch, glue))
  {
    hide LoopStore, NodeMeets, StepMeets, CopiesOk, Joinable, LoneSpot, Spot, LoopStep;
    var g, m := LoopStore(ch, glue), LoopMatch(ch, glue);
    forall i | 0 <= i <= |m.steps| ensures NodeMeets(g, At(m, i), NodeOf(ch, i)) {
      LoopMatchAt(ch, glue, i);
      SpotMeets(ch, glue, i);
    }
    forall i | 0 <= i < |m.steps| ensures StepMeets(g, ch.edges[i], At(m, i), m.steps[i]) {
      LoopMatchAt(ch, glue, i);
      LoopStepMeets(ch, glue, i);
    }
    forall j | 0 <= j < |m.others| ensures NodeMeets(g, m.others[j], ch.others[j]) {
      LoneMeets(ch, glue, j);
    }
    LoopCopies(ch, glue);
  }

  /** A glued edge, and one with a range behind 1, is not visible to the search: its ends are the same, or
      next to each other. */
  lemma LoopHides(ch: Chain, glue: Glue, i: nat)
    requires Joinable(ch, glue) && i < |ch.edges| && ch.edges[i].depth.Some?
    requires i in glue || ch.edges[i].depth.value.min >= 2
    ensures !Visible(LoopStore(ch, glue), ch.edges[i], Spot(ch, glue, i), Spot(ch, glue, i + 1))
  {
    hide LoopStore, Spot, Reaches, NoClash, Joined, PathTypes;
    var g, e := LoopStore(ch, glue), ch.edges[i];
    GluedSpots(ch, glue, i);
    assert Walkable(e, i in glue);
    if i !in glue {
      LoopReaches(ch, glue, i, 1);
      WalksWithout(g, e, Spot(ch, glue, i), Spot(ch, glue, i + 1), 1);
    }
  }

  // ---------- the glue of a match ----------

  /** The variable-length edges that a match takes back to their origin. */
  function GlueOf(ch: Chain, m: Match): Glue
    requires |m.steps| == |ch.edges|
  {
    set i: nat | i < |ch.edges| && ch.edges[i].depth.Some? && At(m, i) == At(m, i + 1)
  }

  lemma BothHold(n: Node, a: Properties, b: Properties)
    requires PropertiesHold(n, a) && PropertiesHold(n, b)
    ensures PropertiesHold(n, a + b)
  {
    hide PropertyHolds;
  }

  lemma IntendedNode(ch: Chain, parent: Tuple, g: Graph, m: Match, i: nat)
    requires IsIntended(ch, parent, g, m) && i <= |ch.edges|
    ensures NodeIn(g, At(m, i)) == g.nodes[At(m, i)] && PropertiesHold(NodeIn(g, At(m, i)), NodeOf(ch, i).properties)
  {
    hide StepMeets, CopiesOk, HasLabels, PropertiesHold;
    assert NodeMeets(g, At(m, i), NodeOf(ch, i));
  }

  lemma {:induction false} JoinedHold(ch: Chain, parent: Tuple, g: Graph, m: Match, i: nat)
    requires IsIntended(ch, parent, g, m) && i <= |ch.edges| == |m.steps|
    ensures PropertiesHold(NodeIn(g, At(m, i)), Joined(ch, GlueOf(ch, m), i))
  {
    hide IsIntended, PropertiesHold, NodeOf;
    IntendedNode(ch, parent, g, m, i);
    if i > 0 && i - 1 in GlueOf(ch, m) {
      JoinedHold(ch, parent, g, m, i - 1);
      BothHold(NodeIn(g, At(m, i)), Joined(ch, GlueOf(ch, m), i - 1), NodeOf(ch, i).properties);
    } else {
      assert [] + NodeOf(ch, i).properties == NodeOf(ch, i).properties;
    }
  }

  lemma {:induction false} WalkHasEdge(g: Graph, e: EdgePattern, u: NodeId, v: NodeId, k: nat)
    requires k > 0 && Reaches(HavingNet(g, e), u, v, k)
    ensures exists id :: id in g.edges && EdgeHas(g.edges[id], e.properties)
  {
    hide PathTypes, EdgeHas;
    var net := HavingNet(g, e);
    var w :| Reaches(net, u, w, k - 1) && Linked(net, w, v);
    var id, forward :| Leads(net, id, forward, w, v);
    assert id in g.edges && EdgeHas(g.edges[id], e.properties);
  }

  lemma EdgeNoClash(e: Edge, props: Properties)
    requires EdgeHas(e, props)
    ensures NoClash(props)
  {
    hide PropertyHolds, NoClash;
    MetHaveNoClash(Node(0, [], e.properties), props);
  }

  lemma MetIsWalkable(ch: Chain, parent: Tuple, g: Graph, m: Match, i: nat)
    requires IsIntended(ch, parent, g, m) && i < |ch.edges|
    ensures Walkable(ch.edges[i], i in GlueOf(ch, m))
  {
    hide NodeMeets, CopiesOk, EdgeHas, NoClash, Leads, HavingNet, HopTypes, Reaches;
    var e, u, v := ch.edges[i], At(m, i), At(m, i + 1);
    assert StepMeets(g, e, u, m.steps[i]);
    if e.depth.None? {
      EdgeNoClash(EdgeIn(g, m.steps[i].edge), e.properties);
    } else {
      var k: nat :| e.depth.value.min <= k <= e.depth.value.max && Reaches(HavingNet(g, e), u, v, k);
      if k == 0 {
        NoStepNoMove(HavingNet(g, e), u, v);
      } else {
        WalkHasEdge(g, e, u, v, k);
        var id :| id in g.edges && EdgeHas(g.edges[id], e.properties);
        EdgeNoClash(g.edges[id], e.properties);
      }
    }
  }

  /** A match in the full sense shows that its pattern can be met with the glue it has. */
  lemma IntendedIsJoinable(ch: Chain, parent: Tuple, g: Graph, m: Match)
    requires IsIntended(ch, parent, g, m)
    ensures Joinable(ch, GlueOf(ch, m))
  {
    hide StepMeets, CopiesOk, HasLabels, PropertiesHold, NoClash, Joined, GlueOf, Walkable;
    forall i | 0 <= i <= |ch.edges| ensures NoClash(Joined(ch, GlueOf(ch, m), i)) {
      JoinedHold(ch, parent, g, m, i);
      MetHaveNoClash(NodeIn(g, At(m, i)), Joined(ch, GlueOf(ch, m), i));
    }
    forall i | 0 <= i < |ch.edges| ensures Walkable(ch.edges[i], i in GlueOf(ch, m)) {
      MetIsWalkable(ch, parent, g, m, i);
    }
    forall j | 0 <= j < |ch.others| ensures NoClash(ch.others[j].properties) {
      assert NodeMeets(g, m.others[j], ch.others[j]);
      MetHaveNoClash(g.nodes[m.others[j]], ch.others[j].properties);
    }
  }
}
