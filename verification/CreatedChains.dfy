/** CREATE against MATCH: when the nodes and edges that CREATE makes of a chain are a match of that chain. */
module CreatedChains {
  import opened Prelude
  import opened Values
  import opened Ast
  import opened GraphStore
  import opened Traversal
  import opened Distances
  import opened Semantics
  import opened Chains
  import opened Bindings
  import opened Matching
  import opened MatchTheorem
  import opened Compilation
  import opened PathStores
  import opened Creation
  import opened Created
  import Expansions

  function NodePats(nodes: seq<NodePattern>): (r: seq<Pattern>)
    ensures |r| == |nodes| && forall i :: 0 <= i < |nodes| ==> r[i] == NodePat(nodes[i])
  {
    seq(|nodes|, i requires 0 <= i < |nodes| => NodePat(nodes[i]))
  }

  function EdgePats(edges: seq<EdgePattern>): (r: seq<Pattern>)
    ensures |r| == |edges| && forall i :: 0 <= i < |edges| ==> r[i] == EdgePat(edges[i])
  {
    seq(|edges|, i requires 0 <= i < |edges| => EdgePat(edges[i]))
  }

  /** The nodes of the chain, those at its edges first, then the standalone ones. */
  function AllNodes(ch: Chain): (r: seq<NodePattern>)
    ensures |r| == 1 + |ch.edges| + |ch.others|
    ensures forall i :: 0 <= i <= |ch.edges| ==> r[i] == NodeOf(ch, i)
    ensures forall j :: 0 <= j < |ch.others| ==> r[1 + |ch.edges| + j] == ch.others[j]
  {
    seq(1 + |ch.edges|, i requires 0 <= i <= |ch.edges| => NodeOf(ch, i)) + ch.others
  }

  /** CREATE (a), (b), .., (a)-[..]->(b), ..: every node of the chain, then its edges between them. */
  function CreateList(ch: Chain): (ps: seq<Pattern>)
    ensures |ps| == |AllNodes(ch)| + |ch.edges|
    ensures forall i :: 0 <= i < |AllNodes(ch)| ==> ps[i] == NodePat(AllNodes(ch)[i])
    ensures forall k :: 0 <= k < |ch.edges| ==> ps[|AllNodes(ch)| + k] == EdgePat(ch.edges[k])
  {
    NodePats(AllNodes(ch)) + EdgePats(ch.edges)
  }

  /** The match that goes through what was created, over the created edges from their source to their target. */
  function OwnMatch(ch: Chain, f: Firsts): Match {
    Match(f.node,
          seq(|ch.edges|, k requires 0 <= k < |ch.edges| =>
                if ch.edges[k].depth.None? then Along(f.edge + k, true, f.node + k + 1) else Jump(f.node + k + 1)),
          seq(|ch.others|, j => f.node + 1 + |ch.edges| + j),
          seq(1 + |ch.others|, _ => 0))
  }

  // ---------- when the created edge is found ----------

  /** The edge that CREATE makes, from the first node to the second with the whole type text as its type, is one
      that MATCH takes: the arrow does not point back, the type is no union, and the depth range holds 1. */
  ghost predicate EdgeReadable(e: EdgePattern) {
    && e.direction != Left
    && e.edgeType.Some?
    && TypeAllowed(if e.depth.None? then HopTypes(e.edgeType) else PathTypes(e.edgeType), e.edgeType.value)
    && (e.depth.Some? ==> e.depth.value.min <= 1 <= e.depth.value.max)
  }

  /** MATCH finds what CREATE makes of the chain: its edges are readable and no compiled property is null or is
      given twice with different values. */
  ghost predicate Readable(ch: Chain) {
    && (forall k :: 0 <= k < |ch.edges| ==> EdgeReadable(ch.edges[k]) && NoClash(NodeOf(ch, k).properties))
    && NoClash(ch.first.properties)
    && (forall j :: 0 <= j < |ch.others| ==> NoClash(ch.others[j].properties))
  }

  // ---------- numbering ----------

  lemma {:induction false} PatternCounts(ch: Chain, i: nat)
    requires i <= |CreateList(ch)|
    ensures NodePatterns(CreateList(ch), i) == if i <= |AllNodes(ch)| then i else |AllNodes(ch)|
    decreases i
  {
    hide CreateList, AllNodes;
    if i > 0 {
      PatternCounts(ch, i - 1);
      var ps := CreateList(ch);
      if i <= |AllNodes(ch)| {
        assert ps[i - 1].NodePat?;
      } else {
        EdgeListed(ch, i - 1);
      }
    }
  }

  /** No two nodes of the chain have the same variable. */
  ghost predicate Separate(ch: Chain) {
    && NodesApart(ch) && OthersApart(ch)
    && (forall i :: 0 <= i <= |ch.edges| ==> NodeOf(ch, i).variable.Some?)
    && (forall j :: 0 <= j < |ch.others| ==> ch.others[j].variable.Some?)
  }

  lemma VariableIsOwn(ch: Chain, i: nat, j: nat, v: string)
    requires Separate(ch) && i < |AllNodes(ch)| && j < |AllNodes(ch)|
    requires AllNodes(ch)[i].variable == Some(v) && AllNodes(ch)[j].variable == Some(v)
    ensures i == j
  {
    hide AllNodes;
    var n := 1 + |ch.edges|;
    if i < n {
      assert AllNodes(ch)[i] == NodeOf(ch, i) && NodeVar(ch, i) == v;
    } else {
      assert AllNodes(ch)[n + (i - n)] == ch.others[i - n] && OtherVar(ch, i - n) == v;
    }
    if j < n {
      assert AllNodes(ch)[j] == NodeOf(ch, j) && NodeVar(ch, j) == v;
    } else {
      assert AllNodes(ch)[n + (j - n)] == ch.others[j - n] && OtherVar(ch, j - n) == v;
    }
  }

  lemma EdgeListed(ch: Chain, j: nat)
    requires |AllNodes(ch)| <= j < |CreateList(ch)|
    ensures CreateList(ch)[j].EdgePat?
  {
    hide AllNodes, CreateList;
    var k := j - |AllNodes(ch)|;
    assert CreateList(ch)[|AllNodes(ch)| + k] == EdgePat(ch.edges[k]);
  }

  lemma NamesOwn(ch: Chain, n: nat, i: nat, v: string, id: NodeId, f: Firsts)
    requires Separate(ch) && |AllNodes(ch)| <= n <= |CreateList(ch)| && i < |AllNodes(ch)| && AllNodes(ch)[i].variable == Some(v)
    requires Names(CreateList(ch), n, map[], Some(v), id, f)
    ensures id == f.node + i
  {
    hide AllNodes, CreateList, Separate;
    var ps := CreateList(ch);
    assert NodeNamed(ps[i], v);
    var j: nat :| NamesAt(ps, n, v, j) && id == NodeIdAt(ps, j, f);
    assert j < |AllNodes(ch)| by {
      if j >= |AllNodes(ch)| {
        EdgeListed(ch, j);
      }
    }
    VariableIsOwn(ch, i, j, v);
    PatternCounts(ch, i);
  }

  // ---------- what is stored ----------

  /** Node `i` of the chain is stored with its labels and properties. */
  predicate NodeThere(ch: Chain, f: Firsts, h: Graph, i: nat)
    requires i < |AllNodes(ch)|
  {
    var id := f.node + i;
    id in h.nodes && h.nodes[id] == Node(id, AllNodes(ch)[i].labels, LiteralProps(AllNodes(ch)[i].properties))
  }

  /** Edge `k` of the chain is stored between its nodes with its type. */
  predicate EdgeThere(ch: Chain, f: Firsts, h: Graph, k: nat)
    requires k < |ch.edges|
  {
    var id := f.edge + k;
    && id in h.edges && h.edges[id].source == f.node + k && h.edges[id].target == f.node + k + 1
    && ch.edges[k].edgeType == Some(h.edges[id].edgeType)
  }

  /** The store holds the chain, and otherwise the edges it had. */
  ghost predicate Stores(ch: Chain, f: Firsts, g: Graph, h: Graph) {
    && (forall i :: 0 <= i < |AllNodes(ch)| ==> NodeThere(ch, f, h, i))
    && (forall k :: 0 <= k < |ch.edges| ==> EdgeThere(ch, f, h, k))
    && (forall id :: id in h.edges ==> (id in g.edges && h.edges[id] == g.edges[id]) || f.edge <= id < f.edge + |ch.edges|)
  }

  lemma PropsAreUnique(m: map<string, Value>, props: Properties)
    requires HasProps(m, props)
    ensures m == LiteralProps(props)
  {
    LiteralPropsAre(props);
    var l := LiteralProps(props);
    forall k ensures k in m <==> k in l {
      if k in m {
        var j: nat :| LastOfKey(props, j) && props[j].0 == k;
      }
      if k in l {
        var j: nat :| LastOfKey(props, j) && props[j].0 == k;
      }
    }
    forall k | k in m ensures m[k] == l[k] {
      var j: nat :| LastOfKey(props, j) && props[j].0 == k;
      SameValue(props[j].1, m[k], l[k]);
    }
  }

  lemma SameValue(lit: Literal, v: Value, w: Value)
    requires SameLiteral(lit, v) && SameLiteral(lit, w)
    ensures v == w
  {
  }

  lemma StoresNode(ch: Chain, f: Firsts, g: Graph, h: Graph, row: Tuple, i: nat)
    requires RowCreates(CreateList(ch), map[], f, g, h, row) && i < |AllNodes(ch)|
    ensures NodeThere(ch, f, h, i)
  {
    hide AllNodes, CreateList, HasProps, RowMade, EdgeMade, LiteralProps;
    var ps := CreateList(ch);
    PatternCounts(ch, i);
    assert ps[i] == NodePat(AllNodes(ch)[i]);
    assert NodeMade(ps, i, f, g, h);
    PropsAreUnique(h.nodes[f.node + i].properties, AllNodes(ch)[i].properties);
  }

  lemma EdgePatternMade(ch: Chain, f: Firsts, g: Graph, h: Graph, row: Tuple, k: nat)
    requires RowCreates(CreateList(ch), map[], f, g, h, row) && k < |ch.edges|
    ensures CreateList(ch)[|AllNodes(ch)| + k] == EdgePat(ch.edges[k]) && EdgeMade(CreateList(ch), |AllNodes(ch)| + k, map[], f, g, h)
    ensures EdgeIdAt(CreateList(ch), |AllNodes(ch)| + k, f) == f.edge + k
  {
    hide AllNodes, CreateList, EdgeMade, RowMade, NodeMade;
    PatternCounts(ch, |AllNodes(ch)| + k);
  }

  lemma EdgeEnds(ch: Chain, k: nat)
    requires WellShaped(ch) && Separate(ch) && k < |ch.edges|
    ensures ch.edges[k].fromNode == AllNodes(ch)[k] && ch.edges[k].toNode == AllNodes(ch)[k + 1]
    ensures AllNodes(ch)[k].variable.Some? && AllNodes(ch)[k + 1].variable.Some?
  {
    hide AllNodes;
    assert AllNodes(ch)[k] == NodeOf(ch, k) && AllNodes(ch)[k + 1] == NodeOf(ch, k + 1);
  }

  lemma StoresEdge(ch: Chain, f: Firsts, g: Graph, h: Graph, row: Tuple, k: nat)
    requires WellShaped(ch) && Separate(ch) && RowCreates(CreateList(ch), map[], f, g, h, row) && k < |ch.edges|
    ensures EdgeThere(ch, f, h, k)
  {
    hide AllNodes, CreateList, HasProps, RowCreates, Names, EdgeIdAt, Separate, WellShaped;
    EdgePatternMade(ch, f, g, h, row, k);
    EdgeEnds(ch, k);
    var n, id := |AllNodes(ch)| + k, f.edge + k;
    NamesOwn(ch, n, k, AllNodes(ch)[k].variable.value, h.edges[id].source, f);
    NamesOwn(ch, n, k + 1, AllNodes(ch)[k + 1].variable.value, h.edges[id].target, f);
  }

  lemma ChainIsStored(ch: Chain, g: Graph)
    requires WellShaped(ch) && Separate(ch) && WellFormed(g) && CreateRow(CreateList(ch), map[], g).result.Ok?
    ensures var h := CreateRow(CreateList(ch), map[], g).g; WellFormed(h) && Stores(ch, Firsts(g.nextNode, g.nextEdge), g, h)
  {
    hide AllNodes, CreateList, RowCreates, LiteralProps, WellFormed, CreateRow, NodeThere, EdgeThere, WellShaped, Separate;
    var ps, f := CreateList(ch), Firsts(g.nextNode, g.nextEdge);
    var o := CreateRow(ps, map[], g);
    CreateRowMakes(ps, map[], g);
    PatternCounts(ch, |ps|);
    forall i | 0 <= i < |AllNodes(ch)| ensures NodeThere(ch, f, o.g, i) {
      StoresNode(ch, f, g, o.g, o.result.value, i);
    }
    forall k | 0 <= k < |ch.edges| ensures EdgeThere(ch, f, o.g, k) {
      StoresEdge(ch, f, g, o.g, o.result.value, k);
    }
    OtherEdges(g, o.g, |ch.edges|);
  }

  lemma OtherEdges(g: Graph, h: Graph, n: nat)
    requires WellFormed(g) && WellFormed(h) && Kept(g, h) && h.nextEdge == g.nextEdge + n
    ensures forall id :: id in h.edges ==> (id in g.edges && h.edges[id] == g.edges[id]) || g.nextEdge <= id < g.nextEdge + n
  {
    hide LabelsAgree, AdjacencyAgrees;
  }

  // ---------- the steps ----------

  lemma HopIsFound(ch: Chain, f: Firsts, g: Graph, h: Graph, k: nat)
    requires Stores(ch, f, g, h) && k < |ch.edges| && ch.edges[k].depth.None?
    ensures StepOk(h, ch.edges[k], f.node + k, Along(f.edge + k, true, f.node + k + 1)) <==> EdgeReadable(ch.edges[k])
  {
    hide HopTypes, PathTypes, AllNodes, LiteralProps;
    assert NodeThere(ch, f, h, k + 1) && EdgeThere(ch, f, h, k);
  }

  /** The nodes of the chain up to number `k`. */
  predicate UpTo(f: Firsts, k: nat, id: NodeId) {
    f.node <= id <= f.node + k
  }

  /** MATCH never follows the edge from its source to its target. */
  predicate Blocked(e: EdgePattern) {
    e.direction == Left || (e.edgeType.Some? && !TypeAllowed(PathTypes(e.edgeType), e.edgeType.value))
  }

  /** Following edge pattern `k`, an edge that is not readable is the only way on. */
  lemma NoWayOn(ch: Chain, f: Firsts, g: Graph, h: Graph, k: nat, id: EdgeId, forward: bool, u: NodeId, v: NodeId)
    requires Stores(ch, f, g, h) && NoDangling(g) && (forall x :: x in g.nodes ==> x < f.node) && k < |ch.edges|
    requires UpTo(f, k, u) && Leads(Net(h, PathTypes(ch.edges[k].edgeType), ch.edges[k].direction), id, forward, u, v)
    requires Blocked(ch.edges[k])
    ensures UpTo(f, k, v)
  {
    hide PathTypes, AllNodes, LiteralProps;
    if id in g.edges && h.edges[id] == g.edges[id] {
      OldEnds(g, id, forward);
    } else {
      assert EdgeThere(ch, f, h, id - f.edge);
    }
  }

  lemma OldEnds(g: Graph, id: EdgeId, forward: bool)
    requires NoDangling(g) && id in g.edges
    ensures NearEnd(g.edges[id], forward) in g.nodes
  {
  }

  lemma {:induction false} StaysBehind(ch: Chain, f: Firsts, g: Graph, h: Graph, k: nat, v: NodeId, d: nat)
    requires Stores(ch, f, g, h) && NoDangling(g) && (forall x :: x in g.nodes ==> x < f.node) && k < |ch.edges|
    requires Blocked(ch.edges[k])
    requires Reaches(Net(h, PathTypes(ch.edges[k].edgeType), ch.edges[k].direction), f.node + k, v, d)
    ensures UpTo(f, k, v)
    decreases d
  {
    hide Stores, NoDangling, PathTypes, Leads;
    if d > 0 {
      var net := Net(h, PathTypes(ch.edges[k].edgeType), ch.edges[k].direction);
      var w :| Reaches(net, f.node + k, w, d - 1) && Linked(net, w, v);
      StaysBehind(ch, f, g, h, k, w, d - 1);
      var id, forward :| Leads(net, id, forward, w, v);
      NoWayOn(ch, f, g, h, k, id, forward, w, v);
    }
  }

  lemma OneStep(net: Net, id: EdgeId, u: NodeId, v: NodeId)
    requires Leads(net, id, true, u, v) && u != v
    ensures AtDistance(net, u, v, 1)
  {
    hide Leads;
    assert Reaches(net, u, u, 0);
    assert Linked(net, u, v);
  }

  lemma JumpIsFound(ch: Chain, f: Firsts, g: Graph, h: Graph, k: nat)
    requires Stores(ch, f, g, h) && NoDangling(g) && (forall x :: x in g.nodes ==> x < f.node)
    requires k < |ch.edges| && ch.edges[k].depth.Some?
    ensures StepOk(h, ch.edges[k], f.node + k, Jump(f.node + k + 1)) <==> EdgeReadable(ch.edges[k])
  {
    hide HopTypes, PathTypes, AllNodes, LiteralProps, AtDistance, Reaches, NoDangling;
    var e, u, v := ch.edges[k], f.node + k, f.node + k + 1;
    var net, goal := Net(h, PathTypes(e.edgeType), e.direction), Goal(u, e.depth.value.min, e.depth.value.max);
    assert NodeThere(ch, f, h, k + 1) && EdgeThere(ch, f, h, k);
    if e.direction != Left && TypeAllowed(net.types, e.edgeType.value) {
      assert Leads(net, f.edge + k, true, u, v);
      OneStep(net, f.edge + k, u, v);
      if d: nat :| Band(net, goal, v, d) {
        DistanceUnique(net, u, v, 1, d);
      }
      if e.depth.value.min <= 1 <= e.depth.value.max {
        assert Band(net, goal, v, 1);
      }
    } else {
      forall d: nat ensures !Band(net, goal, v, d) {
        if Band(net, goal, v, d) {
          AtDistanceReaches(net, u, v, d);
          StaysBehind(ch, f, g, h, k, v, d);
        }
      }
    }
  }

  lemma AtDistanceReaches(net: Net, u: NodeId, v: NodeId, d: nat)
    requires AtDistance(net, u, v, d)
    ensures Reaches(net, u, v, d)
  {
  }

  // ---------- the theorem ----------

  lemma OwnMatchAt(ch: Chain, f: Firsts, k: nat)
    requires k < |ch.edges|
    ensures |OwnMatch(ch, f).steps| == |ch.edges| && At(OwnMatch(ch, f), k) == f.node + k
    ensures OwnMatch(ch, f).steps[k] == if ch.edges[k].depth.None? then Along(f.edge + k, true, f.node + k + 1) else Jump(f.node + k + 1)
  {
  }

  lemma EdgeFrom(ch: Chain, k: nat)
    requires WellShaped(ch) && k < |ch.edges|
    ensures ch.edges[k].fromNode == NodeOf(ch, k) && AllNodes(ch)[k] == NodeOf(ch, k)
  {
  }

  lemma OwnStep(ch: Chain, g: Graph, h: Graph, k: nat)
    requires WellShaped(ch) && NoDangling(g) && DenseIds(g) && Stores(ch, Firsts(g.nextNode, g.nextEdge), g, h) && k < |ch.edges|
    ensures var m := OwnMatch(ch, Firsts(g.nextNode, g.nextEdge));
            && |m.steps| == |ch.edges|
            && (StepOk(h, ch.edges[k], At(m, k), m.steps[k]) <==> EdgeReadable(ch.edges[k]))
            && (PropertiesHold(NodeIn(h, At(m, k)), ch.edges[k].fromNode.properties) <==> NoClash(NodeOf(ch, k).properties))
  {
    hide StepOk, EdgeReadable, NoClash, PropertiesHold, Stores, AllNodes, NoDangling, OwnMatch, At, WellShaped, NodeOf;
    var f := Firsts(g.nextNode, g.nextEdge);
    OwnMatchAt(ch, f, k);
    EdgeFrom(ch, k);
    StoredMeets(ch, f, g, h, k);
    if ch.edges[k].depth.None? {
      HopIsFound(ch, f, g, h, k);
    } else {
      JumpIsFound(ch, f, g, h, k);
    }
  }

  lemma OwnSteps(ch: Chain, g: Graph, h: Graph)
    requires WellShaped(ch) && NoDangling(g) && DenseIds(g) && Stores(ch, Firsts(g.nextNode, g.nextEdge), g, h)
    ensures StepsOk(ch, h, OwnMatch(ch, Firsts(g.nextNode, g.nextEdge))) <==>
      forall k :: 0 <= k < |ch.edges| ==> EdgeReadable(ch.edges[k]) && NoClash(NodeOf(ch, k).properties)
  {
    hide StepOk, EdgeReadable, NoClash, PropertiesHold, Stores, NoDangling, At, DenseIds, WellShaped;
    var m := OwnMatch(ch, Firsts(g.nextNode, g.nextEdge));
    forall k | 0 <= k < |ch.edges|
      ensures StepOk(h, ch.edges[k], At(m, k), m.steps[k]) <==> EdgeReadable(ch.edges[k])
      ensures PropertiesHold(NodeIn(h, At(m, k)), ch.edges[k].fromNode.properties) <==> NoClash(NodeOf(ch, k).properties)
    {
      OwnStep(ch, g, h, k);
    }
  }

  /** A created node has the properties of its pattern exactly when these do not clash. */
  lemma StoredMeets(ch: Chain, f: Firsts, g: Graph, h: Graph, i: nat)
    requires Stores(ch, f, g, h) && i < |AllNodes(ch)|
    ensures f.node + i in h.nodes && h.nodes[f.node + i].labels == AllNodes(ch)[i].labels
    ensures PropertiesHold(h.nodes[f.node + i], AllNodes(ch)[i].properties) <==> NoClash(AllNodes(ch)[i].properties)
  {
    hide AllNodes, NoClash, PropertiesHold, LiteralProps;
    assert NodeThere(ch, f, h, i);
    var n := h.nodes[f.node + i];
    if NoClash(AllNodes(ch)[i].properties) {
      NoClashMeets(f.node + i, AllNodes(ch)[i].labels, AllNodes(ch)[i].properties);
    }
    if PropertiesHold(n, AllNodes(ch)[i].properties) {
      MetHaveNoClash(n, AllNodes(ch)[i].properties);
    }
  }

  lemma OwnLabels(ch: Chain, f: Firsts, g: Graph, h: Graph, i: nat)
    requires Stores(ch, f, g, h) && i < |AllNodes(ch)|
    ensures f.node + i in h.nodes && Carries(h.nodes[f.node + i], AllNodes(ch)[i].labels)
    ensures 0 < Times(h.nodes[f.node + i], AllNodes(ch)[i].labels)
  {
    hide AllNodes, LiteralProps;
    StoredMeets(ch, f, g, h, i);
    var labels := AllNodes(ch)[i].labels;
    if labels != [] {
      assert labels[0] in multiset(labels);
    }
  }

  lemma OwnOthers(ch: Chain, g: Graph, h: Graph)
    requires Stores(ch, Firsts(g.nextNode, g.nextEdge), g, h)
    ensures OthersOk(ch, h, OwnMatch(ch, Firsts(g.nextNode, g.nextEdge))) <==>
      forall j :: 0 <= j < |ch.others| ==> NoClash(ch.others[j].properties)
    ensures CopiesOk(ch, map[], h, OwnMatch(ch, Firsts(g.nextNode, g.nextEdge)))
    ensures Candidate(h, map[], NodeVar(ch, 0), ch.first.labels, g.nextNode)
  {
    hide Stores, NoClash, PropertiesHold, LiteralProps, AllNodes, Carries, Times;
    var f := Firsts(g.nextNode, g.nextEdge);
    var m, n := OwnMatch(ch, f), 1 + |ch.edges|;
    OwnLabels(ch, f, g, h, 0);
    assert AllNodes(ch)[0] == NodeOf(ch, 0);
    forall j | 0 <= j < |ch.others|
      ensures m.others[j] in h.nodes && Carries(h.nodes[m.others[j]], ch.others[j].labels) && 0 < Times(h.nodes[m.others[j]], ch.others[j].labels)
      ensures PropertiesHold(h.nodes[m.others[j]], ch.others[j].properties) <==> NoClash(ch.others[j].properties)
    {
      assert AllNodes(ch)[n + j] == ch.others[j] && m.others[j] == f.node + (n + j);
      OwnLabels(ch, f, g, h, n + j);
      StoredMeets(ch, f, g, h, n + j);
    }
  }

  /** MATCH of a chain finds the nodes and edges that CREATE of the same chain has just made exactly when its
      edges are readable and its compiled properties do not clash. In particular CREATE stores `(a)<-[..]-(b)`
      as an edge from a to b, which the same pattern in MATCH does not find. */
  lemma CreatedIsMatched(ch: Chain, g: Graph)
    requires WellShaped(ch) && Separate(ch) && WellFormed(g) && NoDangling(g) && CreateRow(CreateList(ch), map[], g).result.Ok?
    ensures FullMatch(ch, map[], CreateRow(CreateList(ch), map[], g).g, OwnMatch(ch, Firsts(g.nextNode, g.nextEdge))) <==> Readable(ch)
  {
    hide Stores, NoClash, PropertiesHold, LiteralProps, AllNodes, EdgeReadable, StepsOk, OthersOk, CopiesOk, CreateRow, NoDangling, LabelsAgree,
         AdjacencyAgrees, CreateList, Candidate;
    var h, f := CreateRow(CreateList(ch), map[], g).g, Firsts(g.nextNode, g.nextEdge);
    ChainIsStored(ch, g);
    OwnSteps(ch, g, h);
    OwnOthers(ch, g, h);
    StoredMeets(ch, f, g, h, 0);
    assert AllNodes(ch)[0] == NodeOf(ch, 0);
  }
}
