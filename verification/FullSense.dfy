/** What a chain pattern asks for, whatever is compiled of it and however it is searched: matches in the full
    sense, and which of them the executor finds. */
module FullSense {
  import opened Prelude
  import opened Values
  import opened Ast
  import opened GraphStore
  import opened Traversal
  import opened Distances
  import opened Semantics
  import opened Chains
  import opened Bindings
  import opened Matching
  import opened MatchTheorem
  import opened Compilation

  predicate HasLabels(n: Node, labels: seq<string>) {
    forall i :: 0 <= i < |labels| ==> labels[i] in n.labels
  }

  /** A node that is everything its pattern asks for. */
  ghost predicate Meets(n: Node, p: NodePattern) {
    HasLabels(n, p.labels) && PropertiesHold(n, p.properties)
  }

  predicate EdgeHas(e: Edge, props: Properties) {
    forall i :: 0 <= i < |props| ==> PropertyHolds(Node(0, [], e.properties), props[i])
  }

  /** The store with only those edges that have the properties. */
  function Having(g: Graph, props: Properties): Graph {
    g.(edges := map id | id in g.edges && EdgeHas(g.edges[id], props) :: g.edges[id])
  }

  ghost predicate WalkMeets(net: Net, depth: DepthRange, u: NodeId, v: NodeId) {
    exists k: nat :: depth.min <= k <= depth.max && Reaches(net, u, v, k)
  }

  function HavingNet(g: Graph, e: EdgePattern): Net {
    Net(Having(g, e.properties), PathTypes(e.edgeType), e.direction)
  }

  /** One stored edge of an allowed type and sense that has the inline properties of the pattern; or a walk
      within the depth range all of whose edges are like that. A walk may return to its origin, and a range
      that starts at 0 admits the walk without edges. */
  ghost predicate StepMeets(g: Graph, e: EdgePattern, from: NodeId, s: Step) {
    if e.depth.None? then
      s.Along? && Leads(Net(g, HopTypes(e.edgeType), e.direction), s.edge, s.forward, from, s.node) && EdgeHas(EdgeIn(g, s.edge), e.properties)
    else s.Jump? && WalkMeets(HavingNet(g, e), e.depth.value, from, s.node)
  }

  ghost predicate NodeMeets(g: Graph, id: NodeId, p: NodePattern) {
    id in g.nodes && Meets(g.nodes[id], p)
  }

  /** A match in the full sense: every node and every edge or walk is stored and meets its own pattern, and
      the first node is the one the outer row holds, if it holds one. */
  ghost predicate IsIntended(ch: Chain, parent: Tuple, g: Graph, m: Match) {
    && |m.steps| == |ch.edges| && |m.others| == |ch.others|
    && (NodeVar(ch, 0) in parent ==> parent[NodeVar(ch, 0)] == NodeRef(m.start))
    && (forall i :: 0 <= i <= |m.steps| ==> NodeMeets(g, At(m, i), NodeOf(ch, i)))
    && (forall i :: 0 <= i < |m.steps| ==> StepMeets(g, ch.edges[i], At(m, i), m.steps[i]))
    && (forall j :: 0 <= j < |m.others| ==> NodeMeets(g, m.others[j], ch.others[j]))
    && CopiesOk(ch, parent, g, m)
  }

  // ---------- which of them are found ----------

  /** The search reports a pair of different nodes that no walk shorter than the range joins. */
  ghost predicate Visible(g: Graph, e: EdgePattern, u: NodeId, v: NodeId) {
    u != v && forall k: nat :: e.depth.Some? && k < e.depth.value.min ==> !Reaches(Net(g, PathTypes(e.edgeType), e.direction), u, v, k)
  }

  ghost predicate StepsVisible(ch: Chain, g: Graph, m: Match)
    requires |m.steps| <= |ch.edges|
  {
    forall i :: 0 <= i < |m.steps| && ch.edges[i].depth.Some? ==> Visible(g, ch.edges[i], At(m, i), m.steps[i].node)
  }

  lemma {:induction false} WalksWithout(g: Graph, e: EdgePattern, u: NodeId, v: NodeId, k: nat)
    requires Reaches(HavingNet(g, e), u, v, k)
    ensures Reaches(Net(g, PathTypes(e.edgeType), e.direction), u, v, k)
    decreases k
  {
    hide PathTypes;
    if k > 0 {
      var w :| Reaches(HavingNet(g, e), u, w, k - 1) && Linked(HavingNet(g, e), w, v);
      WalksWithout(g, e, u, w, k - 1);
      var id, forward :| Leads(HavingNet(g, e), id, forward, w, v);
      assert Leads(Net(g, PathTypes(e.edgeType), e.direction), id, forward, w, v);
      assert Linked(Net(g, PathTypes(e.edgeType), e.direction), w, v);
    }
  }

  /** A walk in range is found exactly when its end is visible from its start. */
  lemma WalkIsFound(g: Graph, e: EdgePattern, u: NodeId, v: NodeId)
    requires e.depth.Some? && v in g.nodes && WalkMeets(HavingNet(g, e), e.depth.value, u, v)
    ensures StepOk(g, e, u, Jump(v)) <==> Visible(g, e, u, v)
  {
    hide PathTypes, Reaches;
    var net, goal := Net(g, PathTypes(e.edgeType), e.direction), Goal(u, e.depth.value.min, e.depth.value.max);
    var k: nat :| e.depth.value.min <= k <= e.depth.value.max && Reaches(HavingNet(g, e), u, v, k);
    WalksWithout(g, e, u, v, k);
    var d := Nearest(net, u, v, k);
    if Visible(g, e, u, v) {
      NoStepNoMove(net, u, v);
      assert Band(net, goal, v, d);
    }
    if StepOk(g, e, u, Jump(v)) {
      var b :| Band(net, goal, v, b);
      NoStepNoMove(net, u, v);
    }
  }

  lemma NoStepNoMove(net: Net, u: NodeId, v: NodeId)
    ensures Reaches(net, u, v, 0) <==> u == v
  {
  }

  lemma StepIsFound(g: Graph, e: EdgePattern, u: NodeId, s: Step)
    requires s.node in g.nodes && StepMeets(g, e, u, s)
    ensures StepOk(g, e, u, s) <==> (e.depth.Some? ==> Visible(g, e, u, s.node))
  {
    hide Leads, WalkMeets, Visible, HopTypes, PathTypes, Band;
    if e.depth.Some? {
      WalkIsFound(g, e, u, s.node);
      assert s == Jump(s.node);
    }
  }

  lemma NodeCarries(g: Graph, id: NodeId, p: NodePattern)
    requires NodeMeets(g, id, p)
    ensures Carries(g.nodes[id], p.labels) && PropertiesHold(g.nodes[id], p.properties)
  {
    hide PropertiesHold;
  }

  lemma StartIsCandidate(ch: Chain, parent: Tuple, g: Graph, m: Match)
    requires IsIntended(ch, parent, g, m)
    ensures Candidate(g, parent, NodeVar(ch, 0), ch.first.labels, m.start) && PropertiesHold(g.nodes[m.start], ch.first.properties)
  {
    hide StepMeets, Meets, CopiesOk;
    assert NodeMeets(g, At(m, 0), NodeOf(ch, 0));
    NodeCarries(g, m.start, ch.first);
  }

  lemma OthersAreOk(ch: Chain, parent: Tuple, g: Graph, m: Match)
    requires IsIntended(ch, parent, g, m)
    ensures OthersOk(ch, g, m)
  {
    hide StepMeets, Meets, CopiesOk, Carries, PropertiesHold;
    forall j | 0 <= j < |m.others| ensures Carries(g.nodes[m.others[j]], ch.others[j].labels)
                                        && PropertiesHold(g.nodes[m.others[j]], ch.others[j].properties)
    {
      NodeCarries(g, m.others[j], ch.others[j]);
    }
  }

  lemma StepsAreOk(ch: Chain, parent: Tuple, g: Graph, m: Match)
    requires WellShaped(ch) && IsIntended(ch, parent, g, m)
    ensures StepsOk(ch, g, m) <==> StepsVisible(ch, g, m)
  {
    hide StepMeets, Meets, CopiesOk, StepOk, Visible, PropertiesHold, Carries;
    forall i | 0 <= i < |m.steps|
      ensures StepOk(g, ch.edges[i], At(m, i), m.steps[i]) <==> (ch.edges[i].depth.Some? ==> Visible(g, ch.edges[i], At(m, i), m.steps[i].node))
      ensures PropertiesHold(NodeIn(g, At(m, i)), ch.edges[i].fromNode.properties)
    {
      assert NodeMeets(g, At(m, i), NodeOf(ch, i)) && NodeMeets(g, At(m, i + 1), NodeOf(ch, i + 1));
      NodeCarries(g, At(m, i), NodeOf(ch, i));
      StepIsFound(g, ch.edges[i], At(m, i), m.steps[i]);
    }
  }

  /** On any store, a match in the full sense is found exactly when every variable-length edge leads to
      another node, and no walk shorter than its range leads there. */
  lemma FoundExactlyWhen(ch: Chain, parent: Tuple, g: Graph, m: Match)
    requires WellShaped(ch) && IsIntended(ch, parent, g, m)
    ensures FullMatch(ch, parent, g, m) <==> StepsVisible(ch, g, m)
  {
    hide StepMeets, NodeMeets, CopiesOk, StepsOk, OthersOk, StepsVisible, Candidate, PropertiesHold, WellShaped;
    StartIsCandidate(ch, parent, g, m);
    OthersAreOk(ch, parent, g, m);
    StepsAreOk(ch, parent, g, m);
  }
}
