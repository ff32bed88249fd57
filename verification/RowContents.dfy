/** What the rows of MATCH hold: under every variable of the pattern the node or edge that the match puts there,
    with its properties, and nothing else. */
module RowContents {
  import opened Prelude
  import opened Values
  import opened Ast
  import opened GraphStore
  import opened Distances
  import opened Planner
  import opened Semantics
  import opened Chains
  import opened Bindings
  import opened Matching
  import opened Expansions
  import opened Compilation

  /** The row holds node `id` of the store under `v`, and under `v.k` its property `k`, for its properties only. */
  ghost predicate HoldsNode(t: Tuple, v: string, g: Graph, id: NodeId) {
    && id in g.nodes && v in t && t[v] == NodeRef(id)
    && (forall k :: k in g.nodes[id].properties ==> v + "." + k in t && t[v + "." + k] == g.nodes[id].properties[k])
    && (forall k :: v + "." + k in t ==> k in g.nodes[id].properties)
  }

  /** The row holds edge `id` of the store under `r`: its number, and under `r.k` its property `k`. Its type is
      under `r.edge_type`, unless it has a property of that name. */
  ghost predicate HoldsEdge(t: Tuple, r: string, g: Graph, id: EdgeId) {
    && id in g.edges && r in t && t[r] == Int(id)
    && (forall k :: k in g.edges[id].properties ==> r + "." + k in t && t[r + "." + k] == g.edges[id].properties[k])
    && ("edge_type" !in g.edges[id].properties ==> r + "." + "edge_type" in t && t[r + "." + "edge_type"] == Str(g.edges[id].edgeType))
  }

  /** It holds nothing else of the edge. */
  ghost predicate HoldsOnlyEdge(t: Tuple, r: string, g: Graph, id: EdgeId) {
    id in g.edges && forall k :: r + "." + k in t ==> k in g.edges[id].properties || k == "edge_type"
  }

  /** The pattern edge that puts a stored edge under `r`: a one-hop edge with that variable. */
  predicate BindsAt(ch: Chain, k: nat, r: string) {
    k < |ch.edges| && ch.edges[k].depth.None? && ch.edges[k].variable == Some(r)
  }

  ghost predicate BindsLast(ch: Chain, k: nat, r: string) {
    BindsAt(ch, k, r) && forall j :: k < j < |ch.edges| ==> !BindsAt(ch, j, r)
  }

  ghost predicate BindsAlone(ch: Chain, k: nat, r: string) {
    BindsAt(ch, k, r) && forall j :: 0 <= j < |ch.edges| && j != k ==> !BindsAt(ch, j, r)
  }

  /** The edge leads from `u` to `v` in the direction of the arrow. */
  predicate Crosses(e: Edge, dir: Direction, u: NodeId, v: NodeId) {
    || (dir != Left && e.source == u && e.target == v)
    || (dir != Right && e.source == v && e.target == u)
  }

  /** The row holds every node of the match under its variable, and every edge it follows under its own, the
      last one when several share a variable. */
  ghost predicate HoldsMatch(ch: Chain, g: Graph, t: Tuple, m: Match) {
    && |m.steps| == |ch.edges| && |m.others| == |ch.others|
    && (forall i :: 0 <= i <= |ch.edges| ==> HoldsNode(t, NodeVar(ch, i), g, At(m, i)))
    && (forall j :: 0 <= j < |ch.others| ==> HoldsNode(t, OtherVar(ch, j), g, m.others[j]))
    && (forall k: nat, r :: k < |ch.edges| && BindsLast(ch, k, r) ==> m.steps[k].Along? && HoldsEdge(t, r, g, m.steps[k].edge))
    && (forall k: nat, r :: k < |ch.edges| && BindsAlone(ch, k, r) && m.steps[k].Along? ==> HoldsOnlyEdge(t, r, g, m.steps[k].edge))
    && (forall k :: 0 <= k < |ch.edges| && m.steps[k].Along? ==>
          m.steps[k].edge in g.edges && Crosses(g.edges[m.steps[k].edge], ch.edges[k].direction, At(m, k), At(m, k + 1)))
  }

  lemma NodeStored(ch: Chain, parent: Tuple, g: Graph, m: Match, i: nat)
    requires FullMatch(ch, parent, g, m) && i <= |ch.edges|
    ensures At(m, i) in g.nodes
  {
    hide PropertiesHold, OthersOk, Carries, Band;
    if i > 0 {
      assert StepOk(g, ch.edges[i - 1], At(m, i - 1), m.steps[i - 1]);
    }
  }

  lemma NodeInRow(ch: Chain, parent: Tuple, g: Graph, m: Match, i: nat)
    requires WellNamed(ch) && ParentOk(ch, parent, g) && |m.steps| == |ch.edges| && |m.others| == |ch.others| && i <= |ch.edges|
    requires Candidate(g, parent, NodeVar(ch, 0), ch.first.labels, m.start)
    ensures Bound(MatchRow(ch, parent, g, m), NodeVar(ch, i), NodeIn(g, At(m, i)))
  {
    hide Bound, StepsRow, Candidate, NodeVar, OtherVar, ParentOk, OthersRow;
    StepsRowBinds(ch, parent, g, m.start, m.steps, i);
    assert forall j :: 0 <= j < |m.others| ==> OtherVar(ch, j) != NodeVar(ch, i);
    OthersFrame(ch, g, StepsRow(ch, parent, g, m.start, m.steps), m.others, NodeVar(ch, i), NodeIn(g, At(m, i)));
  }

  lemma NodeIsHeld(t: Tuple, v: string, g: Graph, id: NodeId)
    requires DenseIds(g) && id in g.nodes && Bound(t, v, NodeIn(g, id))
    ensures HoldsNode(t, v, g, id)
  {
    forall k ensures PropKey(v, k) == v + "." + k {}
  }

  // ---------- edges ----------

  /** Row `t` holds edge `e` under `r`. */
  ghost predicate EdgeBound(t: Tuple, r: string, e: Edge) {
    && r in t && t[r] == Int(e.id)
    && (forall k :: k in e.properties ==> PropKey(r, k) in t && t[PropKey(r, k)] == e.properties[k])
    && ("edge_type" !in e.properties ==> PropKey(r, "edge_type") in t && t[PropKey(r, "edge_type")] == Str(e.edgeType))
  }

  ghost predicate EdgeBoundOnly(t: Tuple, r: string, e: Edge) {
    forall k :: PropKey(r, k) in t ==> k in e.properties || k == "edge_type"
  }

  lemma EdgeIsHeld(t: Tuple, r: string, g: Graph, id: EdgeId)
    requires DenseIds(g) && id in g.edges
    ensures EdgeBound(t, r, EdgeIn(g, id)) ==> HoldsEdge(t, r, g, id)
    ensures EdgeBoundOnly(t, r, EdgeIn(g, id)) ==> HoldsOnlyEdge(t, r, g, id)
  {
    forall k ensures PropKey(r, k) == r + "." + k {}
  }

  lemma DotPropsAre(r: string, props: map<string, Value>)
    requires Dotless(r)
    ensures r !in DotProps(r, props)
    ensures forall k :: PropKey(r, k) in DotProps(r, props) ==> k in props
  {
    forall k ensures PropKey(r, k) != r {
      PropKeyIsNoName(r, k, r);
    }
    forall k | PropKey(r, k) in DotProps(r, props) ensures k in props {
      var l :| l in props && PropKey(r, k) == PropKey(r, l);
      KeysApart(r, k, r, l);
    }
  }

  lemma EntriesAre(r: string, e: Edge)
    requires Dotless(r)
    ensures EdgeBound(EdgeEntries(r, e), r, e)
  {
    hide PropKey, DotProps;
    var dots := DotProps(r, e.properties);
    DotPropsAre(r, e.properties);
    PropKeyIsNoName(r, "edge_type", r);
    assert EdgeEntries(r, e) == map[r := Int(e.id)] + map[PropKey(r, "edge_type") := Str(e.edgeType)] + dots;
  }

  lemma EntriesAreOnly(r: string, e: Edge)
    requires Dotless(r)
    ensures EdgeBoundOnly(EdgeEntries(r, e), r, e)
  {
    hide DotProps;
    DotPropsAre(r, e.properties);
    forall k | PropKey(r, k) in EdgeEntries(r, e) ensures k in e.properties || k == "edge_type" {
      OneEntry(r, e, k);
    }
  }

  lemma OneEntry(r: string, e: Edge, k: string)
    requires Dotless(r) && PropKey(r, k) in EdgeEntries(r, e)
    ensures k in e.properties || k == "edge_type"
  {
    hide DotProps;
    DotPropsAre(r, e.properties);
    PropKeyIsNoName(r, k, r);
    if PropKey(r, k) == PropKey(r, "edge_type") {
      KeysApart(r, k, r, "edge_type");
    }
  }

  lemma BindEdgeBinds(t: Tuple, r: string, e: Edge)
    requires Dotless(r)
    ensures EdgeBound(BindEdge(t, Some(r), e), r, e)
    ensures Unbound(t, r) ==> EdgeBoundOnly(BindEdge(t, Some(r), e), r, e)
  {
    hide EdgeEntries, PropKey;
    EntriesAre(r, e);
    EntriesAreOnly(r, e);
  }

  lemma SameForEdge(t: Tuple, t': Tuple, r: string, e: Edge)
    requires SameFor(t, t', r)
    ensures EdgeBound(t, r, e) ==> EdgeBound(t', r, e)
    ensures EdgeBoundOnly(t, r, e) ==> EdgeBoundOnly(t', r, e)
  {
  }

  lemma SameForTransitive(t: Tuple, t': Tuple, t'': Tuple, w: string)
    requires SameFor(t, t', w) && SameFor(t', t'', w)
    ensures SameFor(t, t'', w)
  {
  }

  lemma SameForSelf(t: Tuple, w: string)
    ensures SameFor(t, t, w)
  {
  }

  /** Standalone nodes leave other variables alone. */
  lemma {:induction false} OthersLeave(ch: Chain, g: Graph, t: Tuple, others: seq<NodeId>, w: string)
    requires AllDotless(ch) && |others| <= |ch.others| && Dotless(w)
    requires forall i :: 0 <= i < |others| ==> OtherVar(ch, i) != w
    ensures SameFor(t, OthersRow(ch, g, t, others), w)
    decreases |others|
  {
    hide SameFor, BindNode, OtherVar;
    if others == [] {
      SameForSelf(t, w);
    } else {
      var k := |others| - 1;
      OthersLeave(ch, g, t, others[..k], w);
      BindNodeFrame(OthersRow(ch, g, t, others[..k]), OtherVar(ch, k), NodeIn(g, others[k]), w);
      SameForTransitive(t, OthersRow(ch, g, t, others[..k]), OthersRow(ch, g, t, others), w);
    }
  }

  /** No node of the chain and no edge from `from` on puts anything under `w`. */
  ghost predicate Untouched(ch: Chain, from: nat, w: string) {
    && (forall i :: from < i <= |ch.edges| ==> w != NodeVar(ch, i))
    && (forall j :: from <= j < |ch.edges| ==> !BindsAt(ch, j, w))
  }

  /** Each step follows an edge exactly where the pattern edge is a one-hop edge. */
  predicate Fitting(ch: Chain, steps: seq<Step>) {
    |steps| <= |ch.edges| && forall i :: 0 <= i < |steps| ==> (steps[i].Along? <==> ch.edges[i].depth.None?)
  }

  lemma StepLeaves(ch: Chain, g: Graph, k: nat, t: Tuple, s: Step, w: string)
    requires AllDotless(ch) && k < |ch.edges| && Dotless(w) && w != NodeVar(ch, k + 1) && !BindsAt(ch, k, w)
    requires s.Along? <==> ch.edges[k].depth.None?
    ensures SameFor(t, TakeStep(ch, g, k, t, s), w)
  {
    hide SameFor;
    if ch.edges[k].variable == Some(w) {
      BindNodeFrame(t, NodeVar(ch, k + 1), NodeIn(g, s.node), w);
    } else {
      TakeStepFrame(ch, g, k, t, s, w);
    }
  }

  /** The steps from `k` on leave an untouched variable alone. */
  lemma {:induction false} StepsLeave(ch: Chain, parent: Tuple, g: Graph, start: NodeId, steps: seq<Step>, k: nat, w: string)
    requires AllDotless(ch) && Fitting(ch, steps) && k <= |steps| && Dotless(w) && Untouched(ch, k, w)
    ensures SameFor(StepsRow(ch, parent, g, start, steps[..k]), StepsRow(ch, parent, g, start, steps), w)
    decreases |steps|
  {
    hide SameFor, TakeStep, NodeVar, BindNode, BindsAt;
    if k == |steps| {
      assert steps[..k] == steps;
      SameForSelf(StepsRow(ch, parent, g, start, steps), w);
    } else {
      var n := |steps| - 1;
      var front := steps[..n];
      assert front[..k] == steps[..k];
      StepsLeave(ch, parent, g, start, front, k, w);
      StepLeaves(ch, g, n, StepsRow(ch, parent, g, start, front), steps[n], w);
      StepsRowLast(ch, parent, g, start, steps);
      SameForTransitive(StepsRow(ch, parent, g, start, steps[..k]), StepsRow(ch, parent, g, start, front), StepsRow(ch, parent, g, start, steps), w);
    }
  }

  lemma StepPuts(ch: Chain, g: Graph, k: nat, t: Tuple, s: Step, r: string)
    requires AllDotless(ch) && EdgesApart(ch) && BindsAt(ch, k, r) && s.Along?
    ensures EdgeBound(TakeStep(ch, g, k, t, s), r, EdgeIn(g, s.edge))
    ensures Unbound(t, r) ==> EdgeBoundOnly(TakeStep(ch, g, k, t, s), r, EdgeIn(g, s.edge))
  {
    hide EdgeBound, EdgeBoundOnly;
    var t' := BindNode(t, NodeVar(ch, k + 1), NodeIn(g, s.node));
    assert ch.edges[k].variable != Some(NodeVar(ch, k + 1));
    BindNodeFrame(t, NodeVar(ch, k + 1), NodeIn(g, s.node), r);
    SameForBound(t, t', r, NodeIn(g, s.node));
    BindEdgeBinds(t', r, EdgeIn(g, s.edge));
  }

  lemma EdgeVarUntouched(ch: Chain, k: nat, r: string)
    requires EdgesApart(ch) && BindsLast(ch, k, r)
    ensures Untouched(ch, k + 1, r)
  {
    forall i | 0 <= i <= |ch.edges| ensures r != NodeVar(ch, i) {
      assert ch.edges[k].variable != Some(NodeVar(ch, i));
    }
  }

  lemma EdgeInSteps(ch: Chain, parent: Tuple, g: Graph, start: NodeId, steps: seq<Step>, k: nat, r: string)
    requires WellNamed(ch) && Fitting(ch, steps) && |steps| == |ch.edges| && BindsLast(ch, k, r)
    ensures EdgeBound(StepsRow(ch, parent, g, start, steps), r, EdgeIn(g, steps[k].edge))
    ensures Unbound(StepsRow(ch, parent, g, start, steps[..k]), r) ==> EdgeBoundOnly(StepsRow(ch, parent, g, start, steps), r, EdgeIn(g, steps[k].edge))
  {
    hide EdgeBound, EdgeBoundOnly, Unbound, SameFor, TakeStep, NodeVar;
    var upto := steps[..k + 1];
    assert upto[..k] == steps[..k] && upto[k] == steps[k];
    StepsRowLast(ch, parent, g, start, upto);
    StepPuts(ch, g, k, StepsRow(ch, parent, g, start, steps[..k]), steps[k], r);
    EdgeVarUntouched(ch, k, r);
    StepsLeave(ch, parent, g, start, steps, k + 1, r);
    SameForEdge(StepsRow(ch, parent, g, start, upto), StepsRow(ch, parent, g, start, steps), r, EdgeIn(g, steps[k].edge));
  }

  /** Before its only edge, the variable is unbound. */
  lemma UnboundBefore(ch: Chain, parent: Tuple, g: Graph, start: NodeId, steps: seq<Step>, k: nat, r: string)
    requires WellNamed(ch) && ParentOk(ch, parent, g) && Fitting(ch, steps) && k <= |steps| && BindsAlone(ch, k, r)
    ensures Unbound(StepsRow(ch, parent, g, start, steps[..k]), r)
  {
    hide Unbound, SameFor, TakeStep;
    var before := steps[..k];
    forall i | 0 <= i <= |ch.edges| ensures r != NodeVar(ch, i) {
      assert ch.edges[k].variable != Some(NodeVar(ch, i));
    }
    NothingBefore(ch, parent, g, start, before, r);
  }

  lemma NothingBefore(ch: Chain, parent: Tuple, g: Graph, start: NodeId, before: seq<Step>, w: string)
    requires AllDotless(ch) && Fitting(ch, before) && Dotless(w) && Unbound(parent, w)
    requires forall i :: 0 <= i <= |ch.edges| ==> w != NodeVar(ch, i)
    requires forall j :: 0 <= j < |before| ==> !BindsAt(ch, j, w)
    ensures Unbound(StepsRow(ch, parent, g, start, before), w)
    decreases |before|
  {
    hide Unbound, SameFor, TakeStep, BindNode;
    var n := |before| - 1;
    if n < 0 {
      BindNodeFrame(parent, NodeVar(ch, 0), NodeIn(g, start), w);
      SameForBound(parent, BindNode(parent, NodeVar(ch, 0), NodeIn(g, start)), w, NodeIn(g, start));
    } else {
      NothingBefore(ch, parent, g, start, before[..n], w);
      var t := StepsRow(ch, parent, g, start, before[..n]);
      StepLeaves(ch, g, n, t, before[n], w);
      StepsRowLast(ch, parent, g, start, before);
      SameForBound(t, TakeStep(ch, g, n, t, before[n]), w, NodeIn(g, start));
    }
  }

  // ---------- the theorem ----------

  lemma FittingMatch(ch: Chain, parent: Tuple, g: Graph, m: Match)
    requires FullMatch(ch, parent, g, m)
    ensures |m.steps| == |ch.edges| && |m.others| == |ch.others| && Fitting(ch, m.steps)
    ensures Candidate(g, parent, NodeVar(ch, 0), ch.first.labels, m.start)
  {
    hide PropertiesHold, OthersOk, Carries, Band, CopiesOk;
    forall i | 0 <= i < |m.steps| ensures m.steps[i].Along? <==> ch.edges[i].depth.None? {
      assert StepOk(g, ch.edges[i], At(m, i), m.steps[i]);
    }
  }

  lemma EdgeCrosses(ch: Chain, parent: Tuple, g: Graph, m: Match, k: nat)
    requires FullMatch(ch, parent, g, m) && k < |ch.edges| == |m.steps| && m.steps[k].Along?
    ensures m.steps[k].edge in g.edges && Crosses(g.edges[m.steps[k].edge], ch.edges[k].direction, At(m, k), At(m, k + 1))
  {
    hide PropertiesHold, OthersOk, Carries, Band, CopiesOk;
    assert StepOk(g, ch.edges[k], At(m, k), m.steps[k]);
  }

  lemma EdgeInRow(ch: Chain, parent: Tuple, g: Graph, m: Match, k: nat, r: string)
    requires WellNamed(ch) && ParentOk(ch, parent, g) && WellFormed(g) && FullMatch(ch, parent, g, m) && BindsLast(ch, k, r)
    ensures |m.steps| == |ch.edges| && m.steps[k].Along? && HoldsEdge(MatchRow(ch, parent, g, m), r, g, m.steps[k].edge)
    ensures BindsAlone(ch, k, r) ==> HoldsOnlyEdge(MatchRow(ch, parent, g, m), r, g, m.steps[k].edge)
  {
    hide HoldsEdge, HoldsOnlyEdge, EdgeBound, EdgeBoundOnly, SameFor, StepsRow, OthersRow, FullMatch, Unbound, ParentOk, WellFormed;
    FittingMatch(ch, parent, g, m);
    EdgeCrosses(ch, parent, g, m, k);
    WellFormedIsDense(g);
    var t, e := StepsRow(ch, parent, g, m.start, m.steps), EdgeIn(g, m.steps[k].edge);
    EdgeInSteps(ch, parent, g, m.start, m.steps, k, r);
    if BindsAlone(ch, k, r) {
      UnboundBefore(ch, parent, g, m.start, m.steps, k, r);
    }
    assert forall j :: 0 <= j < |ch.others| ==> ch.edges[k].variable != Some(OtherVar(ch, j));
    OthersLeave(ch, g, t, m.others, r);
    SameForEdge(t, OthersRow(ch, g, t, m.others), r, e);
    EdgeIsHeld(OthersRow(ch, g, t, m.others), r, g, m.steps[k].edge);
  }

  lemma WellFormedIsDense(g: Graph)
    requires WellFormed(g)
    ensures DenseIds(g)
  {
  }

  lemma OtherStored(ch: Chain, parent: Tuple, g: Graph, m: Match, j: nat)
    requires FullMatch(ch, parent, g, m) && j < |ch.others| == |m.others|
    ensures m.others[j] in g.nodes && IsMatch(ch, parent, g, m)
  {
    hide StepsOk, PropertiesHold, Candidate, CopiesOk;
  }

  lemma RowHoldsMatch(ch: Chain, parent: Tuple, g: Graph, m: Match)
    requires WellNamed(ch) && ParentOk(ch, parent, g) && WellFormed(g) && FullMatch(ch, parent, g, m)
    ensures HoldsMatch(ch, g, MatchRow(ch, parent, g, m), m)
  {
    hide HoldsNode, HoldsEdge, HoldsOnlyEdge, MatchRow, FullMatch, ParentOk, WellFormed, WellNamed, Crosses, Bound, NodeVar, OtherVar, BindsAt, Candidate, IsMatch;
    FittingMatch(ch, parent, g, m);
    WellFormedIsDense(g);
    var t := MatchRow(ch, parent, g, m);
    forall i | 0 <= i <= |ch.edges| ensures HoldsNode(t, NodeVar(ch, i), g, At(m, i)) {
      NodeStored(ch, parent, g, m, i);
      NodeInRow(ch, parent, g, m, i);
      NodeIsHeld(t, NodeVar(ch, i), g, At(m, i));
    }
    forall j | 0 <= j < |ch.others| ensures HoldsNode(t, OtherVar(ch, j), g, m.others[j]) {
      OtherStored(ch, parent, g, m, j);
      OtherInRow(ch, parent, g, m, j);
      NodeIsHeld(t, OtherVar(ch, j), g, m.others[j]);
    }
    forall k: nat, r | k < |ch.edges| && BindsLast(ch, k, r) ensures m.steps[k].Along? && HoldsEdge(t, r, g, m.steps[k].edge) {
      EdgeInRow(ch, parent, g, m, k, r);
    }
    forall k: nat, r | k < |ch.edges| && BindsAlone(ch, k, r) && m.steps[k].Along? ensures HoldsOnlyEdge(t, r, g, m.steps[k].edge) {
      AloneIsLast(ch, k, r);
      EdgeInRow(ch, parent, g, m, k, r);
    }
    forall k | 0 <= k < |ch.edges| && m.steps[k].Along?
      ensures m.steps[k].edge in g.edges && Crosses(g.edges[m.steps[k].edge], ch.edges[k].direction, At(m, k), At(m, k + 1))
    {
      EdgeCrosses(ch, parent, g, m, k);
    }
  }

  lemma AloneIsLast(ch: Chain, k: nat, r: string)
    requires BindsAlone(ch, k, r)
    ensures BindsLast(ch, k, r)
  {
  }

  /** Every row of a chain MATCH holds its match: the nodes and edges of the store that the match goes through,
      under the variables that the pattern gives them, edges in the direction of their arrows. */
  lemma RowsHoldMatches(ps: seq<Pattern>, ch: Chain, parent: Tuple, c: Ctx) returns (ms: seq<Match>)
    requires LaidOut(ps, ch) && WellShaped(ch) && WellNamed(ch)
    requires StoreOk(c) && ParentOk(ch, parent, c.g)
    ensures PlanMatch(ps).Ok? && Rows(PlanMatch(ps).value, parent, c).Ok? && |Rows(PlanMatch(ps).value, parent, c).value| == |ms|
    ensures Distinct(ms) && forall m :: m in ms <==> FullMatch(ch, parent, c.g, m)
    ensures forall i :: 0 <= i < |ms| ==> HoldsMatch(ch, c.g, Rows(PlanMatch(ps).value, parent, c).value[i], ms[i])
    ensures forall i :: 0 <= i < |ms| ==> OnlyOwned(ch, parent, Rows(PlanMatch(ps).value, parent, c).value[i])
  {
    hide OnlyOwned, MatchRow, WellShaped, WellNamed, ParentOk, FullMatch, LaidOut, PlanMatch, Rows, HoldsMatch, WellFormed;
    ms := MatchRowsAreMatches(ps, ch, parent, c);
    forall i | 0 <= i < |ms| ensures HoldsMatch(ch, c.g, MatchRow(ch, parent, c.g, ms[i]), ms[i]) {
      assert ms[i] in ms;
      RowHoldsMatch(ch, parent, c.g, ms[i]);
    }
    forall i | 0 <= i < |ms| ensures OnlyOwned(ch, parent, MatchRow(ch, parent, c.g, ms[i])) {
      assert ms[i] in ms;
      RowHoldsNoMore(ch, parent, c.g, ms[i]);
    }
  }

  // ---------- and nothing else ----------

  /** A variable of the pattern that a row can hold. */
  ghost predicate PatternVar(ch: Chain, x: string) {
    || (exists i :: 0 <= i <= |ch.edges| && NodeVar(ch, i) == x)
    || (exists j :: 0 <= j < |ch.others| && OtherVar(ch, j) == x)
    || (exists k: nat :: BindsAt(ch, k, x))
  }

  /** The key is a variable of the pattern or one of its properties. */
  ghost predicate Owned(ch: Chain, w: string) {
    exists x :: PatternVar(ch, x) && (w == x || x + "." <= w)
  }

  /** Beyond the outer row, the row holds nothing but variables of the pattern and their properties. */
  ghost predicate OnlyOwned(ch: Chain, parent: Tuple, t: Tuple) {
    forall w :: w in t && w !in parent ==> Owned(ch, w)
  }

  lemma DotPropsStart(v: string, props: map<string, Value>, w: string)
    requires w in DotProps(v, props)
    ensures v + "." <= w
  {
    var k :| k in props && w == PropKey(v, k);
    assert w[..|v| + 1] == v + ".";
  }

  lemma BindNodeOwned(ch: Chain, parent: Tuple, t: Tuple, v: string, n: Node)
    requires OnlyOwned(ch, parent, t) && PatternVar(ch, v)
    ensures OnlyOwned(ch, parent, BindNode(t, v, n))
  {
    hide PatternVar;
    forall w | w in BindNode(t, v, n) && w !in parent ensures Owned(ch, w) {
      if w in DotProps(v, n.properties) {
        DotPropsStart(v, n.properties, w);
      }
    }
  }

  lemma BindEdgeOwned(ch: Chain, parent: Tuple, t: Tuple, r: string, e: Edge)
    requires OnlyOwned(ch, parent, t) && PatternVar(ch, r)
    ensures OnlyOwned(ch, parent, BindEdge(t, Some(r), e))
  {
    hide PatternVar;
    forall w | w in BindEdge(t, Some(r), e) && w !in parent ensures Owned(ch, w) {
      if w in DotProps(r, e.properties) {
        DotPropsStart(r, e.properties, w);
      }
      assert PropKey(r, "edge_type")[..|r| + 1] == r + ".";
    }
  }

  lemma {:induction false} StepsOwned(ch: Chain, parent: Tuple, g: Graph, start: NodeId, steps: seq<Step>)
    requires Fitting(ch, steps)
    ensures OnlyOwned(ch, parent, StepsRow(ch, parent, g, start, steps))
    decreases |steps|
  {
    hide OnlyOwned, BindNode, BindEdge, PatternVar;
    if steps == [] {
      NothingOwned(ch, parent);
      NodeVarsAre(ch, 0);
      BindNodeOwned(ch, parent, parent, NodeVar(ch, 0), NodeIn(g, start));
    } else {
      var k := |steps| - 1;
      StepsOwned(ch, parent, g, start, steps[..k]);
      var t, s := StepsRow(ch, parent, g, start, steps[..k]), steps[k];
      StepsRowLast(ch, parent, g, start, steps);
      NodeVarsAre(ch, k + 1);
      BindNodeOwned(ch, parent, t, NodeVar(ch, k + 1), NodeIn(g, s.node));
      if s.Along? && ch.edges[k].variable.Some? {
        EdgeVarsAre(ch, k, ch.edges[k].variable.value);
        BindEdgeOwned(ch, parent, BindNode(t, NodeVar(ch, k + 1), NodeIn(g, s.node)), ch.edges[k].variable.value, EdgeIn(g, s.edge));
      } else if s.Along? {
        BindNone(BindNode(t, NodeVar(ch, k + 1), NodeIn(g, s.node)), EdgeIn(g, s.edge));
      }
    }
  }

  lemma BindNone(t: Tuple, e: Edge)
    ensures BindEdge(t, None, e) == t
  {
  }

  lemma NothingOwned(ch: Chain, parent: Tuple)
    ensures OnlyOwned(ch, parent, parent)
  {
  }

  lemma NodeVarsAre(ch: Chain, i: nat)
    requires i <= |ch.edges|
    ensures PatternVar(ch, NodeVar(ch, i))
  {
  }

  lemma EdgeVarsAre(ch: Chain, k: nat, r: string)
    requires BindsAt(ch, k, r)
    ensures PatternVar(ch, r)
  {
  }

  lemma OtherVarsAre(ch: Chain, j: nat)
    requires j < |ch.others|
    ensures PatternVar(ch, OtherVar(ch, j))
  {
  }

  lemma {:induction false} OthersOwned(ch: Chain, parent: Tuple, g: Graph, t: Tuple, others: seq<NodeId>)
    requires |others| <= |ch.others| && OnlyOwned(ch, parent, t)
    ensures OnlyOwned(ch, parent, OthersRow(ch, g, t, others))
    decreases |others|
  {
    hide OnlyOwned, BindNode, PatternVar;
    if others != [] {
      var k := |others| - 1;
      OthersOwned(ch, parent, g, t, others[..k]);
      OtherVarsAre(ch, k);
      BindNodeOwned(ch, parent, OthersRow(ch, g, t, others[..k]), OtherVar(ch, k), NodeIn(g, others[k]));
    }
  }

  /** The row of a match holds nothing else. */
  lemma RowHoldsNoMore(ch: Chain, parent: Tuple, g: Graph, m: Match)
    requires FullMatch(ch, parent, g, m)
    ensures OnlyOwned(ch, parent, MatchRow(ch, parent, g, m))
  {
    hide OnlyOwned, FullMatch, StepsRow, OthersRow;
    FittingMatch(ch, parent, g, m);
    StepsOwned(ch, parent, g, m.start, m.steps);
    OthersOwned(ch, parent, g, StepsRow(ch, parent, g, m.start, m.steps), m.others);
  }
}
