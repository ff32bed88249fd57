/** Chain patterns `(a)-[..]->(b)-[..]->(c), (d), (e)` as the parser lays them out, and the plan that
    the planner makes of them. */
module Chains {
  import opened Prelude
  import opened Ast
  import opened Planner

  /** A first node, edges each starting where the previous one ends, and standalone nodes. */
  datatype Chain = Chain(first: NodePattern, edges: seq<EdgePattern>, others: seq<NodePattern>)

  /** `ps` is the pattern list of `ch`. */
  ghost predicate LaidOut(ps: seq<Pattern>, ch: Chain) {
    && |ps| == 1 + |ch.edges| + |ch.others|
    && ps[0] == NodePat(ch.first)
    && (forall i :: 1 <= i <= |ch.edges| ==> ps[i] == EdgePat(ch.edges[i - 1]))
    && (forall i :: |ch.edges| < i < |ps| ==> ps[i] == NodePat(ch.others[i - |ch.edges| - 1]))
  }

  /** The pattern of the `i`-th node of the chain. */
  function NodeOf(ch: Chain, i: nat): NodePattern
    requires i <= |ch.edges|
  {
    if i == 0 then ch.first else ch.edges[i - 1].toNode
  }

  /** The variable that holds the `i`-th node: its own, or the one the planner makes up. */
  function NodeVar(ch: Chain, i: nat): string
    requires i <= |ch.edges|
  {
    if NodeOf(ch, i).variable.Some? then NodeOf(ch, i).variable.value else AnonymousVar(i)
  }

  function OtherVar(ch: Chain, j: nat): string
    requires j < |ch.others|
  {
    if ch.others[j].variable.Some? then ch.others[j].variable.value else ""
  }

  predicate Dotless(v: string) {
    '.' !in v
  }

  /** Every edge starts at the node before it. Every node is named, except that the last node of a
      chain without standalone nodes may be anonymous. */
  ghost predicate WellShaped(ch: Chain) {
    && (forall i :: 0 <= i < |ch.edges| ==> ch.edges[i].fromNode == NodeOf(ch, i))
    && (forall i :: 0 <= i <= |ch.edges| ==> NodeOf(ch, i).variable.Some? || (0 < i == |ch.edges| && ch.others == []))
    && (forall j :: 0 <= j < |ch.others| ==> ch.others[j].variable.Some?)
  }

  ghost predicate NodesApart(ch: Chain) {
    forall i, j :: 0 <= i < j <= |ch.edges| ==> NodeVar(ch, i) != NodeVar(ch, j)
  }

  ghost predicate EdgesApart(ch: Chain) {
    && (forall i, j :: 0 <= i <= |ch.edges| && 0 <= j < |ch.edges| ==> ch.edges[j].variable != Some(NodeVar(ch, i)))
    && (forall i, j :: 0 <= i < |ch.edges| && 0 <= j < |ch.others| ==> ch.edges[i].variable != Some(OtherVar(ch, j)))
  }

  ghost predicate OthersApart(ch: Chain) {
    && (forall i, j :: 0 <= i <= |ch.edges| && 0 <= j < |ch.others| ==> OtherVar(ch, j) != NodeVar(ch, i))
    && (forall i, j :: 0 <= i < j < |ch.others| ==> OtherVar(ch, i) != OtherVar(ch, j))
  }

  ghost predicate AllDotless(ch: Chain) {
    && (forall i :: 0 <= i <= |ch.edges| ==> Dotless(NodeVar(ch, i)))
    && (forall i :: 0 <= i < |ch.edges| && ch.edges[i].variable.Some? ==> Dotless(ch.edges[i].variable.value))
    && (forall j :: 0 <= j < |ch.others| ==> Dotless(OtherVar(ch, j)))
  }

  /** Node variables are pairwise distinct and differ from edge variables; no name holds a dot. */
  ghost predicate WellNamed(ch: Chain) {
    NodesApart(ch) && EdgesApart(ch) && OthersApart(ch) && AllDotless(ch)
  }

  // ---------- the plan of a chain ----------

  function StartPlan(ch: Chain): PlanNode {
    FilterByProperties(Scan(NodeVar(ch, 0), ch.first.labels), NodeVar(ch, 0), ch.first.properties)
  }

  function ExtendPlan(ch: Chain, k: nat, input: PlanNode): PlanNode
    requires k < |ch.edges|
  {
    var e, u, v := ch.edges[k], NodeVar(ch, k), NodeVar(ch, k + 1);
    SeparateEndpoints(FilterByProperties(ExpandOver(input, e, u, v), u, e.fromNode.properties), e, u, v)
  }

  /** The plan of the first `k` edges. */
  function ChainPlan(ch: Chain, k: nat): PlanNode
    requires k <= |ch.edges|
  {
    if k == 0 then StartPlan(ch) else ExtendPlan(ch, k - 1, ChainPlan(ch, k - 1))
  }

  function OtherPlan(ch: Chain, j: nat): PlanNode
    requires j < |ch.others|
  {
    FilterByProperties(Scan(OtherVar(ch, j), ch.others[j].labels), OtherVar(ch, j), ch.others[j].properties)
  }

  /** The plan of the whole chain and the first `j` standalone nodes. */
  function ProductPlan(ch: Chain, j: nat): PlanNode
    requires j <= |ch.others|
  {
    if j == 0 then ChainPlan(ch, |ch.edges|) else CartesianProduct(ProductPlan(ch, j - 1), OtherPlan(ch, j - 1))
  }

  /** Target variables of the chain: those of every node but the first. */
  ghost predicate IsTarget(ch: Chain, v: string) {
    exists i :: 1 <= i <= |ch.edges| && NodeVar(ch, i) == v
  }

  lemma TargetsAtChain(ps: seq<Pattern>, ch: Chain, i: nat, v: string)
    requires LaidOut(ps, ch) && WellShaped(ch) && i < |ps| && v in TargetsAt(ps, i)
    ensures IsTarget(ch, v)
  {
    assert ps[i].edge == ch.edges[i - 1] && NodeOf(ch, i) == ps[i].edge.toNode;
    assert NodeVar(ch, i) == v;
  }

  lemma {:induction false} TargetsOfChain(ps: seq<Pattern>, ch: Chain, i: nat)
    requires LaidOut(ps, ch) && WellShaped(ch) && i <= |ps|
    ensures forall v :: v in TargetVars(ps, i) ==> IsTarget(ch, v)
  {
    if i > 0 {
      TargetsOfChain(ps, ch, i - 1);
      forall v | v in TargetsAt(ps, i - 1)
        ensures IsTarget(ch, v)
      {
        TargetsAtChain(ps, ch, i - 1, v);
      }
    }
  }

  lemma FirstIsScanned(ps: seq<Pattern>, ch: Chain, targets: set<string>)
    requires LaidOut(ps, ch) && WellShaped(ch) && NodesApart(ch)
    requires forall v :: v in targets ==> IsTarget(ch, v)
    ensures !BoundByEdge(ps, targets, 0, false) && ps[0].node.variable == Some(NodeVar(ch, 0))
  {
    assert NodeOf(ch, 0).variable.Some?;
    assert !IsTarget(ch, NodeVar(ch, 0));
    if EdgeAt(ps, 1).Some? && EdgeAt(ps, 1).value.toNode.variable.Some? {
      assert ps[1] == EdgePat(ch.edges[0]);
      assert NodeVar(ch, 1) == ch.edges[0].toNode.variable.value;
    }
  }

  lemma FirstStep(ps: seq<Pattern>, ch: Chain, targets: set<string>)
    requires LaidOut(ps, ch) && WellShaped(ch) && NodesApart(ch)
    requires forall v :: v in targets ==> IsTarget(ch, v)
    ensures PatternStep(ps, targets, 0, PlanState(None, {})) == Ok(PlanState(Some(ChainPlan(ch, 0)), {NodeVar(ch, 0)}))
  {
    FirstIsScanned(ps, ch, targets);
    assert ps[0].node == ch.first;
    assert {} + {NodeVar(ch, 0)} == {NodeVar(ch, 0)};
  }

  lemma EdgeEnds(ps: seq<Pattern>, ch: Chain, k: nat)
    requires LaidOut(ps, ch) && WellShaped(ch) && k < |ch.edges|
    ensures ps[k + 1] == EdgePat(ch.edges[k])
    ensures FromVar(ps, k + 1) == Ok(NodeVar(ch, k))
    ensures ToVar(ps, k + 1) == Ok(NodeVar(ch, k + 1))
  {
    assert ch.edges[k].fromNode == NodeOf(ch, k) && NodeOf(ch, k).variable.Some?;
    assert NodeOf(ch, k + 1) == ch.edges[k].toNode;
  }

  lemma EdgeNeighbours(ps: seq<Pattern>, ch: Chain, k: nat)
    requires LaidOut(ps, ch) && WellShaped(ch) && NodesApart(ch) && OthersApart(ch) && k < |ch.edges|
    ensures NeighbourProperties(ps, k, NodeVar(ch, k + 1)) == []
    ensures NeighbourProperties(ps, k + 2, NodeVar(ch, k + 1)) == []
  {
    if k == 0 {
      assert NodeVar(ch, 0) != NodeVar(ch, 1);
    }
    if NodeAt(ps, k + 2).Some? {
      assert NodeAt(ps, k + 2).value == ch.others[0];
      assert OtherVar(ch, 0) != NodeVar(ch, k + 1);
    }
  }

  lemma EdgeStepOfChain(ps: seq<Pattern>, ch: Chain, k: nat, bound: set<string>)
    requires LaidOut(ps, ch) && WellShaped(ch) && NodesApart(ch) && OthersApart(ch) && k < |ch.edges|
    ensures ps[k + 1].EdgePat?
    ensures EdgeStep(ps, k + 1, PlanState(Some(ChainPlan(ch, k)), bound)) ==
            Ok(PlanState(Some(ChainPlan(ch, k + 1)), bound + {NodeVar(ch, k + 1)}))
  {
    EdgeEnds(ps, ch, k);
    EdgeNeighbours(ps, ch, k);
  }

  /** Variables bound by scans and expansions after the first `i` patterns. */
  function BoundVars(ch: Chain, i: nat): set<string>
    requires 1 <= i <= 1 + |ch.edges| + |ch.others|
  {
    if i == 1 then {NodeVar(ch, 0)}
    else BoundVars(ch, i - 1) + {if i - 1 <= |ch.edges| then NodeVar(ch, i - 1) else OtherVar(ch, i - |ch.edges| - 2)}
  }

  lemma {:induction false} NotYetBound(ch: Chain, i: nat, j: nat)
    requires OthersApart(ch) && 1 <= i <= 1 + |ch.edges| + j && j < |ch.others|
    ensures OtherVar(ch, j) !in BoundVars(ch, i)
  {
    if i > 1 {
      NotYetBound(ch, i - 1, j);
    }
  }

  lemma OtherIsScanned(ps: seq<Pattern>, ch: Chain, targets: set<string>, j: nat)
    requires LaidOut(ps, ch) && WellShaped(ch) && OthersApart(ch) && j < |ch.others|
    requires forall v :: v in targets ==> IsTarget(ch, v)
    ensures var i := |ch.edges| + 1 + j;
      ps[i] == NodePat(ch.others[j]) && ch.others[j].variable == Some(OtherVar(ch, j)) && !BoundByEdge(ps, targets, i, true)
  {
    var i := |ch.edges| + 1 + j;
    assert ch.others[j].variable.Some?;
    assert EdgeAt(ps, i + 1).None?;
    if EdgeAt(ps, i - 1).Some? && EdgeAt(ps, i - 1).value.toNode.variable.Some? {
      assert ps[i - 1] == EdgePat(ch.edges[i - 2]);
      assert NodeVar(ch, i - 1) == ch.edges[i - 2].toNode.variable.value;
    }
  }

  lemma OtherStep(ps: seq<Pattern>, ch: Chain, targets: set<string>, j: nat)
    requires LaidOut(ps, ch) && WellShaped(ch) && OthersApart(ch) && j < |ch.others|
    requires forall v :: v in targets ==> IsTarget(ch, v)
    ensures var i := |ch.edges| + 1 + j;
      PatternStep(ps, targets, i, PlanState(Some(ProductPlan(ch, j)), BoundVars(ch, i))) ==
      Ok(PlanState(Some(ProductPlan(ch, j + 1)), BoundVars(ch, i + 1)))
  {
    OtherIsScanned(ps, ch, targets, j);
    NotYetBound(ch, |ch.edges| + 1 + j, j);
  }

  function PrefixPlan(ch: Chain, i: nat): PlanNode
    requires 1 <= i <= 1 + |ch.edges| + |ch.others|
  {
    if i <= |ch.edges| + 1 then ChainPlan(ch, i - 1) else ProductPlan(ch, i - |ch.edges| - 1)
  }

  lemma PrefixStep(ps: seq<Pattern>, targets: set<string>, i: nat, st: PlanState)
    requires 0 < i <= |ps| && PlanPrefix(ps, targets, i - 1) == Ok(st)
    ensures StateOk(st) && PlanPrefix(ps, targets, i) == PatternStep(ps, targets, i - 1, st)
    ensures ps[i - 1].EdgePat? ==> PatternStep(ps, targets, i - 1, st) == EdgeStep(ps, i - 1, st)
  {
    hide EdgeStep, NodeStep;
  }

  lemma PrefixPlans(ch: Chain, i: nat)
    requires 1 < i <= 1 + |ch.edges| + |ch.others|
    ensures i - 1 <= |ch.edges| ==> PrefixPlan(ch, i) == ChainPlan(ch, i - 1) && PrefixPlan(ch, i - 1) == ChainPlan(ch, i - 2)
    ensures i - 1 > |ch.edges| ==>
      PrefixPlan(ch, i) == ProductPlan(ch, i - |ch.edges| - 1) && PrefixPlan(ch, i - 1) == ProductPlan(ch, i - |ch.edges| - 2)
  {
    hide ChainPlan;
  }

  lemma {:induction false} PrefixOfChain(ps: seq<Pattern>, ch: Chain, targets: set<string>, i: nat)
    requires LaidOut(ps, ch) && WellShaped(ch) && NodesApart(ch) && OthersApart(ch) && 1 <= i <= |ps|
    requires forall v :: v in targets ==> IsTarget(ch, v)
    ensures PlanPrefix(ps, targets, i) == Ok(PlanState(Some(PrefixPlan(ch, i)), BoundVars(ch, i)))
  {
    hide PatternStep, EdgeStep, PlanPrefix, PrefixPlan, ChainPlan, ProductPlan, WellShaped, NodesApart, OthersApart;
    if i == 1 {
      FirstStep(ps, ch, targets);
      NoPrefix(ps, targets);
      PrefixStep(ps, targets, 1, PlanState(None, {}));
      FirstPrefixPlan(ch);
    } else {
      PrefixOfChain(ps, ch, targets, i - 1);
      PrefixStep(ps, targets, i, PlanState(Some(PrefixPlan(ch, i - 1)), BoundVars(ch, i - 1)));
      PrefixPlans(ch, i);
      if i - 1 <= |ch.edges| {
        EdgeStepOfChain(ps, ch, i - 2, BoundVars(ch, i - 1));
      } else {
        OtherStep(ps, ch, targets, i - |ch.edges| - 2);
      }
    }
  }

  lemma NoPrefix(ps: seq<Pattern>, targets: set<string>)
    ensures PlanPrefix(ps, targets, 0) == Ok(PlanState(None, {}))
  {
  }

  lemma FirstPrefixPlan(ch: Chain)
    ensures PrefixPlan(ch, 1) == ChainPlan(ch, 0) && BoundVars(ch, 1) == {NodeVar(ch, 0)}
  {
  }

  /** The planner turns a chain into scans, expansions and products, in pattern order, under one more
      filter for the inline properties of the patterns that stand for nodes. */
  lemma PlanOfChain(ps: seq<Pattern>, ch: Chain)
    requires LaidOut(ps, ch) && WellShaped(ch) && NodesApart(ch) && OthersApart(ch)
    ensures PlanMatch(ps) == Ok(FilterBy(ProductPlan(ch, |ch.others|), GlobalPredicate(ps, |ps|)))
  {
    TargetsOfChain(ps, ch, |ps|);
    PrefixOfChain(ps, ch, TargetVars(ps, |ps|), |ps|);
  }
}
