/** What a chain pattern means: matches over the plain graph, independent of plans and indexes; and
    the lists of matches behind scans, filters and expansions. */
module Matching {
  import opened Prelude
  import opened Values
  import opened Ast
  import opened GraphStore
  import opened Traversal
  import opened Distances
  import opened Planner
  import opened Semantics
  import opened Chains
  import opened Bindings

  /** One edge of a pattern matched: along one stored edge in one sense, or a jump over a path. */
  datatype Step = Along(edge: EdgeId, forward: bool, node: NodeId) | Jump(node: NodeId)

  /** `copies` counts, for the start and then for every standalone node, which of its occurrences in a scan is
      meant: a scan by label lists a node once for every time the node lists the label. */
  datatype Match = Match(start: NodeId, steps: seq<Step>, others: seq<NodeId>, copies: seq<nat>)

  function NodeIn(g: Graph, id: NodeId): Node {
    if id in g.nodes then g.nodes[id] else Node(id, [], map[])
  }

  function EdgeIn(g: Graph, id: EdgeId): Edge {
    if id in g.edges then g.edges[id] else Edge(id, 0, 0, "", map[])
  }

  /** The node after `i` steps. */
  function Visited(start: NodeId, steps: seq<Step>, i: nat): NodeId
    requires i <= |steps|
  {
    if i == 0 then start else steps[i - 1].node
  }

  /** The `i`-th node of a match. */
  function At(m: Match, i: nat): NodeId
    requires i <= |m.steps|
  {
    Visited(m.start, m.steps, i)
  }

  /** One-hop edges follow one stored edge of an allowed type in an allowed sense. Variable-length edges
      jump to a node whose shortest distance lies in the depth range, never to their origin. */
  ghost predicate StepOk(g: Graph, e: EdgePattern, from: NodeId, s: Step) {
    if e.depth.None? then
      s.Along? && Leads(Net(g, HopTypes(e.edgeType), e.direction), s.edge, s.forward, from, s.node)
    else
      s.Jump? && s.node in g.nodes &&
      exists d :: Band(Net(g, PathTypes(e.edgeType), e.direction), Goal(from, e.depth.value.min, e.depth.value.max), s.node, d)
  }

  predicate Carries(n: Node, labels: seq<string>) {
    labels == [] || labels[0] in n.labels
  }

  /** Node `id` may stand for variable `v`: it carries the label, and the outer row does not hold another. */
  ghost predicate Candidate(g: Graph, parent: Tuple, v: string, labels: seq<string>, id: NodeId) {
    id in g.nodes && Carries(g.nodes[id], labels) && (v in parent ==> parent[v] == NodeRef(id))
  }

  /** How often a scan for the labels lists the node. */
  function Times(n: Node, labels: seq<string>): nat {
    if labels == [] then 1 else multiset(n.labels)[labels[0]]
  }

  /** A node that the outer row holds is looked at once only. */
  function Repeats(parent: Tuple, v: string, n: Node, labels: seq<string>): nat {
    if v in parent then 1 else Times(n, labels)
  }

  ghost predicate Found(g: Graph, parent: Tuple, v: string, labels: seq<string>, f: (NodeId, nat)) {
    Candidate(g, parent, v, labels, f.0) && f.1 < Repeats(parent, v, NodeIn(g, f.0), labels)
  }

  ghost predicate CopiesOk(ch: Chain, parent: Tuple, g: Graph, m: Match)
    requires |m.others| <= |ch.others|
  {
    && |m.copies| == 1 + |m.others|
    && m.copies[0] < Repeats(parent, NodeVar(ch, 0), NodeIn(g, m.start), ch.first.labels)
    && forall j :: 0 <= j < |m.others| ==> m.copies[j + 1] < Times(NodeIn(g, m.others[j]), ch.others[j].labels)
  }

  ghost predicate StepsOk(ch: Chain, g: Graph, m: Match)
    requires |m.steps| <= |ch.edges|
  {
    forall i :: 0 <= i < |m.steps| ==>
      StepOk(g, ch.edges[i], At(m, i), m.steps[i]) && PropertiesHold(NodeIn(g, At(m, i)), ch.edges[i].fromNode.properties)
  }

  ghost predicate OthersOk(ch: Chain, g: Graph, m: Match)
    requires |m.others| <= |ch.others|
  {
    forall j :: 0 <= j < |m.others| ==>
      && m.others[j] in g.nodes
      && Carries(g.nodes[m.others[j]], ch.others[j].labels)
      && PropertiesHold(g.nodes[m.others[j]], ch.others[j].properties)
  }

  /** `m` matches the first `|m.steps|` edges and `|m.others|` standalone nodes of the chain. The label
      and properties of a node that ends the chain, and labels of middle nodes, play no part. */
  ghost predicate IsMatch(ch: Chain, parent: Tuple, g: Graph, m: Match) {
    && |m.steps| <= |ch.edges| && |m.others| <= |ch.others|
    && Candidate(g, parent, NodeVar(ch, 0), ch.first.labels, m.start)
    && PropertiesHold(g.nodes[m.start], ch.first.properties)
    && StepsOk(ch, g, m)
    && OthersOk(ch, g, m)
    && CopiesOk(ch, parent, g, m)
  }

  // ---------- the row of a match ----------

  function TakeStep(ch: Chain, g: Graph, k: nat, t: Tuple, s: Step): Tuple
    requires k < |ch.edges|
  {
    var t' := BindNode(t, NodeVar(ch, k + 1), NodeIn(g, s.node));
    if s.Along? then BindEdge(t', ch.edges[k].variable, EdgeIn(g, s.edge)) else t'
  }

  function StepsRow(ch: Chain, parent: Tuple, g: Graph, start: NodeId, steps: seq<Step>): Tuple
    requires |steps| <= |ch.edges|
  {
    if steps == [] then BindNode(parent, NodeVar(ch, 0), NodeIn(g, start))
    else TakeStep(ch, g, |steps| - 1, StepsRow(ch, parent, g, start, steps[..|steps| - 1]), steps[|steps| - 1])
  }

  function OthersRow(ch: Chain, g: Graph, t: Tuple, others: seq<NodeId>): Tuple
    requires |others| <= |ch.others|
  {
    if others == [] then t
    else BindNode(OthersRow(ch, g, t, others[..|others| - 1]), OtherVar(ch, |others| - 1), NodeIn(g, others[|others| - 1]))
  }

  predicate Fits(ch: Chain, m: Match) {
    |m.steps| <= |ch.edges| && |m.others| <= |ch.others|
  }

  /** The outer row extended by every node and edge binding of the match, in pattern order. */
  function MatchRow(ch: Chain, parent: Tuple, g: Graph, m: Match): Tuple {
    if Fits(ch, m) then OthersRow(ch, g, StepsRow(ch, parent, g, m.start, m.steps), m.others) else parent
  }

  /** Row by row, `rows` are the rows of the pairwise different matches `ms`. */
  ghost predicate RowsFor(ch: Chain, parent: Tuple, g: Graph, rows: seq<Tuple>, ms: seq<Match>) {
    && |rows| == |ms| && Distinct(ms)
    && forall i :: 0 <= i < |ms| ==> rows[i] == MatchRow(ch, parent, g, ms[i])
  }

  // ---------- outer rows ----------

  /** The outer row says nothing about the chain's variables, except that it may hold a node, with all,
      some or none of its properties, under the first one. */
  ghost predicate ParentOk(ch: Chain, parent: Tuple, g: Graph) {
    && (NodeVar(ch, 0) !in parent ==> Unbound(parent, NodeVar(ch, 0)))
    && (forall id :: NodeVar(ch, 0) in parent && parent[NodeVar(ch, 0)] == NodeRef(id) && id in g.nodes
          ==> Held(parent, NodeVar(ch, 0), g.nodes[id]))
    && (forall i :: 1 <= i <= |ch.edges| ==> Unbound(parent, NodeVar(ch, i)))
    && (forall i :: 0 <= i < |ch.edges| && ch.edges[i].variable.Some? ==> Unbound(parent, ch.edges[i].variable.value))
    && (forall j :: 0 <= j < |ch.others| ==> Unbound(parent, OtherVar(ch, j)))
  }

  lemma EmptyParentOk(ch: Chain, g: Graph)
    ensures ParentOk(ch, map[], g)
  {
  }

  /** A well-formed store, scanned in some order. */
  ghost predicate StoreOk(c: Ctx) {
    WellFormed(c.g) && Enumerates(c.order, c.g.nodes.Keys)
  }

  // ---------- what a partial match's row holds ----------

  lemma TakeStepFrame(ch: Chain, g: Graph, k: nat, t: Tuple, s: Step, w: string)
    requires AllDotless(ch) && k < |ch.edges| && Dotless(w)
    requires w != NodeVar(ch, k + 1) && ch.edges[k].variable != Some(w)
    ensures SameFor(t, TakeStep(ch, g, k, t, s), w)
  {
    var t' := BindNode(t, NodeVar(ch, k + 1), NodeIn(g, s.node));
    BindNodeFrame(t, NodeVar(ch, k + 1), NodeIn(g, s.node), w);
    if s.Along? {
      BindEdgeFrame(t', ch.edges[k].variable, EdgeIn(g, s.edge), w);
    }
  }

  lemma TakeStepBinds(ch: Chain, g: Graph, k: nat, t: Tuple, s: Step)
    requires AllDotless(ch) && EdgesApart(ch) && k < |ch.edges| && Unbound(t, NodeVar(ch, k + 1))
    ensures Bound(TakeStep(ch, g, k, t, s), NodeVar(ch, k + 1), NodeIn(g, s.node))
  {
    var v, n := NodeVar(ch, k + 1), NodeIn(g, s.node);
    BindNodeBinds(t, v, n);
    if s.Along? {
      BindEdgeFrame(BindNode(t, v, n), ch.edges[k].variable, EdgeIn(g, s.edge), v);
      SameForBound(BindNode(t, v, n), TakeStep(ch, g, k, t, s), v, n);
    }
  }

  /** A name that no step of a `k`-step row binds stays unbound. */
  lemma {:induction false} StepsLeaveUnbound(ch: Chain, parent: Tuple, g: Graph, start: NodeId, steps: seq<Step>, w: string)
    requires AllDotless(ch) && |steps| <= |ch.edges| && Dotless(w) && Unbound(parent, w)
    requires forall i :: 0 <= i <= |steps| ==> w != NodeVar(ch, i)
    requires forall i :: 0 <= i < |steps| ==> ch.edges[i].variable != Some(w)
    ensures Unbound(StepsRow(ch, parent, g, start, steps), w)
    decreases |steps|
  {
    if steps == [] {
      BindNodeFrame(parent, NodeVar(ch, 0), NodeIn(g, start), w);
      SameForBound(parent, BindNode(parent, NodeVar(ch, 0), NodeIn(g, start)), w, NodeIn(g, start));
    } else {
      var front, k := steps[..|steps| - 1], |steps| - 1;
      StepsLeaveUnbound(ch, parent, g, start, front, w);
      var t := StepsRow(ch, parent, g, start, front);
      TakeStepFrame(ch, g, k, t, steps[k], w);
      SameForBound(t, TakeStep(ch, g, k, t, steps[k]), w, NodeIn(g, start));
    }
  }

  lemma NextIsUnbound(ch: Chain, parent: Tuple, g: Graph, start: NodeId, steps: seq<Step>)
    requires WellNamed(ch) && ParentOk(ch, parent, g) && |steps| < |ch.edges|
    ensures Unbound(StepsRow(ch, parent, g, start, steps), NodeVar(ch, |steps| + 1))
  {
    StepsLeaveUnbound(ch, parent, g, start, steps, NodeVar(ch, |steps| + 1));
  }

  lemma StartIsBound(ch: Chain, parent: Tuple, g: Graph, start: NodeId)
    requires WellNamed(ch) && ParentOk(ch, parent, g)
    requires Candidate(g, parent, NodeVar(ch, 0), ch.first.labels, start)
    ensures Bound(BindNode(parent, NodeVar(ch, 0), NodeIn(g, start)), NodeVar(ch, 0), NodeIn(g, start))
  {
    BindNodeBinds(parent, NodeVar(ch, 0), NodeIn(g, start));
  }

  lemma StepsRowLast(ch: Chain, parent: Tuple, g: Graph, start: NodeId, steps: seq<Step>)
    requires 0 < |steps| <= |ch.edges|
    ensures StepsRow(ch, parent, g, start, steps) ==
            TakeStep(ch, g, |steps| - 1, StepsRow(ch, parent, g, start, steps[..|steps| - 1]), steps[|steps| - 1])
  {
  }

  lemma LastIsBound(ch: Chain, parent: Tuple, g: Graph, start: NodeId, steps: seq<Step>)
    requires WellNamed(ch) && ParentOk(ch, parent, g) && 0 < |steps| <= |ch.edges|
    ensures Bound(StepsRow(ch, parent, g, start, steps), NodeVar(ch, |steps|), NodeIn(g, steps[|steps| - 1].node))
  {
    hide TakeStep, StepsRow, Bound, Unbound, ParentOk, NodesApart, EdgesApart, OthersApart, AllDotless, NodeVar, NodeIn;
    var k := |steps| - 1;
    NextIsUnbound(ch, parent, g, start, steps[..k]);
    TakeStepBinds(ch, g, k, StepsRow(ch, parent, g, start, steps[..k]), steps[k]);
    StepsRowLast(ch, parent, g, start, steps);
  }

  lemma EarlierStaysBound(ch: Chain, parent: Tuple, g: Graph, start: NodeId, steps: seq<Step>, i: nat, n: Node)
    requires WellNamed(ch) && i < |steps| <= |ch.edges|
    requires Bound(StepsRow(ch, parent, g, start, steps[..|steps| - 1]), NodeVar(ch, i), n)
    ensures Bound(StepsRow(ch, parent, g, start, steps), NodeVar(ch, i), n)
  {
    var k := |steps| - 1;
    var t := StepsRow(ch, parent, g, start, steps[..k]);
    assert NodeVar(ch, i) != NodeVar(ch, k + 1);
    TakeStepFrame(ch, g, k, t, steps[k], NodeVar(ch, i));
    SameForBound(t, TakeStep(ch, g, k, t, steps[k]), NodeVar(ch, i), n);
  }

  /** Every node of a partial match is held under its variable, with its properties. */
  lemma {:induction false} StepsRowBinds(ch: Chain, parent: Tuple, g: Graph, start: NodeId, steps: seq<Step>, i: nat)
    requires WellNamed(ch) && ParentOk(ch, parent, g) && i <= |steps| <= |ch.edges|
    requires Candidate(g, parent, NodeVar(ch, 0), ch.first.labels, start)
    ensures Bound(StepsRow(ch, parent, g, start, steps), NodeVar(ch, i), NodeIn(g, Visited(start, steps, i)))
    decreases |steps|
  {
    hide Bound, ParentOk, WellNamed, Candidate, TakeStep, NodeVar, NodeIn, BindNode;
    if steps == [] {
      StartIsBound(ch, parent, g, start);
    } else if i == |steps| {
      LastIsBound(ch, parent, g, start, steps);
    } else {
      var front := steps[..|steps| - 1];
      StepsRowBinds(ch, parent, g, start, front, i);
      EarlierStaysBound(ch, parent, g, start, steps, i, NodeIn(g, Visited(start, front, i)));
    }
  }

  // ---------- filters ----------

  lemma {:induction false} FilterMatches(ch: Chain, parent: Tuple, rows: seq<Tuple>, ms: seq<Match>, e: Expr, c: Ctx)
    returns (kept: seq<Match>)
    requires RowsFor(ch, parent, c.g, rows, ms)
    ensures RowsFor(ch, parent, c.g, FilterRows(rows, e, c), kept)
    ensures forall m :: m in kept <==> m in ms && IsTrue(Eval(e, MatchRow(ch, parent, c.g, m), c))
    decreases |rows|
  {
    hide MatchRow, Eval;
    if rows == [] {
      kept := [];
    } else {
      var n := |rows| - 1;
      assert ms == ms[..n] + [ms[n]];
      assert RowsFor(ch, parent, c.g, rows[..n], ms[..n]);
      var front := FilterMatches(ch, parent, rows[..n], ms[..n], e, c);
      assert ms[n] !in ms[..n];
      if IsTrue(Eval(e, rows[n], c)) {
        kept := front + [ms[n]];
      } else {
        kept := front;
      }
    }
  }

  /** A filter that every row passes changes nothing. */
  lemma {:induction false} FilterAll(rows: seq<Tuple>, e: Expr, c: Ctx)
    requires forall i :: 0 <= i < |rows| ==> IsTrue(Eval(e, rows[i], c))
    ensures FilterRows(rows, e, c) == rows
    decreases |rows|
  {
    if rows != [] {
      FilterAll(rows[..|rows| - 1], e, c);
      assert rows == rows[..|rows| - 1] + [rows[|rows| - 1]];
    }
  }

  // ---------- scans ----------

  lemma {:induction false} NodesOfStored(ids: seq<NodeId>, g: Graph)
    requires forall id :: id in ids ==> id in g.nodes
    ensures |NodesOf(ids, g)| == |ids|
    ensures forall i :: 0 <= i < |ids| ==> NodesOf(ids, g)[i] == g.nodes[ids[i]]
    decreases |ids|
  {
    if ids != [] {
      var front := ids[..|ids| - 1];
      assert forall id :: id in front ==> id in ids;
      assert ids[|ids| - 1] in ids;
      NodesOfStored(front, g);
    }
  }

  /** Every element with the number of times it stands before. */
  function Ranked(ids: seq<NodeId>): (finds: seq<(NodeId, nat)>)
    ensures |finds| == |ids| && forall i :: 0 <= i < |ids| ==> finds[i].0 == ids[i]
  {
    if ids == [] then []
    else
      var front, last := ids[..|ids| - 1], ids[|ids| - 1];
      Ranked(front) + [(last, multiset(front)[last])]
  }

  lemma {:induction false} RankedMember(ids: seq<NodeId>, f: (NodeId, nat))
    ensures f in Ranked(ids) <==> f.1 < multiset(ids)[f.0]
  {
    if ids != [] {
      var front, last := ids[..|ids| - 1], ids[|ids| - 1];
      RankedMember(front, f);
      CountLast(ids, f.0);
    }
  }

  lemma {:induction false} RankedDistinct(ids: seq<NodeId>)
    ensures Distinct(Ranked(ids))
  {
    hide Distinct;
    if ids == [] {
      NoneDistinct();
    } else {
      var front, last := ids[..|ids| - 1], ids[|ids| - 1];
      var next := (last, multiset(front)[last]);
      RankedDistinct(front);
      OneDistinct(next);
      RankedMember(front, next);
      DistinctAppend(Ranked(front), [next]);
    }
  }

  lemma NoneDistinct()
    ensures Distinct<(NodeId, nat)>([])
  {
  }

  lemma OneDistinct(f: (NodeId, nat))
    ensures Distinct([f])
  {
  }

  ghost predicate ScanLists(c: Ctx, parent: Tuple, v: string, labels: seq<string>, finds: seq<(NodeId, nat)>, rows: seq<Tuple>) {
    && |rows| == |finds| && Distinct(finds)
    && (forall i :: 0 <= i < |finds| ==> rows[i] == BindNode(parent, v, NodeIn(c.g, finds[i].0)))
    && (forall f :: f in finds <==> Found(c.g, parent, v, labels, f))
  }

  lemma BoundScan(c: Ctx, parent: Tuple, v: string, candidates: seq<Node>, labels: seq<string>) returns (finds: seq<(NodeId, nat)>)
    requires StoreOk(c) && v in parent
    ensures ScanLists(c, parent, v, labels, finds,
              ScanRows(parent, v, candidates, if labels == [] then None else Some(labels[0]), c.g))
  {
    hide BindNode, BindNodes;
    var rows := ScanRows(parent, v, candidates, if labels == [] then None else Some(labels[0]), c.g);
    finds := if rows == [] then [] else [(parent[v].id, 0)];
    SameIdentity(c.g);
  }

  lemma SameIdentity(g: Graph)
    requires DenseIds(g)
    ensures forall id :: id in g.nodes ==> g.nodes[id].(id := id) == g.nodes[id] && NodeIn(g, id) == g.nodes[id]
  {
  }

  lemma FreeFinds(g: Graph, parent: Tuple, v: string, labels: seq<string>, ids: seq<NodeId>, f: (NodeId, nat))
    requires v !in parent
    requires multiset(ids)[f.0] == if f.0 in g.nodes then Times(g.nodes[f.0], labels) else 0
    ensures f.1 < multiset(ids)[f.0] <==> Found(g, parent, v, labels, f)
  {
  }

  lemma FreeScan(c: Ctx, parent: Tuple, v: string, labels: seq<string>, ids: seq<NodeId>)
    requires v !in parent
    requires forall id :: multiset(ids)[id] == if id in c.g.nodes then Times(c.g.nodes[id], labels) else 0
    ensures ScanLists(c, parent, v, labels, Ranked(ids), BindNodes(parent, v, NodesOf(ids, c.g)))
  {
    hide BindNode, Found, Times, Ranked, NodesOf;
    forall id | id in ids ensures id in c.g.nodes {
      assert multiset(ids)[id] > 0;
    }
    RankedDistinct(ids);
    forall f ensures f in Ranked(ids) <==> Found(c.g, parent, v, labels, f) {
      RankedMember(ids, f);
      FreeFinds(c.g, parent, v, labels, ids, f);
    }
    NodesOfStored(ids, c.g);
    forall i | 0 <= i < |ids|
      ensures NodesOf(ids, c.g)[i] == NodeIn(c.g, ids[i])
    {
      assert ids[i] in ids;
    }
  }

  lemma OrderCounts(c: Ctx, id: NodeId)
    requires StoreOk(c)
    ensures multiset(c.order)[id] == if id in c.g.nodes then 1 else 0
  {
    hide WellFormed;
    DistinctCounts(c.order);
    MultisetIn(c.order, id);
  }

  /** A scan lists its candidates, each as often as it lists the label. */
  lemma ScanIsExact(c: Ctx, parent: Tuple, v: string, labels: seq<string>) returns (finds: seq<(NodeId, nat)>)
    requires StoreOk(c)
    ensures var rows := Rows(Scan(v, labels), parent, c); rows.Ok? && ScanLists(c, parent, v, labels, finds, rows.value)
  {
    hide ScanLists;
    if v in parent {
      finds := BoundScan(c, parent, v, if labels == [] then NodesOf(c.order, c.g) else ScanByLabel(c.g, labels[0]), labels);
    } else if labels == [] {
      finds := Ranked(c.order);
      forall id ensures multiset(c.order)[id] == if id in c.g.nodes then Times(c.g.nodes[id], labels) else 0 {
        OrderCounts(c, id);
      }
      FreeScan(c, parent, v, labels, c.order);
    } else {
      var ids := Look(c.g.labelIndex, labels[0]);
      finds := Ranked(ids);
      forall id ensures multiset(ids)[id] == if id in c.g.nodes then Times(c.g.nodes[id], labels) else 0 {
        assert multiset(Look(c.g.labelIndex, labels[0]))[id] == if id in c.g.nodes then multiset(c.g.nodes[id].labels)[labels[0]] else 0;
      }
      FreeScan(c, parent, v, labels, ids);
    }
  }
}
