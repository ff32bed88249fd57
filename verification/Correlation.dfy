/** EXISTS subqueries: what the general path answers, and why correlating on the subquery's first
    variable is right. */
module Correlation {
  import opened Prelude
  import opened Values
  import opened Ast
  import opened GraphStore
  import opened Planner
  import opened Semantics
  import opened Chains
  import opened Bindings
  import opened Matching
  import opened Traversal
  import opened Distances
  import opened Expansions
  import opened Compilation
  import opened StableSort
  import Ordering
  import MatchTheorem

  /** A subquery MATCH chain [WHERE ..] [RETURN ..] [ORDER BY ..] [LIMIT n > 0] without aggregates. */
  ghost predicate Subquery(q: Query, ch: Chain) {
    && q.matchClause.Some? && LaidOut(q.matchClause.value, ch)
    && q.createClause.None? && q.withClause.None?
    && (q.returnClause.Some? ==> forall i :: 0 <= i < |q.returnClause.value.items| ==> !HasAggregate(q.returnClause.value.items[i].expr))
    && (q.limit.Some? ==> q.limit.value > 0)
  }

  /** The subquery's WHERE clause, if any, is true of the row. */
  ghost predicate WhereHolds(q: Query, t: Tuple, c: Ctx) {
    q.whereClause.Some? ==> IsTrue(Eval(q.whereClause.value, t, c))
  }

  lemma {:induction false} FilterNonEmpty(rows: seq<Tuple>, e: Expr, c: Ctx)
    ensures FilterRows(rows, e, c) != [] <==> exists i :: 0 <= i < |rows| && IsTrue(Eval(e, rows[i], c))
    decreases |rows|
  {
    hide Eval;
    if rows != [] {
      var n := |rows| - 1;
      FilterNonEmpty(rows[..n], e, c);
      if i :| 0 <= i < |rows| && IsTrue(Eval(e, rows[i], c)) {
        assert i < n ==> rows[..n][i] == rows[i];
      }
      if i :| 0 <= i < n && IsTrue(Eval(e, rows[..n][i], c)) {
        assert rows[i] == rows[..n][i];
      }
    }
  }

  /** WHERE applied to the rows of the MATCH clause. */
  lemma WhereRows(q: Query, source: PlanNode, t: Tuple, c: Ctx, rows: seq<Tuple>)
    requires q.withClause.None? && Rows(source, t, c) == Ok(rows)
    ensures var r := Rows(PlanFilters(q, source), t, c);
      r.Ok? && (r.value != [] <==> exists i :: 0 <= i < |rows| && WhereHolds(q, rows[i], c))
  {
    hide Rows, Eval, FilterRows;
    if q.whereClause.Some? {
      var e := q.whereClause.value;
      FilterNonEmpty(rows, e, c);
      FilterUnfolds(source, e, t, c, rows);
      assert forall i :: 0 <= i < |rows| ==> (WhereHolds(q, rows[i], c) <==> IsTrue(Eval(e, rows[i], c)));
    } else {
      assert rows != [] ==> WhereHolds(q, rows[0], c);
    }
  }

  /** Projection, sorting and a positive limit neither empty nor fill a result. */
  lemma ReturnKeepsRows(q: Query, ch: Chain, p: PlanNode, t: Tuple, c: Ctx, rows: seq<Tuple>)
    requires Subquery(q, ch) && q.returnClause.Some? && Rows(p, t, c) == Ok(rows)
    ensures var r := Rows(Project(p, q.returnClause.value.items), t, c); r.Ok? && |r.value| == |rows|
  {
    hide Rows, Eval;
    ProjectUnfolds(p, q.returnClause.value.items, t, c, rows);
  }

  lemma OrderKeepsRows(p: PlanNode, items: seq<OrderByItem>, t: Tuple, c: Ctx, rows: seq<Tuple>)
    requires Rows(p, t, c) == Ok(rows)
    ensures var r := Rows(OrderBy(p, items), t, c); r.Ok? && |r.value| == |rows|
  {
    hide Rows, KeyedRows, StableSort.Sort, Eval;
    OrderUnfolds(p, items, t, c, rows);
  }

  lemma LimitKeepsRows(p: PlanNode, count: nat, t: Tuple, c: Ctx, rows: seq<Tuple>)
    requires Rows(p, t, c) == Ok(rows) && count > 0
    ensures var r := Rows(Limit(p, count), t, c); r.Ok? && (r.value != [] <==> rows != [])
  {
    hide Rows, Eval;
    LimitUnfolds(p, count, t, c, rows);
  }

  lemma QueryRows(q: Query, ch: Chain, source: PlanNode, t: Tuple, c: Ctx)
    requires Subquery(q, ch) && PlanSource(q) == Ok(source) && Rows(PlanFilters(q, source), t, c).Ok?
    ensures PlanQuery(q).Ok?
    ensures var r := Rows(PlanQuery(q).value, t, c);
      r.Ok? && (r.value != [] <==> Rows(PlanFilters(q, source), t, c).value != [])
  {
    hide Rows, PlanSource, PlanFilters;
    var p := PlanFilters(q, source);
    var rows := Rows(p, t, c).value;
    if q.returnClause.Some? {
      var items := q.returnClause.value.items;
      ReturnKeepsRows(q, ch, p, t, c, rows);
      var returned := Project(p, items);
      assert PlanReturn(items, p) == returned;
      var ordered := if q.orderBy.Some? then OrderBy(returned, q.orderBy.value.items) else returned;
      if q.orderBy.Some? {
        OrderKeepsRows(returned, q.orderBy.value.items, t, c, Rows(returned, t, c).value);
      }
      if q.limit.Some? {
        LimitKeepsRows(ordered, q.limit.value, t, c, Rows(ordered, t, c).value);
      }
    }
  }

  lemma ExistsUnfolds(q: Query, t: Tuple, c: Ctx)
    requires FastPath(q, t).None? && PlanQuery(q).Ok? && c.canRead && Rows(PlanQuery(q).value, t, c).Ok?
    ensures Eval(Exists(q), t, c) == Ok(Bool(Rows(PlanQuery(q).value, t, c).value != []))
  {
    hide PlanQuery, FastPath;
    PlanQueryDepth(q);
  }

  /** EXISTS over a chain subquery, under a row that may already hold the chain's first node: true
      exactly when some match of the chain from that node (from any node, if the row holds none)
      satisfies the WHERE clause. The answer is never an error. */
  lemma ExistsMeansMatch(q: Query, ch: Chain, t: Tuple, c: Ctx)
    requires Subquery(q, ch) && WellShaped(ch) && WellNamed(ch)
    requires StoreOk(c) && c.canRead && ParentOk(ch, t, c.g)
    ensures Eval(Exists(q), t, c) ==
      Ok(Bool(exists m :: FullMatch(ch, t, c.g, m) && WhereHolds(q, MatchRow(ch, t, c.g, m), c)))
  {
    hide MatchRow, WellShaped, WellNamed, ParentOk, FullMatch, PlanMatch, Rows, Eval, LaidOut, StoreOk, WhereHolds, PlanFilters, PlanQuery, FastPath;
    var ps := q.matchClause.value;
    var ms := MatchRowsAreMatches(ps, ch, t, c);
    var source := PlanMatch(ps).value;
    assert PlanSource(q) == Ok(source);
    var rows := Rows(source, t, c).value;
    WhereRows(q, source, t, c, rows);
    QueryRows(q, ch, source, t, c);
    assert FastPath(q, t).None? by { NotFast(q, ch, t); }
    ExistsUnfolds(q, t, c);
    if m :| FullMatch(ch, t, c.g, m) && WhereHolds(q, MatchRow(ch, t, c.g, m), c) {
      assert m in ms;
      var i :| 0 <= i < |ms| && ms[i] == m;
      assert WhereHolds(q, rows[i], c);
    }
    if i :| 0 <= i < |rows| && WhereHolds(q, rows[i], c) {
      assert ms[i] in ms;
    }
  }

  lemma NotFast(q: Query, ch: Chain, t: Tuple)
    requires Subquery(q, ch)
    ensures FastPath(q, t).None?
  {
  }

  // ---------- the shortcut for bare edge patterns ----------

  lemma {:induction false} TypedHops(ids: seq<EdgeId>, g: Graph, edgeType: Option<string>, forward: bool, h: Hop)
    ensures h in HopsOf(ids, g, edgeType, forward) <==> h in HopsOf(ids, g, None, forward) && (edgeType.Some? ==> h.edge.edgeType == edgeType.value)
  {
    if ids != [] {
      TypedHops(ids[..|ids| - 1], g, edgeType, forward, h);
    }
  }

  /** The one type that the shortcut looks for, the whole text of an alternative included; none for any. */
  function WholeType(edgeType: Option<string>): seq<string> {
    if edgeType.None? then [] else [edgeType.value]
  }

  /** One edge, or a walk within the depth range, leads from the node to one that carries a label of the pattern. */
  ghost predicate ShortcutFinds(g: Graph, e: EdgePattern, from: NodeId) {
    exists v :: v in g.nodes && (e.toNode.labels == [] || exists l :: l in e.toNode.labels && l in g.nodes[v].labels) && ShortcutLeads(g, e, from, v)
  }

  ghost predicate ShortcutLeads(g: Graph, e: EdgePattern, from: NodeId, v: NodeId) {
    if e.depth.None? then Linked(Net(g, WholeType(e.edgeType), e.direction), from, v)
    else exists d :: Band(Net(g, PathTypes(e.edgeType), e.direction), Goal(from, e.depth.value.min, e.depth.value.max), v, d)
  }

  function ShortcutHops(g: Graph, e: EdgePattern, from: NodeId): seq<Hop> {
    match e.direction
    case Right => Neighbours(g, from, e.edgeType)
    case Left => NeighboursIncoming(g, from, e.edgeType)
    case Both => Neighbours(g, from, e.edgeType) + NeighboursIncoming(g, from, e.edgeType)
  }

  lemma ShortcutHopsAre(g: Graph, e: EdgePattern, from: NodeId, h: Hop)
    requires WellFormed(g)
    ensures h in ShortcutHops(g, e, from) <==>
      TypeAllowed(WholeType(e.edgeType), h.edge.edgeType) && exists forward :: DirectionAllowed(e.direction, forward) && IsHop(g, from, forward, h)
  {
    hide WellFormed, HopsOf, IsHop;
    TypedHops(Look(g.outgoing, from), g, e.edgeType, true, h);
    TypedHops(Look(g.incoming, from), g, e.edgeType, false, h);
    IndexedHops(g, from, true, h);
    IndexedHops(g, from, false, h);
    assert DirectionAllowed(e.direction, true) <==> e.direction != Left;
    assert DirectionAllowed(e.direction, false) <==> e.direction != Right;
  }

  lemma HopMeans(g: Graph, e: EdgePattern, from: NodeId)
    requires WellFormed(g) && e.depth.None?
    ensures FastExists(g, e, from) <==> ShortcutFinds(g, e, from)
  {
    hide WellFormed, Neighbours, NeighboursIncoming, IsHop;
    var net := Net(g, WholeType(e.edgeType), e.direction);
    if h :| h in ShortcutHops(g, e, from) && LabelMatches(e.toNode, h.node) {
      ShortcutHopsAre(g, e, from, h);
      var forward :| DirectionAllowed(e.direction, forward) && IsHop(g, from, forward, h);
      HopLeads(net, from, forward, h);
    }
    if ShortcutFinds(g, e, from) {
      var v :| v in g.nodes && (e.toNode.labels == [] || exists l :: l in e.toNode.labels && l in g.nodes[v].labels) && Linked(net, from, v);
      var id, forward := LinkOf(net, from, v);
      var h := Hop(g.edges[id], g.nodes[v]);
      LeadsByHop(net, id, forward, from, v);
      ShortcutHopsAre(g, e, from, h);
      assert h in ShortcutHops(g, e, from) && LabelMatches(e.toNode, h.node);
    }
  }

  lemma LinkOf(net: Net, u: NodeId, v: NodeId) returns (id: EdgeId, forward: bool)
    requires Linked(net, u, v)
    ensures Leads(net, id, forward, u, v)
  {
    id, forward :| Leads(net, id, forward, u, v);
  }

  lemma HopLeads(net: Net, from: NodeId, forward: bool, h: Hop)
    requires WellFormed(net.g) && IsHop(net.g, from, forward, h) && DirectionAllowed(net.dir, forward) && TypeAllowed(net.types, h.edge.edgeType)
    ensures h.node.id in net.g.nodes && h.node == net.g.nodes[h.node.id] && Linked(net, from, h.node.id)
  {
    hide LabelsAgree, AdjacencyAgrees;
    assert Leads(net, h.edge.id, forward, from, h.node.id);
  }

  lemma LeadsByHop(net: Net, id: EdgeId, forward: bool, from: NodeId, v: NodeId)
    requires WellFormed(net.g) && Leads(net, id, forward, from, v)
    ensures IsHop(net.g, from, forward, Hop(net.g.edges[id], net.g.nodes[v])) && DirectionAllowed(net.dir, forward)
    ensures TypeAllowed(net.types, net.g.edges[id].edgeType)
  {
    hide LabelsAgree, AdjacencyAgrees;
  }

  lemma WalkMeans(g: Graph, e: EdgePattern, from: NodeId)
    requires WellFormed(g) && e.depth.Some?
    ensures FastExists(g, e, from) <==> ShortcutFinds(g, e, from)
  {
    hide WellFormed, Traverse, Band, PathTypes;
    var net, goal := Net(g, PathTypes(e.edgeType), e.direction), Goal(from, e.depth.value.min, e.depth.value.max);
    TraverseIsExact(net, goal);
    var found := Traverse(g, net.types, net.dir, goal);
    if n :| n in found && LabelMatches(e.toNode, n) {
      assert n.id in g.nodes && n == g.nodes[n.id];
    }
    if ShortcutFinds(g, e, from) {
      var v :| v in g.nodes && (e.toNode.labels == [] || exists l :: l in e.toNode.labels && l in g.nodes[v].labels) && ShortcutLeads(g, e, from, v);
      var d :| Band(net, goal, v, d);
      assert g.nodes[v] in found && LabelMatches(e.toNode, g.nodes[v]);
    }
  }

  ghost predicate BeginsAtBoundNode(q: Query, t: Tuple, e: EdgePattern, v: string, id: NodeId) {
    && q.whereClause.None? && q.matchClause.Some? && q.matchClause.value != [] && q.matchClause.value[0] == EdgePat(e)
    && e.fromNode.variable == Some(v) && v in t && t[v] == NodeRef(id)
  }

  /** The shortcut is taken for such a pattern list and for no other subquery. */
  lemma ShortcutExactly(q: Query, t: Tuple, e: EdgePattern, id: NodeId)
    ensures FastPath(q, t) == Some((e, id)) <==> exists v :: BeginsAtBoundNode(q, t, e, v, id)
  {
    if FastPath(q, t) == Some((e, id)) {
      assert BeginsAtBoundNode(q, t, e, e.fromNode.variable.value, id);
    }
  }

  /** EXISTS over a pattern list that begins with an edge, whose first node the row holds, and without WHERE looks at
      that edge alone: it is true exactly when one stored edge, or a walk in range, leads to a node with one of the
      labels. Parsed patterns begin with a node and are not answered like that. */
  lemma ShortcutMeans(q: Query, t: Tuple, c: Ctx)
    requires FastPath(q, t).Some? && WellFormed(c.g) && c.canRead
    ensures Eval(Exists(q), t, c) == Ok(Bool(ShortcutFinds(c.g, FastPath(q, t).value.0, FastPath(q, t).value.1)))
    ensures q.whereClause.None? && q.matchClause.Some? && q.matchClause.value != [] && q.matchClause.value[0] == EdgePat(FastPath(q, t).value.0)
    ensures var v := FastPath(q, t).value.0.fromNode.variable; v.Some? && v.value in t && t[v.value] == NodeRef(FastPath(q, t).value.1)
  {
    var e, from := FastPath(q, t).value.0, FastPath(q, t).value.1;
    assert Eval(Exists(q), t, c) == Ok(Bool(FastExists(c.g, e, from)));
    hide FastExists, ShortcutFinds, Eval, WellFormed;
    if e.depth.None? {
      HopMeans(c.g, e, from);
    } else {
      WalkMeans(c.g, e, from);
    }
  }

  /** Holding the first node in the outer row restricts the matches to that node, found once, and nothing
      else. */
  lemma CorrelatedMatches(ch: Chain, t: Tuple, g: Graph, m: Match)
    ensures FullMatch(ch, t, g, m) <==>
      FullMatch(ch, map[], g, m) && (NodeVar(ch, 0) in t ==> t[NodeVar(ch, 0)] == NodeRef(m.start) && m.copies[0] == 0)
  {
    hide StepsOk, OthersOk, PropertiesHold;
    if |m.others| <= |ch.others| && m.start in g.nodes && Carries(g.nodes[m.start], ch.first.labels) {
      CarriesOften(g, m.start, ch.first.labels);
    }
  }

  lemma CarriesOften(g: Graph, id: NodeId, labels: seq<string>)
    requires id in g.nodes && Carries(g.nodes[id], labels)
    ensures Times(NodeIn(g, id), labels) > 0
  {
  }

  /** The same match by the first occurrence of its start. */
  function ByFirst(m: Match): Match {
    if m.copies == [] then m else m.(copies := m.copies[0 := 0])
  }

  lemma FirstOccurrence(ch: Chain, g: Graph, m: Match)
    requires FullMatch(ch, map[], g, m)
    ensures FullMatch(ch, map[], g, ByFirst(m)) && m.copies != []
  {
    hide StepOk, PropertiesHold, Candidate, Times;
    var f := ByFirst(m);
    forall i | 0 <= i <= |m.steps| ensures At(f, i) == At(m, i) {}
  }

  /** Correlated EXISTS is sound and complete: when only the chain's first variable is bound outside,
      running the sub-plan under the outer row finds something exactly when the sub-plan run on its own
      has a row that gives this variable the same node. */
  lemma CorrelationIsExact(ps: seq<Pattern>, ch: Chain, t: Tuple, c: Ctx, id: NodeId)
    requires LaidOut(ps, ch) && WellShaped(ch) && WellNamed(ch)
    requires StoreOk(c) && ParentOk(ch, t, c.g)
    requires NodeVar(ch, 0) in t && t[NodeVar(ch, 0)] == NodeRef(id)
    ensures PlanMatch(ps).Ok?
    ensures var inside, alone := Rows(PlanMatch(ps).value, t, c), Rows(PlanMatch(ps).value, map[], c);
      inside.Ok? && alone.Ok? &&
      (inside.value != [] <==>
       exists i :: 0 <= i < |alone.value| && NodeVar(ch, 0) in alone.value[i] && alone.value[i][NodeVar(ch, 0)] == NodeRef(id))
  {
    hide MatchRow, WellShaped, WellNamed, FullMatch, PlanMatch, Rows, LaidOut, NodeVar, ParentOk;
    EmptyParentOk(ch, c.g);
    var inner := MatchRowsAreMatches(ps, ch, t, c);
    var outer := MatchRowsAreMatches(ps, ch, map[], c);
    var inside, alone := Rows(PlanMatch(ps).value, t, c).value, Rows(PlanMatch(ps).value, map[], c).value;
    forall m | m in outer
      ensures NodeVar(ch, 0) in MatchRow(ch, map[], c.g, m) && MatchRow(ch, map[], c.g, m)[NodeVar(ch, 0)] == NodeRef(m.start)
    {
      FirstOfRow(ch, c, m);
    }
    if inside != [] {
      var m := inner[0];
      assert m in inner;
      CorrelatedMatches(ch, t, c.g, m);
      assert m in outer;
      var i :| 0 <= i < |outer| && outer[i] == m;
      assert alone[i][NodeVar(ch, 0)] == NodeRef(id);
    }
    if i :| 0 <= i < |alone| && NodeVar(ch, 0) in alone[i] && alone[i][NodeVar(ch, 0)] == NodeRef(id) {
      var m := outer[i];
      assert m in outer;
      var f := ByFirst(m);
      FirstOccurrence(ch, c.g, m);
      CorrelatedMatches(ch, t, c.g, f);
      assert f in inner;
    }
  }

  lemma FirstOfRow(ch: Chain, c: Ctx, m: Match)
    requires WellNamed(ch) && StoreOk(c) && FullMatch(ch, map[], c.g, m)
    ensures NodeVar(ch, 0) in MatchRow(ch, map[], c.g, m) && MatchRow(ch, map[], c.g, m)[NodeVar(ch, 0)] == NodeRef(m.start)
  {
    hide MatchRow, NodeVar, NodesApart, EdgesApart, OthersApart, AllDotless, StepsOk, OthersOk;
    EmptyParentOk(ch, c.g);
    FirstInRow(ch, map[], c.g, m);
  }

  /** Correlation on a target variable is not a join: when the outer row already holds node `id` under
      the target, an expansion finds something exactly when some hop leads elsewhere. */
  lemma {:induction false} BoundTargetIsExcluded(t: Tuple, hops: seq<Hop>, edgeVar: Option<string>, toVar: string, id: NodeId)
    requires toVar in t && t[toVar] == NodeRef(id)
    ensures ExpandHops(t, hops, edgeVar, toVar) != [] <==> exists h :: h in hops && h.node.id != id
    decreases |hops|
  {
    hide BindNode, BindEdge;
    if hops != [] {
      var n := |hops| - 1;
      BoundTargetIsExcluded(t, hops[..n], edgeVar, toVar, id);
      assert hops == hops[..n] + [hops[n]];
    }
  }

  lemma LastPath(t: Tuple, from: NodeId, reached: seq<Node>, toVar: string)
    requires reached != [] && IdsDistinct(reached) && reached[|reached| - 1].id != from
    ensures var n, before := reached[|reached| - 1], reached[..|reached| - 1];
            ExpandPaths(t, from, reached, toVar) ==
              ExpandPaths(t, from, before, toVar) + if AlreadyBound(t, toVar, n.id) then [] else [BindNode(t, toVar, n)]
  {
    hide BindNode, AlreadyBound;
  }

  lemma {:induction false} BoundTargetInPaths(t: Tuple, from: NodeId, reached: seq<Node>, toVar: string, id: NodeId)
    requires toVar in t && t[toVar] == NodeRef(id)
    requires IdsDistinct(reached) && forall i :: 0 <= i < |reached| ==> reached[i].id != from
    ensures ExpandPaths(t, from, reached, toVar) != [] <==> exists n :: n in reached && n.id != id
    decreases |reached|
  {
    hide BindNode;
    if reached == [] {
      assert ExpandPaths(t, from, reached, toVar) == [];
    } else {
      hide ExpandPaths;
      var k := |reached| - 1;
      LastPath(t, from, reached, toVar);
      BoundTargetInPaths(t, from, reached[..k], toVar, id);
      assert reached == reached[..k] + [reached[k]];
    }
  }

  /** On the graph: when the outer row holds the target already, an expansion over one hop or over a depth
      range finds something exactly when the edge pattern leads to some other node. */
  lemma BoundTargetOnGraph(g: Graph, t: Tuple, e: EdgePattern, fromVar: string, toVar: string, from: NodeId, id: NodeId)
    requires WellFormed(g)
    requires fromVar in t && t[fromVar] == NodeRef(from) && toVar in t && t[toVar] == NodeRef(id)
    ensures ExpandRow(t, Expansion(fromVar, e.variable, toVar, e.edgeType, e.direction, e.depth), g) != []
      <==> exists s :: StepOk(g, e, from, s) && s.node != id
  {
    hide StepOk, Successors, Traverse, ExpandHops, ExpandPaths, PathTypes, HopTypes, Exact, Band;
    if e.depth.None? {
      var hops := Successors(g, from, HopTypes(e.edgeType), e.direction);
      var steps := SuccessorSteps(g, from, e);
      BoundTargetIsExcluded(t, hops, e.variable, toVar, id);
      StepsAndHops(g, steps, hops, id);
    } else {
      var goal := Goal(from, e.depth.value.min, e.depth.value.max);
      var found := Traverse(g, PathTypes(e.edgeType), e.direction, goal);
      TraverseIsExact(Net(g, PathTypes(e.edgeType), e.direction), goal);
      JumpsAreSteps(g, from, e, found);
      BoundTargetInPaths(t, from, found, toVar, id);
      JumpsAndNodes(found, id);
    }
  }

  lemma StepsAndHops(g: Graph, steps: seq<Step>, hops: seq<Hop>, id: NodeId)
    requires SideBySide(g, steps, hops) && DenseIds(g)
    ensures (exists h :: h in hops && h.node.id != id) <==> exists s :: s in steps && s.node != id
  {
    if h :| h in hops && h.node.id != id {
      var i :| 0 <= i < |hops| && hops[i] == h;
      assert Follows(g, steps[i], h) && steps[i] in steps;
    }
    if s :| s in steps && s.node != id {
      var i :| 0 <= i < |steps| && steps[i] == s;
      assert Follows(g, s, hops[i]) && hops[i] in hops;
    }
  }

  lemma JumpsAndNodes(found: seq<Node>, id: NodeId)
    ensures (exists n :: n in found && n.id != id) <==> exists s :: s in Jumps(found) && s.node != id
  {
    if n :| n in found && n.id != id {
      var i :| 0 <= i < |found| && found[i] == n;
      assert Jumps(found)[i] == Jump(n.id);
    }
    if s :| s in Jumps(found) && s.node != id {
      var i :| 0 <= i < |found| && Jumps(found)[i] == s;
      assert found[i] in found;
    }
  }
}
