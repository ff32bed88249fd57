/** Compiling a MATCH clause preserves its meaning: the rows of the plan are, one to one, the matches
    of the pattern. */
module MatchTheorem {
  import opened Prelude
  import opened Values
  import opened Ast
  import opened GraphStore
  import opened Distances
  import opened Traversal
  import opened Planner
  import opened Semantics
  import opened Chains
  import opened Bindings
  import opened Matching
  import opened Expansions

  /** `m` matches exactly the first `k` edges and `j` standalone nodes. */
  ghost predicate PartMatch(ch: Chain, parent: Tuple, g: Graph, k: nat, j: nat, m: Match) {
    IsMatch(ch, parent, g, m) && |m.steps| == k && |m.others| == j
  }

  /** `rows` are the rows of `ms`, which are exactly the matches of the first `k` edges and `j`
      standalone nodes, each once. */
  ghost predicate Lists(ch: Chain, parent: Tuple, g: Graph, k: nat, j: nat, rows: seq<Tuple>, ms: seq<Match>) {
    RowsFor(ch, parent, g, rows, ms) && forall m :: m in ms <==> PartMatch(ch, parent, g, k, j, m)
  }

  /** Matches of `k` edges whose start may stand for the first variable. */
  ghost predicate Rooted(ch: Chain, parent: Tuple, g: Graph, k: nat, m: Match) {
    && |m.steps| == k <= |ch.edges| && m.others == [] && |m.copies| == 1
    && Found(g, parent, NodeVar(ch, 0), ch.first.labels, (m.start, m.copies[0]))
  }

  /** The `i`-th node of `m` has the given properties. */
  ghost predicate HasProperties(g: Graph, m: Match, i: nat, props: Properties) {
    i <= |m.steps| && PropertiesHold(NodeIn(g, At(m, i)), props)
  }

  // ---------- filters on inline properties ----------

  lemma FilterMeansProperties(ch: Chain, parent: Tuple, c: Ctx, k: nat, i: nat, m: Match, props: Properties)
    requires WellNamed(ch) && ParentOk(ch, parent, c.g) && Rooted(ch, parent, c.g, k, m) && i <= k && props != []
    ensures IsTrue(Eval(PropertyPredicate(NodeVar(ch, i), props), MatchRow(ch, parent, c.g, m), c)) <==>
            HasProperties(c.g, m, i, props)
  {
    hide StepsRow, NodeVar, PropertiesHold, PropertyPredicate, Eval, NodesApart, EdgesApart, OthersApart, AllDotless, ParentOk, Candidate;
    StepsRowBinds(ch, parent, c.g, m.start, m.steps, i);
    PropertyPredicateMeans(StepsRow(ch, parent, c.g, m.start, m.steps), NodeVar(ch, i), NodeIn(c.g, At(m, i)), props, c);
  }

  /** Filtering by inline properties of the `i`-th node keeps the matches whose `i`-th node has them. */
  lemma FilterAtNode(ch: Chain, parent: Tuple, c: Ctx, k: nat, i: nat, p: PlanNode, rows: seq<Tuple>, ms: seq<Match>, props: Properties)
    returns (rows': seq<Tuple>, kept: seq<Match>)
    requires WellNamed(ch) && ParentOk(ch, parent, c.g) && i <= k <= |ch.edges|
    requires Rows(p, parent, c) == Ok(rows) && RowsFor(ch, parent, c.g, rows, ms)
    requires forall m :: m in ms ==> Rooted(ch, parent, c.g, k, m)
    ensures Rows(FilterByProperties(p, NodeVar(ch, i), props), parent, c) == Ok(rows')
    ensures RowsFor(ch, parent, c.g, rows', kept)
    ensures forall m :: m in kept <==> m in ms && HasProperties(c.g, m, i, props)
  {
    hide RowsFor, MatchRow, NodeVar, WellNamed, ParentOk, PropertyPredicate, FilterRows, Eval;
    if props == [] {
      rows', kept := rows, ms;
    } else {
      var e := PropertyPredicate(NodeVar(ch, i), props);
      rows' := FilterRows(rows, e, c);
      assert Rows(Filter(p, e), parent, c) == Ok(rows');
      kept := FilterMatches(ch, parent, rows, ms, e, c);
      forall m | m in ms
        ensures IsTrue(Eval(e, MatchRow(ch, parent, c.g, m), c)) <==> HasProperties(c.g, m, i, props)
      {
        FilterMeansProperties(ch, parent, c, k, i, m, props);
      }
    }
  }

  // ---------- the first node ----------

  function Starts(finds: seq<(NodeId, nat)>): (r: seq<Match>)
    ensures |r| == |finds|
  {
    seq(|finds|, i requires 0 <= i < |finds| => Match(finds[i].0, [], [], [finds[i].1]))
  }

  lemma StartsOfScan(ch: Chain, parent: Tuple, c: Ctx, finds: seq<(NodeId, nat)>, rows: seq<Tuple>)
    requires ScanLists(c, parent, NodeVar(ch, 0), ch.first.labels, finds, rows)
    ensures RowsFor(ch, parent, c.g, rows, Starts(finds))
    ensures forall m :: m in Starts(finds) <==> Rooted(ch, parent, c.g, 0, m)
  {
    hide BindNode, Found;
    var ms := Starts(finds);
    forall i, j | 0 <= i < j < |ms|
      ensures ms[i] != ms[j]
    {
      assert ms[i].start == finds[i].0 && ms[j].start == finds[j].0;
      assert ms[i].copies[0] == finds[i].1 && ms[j].copies[0] == finds[j].1;
    }
    forall m | m in ms
      ensures Rooted(ch, parent, c.g, 0, m)
    {
      var i :| 0 <= i < |ms| && ms[i] == m;
      assert finds[i] in finds && (m.start, m.copies[0]) == finds[i];
    }
    forall m | Rooted(ch, parent, c.g, 0, m)
      ensures m in ms
    {
      var i :| 0 <= i < |finds| && finds[i] == (m.start, m.copies[0]);
      assert ms[i] == m;
    }
  }

  lemma StartMatches(ch: Chain, parent: Tuple, g: Graph, m: Match)
    ensures PartMatch(ch, parent, g, 0, 0, m) <==> Rooted(ch, parent, g, 0, m) && HasProperties(g, m, 0, ch.first.properties)
  {
  }

  lemma StartRows(ch: Chain, parent: Tuple, c: Ctx) returns (rows: seq<Tuple>, ms: seq<Match>)
    requires StoreOk(c) && WellNamed(ch) && ParentOk(ch, parent, c.g)
    ensures Rows(StartPlan(ch), parent, c) == Ok(rows) && Lists(ch, parent, c.g, 0, 0, rows, ms)
  {
    hide Rows, RowsFor, PartMatch, Rooted, WellNamed, ParentOk, ScanLists;
    var scan := Scan(NodeVar(ch, 0), ch.first.labels);
    var finds := ScanIsExact(c, parent, NodeVar(ch, 0), ch.first.labels);
    var scanned := Rows(scan, parent, c).value;
    StartsOfScan(ch, parent, c, finds, scanned);
    rows, ms := FilterAtNode(ch, parent, c, 0, 0, scan, scanned, Starts(finds), ch.first.properties);
    forall m
      ensures m in ms <==> PartMatch(ch, parent, c.g, 0, 0, m)
    {
      StartMatches(ch, parent, c.g, m);
      assert m in Starts(finds) <==> Rooted(ch, parent, c.g, 0, m);
    }
  }

  // ---------- one more edge ----------

  lemma StepsOkExtends(ch: Chain, g: Graph, m: Match)
    requires 0 < |m.steps| <= |ch.edges|
    ensures var k := |m.steps| - 1; var p := m.(steps := m.steps[..k]);
      StepsOk(ch, g, m) <==>
        StepsOk(ch, g, p) && StepOk(g, ch.edges[k], At(m, k), m.steps[k])
        && PropertiesHold(NodeIn(g, At(m, k)), ch.edges[k].fromNode.properties)
  {
    hide StepOk, PropertiesHold;
    var k := |m.steps| - 1;
    var p := m.(steps := m.steps[..k]);
    forall i | 0 <= i <= k
      ensures At(m, i) == At(p, i)
    {
    }
    if StepsOk(ch, g, m) {
      forall i | 0 <= i < k
        ensures StepOk(g, ch.edges[i], At(p, i), p.steps[i]) && PropertiesHold(NodeIn(g, At(p, i)), ch.edges[i].fromNode.properties)
      {
        assert m.steps[i] == p.steps[i];
      }
    }
    if StepsOk(ch, g, p) && StepOk(g, ch.edges[k], At(m, k), m.steps[k]) && PropertiesHold(NodeIn(g, At(m, k)), ch.edges[k].fromNode.properties) {
      forall i | 0 <= i < |m.steps|
        ensures StepOk(g, ch.edges[i], At(m, i), m.steps[i]) && PropertiesHold(NodeIn(g, At(m, i)), ch.edges[i].fromNode.properties)
      {
        if i < k {
          assert m.steps[i] == p.steps[i];
        }
      }
    }
  }

  lemma NextMatches(ch: Chain, parent: Tuple, g: Graph, k: nat, m: Match)
    requires k < |ch.edges|
    ensures PartMatch(ch, parent, g, k + 1, 0, m) <==>
      |m.steps| == k + 1 && PartMatch(ch, parent, g, k, 0, m.(steps := m.steps[..k]))
      && StepOk(g, ch.edges[k], At(m, k), m.steps[k])
      && PropertiesHold(NodeIn(g, At(m, k)), ch.edges[k].fromNode.properties)
  {
    hide StepOk, PropertiesHold, StepsOk, OthersOk, Candidate, Repeats;
    if |m.steps| == k + 1 && m.others == [] {
      StepsOkExtends(ch, g, m);
      NoOthers(ch, g, m);
      NoOthers(ch, g, m.(steps := m.steps[..k]));
    }
  }

  lemma NoOthers(ch: Chain, g: Graph, m: Match)
    requires m.others == []
    ensures OthersOk(ch, g, m)
  {
  }

  lemma ExpandPlanRows(ch: Chain, parent: Tuple, c: Ctx, k: nat, input: PlanNode, kept: seq<Tuple>)
    requires k < |ch.edges|
    requires Rows(FilterByProperties(input, NodeVar(ch, k), ch.edges[k].fromNode.properties), parent, c) == Ok(kept)
    ensures Rows(ExpandOver(input, ch.edges[k], NodeVar(ch, k), NodeVar(ch, k + 1)), parent, c) ==
            Ok(ExpandRows(kept, ExpansionOf(ch, k), c.g))
  {
    hide NodeVar, ExpandRows, FilterByProperties;
  }

  lemma SeparationPasses(ch: Chain, parent: Tuple, c: Ctx, k: nat, m: Match)
    requires WellFormed(c.g) && WellNamed(ch) && ParentOk(ch, parent, c.g) && k < |ch.edges|
    requires Rooted(ch, parent, c.g, k + 1, m) && ch.edges[k].depth.Some? && StepOk(c.g, ch.edges[k], At(m, k), m.steps[k])
    ensures IsTrue(Eval(EndpointsDiffer(NodeVar(ch, k), NodeVar(ch, k + 1)), MatchRow(ch, parent, c.g, m), c))
  {
    hide StepsRow, NodeVar, Eval, NodesApart, EdgesApart, OthersApart, AllDotless, ParentOk, Candidate, Band;
    var e := ch.edges[k];
    var net, goal := Net(c.g, PathTypes(e.edgeType), e.direction), Goal(At(m, k), e.depth.value.min, e.depth.value.max);
    var d :| Band(net, goal, m.steps[k].node, d);
    BandIsAway(net, goal, m.steps[k].node, d);
    StepsRowBinds(ch, parent, c.g, m.start, m.steps, k);
    StepsRowBinds(ch, parent, c.g, m.start, m.steps, k + 1);
    NodeInId(c.g, At(m, k));
    NodeInId(c.g, At(m, k + 1));
    EndpointsDifferMeans(StepsRow(ch, parent, c.g, m.start, m.steps), NodeVar(ch, k), NodeVar(ch, k + 1),
                         NodeIn(c.g, At(m, k)), NodeIn(c.g, At(m, k + 1)), c);
  }

  /** The filter that keeps endpoints apart on variable-length edges removes nothing. */
  lemma SeparateRows(ch: Chain, parent: Tuple, c: Ctx, k: nat, p: PlanNode, rows: seq<Tuple>, ms: seq<Match>)
    returns (rows': seq<Tuple>, kept: seq<Match>)
    requires WellFormed(c.g) && WellNamed(ch) && ParentOk(ch, parent, c.g) && k < |ch.edges|
    requires Rows(p, parent, c) == Ok(rows) && RowsFor(ch, parent, c.g, rows, ms)
    requires forall m :: m in ms ==> Rooted(ch, parent, c.g, k + 1, m) && StepOk(c.g, ch.edges[k], At(m, k), m.steps[k])
    ensures Rows(SeparateEndpoints(p, ch.edges[k], NodeVar(ch, k), NodeVar(ch, k + 1)), parent, c) == Ok(rows')
    ensures RowsFor(ch, parent, c.g, rows', kept) && forall m :: m in kept <==> m in ms
  {
    hide RowsFor, MatchRow, NodeVar, WellFormed, WellNamed, ParentOk, EndpointsDiffer, StepOk, FilterRows, Eval;
    var e := ch.edges[k];
    if e.depth.Some? && e.depth.value.min >= 1 {
      var differ := EndpointsDiffer(NodeVar(ch, k), NodeVar(ch, k + 1));
      rows' := FilterRows(rows, differ, c);
      assert Rows(Filter(p, differ), parent, c) == Ok(rows');
      kept := FilterMatches(ch, parent, rows, ms, differ, c);
      forall m | m in ms
        ensures IsTrue(Eval(differ, MatchRow(ch, parent, c.g, m), c))
      {
        SeparationPasses(ch, parent, c, k, m);
      }
    } else {
      rows', kept := rows, ms;
    }
  }

  lemma ExtensionRooted(ch: Chain, parent: Tuple, g: Graph, k: nat, ms: seq<Match>, x: Match)
    requires k < |ch.edges| && Extends(ch, g, k, ms, x)
    requires forall m :: m in ms ==> Rooted(ch, parent, g, k, m)
    ensures Rooted(ch, parent, g, k + 1, x) && At(x.(steps := x.steps[..k]), k) == At(x, k)
  {
    hide StepOk, Candidate, NodeVar;
    assert Rooted(ch, parent, g, k, x.(steps := x.steps[..k]));
  }

  lemma PartIsRooted(ch: Chain, parent: Tuple, g: Graph, k: nat, m: Match)
    requires PartMatch(ch, parent, g, k, 0, m)
    ensures Rooted(ch, parent, g, k, m) && ChainMatch(ch, parent, g, k, m)
  {
  }

  /** One more edge in the plan is one more step in the matches. */
  lemma NextRows(ch: Chain, parent: Tuple, c: Ctx, k: nat, input: PlanNode, rows: seq<Tuple>, ms: seq<Match>)
    returns (rows': seq<Tuple>, ms': seq<Match>)
    requires StoreOk(c) && WellNamed(ch) && ParentOk(ch, parent, c.g) && k < |ch.edges|
    requires Rows(input, parent, c) == Ok(rows) && Lists(ch, parent, c.g, k, 0, rows, ms)
    ensures Rows(ExtendPlan(ch, k, input), parent, c) == Ok(rows') && Lists(ch, parent, c.g, k + 1, 0, rows', ms')
  {
    hide Rows, RowsFor, PartMatch, Rooted, WellNamed, WellFormed, ParentOk, NodeVar, HasProperties, StepOk, ExpandRows, ExpansionOf,
         FilterByProperties, ExpandOver, SeparateEndpoints, ChainMatch;
    var e, u, v := ch.edges[k], NodeVar(ch, k), NodeVar(ch, k + 1);
    var props := e.fromNode.properties;
    forall m | m in ms ensures Rooted(ch, parent, c.g, k, m) && ChainMatch(ch, parent, c.g, k, m) { PartIsRooted(ch, parent, c.g, k, m); }
    var rows1, ms1 := FilterAtNode(ch, parent, c, k, k, input, rows, ms, props);
    ExpandPlanRows(ch, parent, c, k, input, rows1);
    var rows2 := ExpandRows(rows1, ExpansionOf(ch, k), c.g);
    var ms2 := ExpandMatches(ch, parent, c.g, k, rows1, ms1);
    forall m | m in ms2
      ensures Rooted(ch, parent, c.g, k + 1, m) && At(m.(steps := m.steps[..k]), k) == At(m, k)
    {
      ExtensionRooted(ch, parent, c.g, k, ms1, m);
    }
    var rows3, ms3 := FilterAtNode(ch, parent, c, k + 1, k, ExpandOver(input, e, u, v), rows2, ms2, props);
    rows', ms' := SeparateRows(ch, parent, c, k, FilterByProperties(ExpandOver(input, e, u, v), u, props), rows3, ms3);
    forall m
      ensures m in ms' <==> PartMatch(ch, parent, c.g, k + 1, 0, m)
    {
      NextMembers(ch, parent, c.g, k, ms, ms1, ms2, m);
    }
  }

  lemma NextMembers(ch: Chain, parent: Tuple, g: Graph, k: nat, ms: seq<Match>, ms1: seq<Match>, ms2: seq<Match>, m: Match)
    requires k < |ch.edges|
    requires forall x :: x in ms <==> PartMatch(ch, parent, g, k, 0, x)
    requires forall x :: x in ms1 <==> x in ms && HasProperties(g, x, k, ch.edges[k].fromNode.properties)
    requires forall x :: x in ms2 <==> Extends(ch, g, k, ms1, x)
    ensures PartMatch(ch, parent, g, k + 1, 0, m) <==> m in ms2 && HasProperties(g, m, k, ch.edges[k].fromNode.properties)
  {
    hide PartMatch, StepOk, PropertiesHold;
    NextMatches(ch, parent, g, k, m);
    if |m.steps| == k + 1 {
      var p := m.(steps := m.steps[..k]);
      assert At(p, k) == At(m, k);
      assert p in ms <==> PartMatch(ch, parent, g, k, 0, p);
    }
  }

  lemma {:induction false} ChainRows(ch: Chain, parent: Tuple, c: Ctx, k: nat) returns (rows: seq<Tuple>, ms: seq<Match>)
    requires StoreOk(c) && WellNamed(ch) && ParentOk(ch, parent, c.g) && k <= |ch.edges|
    ensures Rows(ChainPlan(ch, k), parent, c) == Ok(rows) && Lists(ch, parent, c.g, k, 0, rows, ms)
    decreases k
  {
    hide Rows, Lists, WellNamed, ParentOk, StoreOk, StartPlan, ExtendPlan;
    if k == 0 {
      rows, ms := StartRows(ch, parent, c);
    } else {
      rows, ms := ChainRows(ch, parent, c, k - 1);
      rows, ms := NextRows(ch, parent, c, k - 1, ChainPlan(ch, k - 1), rows, ms);
    }
  }
}
