/** MATCH .. CREATE as a whole: the matches are taken from the store as it was before anything is
    created. */
module MatchCreation {
  import opened Prelude
  import opened Values
  import opened Ast
  import opened GraphStore
  import opened Traversal
  import opened Distances
  import opened Planner
  import opened Semantics
  import opened Chains
  import opened Bindings
  import opened Matching
  import opened Expansions
  import opened MatchTheorem
  import opened Compilation
  import opened Creation
  import opened Created
  import StableSort
  import Ordering

  lemma GroundedUnion(t: Tuple, extra: Tuple, g: Graph)
    requires Grounded(t, g) && Grounded(extra, g)
    ensures Grounded(t + extra, g)
  {
  }

  lemma DotPropsGrounded(v: string, props: map<string, Value>, g: Graph)
    ensures Grounded(DotProps(v, props), g)
  {
    forall w | w in DotProps(v, props)
      ensures !Dotless(w)
    {
      var k :| k in props && w == PropKey(v, k);
      PropKeyHasDot(v, k);
    }
  }

  lemma NodeEntriesGrounded(v: string, n: Node, g: Graph)
    requires n.id in g.nodes
    ensures Grounded(NodeEntries(v, n), g)
  {
    hide DotProps;
    DotPropsGrounded(v, n.properties, g);
    GroundedUnion(map[v := NodeRef(n.id)], DotProps(v, n.properties), g);
  }

  lemma EdgeEntriesGrounded(v: string, e: Edge, g: Graph)
    ensures Grounded(EdgeEntries(v, e), g)
  {
    hide DotProps;
    DotPropsGrounded(v, e.properties, g);
    GroundedUnion(map[v := Int(e.id)], map[PropKey(v, "edge_type") := Str(e.edgeType)], g);
    GroundedUnion(map[v := Int(e.id)] + map[PropKey(v, "edge_type") := Str(e.edgeType)], DotProps(v, e.properties), g);
  }

  lemma StepNodeStored(g: Graph, e: EdgePattern, from: NodeId, s: Step)
    requires DenseIds(g) && StepOk(g, e, from, s)
    ensures NodeIn(g, s.node).id in g.nodes
  {
  }

  lemma TakeStepGrounded(ch: Chain, g: Graph, k: nat, t: Tuple, s: Step)
    requires k < |ch.edges| && Grounded(t, g) && NodeIn(g, s.node).id in g.nodes
    ensures Grounded(TakeStep(ch, g, k, t, s), g)
  {
    hide Grounded, NodeEntries, EdgeEntries;
    var v, r := NodeVar(ch, k + 1), ch.edges[k].variable;
    NodeEntriesGrounded(v, NodeIn(g, s.node), g);
    GroundedUnion(t, NodeEntries(v, NodeIn(g, s.node)), g);
    if s.Along? && r.Some? {
      EdgeEntriesGrounded(r.value, EdgeIn(g, s.edge), g);
      GroundedUnion(t + NodeEntries(v, NodeIn(g, s.node)), EdgeEntries(r.value, EdgeIn(g, s.edge)), g);
    }
  }

  lemma {:induction false} StepsRowGrounded(ch: Chain, g: Graph, m: Match, k: nat)
    requires DenseIds(g) && k <= |m.steps| <= |ch.edges| && m.start in g.nodes && StepsOk(ch, g, m)
    ensures Grounded(StepsRow(ch, map[], g, m.start, m.steps[..k]), g)
    decreases k
  {
    hide Grounded, NodeEntries, TakeStep, StepOk, PropertiesHold;
    if k == 0 {
      EmptyGrounded(g);
      NodeEntriesGrounded(NodeVar(ch, 0), NodeIn(g, m.start), g);
      GroundedUnion(map[], NodeEntries(NodeVar(ch, 0), NodeIn(g, m.start)), g);
    } else {
      StepsRowGrounded(ch, g, m, k - 1);
      assert m.steps[..k][..k - 1] == m.steps[..k - 1];
      StepNodeStored(g, ch.edges[k - 1], At(m, k - 1), m.steps[k - 1]);
      TakeStepGrounded(ch, g, k - 1, StepsRow(ch, map[], g, m.start, m.steps[..k - 1]), m.steps[k - 1]);
      StepsRowLast(ch, map[], g, m.start, m.steps[..k]);
    }
  }

  lemma EmptyGrounded(g: Graph)
    ensures Grounded(map[], g)
  {
  }

  lemma {:induction false} OthersRowGrounded(ch: Chain, g: Graph, t: Tuple, m: Match, j: nat)
    requires DenseIds(g) && Grounded(t, g) && j <= |m.others| <= |ch.others| && OthersOk(ch, g, m)
    ensures Grounded(OthersRow(ch, g, t, m.others[..j]), g)
    decreases j
  {
    hide Grounded, NodeEntries, PropertiesHold;
    if j > 0 {
      OthersRowGrounded(ch, g, t, m, j - 1);
      assert m.others[..j][..j - 1] == m.others[..j - 1];
      NodeEntriesGrounded(OtherVar(ch, j - 1), NodeIn(g, m.others[j - 1]), g);
      GroundedUnion(OthersRow(ch, g, t, m.others[..j - 1]), NodeEntries(OtherVar(ch, j - 1), NodeIn(g, m.others[j - 1])), g);
    }
  }

  /** The variables of a match's row refer to stored nodes. */
  lemma MatchRowGrounded(ch: Chain, g: Graph, m: Match)
    requires DenseIds(g) && IsMatch(ch, map[], g, m)
    ensures Grounded(MatchRow(ch, map[], g, m), g)
  {
    hide Grounded, StepsOk, OthersOk, StepsRow, OthersRow;
    assert m.steps[..|m.steps|] == m.steps && m.others[..|m.others|] == m.others;
    StepsRowGrounded(ch, g, m, |m.steps|);
    OthersRowGrounded(ch, g, StepsRow(ch, map[], g, m.start, m.steps), m, |m.others|);
  }

  /** MATCH chain CREATE patterns, and nothing else. */
  ghost predicate CreatesFor(q: Query, ch: Chain, ps: seq<Pattern>) {
    q.matchClause.Some? && LaidOut(q.matchClause.value, ch) && q.createClause == Some(ps)
  }

  // ---------- the clauses above a writing plan ----------

  predicate HasAggregates(items: seq<ReturnItem>) {
    exists i :: 0 <= i < |items| && HasAggregate(items[i].expr)
  }

  /** What RETURN makes of rows: one row each, or one per group. */
  function Produced(items: seq<ReturnItem>, rows: seq<Tuple>, c: Ctx): Result<seq<Tuple>> {
    if HasAggregates(items) then AggregatedRows(rows, GroupKeysOf(items), AggregatesOf(items), c) else Ok(ProjectRows(rows, items, c))
  }

  /** What RETURN, ORDER BY and LIMIT make of rows. */
  function Returned(q: Query, rows: seq<Tuple>, c: Ctx): Result<seq<Tuple>>
    requires q.returnClause.Some?
  {
    var returned :- Produced(q.returnClause.value.items, rows, c);
    var ordered := if q.orderBy.Some? then SortedBy(returned, q.orderBy.value.items, c) else returned;
    Ok(if q.limit.Some? then FirstRows(ordered, q.limit.value) else ordered)
  }

  /** What WITH, WHERE, RETURN, ORDER BY and LIMIT make of rows. */
  function Finished(q: Query, rows: seq<Tuple>, c: Ctx): Result<seq<Tuple>> {
    var projected := if q.withClause.Some? then ProjectRows(rows, WithItems(q.withClause.value.items), c) else rows;
    var filtered := if q.whereClause.Some? then FilterRows(projected, q.whereClause.value, c) else projected;
    if q.returnClause.None? then Ok(filtered) else Returned(q, filtered, c)
  }

  function Then(o: Outcome<seq<Tuple>>, next: Result<seq<Tuple>>): Outcome<seq<Tuple>> {
    Outcome(o.g, if o.result.Err? then o.result else next)
  }

  function ValueOf(o: Outcome<seq<Tuple>>): seq<Tuple> {
    if o.result.Ok? then o.result.value else []
  }

  lemma ProjectExecutes(p: PlanNode, items: seq<ReturnItem>, c: Ctx)
    ensures var o := Execute(p, map[], c); Execute(Project(p, items), map[], c) == Then(o, Ok(ProjectRows(ValueOf(o), items, c)))
  {
    hide ProjectRows, FilterRows, KeyedRows;
  }

  lemma FilterExecutes(p: PlanNode, e: Expr, c: Ctx)
    ensures var o := Execute(p, map[], c); Execute(Filter(p, e), map[], c) == Then(o, Ok(FilterRows(ValueOf(o), e, c)))
  {
    hide ProjectRows, FilterRows, KeyedRows;
  }

  lemma OrderExecutes(p: PlanNode, items: seq<OrderByItem>, c: Ctx)
    ensures var o := Execute(p, map[], c); Execute(OrderBy(p, items), map[], c) == Then(o, Ok(SortedBy(ValueOf(o), items, c)))
  {
    hide ProjectRows, FilterRows, KeyedRows, StableSort.Sort, Descending, Ordering.RowsOf;
  }

  lemma LimitExecutes(p: PlanNode, count: nat, c: Ctx)
    ensures var o := Execute(p, map[], c); Execute(Limit(p, count), map[], c) == Then(o, Ok(FirstRows(ValueOf(o), count)))
  {
    hide ProjectRows, FilterRows, KeyedRows, StableSort.Sort, SortedBy, Descending, Ordering.RowsOf, AggregatedRows, ExpandRows, ScanRows, Product, CreateRows;
  }

  lemma AggregationExecutes(p: PlanNode, keys: seq<Expr>, aggregates: seq<(string, Expr)>, c: Ctx)
    ensures Execute(Aggregation(p, keys, aggregates), map[], c)
         == Then(Execute(p, map[], c), AggregatedRows(ValueOf(Execute(p, map[], c)), keys, aggregates, c))
  {
    hide AggregatedRows, ProjectRows, FilterRows, KeyedRows, StableSort.Sort;
  }

  /** A query's clauses above its source change no store, and change its rows as `Finished` says. */
  lemma ExecuteFinishes(q: Query, source: PlanNode, c: Ctx)
    requires PlanSource(q) == Ok(source)
    ensures PlanQuery(q).Ok?
    ensures var o := Execute(source, map[], c); Execute(PlanQuery(q).value, map[], c) == Then(o, Finished(q, ValueOf(o), c))
  {
    hide PlanSource, FilterRows, ProjectRows, SortedBy, WithItems, Execute, PlanReturn, HasAggregates;
    var items := if q.withClause.Some? then WithItems(q.withClause.value.items) else [];
    var staged := if q.withClause.Some? then Project(source, items) else source;
    ProjectExecutes(source, items, c);
    if q.whereClause.Some? {
      FilterExecutes(staged, q.whereClause.value, c);
    }
    if q.returnClause.Some? {
      ReturnExecutes(q, PlanFilters(q, source), c);
    }
  }

  /** RETURN, ORDER BY and LIMIT above a plan. */
  lemma ReturnExecutes(q: Query, filtered: PlanNode, c: Ctx)
    requires q.returnClause.Some?
    ensures var returned := PlanReturn(q.returnClause.value.items, filtered);
            var ordered := if q.orderBy.Some? then OrderBy(returned, q.orderBy.value.items) else returned;
            var plan := if q.limit.Some? then Limit(ordered, q.limit.value) else ordered;
            var o := Execute(filtered, map[], c);
            Execute(plan, map[], c) == Then(o, Returned(q, ValueOf(o), c))
  {
    hide FilterRows, ProjectRows, SortedBy, Execute, PlanReturn, HasAggregates, FirstRows, AggregatedRows;
    var items := q.returnClause.value.items;
    var returned := PlanReturn(items, filtered);
    PlanReturnCases(items, filtered);
    ProjectExecutes(filtered, items, c);
    AggregationExecutes(filtered, GroupKeysOf(items), AggregatesOf(items), c);
    var ordered := if q.orderBy.Some? then OrderBy(returned, q.orderBy.value.items) else returned;
    if q.orderBy.Some? {
      OrderExecutes(returned, q.orderBy.value.items, c);
    }
    if q.limit.Some? {
      LimitExecutes(ordered, q.limit.value, c);
    }
  }

  lemma PlanReturnCases(items: seq<ReturnItem>, p: PlanNode)
    ensures PlanReturn(items, p) == if HasAggregates(items) then Aggregation(p, GroupKeysOf(items), AggregatesOf(items)) else Project(p, items)
  {
    hide HasAggregate, GroupKeysOf, AggregatesOf;
  }

  /** Whatever WITH, WHERE, RETURN, ORDER BY and LIMIT say, a query with CREATE leaves the same store as
      without them: in particular WHERE does not restrict what is created. */
  lemma WhereDoesNotRestrictCreation(q: Query, c: Ctx)
    requires q.createClause.Some? && PlanQuery(q).Ok?
    ensures var bare := q.(withClause := None, whereClause := None, returnClause := None, orderBy := None, limit := None);
            PlanQuery(bare).Ok? && Execute(PlanQuery(q).value, map[], c).g == Execute(PlanQuery(bare).value, map[], c).g
  {
    hide Execute, PlanMatch;
    var bare := q.(withClause := None, whereClause := None, returnClause := None, orderBy := None, limit := None);
    assert PlanSource(q) == PlanSource(bare);
    ExecuteFinishes(q, PlanSource(q).value, c);
    ExecuteFinishes(bare, PlanSource(q).value, c);
  }

  lemma MatchCreateUnfolds(q: Query, ch: Chain, ps: seq<Pattern>, c: Ctx, rows: seq<Tuple>)
    requires CreatesFor(q, ch, ps) && PlanMatch(q.matchClause.value).Ok?
    requires Rows(PlanMatch(q.matchClause.value).value, map[], c) == Ok(rows)
    ensures PlanSource(q) == Ok(MatchCreate(PlanMatch(q.matchClause.value).value, ps))
    ensures Execute(PlanSource(q).value, map[], c) == CreateRows(ps, rows, c.g)
  {
    hide PlanMatch, Rows, CreateRows;
  }

  /** From the store `g`, `o` is what creating the patterns once per row must end in. */
  ghost predicate CreatesOncePerRow(ps: seq<Pattern>, rows: seq<Tuple>, g: Graph, o: Outcome<seq<Tuple>>) {
    && WellFormed(o.g) && Kept(g, o.g)
    && (o.result.Ok? <==> forall i :: 0 <= i < |rows| ==> WellScoped(ps, |ps|, rows[i]))
    && (o.result.Ok? ==> |o.result.value| == |rows| && Grown(g, o.g, |rows| * NodePatterns(ps, |ps|), |rows| * EdgePatterns(ps, |ps|)))
    && (o.result.Ok? ==> RowsCreate(ps, rows, g, o.g, o.result.value))
    && (NoDangling(g) && (forall i :: 0 <= i < |ps| ==> NamesOk(ps[i])) ==> NoDangling(o.g))
  }

  /** MATCH .. CREATE, with any clauses behind it, reads only the store as it was. With `ms` the matches in
      the old store, creation succeeds exactly when the patterns are well scoped under every match, and then
      every match gets its own new nodes and edges as the patterns describe them; everything stored before is
      stored unchanged, the store stays well formed, and no dangling edge appears. The answer is what the
      other clauses make of the created rows, none of which they can undo. */
  lemma MatchCreateReadsOldStore(q: Query, ch: Chain, ps: seq<Pattern>, c: Ctx) returns (rows: seq<Tuple>, ms: seq<Match>)
    requires CreatesFor(q, ch, ps) && WellShaped(ch) && WellNamed(ch) && StoreOk(c)
    ensures PlanQuery(q).Ok? && Represents(ch, map[], c.g, rows, ms)
    ensures CreatesOncePerRow(ps, rows, c.g, CreateRows(ps, rows, c.g))
    ensures Execute(PlanQuery(q).value, map[], c).g == CreateRows(ps, rows, c.g).g
    ensures var created := CreateRows(ps, rows, c.g).result;
            Execute(PlanQuery(q).value, map[], c).result == if created.Err? then created else Finished(q, created.value, c)
  {
    hide MatchRow, WellShaped, NodesApart, EdgesApart, OthersApart, AllDotless, PlanMatch, PlanQuery, Rows, CreateRows, LaidOut,
         WellScoped, NamesOk, NoDangling, Grounded, Execute, PartMatch, WellFormed, Kept, PlanSource, Finished, RowsCreate;
    EmptyParentOk(ch, c.g);
    ms := MatchRowsAreMatches(q.matchClause.value, ch, map[], c);
    rows := Rows(PlanMatch(q.matchClause.value).value, map[], c).value;
    MatchCreateUnfolds(q, ch, ps, c, rows);
    ExecuteFinishes(q, PlanSource(q).value, c);
    CreateRowsGrows(ps, rows, c.g);
    CreateRowsSucceeds(ps, rows, c.g);
    if CreateRows(ps, rows, c.g).result.Ok? {
      CreateRowsMake(ps, rows, c.g);
    }
    if NoDangling(c.g) && forall i :: 0 <= i < |ps| ==> NamesOk(ps[i]) {
      forall i | 0 <= i < |rows|
        ensures Grounded(rows[i], c.g)
      {
        assert ms[i] in ms;
        FullMatchGrounded(ch, c.g, ms[i]);
      }
      CreateRowsGrounds(ps, rows, c.g);
    }
  }

  lemma FullMatchGrounded(ch: Chain, g: Graph, m: Match)
    requires WellFormed(g) && FullMatch(ch, map[], g, m)
    ensures Grounded(MatchRow(ch, map[], g, m), g)
  {
    hide MatchRow, Grounded, IsMatch;
    MatchRowGrounded(ch, g, m);
  }
}
