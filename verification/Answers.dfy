/** Whole queries: MATCH .. WITH .. WHERE .. RETURN answers with one projected row per match that satisfies
    the condition; ORDER BY and LIMIT arrange and cut these rows. */
module Answers {
  import opened Prelude
  import opened Values
  import opened Ast
  import opened GraphStore
  import opened Planner
  import opened Semantics
  import opened Chains
  import opened Bindings
  import opened Matching
  import opened Compilation
  import opened Expansions
  import opened Correlation
  import opened MatchCreation
  import opened Creation
  import Aggregates
  import Ordering
  import StableSort

  /** A query MATCH chain with any clauses but CREATE behind it. */
  ghost predicate MatchQuery(q: Query, ch: Chain) {
    q.matchClause.Some? && LaidOut(q.matchClause.value, ch) && q.createClause.None?
  }

  /** A query MATCH chain [WITH ..] [WHERE ..] RETURN .. without aggregates. */
  ghost predicate ReturnQuery(q: Query, ch: Chain) {
    MatchQuery(q, ch) && q.returnClause.Some? && !HasAggregates(q.returnClause.value.items) && q.orderBy.None? && q.limit.None?
  }

  lemma {:induction false} ProjectedAt(rows: seq<Tuple>, items: seq<ReturnItem>, c: Ctx, i: nat)
    requires i < |rows|
    ensures ProjectRows(rows, items, c)[i] == ProjectRow(rows[i], items, c)
    decreases |rows|
  {
    hide ProjectRow;
    if i < |rows| - 1 {
      ProjectedAt(rows[..|rows| - 1], items, c, i);
    }
  }

  lemma AggregationUnfolds(p: PlanNode, keys: seq<Expr>, aggregates: seq<(string, Expr)>, parent: Tuple, c: Ctx, rows: seq<Tuple>)
    requires Rows(p, parent, c) == Ok(rows)
    ensures Rows(Aggregation(p, keys, aggregates), parent, c) == AggregatedRows(rows, keys, aggregates, c)
  {
    hide Aggregates.AggregateRows, EvalTable, ArgumentsOf, Eval, FilterRows, ProjectRows, KeyedRows, ExpandRows, ScanRows, Product, StableSort.Sort;
  }

  /** The clauses of a reading query above its source change the rows of the source as `Finished` says. */
  lemma RowsFinish(q: Query, source: PlanNode, parent: Tuple, c: Ctx, rows: seq<Tuple>)
    requires PlanSource(q) == Ok(source) && Rows(source, parent, c) == Ok(rows)
    ensures PlanQuery(q).Ok? && Rows(PlanQuery(q).value, parent, c) == Finished(q, rows, c)
  {
    hide PlanSource, FilterRows, ProjectRows, SortedBy, WithItems, Rows, PlanReturn, HasAggregates;
    var staged, projected := source, rows;
    if q.withClause.Some? {
      var items := WithItems(q.withClause.value.items);
      ProjectUnfolds(source, items, parent, c, rows);
      staged, projected := Project(source, items), ProjectRows(rows, items, c);
    }
    if q.whereClause.Some? {
      FilterUnfolds(staged, q.whereClause.value, parent, c, projected);
      projected := FilterRows(projected, q.whereClause.value, c);
    }
    if q.returnClause.Some? {
      RowsReturn(q, PlanFilters(q, source), parent, c, projected);
    }
  }

  /** RETURN, ORDER BY and LIMIT above a plan. */
  lemma RowsReturn(q: Query, filtered: PlanNode, parent: Tuple, c: Ctx, rows: seq<Tuple>)
    requires q.returnClause.Some? && Rows(filtered, parent, c) == Ok(rows)
    ensures var returned := PlanReturn(q.returnClause.value.items, filtered);
            var ordered := if q.orderBy.Some? then OrderBy(returned, q.orderBy.value.items) else returned;
            var plan := if q.limit.Some? then Limit(ordered, q.limit.value) else ordered;
            Rows(plan, parent, c) == Returned(q, rows, c)
  {
    hide FilterRows, ProjectRows, SortedBy, Rows, PlanReturn, HasAggregates, FirstRows, AggregatedRows;
    var items := q.returnClause.value.items;
    var returned := PlanReturn(items, filtered);
    PlanReturnCases(items, filtered);
    var ordered := if q.orderBy.Some? then OrderBy(returned, q.orderBy.value.items) else returned;
    AggregationUnfolds(filtered, GroupKeysOf(items), AggregatesOf(items), parent, c, rows);
    ProjectUnfolds(filtered, items, parent, c, rows);
    assert Rows(returned, parent, c) == Produced(items, rows, c);
    if Produced(items, rows, c).Err? {
      ErrorsPass(returned, ordered, q, parent, c);
    } else {
      var out := Produced(items, rows, c).value;
      if q.orderBy.Some? {
        OrderUnfolds(returned, q.orderBy.value.items, parent, c, out);
        out := SortedBy(out, q.orderBy.value.items, c);
      }
      if q.limit.Some? {
        LimitUnfolds(ordered, q.limit.value, parent, c, out);
      }
    }
  }

  lemma ErrorsPass(returned: PlanNode, ordered: PlanNode, q: Query, parent: Tuple, c: Ctx)
    requires Rows(returned, parent, c).Err?
    requires ordered == if q.orderBy.Some? then OrderBy(returned, q.orderBy.value.items) else returned
    ensures Rows(if q.limit.Some? then Limit(ordered, q.limit.value) else ordered, parent, c) == Rows(returned, parent, c)
  {
    OrderFails(returned, if q.orderBy.Some? then q.orderBy.value.items else [], parent, c);
    LimitFails(ordered, if q.limit.Some? then q.limit.value else 0, parent, c);
  }

  lemma OrderFails(p: PlanNode, items: seq<OrderByItem>, parent: Tuple, c: Ctx)
    requires Rows(p, parent, c).Err?
    ensures Rows(OrderBy(p, items), parent, c) == Rows(p, parent, c)
  {
    hide Eval, FilterRows, ProjectRows, KeyedRows, ExpandRows, ScanRows, Product, StableSort.Sort, Descending, Ordering.RowsOf;
  }

  lemma LimitFails(p: PlanNode, count: nat, parent: Tuple, c: Ctx)
    requires Rows(p, parent, c).Err?
    ensures Rows(Limit(p, count), parent, c) == Rows(p, parent, c)
  {
    hide Eval, FilterRows, ProjectRows, KeyedRows, ExpandRows, ScanRows, Product, StableSort.Sort;
  }

  /** A query over a chain pattern, with any clauses behind it, answers with what these clauses make of one
      row per match. */
  lemma QueryFinishesMatches(q: Query, ch: Chain, c: Ctx) returns (rows: seq<Tuple>, ms: seq<Match>)
    requires MatchQuery(q, ch) && WellShaped(ch) && WellNamed(ch) && StoreOk(c)
    ensures Represents(ch, map[], c.g, rows, ms)
    ensures PlanQuery(q).Ok? && Rows(PlanQuery(q).value, map[], c) == Finished(q, rows, c)
  {
    hide PlanQuery, PlanMatch, Rows, WellShaped, NodesApart, EdgesApart, OthersApart, AllDotless, StoreOk, LaidOut, MatchRow, FullMatch, Finished, ParentOk;
    EmptyParentOk(ch, c.g);
    ms := MatchRowsAreMatches(q.matchClause.value, ch, map[], c);
    var source := PlanMatch(q.matchClause.value).value;
    rows := Rows(source, map[], c).value;
    RowsFinish(q, source, map[], c, rows);
  }

  // ---------- row by row ----------

  /** The row that WHERE and RETURN see: the match's own, or its projection by WITH. */
  function Staged(q: Query, t: Tuple, c: Ctx): Tuple {
    if q.withClause.Some? then ProjectRow(t, WithItems(q.withClause.value.items), c) else t
  }

  ghost predicate StagedRows(q: Query, ch: Chain, c: Ctx, rows: seq<Tuple>, ms: seq<Match>) {
    && |rows| == |ms| && Distinct(ms)
    && forall i :: 0 <= i < |ms| ==> rows[i] == Staged(q, MatchRow(ch, map[], c.g, ms[i]), c)
  }

  lemma {:induction false} FilterStaged(q: Query, ch: Chain, c: Ctx, rows: seq<Tuple>, ms: seq<Match>, e: Expr)
    returns (kept: seq<Match>)
    requires StagedRows(q, ch, c, rows, ms)
    ensures StagedRows(q, ch, c, FilterRows(rows, e, c), kept)
    ensures forall m :: m in kept <==> m in ms && IsTrue(Eval(e, Staged(q, MatchRow(ch, map[], c.g, m), c), c))
    decreases |rows|
  {
    hide MatchRow, Eval, Staged;
    if rows == [] {
      kept := [];
    } else {
      var n := |rows| - 1;
      LastApart(ms);
      assert StagedRows(q, ch, c, rows[..n], ms[..n]);
      var front := FilterStaged(q, ch, c, rows[..n], ms[..n], e);
      kept := if IsTrue(Eval(e, rows[n], c)) then front + [ms[n]] else front;
    }
  }

  lemma StageRows(q: Query, ch: Chain, c: Ctx, rows: seq<Tuple>, ms: seq<Match>)
    requires Represents(ch, map[], c.g, rows, ms)
    ensures StagedRows(q, ch, c, if q.withClause.Some? then ProjectRows(rows, WithItems(q.withClause.value.items), c) else rows, ms)
  {
    hide MatchRow, ProjectRow, ProjectRows, FullMatch, WithItems;
    if q.withClause.Some? {
      var items := WithItems(q.withClause.value.items);
      forall i | 0 <= i < |ms| ensures ProjectRows(rows, items, c)[i] == ProjectRow(rows[i], items, c) {
        ProjectedAt(rows, items, c, i);
      }
    }
  }

  /** A query over a chain pattern answers with exactly one row per match whose bindings, as WITH projects
      them, satisfy the WHERE clause, holding the values of the returned expressions there; expressions that
      fail leave their column out. */
  lemma QueryAnswersMatches(q: Query, ch: Chain, c: Ctx) returns (kept: seq<Match>)
    requires ReturnQuery(q, ch) && WellShaped(ch) && WellNamed(ch) && StoreOk(c)
    ensures PlanQuery(q).Ok? && Rows(PlanQuery(q).value, map[], c).Ok?
    ensures |Rows(PlanQuery(q).value, map[], c).value| == |kept| && Distinct(kept)
    ensures forall m :: m in kept <==> FullMatch(ch, map[], c.g, m) && WhereHolds(q, Staged(q, MatchRow(ch, map[], c.g, m), c), c)
    ensures forall i :: 0 <= i < |kept| ==>
      Rows(PlanQuery(q).value, map[], c).value[i]
      == ProjectRow(Staged(q, MatchRow(ch, map[], c.g, kept[i]), c), q.returnClause.value.items, c)
  {
    hide PlanQuery, Rows, WellShaped, WellNamed, StoreOk, LaidOut, MatchRow, FullMatch, ProjectRow, ProjectRows, FilterRows, WithItems, Staged, HasAggregates,
         Eval;
    var rows, ms := QueryFinishesMatches(q, ch, c);
    StageRows(q, ch, c, rows, ms);
    var left := if q.withClause.Some? then ProjectRows(rows, WithItems(q.withClause.value.items), c) else rows;
    kept := ms;
    if q.whereClause.Some? {
      kept := FilterStaged(q, ch, c, left, ms, q.whereClause.value);
      left := FilterRows(left, q.whereClause.value, c);
    }
    var items := q.returnClause.value.items;
    forall i | 0 <= i < |kept|
      ensures ProjectRows(left, items, c)[i] == ProjectRow(Staged(q, MatchRow(ch, map[], c.g, kept[i]), c), items, c)
    {
      ProjectedAt(left, items, c, i);
    }
  }
}
