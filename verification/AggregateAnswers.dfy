/** Aggregates at the end of queries: over a MATCH they count and group its matches, and under EXISTS they hide
    whether there are any. */
module AggregateAnswers {
  import opened Prelude
  import opened Values
  import opened Ast
  import opened GraphStore
  import opened Planner
  import opened Semantics
  import opened Chains
  import opened Bindings
  import opened Matching
  import opened Compilation
  import opened Correlation
  import opened Creation
  import opened MatchCreation
  import opened Answers
  import opened Aggregates
  import opened AggregateTheorems
  import Grouping
  import StableSort

  /** A query MATCH chain [WITH ..] [WHERE ..] RETURN .. with plain aggregates. */
  ghost predicate AggregateQuery(q: Query, ch: Chain) {
    && MatchQuery(q, ch) && q.returnClause.Some? && q.orderBy.None? && q.limit.None?
    && HasAggregates(q.returnClause.value.items) && AllPlain(AggregatesOf(q.returnClause.value.items))
  }

  /** The rows that RETURN sees: those of the matches that satisfy the condition, as WITH projects them. */
  lemma KeptRows(q: Query, ch: Chain, c: Ctx) returns (left: seq<Tuple>, kept: seq<Match>)
    requires AggregateQuery(q, ch) && WellShaped(ch) && WellNamed(ch) && StoreOk(c)
    ensures StagedRows(q, ch, c, left, kept)
    ensures forall m :: m in kept <==> FullMatch(ch, map[], c.g, m) && WhereHolds(q, Staged(q, MatchRow(ch, map[], c.g, m), c), c)
    ensures PlanQuery(q).Ok? && Rows(PlanQuery(q).value, map[], c) == Produced(q.returnClause.value.items, left, c)
  {
    hide PlanQuery, Rows, WellShaped, WellNamed, StoreOk, LaidOut, MatchRow, FullMatch, ProjectRow, ProjectRows, FilterRows, WithItems, Staged, HasAggregates,
         Eval, Produced, AllPlain;
    var rows, ms := QueryFinishesMatches(q, ch, c);
    StageRows(q, ch, c, rows, ms);
    left := if q.withClause.Some? then ProjectRows(rows, WithItems(q.withClause.value.items), c) else rows;
    kept := ms;
    if q.whereClause.Some? {
      kept := FilterStaged(q, ch, c, left, ms, q.whereClause.value);
      left := FilterRows(left, q.whereClause.value, c);
    }
  }

  /** Without group keys a query answers with one row, even when nothing matches. COUNT is the number of matches
      that satisfy the condition; every other aggregate is that of its argument over them. */
  lemma CountIsMatches(q: Query, ch: Chain, c: Ctx) returns (kept: seq<Match>, row: Tuple, args: seq<seq<Result<Value>>>)
    requires AggregateQuery(q, ch) && WellShaped(ch) && WellNamed(ch) && StoreOk(c)
    requires GroupKeysOf(q.returnClause.value.items) == []
    ensures PlanQuery(q).Ok? && Rows(PlanQuery(q).value, map[], c) == Ok([row])
    ensures Distinct(kept)
    ensures forall m :: m in kept <==> FullMatch(ch, map[], c.g, m) && WhereHolds(q, Staged(q, MatchRow(ch, map[], c.g, m), c), c)
    ensures var aggregates := AggregatesOf(q.returnClause.value.items);
            && |args| == |kept| && row == AggregateColumns(aggregates, args, |aggregates|)
            && forall i :: 0 <= i < |kept| ==> args[i] == EvalAll(ArgumentsOf(aggregates), Staged(q, MatchRow(ch, map[], c.g, kept[i]), c), c)
    ensures CountsAre(AggregatesOf(q.returnClause.value.items), row, |kept|)
  {
    hide PlanQuery, Rows, WellShaped, WellNamed, StoreOk, LaidOut, MatchRow, FullMatch, Staged, EvalAll, EvalTable, WhereHolds,
         AggregateColumns, ArgumentsOf, HasAggregates;
    var left;
    left, kept := KeptRows(q, ch, c);
    var aggregates := AggregatesOf(q.returnClause.value.items);
    args := EvalTable(left, ArgumentsOf(aggregates), c);
    row := AggregateColumns(aggregates, args, |aggregates|);
    forall i | 0 <= i < |kept| ensures args[i] == EvalAll(ArgumentsOf(aggregates), Staged(q, MatchRow(ch, map[], c.g, kept[i]), c), c) {
      Grouping.TableAt(left, ArgumentsOf(aggregates), c, i);
    }
    forall i | 0 <= i < |aggregates| && Last(aggregates, i) && aggregates[i].1.func == Count
      ensures aggregates[i].0 in row && row[aggregates[i].0] == Int(|kept|)
    {
      ColumnIs(aggregates, args, |aggregates|, i);
    }
  }

  /** Every column of a COUNT, unless a later aggregate takes it, holds n. */
  predicate CountsAre(aggregates: seq<(string, Expr)>, row: Tuple, n: nat)
    requires AllPlain(aggregates)
  {
    forall i :: 0 <= i < |aggregates| && Last(aggregates, i) && aggregates[i].1.func == Count ==> aggregates[i].0 in row && row[aggregates[i].0] == Int(n)
  }

  /** No later aggregate takes the same column. */
  predicate Last(aggregates: seq<(string, Expr)>, i: nat) {
    i < |aggregates| && forall j :: i < j < |aggregates| ==> aggregates[j].0 != aggregates[i].0
  }

  lemma {:induction false} ColumnIs(aggregates: seq<(string, Expr)>, args: seq<seq<Result<Value>>>, n: nat, i: nat)
    requires AllPlain(aggregates) && i < n <= |aggregates| && Last(aggregates, i)
    ensures var row := AggregateColumns(aggregates, args, n);
            aggregates[i].0 in row && row[aggregates[i].0] == Computed(aggregates[i].1.func, ArgColumn(args, i))
  {
    hide Computed, ArgColumn;
    if i < n - 1 {
      ColumnIs(aggregates, args, n - 1, i);
    }
  }

  /** What an expression is over the matches, one after the other. */
  ghost function OverMatches(q: Query, ch: Chain, c: Ctx, kept: seq<Match>, e: Expr): (vs: seq<Result<Value>>)
    ensures |vs| == |kept|
  {
    seq(|kept|, k requires 0 <= k < |kept| => Eval(e, Staged(q, MatchRow(ch, map[], c.g, kept[k]), c), c))
  }

  lemma {:induction false} ArgumentsAt(aggregates: seq<(string, Expr)>, i: nat)
    requires AllPlain(aggregates) && i < |aggregates|
    ensures ArgumentsOf(aggregates)[i] == aggregates[i].1.arg
  {
    if i > 0 {
      ArgumentsAt(aggregates[1..], i - 1);
    }
  }

  /** Without group keys the column of each aggregate holds that aggregate of its own argument over the matches
      that satisfy the condition. */
  lemma AggregatesOverMatches(q: Query, ch: Chain, c: Ctx) returns (kept: seq<Match>, row: Tuple)
    requires AggregateQuery(q, ch) && WellShaped(ch) && WellNamed(ch) && StoreOk(c)
    requires GroupKeysOf(q.returnClause.value.items) == []
    ensures PlanQuery(q).Ok? && Rows(PlanQuery(q).value, map[], c) == Ok([row]) && Distinct(kept)
    ensures forall m :: m in kept <==> FullMatch(ch, map[], c.g, m) && WhereHolds(q, Staged(q, MatchRow(ch, map[], c.g, m), c), c)
    ensures ColumnsOver(q, ch, c, kept, AggregatesOf(q.returnClause.value.items), row)
  {
    hide PlanQuery, Rows, WellShaped, WellNamed, StoreOk, LaidOut, MatchRow, FullMatch, Staged, EvalAll, WhereHolds, AggregateColumns, ArgumentsOf, HasAggregates,
         Computed, ArgColumn, Eval;
    var args;
    kept, row, args := CountIsMatches(q, ch, c);
    var aggregates := AggregatesOf(q.returnClause.value.items);
    forall i: nat | i < |aggregates| && Last(aggregates, i)
      ensures aggregates[i].0 in row && row[aggregates[i].0] == Computed(aggregates[i].1.func, OverMatches(q, ch, c, kept, aggregates[i].1.arg))
    {
      ColumnIs(aggregates, args, |aggregates|, i);
      ArgumentsAt(aggregates, i);
      forall k | 0 <= k < |kept| ensures ArgColumn(args, i)[k] == Eval(aggregates[i].1.arg, Staged(q, MatchRow(ch, map[], c.g, kept[k]), c), c) {
        Grouping.EvalAllAt(ArgumentsOf(aggregates), Staged(q, MatchRow(ch, map[], c.g, kept[k]), c), c, i);
        ArgAt(args, i, k);
      }
      assert ArgColumn(args, i) == OverMatches(q, ch, c, kept, aggregates[i].1.arg);
    }
  }

  ghost predicate ColumnsOver(q: Query, ch: Chain, c: Ctx, kept: seq<Match>, aggregates: seq<(string, Expr)>, row: Tuple)
    requires AllPlain(aggregates)
  {
    forall i: nat :: i < |aggregates| && Last(aggregates, i) ==>
      aggregates[i].0 in row && row[aggregates[i].0] == Computed(aggregates[i].1.func, OverMatches(q, ch, c, kept, aggregates[i].1.arg))
  }

  lemma ArgAt(args: seq<seq<Result<Value>>>, i: nat, k: nat)
    requires k < |args| && i < |args[k]|
    ensures ArgColumn(args, i)[k] == args[k][i]
  {
  }

  ghost predicate AggregateColumn(aggregates: seq<(string, Expr)>, w: string) {
    exists i: nat :: i < |aggregates| && aggregates[i].0 == w
  }

  lemma {:induction false} ColumnsAre(aggregates: seq<(string, Expr)>, args: seq<seq<Result<Value>>>, n: nat)
    requires AllPlain(aggregates) && n <= |aggregates|
    ensures forall w :: w in AggregateColumns(aggregates, args, n) <==> exists i: nat :: i < n && aggregates[i].0 == w
  {
    hide Computed, ArgColumn;
    if n > 0 {
      ColumnsAre(aggregates, args, n - 1);
      assert aggregates[n - 1].0 in AggregateColumns(aggregates, args, n);
      forall w | w in AggregateColumns(aggregates, args, n) ensures exists i: nat :: i < n && aggregates[i].0 == w {
        if w == aggregates[n - 1].0 {
          assert n - 1 < n && aggregates[n - 1].0 == w;
        }
      }
    }
  }

  /** The row of a group shows the group keys of its first row, except where an aggregate takes their column, and
      each aggregate over the arguments of all its rows; nothing else. */
  lemma GroupRowShows(keys: seq<Expr>, aggregates: seq<(string, Expr)>, group: seq<Line>)
    requires AllPlain(aggregates) && group != [] && |group[0].cells| == |keys|
    ensures forall i: nat :: i < |aggregates| && Last(aggregates, i) ==>
      aggregates[i].0 in GroupRow(keys, aggregates, group)
      && GroupRow(keys, aggregates, group)[aggregates[i].0] == Computed(aggregates[i].1.func, ArgColumn(ArgsOfLines(group), i))
    ensures forall i: nat, w :: i < |keys| && LastKeyIn(keys, |keys|, i, w) && !AggregateColumn(aggregates, w) ==>
      w in GroupRow(keys, aggregates, group) && GroupRow(keys, aggregates, group)[w] == group[0].cells[i]
    ensures forall w :: w in GroupRow(keys, aggregates, group) ==>
      AggregateColumn(aggregates, w) || exists i: nat :: i < |keys| && LastKeyIn(keys, |keys|, i, w)
  {
    hide Computed, ArgColumn, AggregateColumns, KeyColumns, KeyIn;
    var args, n := ArgsOfLines(group), |aggregates|;
    ColumnsAre(aggregates, args, n);
    KeyColumnsAre(keys, group[0].cells, |keys|);
    forall i: nat | i < |aggregates| && Last(aggregates, i)
      ensures aggregates[i].0 in AggregateColumns(aggregates, args, n)
      ensures AggregateColumns(aggregates, args, n)[aggregates[i].0] == Computed(aggregates[i].1.func, ArgColumn(args, i))
    {
      ColumnIs(aggregates, args, n, i);
    }
  }

  /** With group keys that all evaluate, a query answers with one row per group of its matches: the keys of the
      groups are different, every match is in the group of its key, and the sizes add up to the number of
      matches. A key that fails on any match makes the whole query fail. */
  lemma GroupsAreMatches(q: Query, ch: Chain, c: Ctx) returns (kept: seq<Match>, ls: seq<Line>, order: seq<Key>)
    requires AggregateQuery(q, ch) && WellShaped(ch) && WellNamed(ch) && StoreOk(c)
    requires GroupKeysOf(q.returnClause.value.items) != []
    ensures PlanQuery(q).Ok? && Distinct(kept)
    ensures forall m :: m in kept <==> FullMatch(ch, map[], c.g, m) && WhereHolds(q, Staged(q, MatchRow(ch, map[], c.g, m), c), c)
    ensures Rows(PlanQuery(q).value, map[], c).Err? <==>
      exists m :: m in kept && AllOk(EvalAll(GroupKeysOf(q.returnClause.value.items), Staged(q, MatchRow(ch, map[], c.g, m), c), c)).Err?
    ensures Rows(PlanQuery(q).value, map[], c).Ok? ==>
      && |ls| == |kept| && Distinct(order) && CountsOf(ls, order) == |kept|
      && (forall i :: 0 <= i < |kept| ==> IsLine(q, c, Staged(q, MatchRow(ch, map[], c.g, kept[i]), c), ls[i]) && ls[i].key in order)
      && Rows(PlanQuery(q).value, map[], c).value == GroupRows(GroupKeysOf(q.returnClause.value.items), AggregatesOf(q.returnClause.value.items), ls, order)
  {
    hide PlanQuery, Rows, WellShaped, WellNamed, StoreOk, LaidOut, MatchRow, FullMatch, Staged, EvalAll, EvalTable, WhereHolds,
         GroupRows, GroupKeys, ArgumentsOf, HasAggregates, Lines, AllOk, Arrange, CountsOf, GroupKeysOf, AggregatesOf, IsLine;
    var items := q.returnClause.value.items;
    var left;
    left, kept := KeptRows(q, ch, c);
    var keys, args := GroupKeysOf(items), ArgumentsOf(AggregatesOf(items));
    var made := Lines(EvalTable(left, keys, c), EvalTable(left, args, c));
    LinesOf(left, keys, args, c);
    ls := if made.Ok? then made.value else [];
    order := Arrange(GroupKeys(ls), c.picks);
    NoGroups(ls);
    ArrangeSize(GroupKeys(ls), c.picks);
    KeysAre(ls);
    ArrangePermutes(GroupKeys(ls), c.picks);
    DistinctAlike(GroupKeys(ls), order);
    CountsAddUp(ls, c.picks);
    forall i | 0 <= i < |kept| ensures made.Ok? ==> IsLine(q, c, Staged(q, MatchRow(ch, map[], c.g, kept[i]), c), ls[i]) && ls[i].key in order {
      if made.Ok? {
        LineOf(left, keys, args, c, i);
        LineIs(q, c, left[i], ls[i]);
        assert ls[i] in ls;
        MultisetIn(order, ls[i].key);
        MultisetIn(GroupKeys(ls), ls[i].key);
      }
    }
    RowsMade(q, c, left);
    FailedKeys(q, ch, c, left, kept);
  }

  lemma NoRows(keys: seq<Expr>, aggregates: seq<(string, Expr)>, ls: seq<Line>)
    requires AllPlain(aggregates)
    ensures GroupRows(keys, aggregates, ls, []) == []
  {
  }

  lemma RowsMade(q: Query, c: Ctx, left: seq<Tuple>)
    requires q.returnClause.Some? && HasAggregates(q.returnClause.value.items) && AllPlain(AggregatesOf(q.returnClause.value.items))
    requires GroupKeysOf(q.returnClause.value.items) != []
    ensures var items := q.returnClause.value.items;
            var made := Lines(EvalTable(left, GroupKeysOf(items), c), EvalTable(left, ArgumentsOf(AggregatesOf(items)), c));
            Produced(items, left, c) ==
              if made.Err? then Err(made.error)
              else Ok(GroupRows(GroupKeysOf(items), AggregatesOf(items), made.value, Arrange(GroupKeys(made.value), c.picks)))
  {
    hide EvalTable, GroupRows, GroupKeys, ArgumentsOf, HasAggregates, Lines, Arrange, GroupKeysOf, AggregatesOf;
    var items := q.returnClause.value.items;
    var made := Lines(EvalTable(left, GroupKeysOf(items), c), EvalTable(left, ArgumentsOf(AggregatesOf(items)), c));
    if made.Ok? {
      NoRows(GroupKeysOf(items), AggregatesOf(items), made.value);
    }
  }

  /** The line that a row makes. */
  ghost predicate IsLine(q: Query, c: Ctx, t: Tuple, l: Line)
    requires q.returnClause.Some?
  {
    var items := q.returnClause.value.items;
    && AllOk(EvalAll(GroupKeysOf(items), t, c)) == Ok(l.cells)
    && l.key == KeyOf(l.cells)
    && l.args == EvalAll(ArgumentsOf(AggregatesOf(items)), t, c)
  }

  lemma LineIs(q: Query, c: Ctx, t: Tuple, l: Line)
    requires q.returnClause.Some?
    requires AllOk(EvalAll(GroupKeysOf(q.returnClause.value.items), t, c)) == Ok(l.cells) && l.key == KeyOf(l.cells)
    requires l.args == EvalAll(ArgumentsOf(AggregatesOf(q.returnClause.value.items)), t, c)
    ensures IsLine(q, c, t, l)
  {
    hide EvalAll, AllOk, ArgumentsOf;
  }

  lemma {:induction false} LinesOf(ts: seq<Tuple>, keys: seq<Expr>, args: seq<Expr>, c: Ctx)
    ensures Lines(EvalTable(ts, keys, c), EvalTable(ts, args, c)).Err? <==>
      exists i :: 0 <= i < |ts| && AllOk(EvalAll(keys, ts[i], c)).Err?
    decreases |ts|
  {
    hide EvalAll, AllOk;
    if ts != [] {
      var n := |ts| - 1;
      LinesOf(ts[..n], keys, args, c);
      TablesGrow(ts, keys, args, c);
      if i :| 0 <= i < |ts| && AllOk(EvalAll(keys, ts[i], c)).Err? {
        assert i < n ==> ts[..n][i] == ts[i];
      }
    }
  }

  lemma TablesGrow(ts: seq<Tuple>, keys: seq<Expr>, args: seq<Expr>, c: Ctx)
    requires ts != []
    ensures var n := |ts| - 1;
            && EvalTable(ts, keys, c)[..n] == EvalTable(ts[..n], keys, c) && EvalTable(ts, keys, c)[n] == EvalAll(keys, ts[n], c)
            && EvalTable(ts, args, c)[..n] == EvalTable(ts[..n], args, c) && EvalTable(ts, args, c)[n] == EvalAll(args, ts[n], c)
  {
    hide EvalAll;
  }

  lemma {:induction false} LineOf(ts: seq<Tuple>, keys: seq<Expr>, args: seq<Expr>, c: Ctx, i: nat)
    requires i < |ts| && Lines(EvalTable(ts, keys, c), EvalTable(ts, args, c)).Ok?
    ensures var l := Lines(EvalTable(ts, keys, c), EvalTable(ts, args, c)).value[i];
            AllOk(EvalAll(keys, ts[i], c)) == Ok(l.cells) && l.key == KeyOf(l.cells) && l.args == EvalAll(args, ts[i], c)
    decreases |ts|
  {
    hide EvalAll, AllOk, EvalTable;
    var n := |ts| - 1;
    TablesGrow(ts, keys, args, c);
    if i < n {
      LineOf(ts[..n], keys, args, c, i);
    }
  }

  lemma FailedKeys(q: Query, ch: Chain, c: Ctx, left: seq<Tuple>, kept: seq<Match>)
    requires q.returnClause.Some? && StagedRows(q, ch, c, left, kept)
    ensures var keys := GroupKeysOf(q.returnClause.value.items);
            (exists i :: 0 <= i < |left| && AllOk(EvalAll(keys, left[i], c)).Err?) <==>
            exists m :: m in kept && AllOk(EvalAll(keys, Staged(q, MatchRow(ch, map[], c.g, m), c), c)).Err?
  {
    hide EvalAll, AllOk, Staged, MatchRow;
    var keys := GroupKeysOf(q.returnClause.value.items);
    if i :| 0 <= i < |left| && AllOk(EvalAll(keys, left[i], c)).Err? {
      assert kept[i] in kept;
    }
    if m :| m in kept && AllOk(EvalAll(keys, Staged(q, MatchRow(ch, map[], c.g, m), c), c)).Err? {
      var i :| 0 <= i < |kept| && kept[i] == m;
      assert AllOk(EvalAll(keys, left[i], c)).Err?;
    }
  }

  /** EXISTS over a subquery that returns aggregates without group keys is true whether or not anything matches:
      the one row is always there. */
  lemma ExistsOverAggregate(q: Query, source: PlanNode, t: Tuple, c: Ctx, rows: seq<Tuple>)
    requires FastPath(q, t).None? && c.canRead && PlanSource(q) == Ok(source) && Rows(source, t, c) == Ok(rows)
    requires q.returnClause.Some? && HasAggregates(q.returnClause.value.items)
    requires AllPlain(AggregatesOf(q.returnClause.value.items)) && GroupKeysOf(q.returnClause.value.items) == []
    requires q.limit.Some? ==> q.limit.value > 0
    ensures Eval(Exists(q), t, c) == Ok(Bool(true))
  {
    hide FastPath, PlanSource, Rows, PlanQuery, Eval, FilterRows, ProjectRows, AllPlain, HasAggregates, AggregateColumns, EvalTable, ArgumentsOf,
         SortedBy;
    RowsFinish(q, source, t, c, rows);
    OneRowStays(q, Filtered(q, rows, c), c);
    ExistsUnfolds(q, t, c);
  }

  function Filtered(q: Query, rows: seq<Tuple>, c: Ctx): seq<Tuple> {
    var projected := if q.withClause.Some? then ProjectRows(rows, WithItems(q.withClause.value.items), c) else rows;
    if q.whereClause.Some? then FilterRows(projected, q.whereClause.value, c) else projected
  }

  lemma OneRowStays(q: Query, rows: seq<Tuple>, c: Ctx)
    requires q.returnClause.Some? && HasAggregates(q.returnClause.value.items)
    requires AllPlain(AggregatesOf(q.returnClause.value.items)) && GroupKeysOf(q.returnClause.value.items) == []
    requires q.limit.Some? ==> q.limit.value > 0
    ensures Returned(q, rows, c).Ok? && Returned(q, rows, c).value != []
  {
    hide AllPlain, HasAggregates, AggregateColumns, EvalTable, ArgumentsOf, SortedBy;
    if q.orderBy.Some? {
      SortedSize(Produced(q.returnClause.value.items, rows, c).value, q.orderBy.value.items, c);
    }
  }

  lemma SortedSize(rows: seq<Tuple>, items: seq<OrderByItem>, c: Ctx)
    ensures |SortedBy(rows, items, c)| == |rows|
  {
    hide KeyedRows, StableSort.Sort, Descending;
  }
}
