/** ORDER BY .. LIMIT on query results. */
module SortedResults {
  import opened Prelude
  import opened Values
  import opened Ast
  import opened Planner
  import opened Semantics
  import opened StableSort
  import opened Ordering
  import AggregateTheorems

  /** Every sort column can be sorted over all the rows: no two values of one ordered kind differ beside a
      value of another kind or a missing one. */
  ghost predicate Sortable(ts: seq<Tuple>, items: seq<OrderByItem>, c: Ctx) {
    var keyed := Elements(KeyedRows(ts, items, c));
    Wide(keyed, |items|) && ColumnsUnmixed(keyed, |items|)
  }

  lemma KeyedAreWide(ts: seq<Tuple>, items: seq<OrderByItem>, c: Ctx)
    ensures Wide(Elements(KeyedRows(ts, items, c)), |items|)
  {
    hide KeyedRows;
    var keyed := KeyedRows(ts, items, c);
    forall a | a in Elements(keyed) ensures |a.keys| == |items| {
      var i :| 0 <= i < |keyed| && keyed[i] == a;
    }
  }

  /** With one sort item the comparator ranks the rows consistently exactly when its column can be sorted. */
  lemma OneItemIsExact(ts: seq<Tuple>, item: OrderByItem, c: Ctx)
    ensures PreorderOn(ByKeys(Descending([item])), Elements(KeyedRows(ts, [item], c))) <==> Sortable(ts, [item], c)
  {
    hide KeyedRows, PreorderOn, Unmixed;
    KeyedAreWide(ts, [item], c);
    assert Descending([item]) == [item.descending];
    OneKeyIsRankable(Elements(KeyedRows(ts, [item], c)), item.descending);
  }

  lemma SortThenLimit(p: PlanNode, items: seq<OrderByItem>, count: nat, parent: Tuple, c: Ctx, ts: seq<Tuple>)
    requires Rows(p, parent, c) == Ok(ts)
    ensures Rows(Limit(OrderBy(p, items), count), parent, c) ==
      Ok(var rows := RowsOf(Sort(KeyedRows(ts, items, c), ByKeys(Descending(items)))); if count < |rows| then rows[..count] else rows)
  {
    hide Rows, KeyedRows, Sort, RowsOf, Descending;
    OrderUnfolds(p, items, parent, c, ts);
    LimitUnfolds(OrderBy(p, items), count, parent, c, SortedBy(ts, items, c));
  }

  /** ORDER BY then LIMIT returns the first rows of the stably sorted input, whatever stable sorting
      algorithm is used, provided every sort column can be sorted. */
  lemma OrderByLimitIsExact(p: PlanNode, items: seq<OrderByItem>, count: nat, parent: Tuple, c: Ctx, ts: seq<Tuple>, sorted: seq<Keyed>)
    requires Rows(p, parent, c) == Ok(ts) && Sortable(ts, items, c)
    requires StablySorted(KeyedRows(ts, items, c), sorted, ByKeys(Descending(items)))
    ensures Rows(Limit(OrderBy(p, items), count), parent, c) == Ok(if count < |sorted| then RowsOf(sorted)[..count] else RowsOf(sorted))
  {
    hide Rows, Eval, KeyedRows, ColumnsUnmixed, StablySorted, Sort, PreorderOn;
    ColumnsAreRankable(Elements(KeyedRows(ts, items, c)), Descending(items));
    SortIsTheStableSort(KeyedRows(ts, items, c), sorted, ByKeys(Descending(items)));
    SortThenLimit(p, items, count, parent, c, ts);
  }

  // ---------- what comes first ----------

  /** Two keys that ORDER BY tells apart: both evaluate, to different values of one ordered kind. */
  ghost predicate ToldApart(a: Result<Value>, b: Result<Value>) {
    && a.Ok? && b.Ok? && a.value != b.value
    && ((a.value.Int? && b.value.Int?) || (a.value.Float? && b.value.Float?) || (a.value.Str? && b.value.Str?))
  }

  /** The text `s` comes before `t`: it is a proper prefix, or has the smaller character where they first differ. */
  ghost predicate TextBefore(s: string, t: string) {
    s < t || exists n :: SmallerAt(s, t, n)
  }

  predicate SmallerAt(s: string, t: string, n: nat) {
    n < |s| && n < |t| && s[..n] == t[..n] && s[n] < t[n]
  }

  ghost predicate ValueBefore(a: Result<Value>, b: Result<Value>) {
    match (a, b)
    case (Ok(Int(x)), Ok(Int(y))) => x < y
    case (Ok(Float(x)), Ok(Float(y))) => x < y
    case (Ok(Str(x)), Ok(Str(y))) => TextBefore(x, y)
    case _ => false
  }

  /** Sort item `k` is the first that tells the two rows apart. */
  ghost predicate DecidedBy(s: Tuple, t: Tuple, items: seq<OrderByItem>, c: Ctx, k: nat) {
    && k < |items| && ToldApart(Eval(items[k].expr, s, c), Eval(items[k].expr, t, c))
    && forall h :: 0 <= h < k ==> !ToldApart(Eval(items[h].expr, s, c), Eval(items[h].expr, t, c))
  }

  /** At the first sort item that tells them apart, the smaller value comes first, the larger one when the item is
      descending. */
  ghost predicate InOrder(s: Tuple, t: Tuple, items: seq<OrderByItem>, c: Ctx) {
    forall k: nat :: DecidedBy(s, t, items, c, k) ==>
      if items[k].descending then ValueBefore(Eval(items[k].expr, t, c), Eval(items[k].expr, s, c))
      else ValueBefore(Eval(items[k].expr, s, c), Eval(items[k].expr, t, c))
  }

  lemma {:induction false} StringsCompare(s: string, t: string)
    ensures CompareStrings(s, t) == 0 <==> s == t
    ensures CompareStrings(s, t) < 0 <==> TextBefore(s, t)
  {
    if s == [] || t == [] {
      assert s == [] && t != [] ==> s < t;
    } else {
      StringsCompare(s[1..], t[1..]);
      assert s == [s[0]] + s[1..] && t == [t[0]] + t[1..];
      if s[0] != t[0] {
        assert s[0] < t[0] ==> SmallerAt(s, t, 0);
        assert forall n: nat :: SmallerAt(s, t, n) ==> n == 0 || s[..n][0] == t[..n][0];
      } else {
        TextsBehind(s, t);
      }
    }
  }

  lemma TextsBehind(s: string, t: string)
    requires s != [] && t != [] && s[0] == t[0]
    ensures TextBefore(s[1..], t[1..]) <==> TextBefore(s, t)
  {
    assert s == [s[0]] + s[1..] && t == [t[0]] + t[1..];
    assert s < t <==> s[1..] < t[1..];
    forall n: nat ensures SmallerAt(s[1..], t[1..], n) <==> SmallerAt(s, t, n + 1) {
      if n < |s| - 1 && n < |t| - 1 {
        assert s[..n + 1] == [s[0]] + s[1..][..n] && t[..n + 1] == [t[0]] + t[1..][..n];
        assert s[..n + 1][1..] == s[1..][..n] && t[..n + 1][1..] == t[1..][..n];
      }
    }
    if n: nat :| SmallerAt(s, t, n) {
      assert n > 0;
      assert SmallerAt(s[1..], t[1..], n - 1) <==> SmallerAt(s, t, n - 1 + 1);
    }
    if n: nat :| SmallerAt(s[1..], t[1..], n) {
      assert SmallerAt(s, t, n + 1);
    }
  }

  function KeyOf(v: Result<Value>): Option<Value> {
    if v.Ok? then Some(v.value) else None
  }

  lemma KeysCompare(a: Result<Value>, b: Result<Value>)
    ensures CompareKeys(KeyOf(a), KeyOf(b)) != 0 <==> ToldApart(a, b)
    ensures ToldApart(a, b) ==> (CompareKeys(KeyOf(a), KeyOf(b)) < 0 <==> ValueBefore(a, b))
  {
    hide CompareStrings, TextBefore;
    if a.Ok? && b.Ok? && a.value.Str? && b.value.Str? {
      StringsCompare(a.value.s, b.value.s);
    }
  }

  lemma KeysReversed(a: Result<Value>, b: Result<Value>)
    requires ToldApart(a, b)
    ensures CompareKeys(KeyOf(a), KeyOf(b)) > 0 <==> ValueBefore(b, a)
  {
    hide CompareKeys, ToldApart, ValueBefore;
    assert ToldApart(b, a) by { ToldApartTurns(a, b); }
    KeysCompare(b, a);
    KeysAntisymmetric(KeyOf(a), KeyOf(b));
  }

  lemma ToldApartTurns(a: Result<Value>, b: Result<Value>)
    requires ToldApart(a, b)
    ensures ToldApart(b, a)
  {
  }

  lemma {:induction false} SortKeysAt(t: Tuple, items: seq<OrderByItem>, c: Ctx, k: nat)
    requires k < |items|
    ensures SortKeys(t, items, c)[k] == KeyOf(Eval(items[k].expr, t, c))
    decreases |items|
  {
    hide Eval;
    if k > 0 {
      SortKeysAt(t, items[1..], c, k - 1);
    }
  }

  /** The first key that differs decides. */
  lemma {:induction false} FirstDecides(a: seq<Option<Value>>, b: seq<Option<Value>>, descending: seq<bool>, k: nat)
    requires |a| == |b| == |descending| && k < |a|
    requires CompareKeys(a[k], b[k]) != 0 && forall h :: 0 <= h < k ==> CompareKeys(a[h], b[h]) == 0
    ensures Compare(a, b, descending) == if descending[k] then -CompareKeys(a[k], b[k]) else CompareKeys(a[k], b[k])
  {
    hide CompareKeys;
    if k > 0 {
      assert forall h :: 0 <= h < k - 1 ==> a[1..][h] == a[h + 1] && b[1..][h] == b[h + 1];
      FirstDecides(a[1..], b[1..], descending[1..], k - 1);
    }
  }

  lemma RankedInOrder(s: Tuple, t: Tuple, items: seq<OrderByItem>, c: Ctx)
    requires Compare(SortKeys(s, items, c), SortKeys(t, items, c), Descending(items)) <= 0
    ensures InOrder(s, t, items, c)
  {
    hide SortKeys, Eval, CompareKeys, ToldApart, ValueBefore, Compare, KeyOf;
    var a, b := SortKeys(s, items, c), SortKeys(t, items, c);
    forall k: nat | DecidedBy(s, t, items, c, k)
      ensures if items[k].descending then ValueBefore(Eval(items[k].expr, t, c), Eval(items[k].expr, s, c))
              else ValueBefore(Eval(items[k].expr, s, c), Eval(items[k].expr, t, c))
    {
      forall h | 0 <= h <= k ensures CompareKeys(a[h], b[h]) != 0 <==> ToldApart(Eval(items[h].expr, s, c), Eval(items[h].expr, t, c)) {
        SortKeysAt(s, items, c, h);
        SortKeysAt(t, items, c, h);
        KeysCompare(Eval(items[h].expr, s, c), Eval(items[h].expr, t, c));
      }
      FirstDecides(a, b, Descending(items), k);
      SortKeysAt(s, items, c, k);
      SortKeysAt(t, items, c, k);
      KeysCompare(Eval(items[k].expr, s, c), Eval(items[k].expr, t, c));
      KeysReversed(Eval(items[k].expr, s, c), Eval(items[k].expr, t, c));
    }
  }

  lemma {:induction false} KeyedRowsAt(ts: seq<Tuple>, items: seq<OrderByItem>, c: Ctx, i: nat)
    requires i < |ts|
    ensures KeyedRows(ts, items, c)[i] == Keyed(ts[i], SortKeys(ts[i], items, c))
    decreases |ts|
  {
    hide SortKeys;
    if i < |ts| - 1 {
      KeyedRowsAt(ts[..|ts| - 1], items, c, i);
    }
  }

  lemma KeyedRowsAre(ts: seq<Tuple>, items: seq<OrderByItem>, c: Ctx)
    ensures forall x :: x in KeyedRows(ts, items, c) ==> x.keys == SortKeys(x.row, items, c)
    ensures RowsOf(KeyedRows(ts, items, c)) == ts
  {
    hide KeyedRows, SortKeys;
    forall i | 0 <= i < |ts| ensures KeyedRows(ts, items, c)[i] == Keyed(ts[i], SortKeys(ts[i], items, c)) {
      KeyedRowsAt(ts, items, c, i);
    }
  }

  lemma RowsPermute(a: seq<Keyed>, b: seq<Keyed>)
    requires multiset(a) == multiset(b)
    ensures multiset(RowsOf(a)) == multiset(RowsOf(b))
  {
    var f := (x: Keyed) => x.row;
    AggregateTheorems.PermutedMap(f, a, b);
    assert RowsOf(a) == AggregateTheorems.Map(f, a) && RowsOf(b) == AggregateTheorems.Map(f, b);
  }

  /** ORDER BY answers with the same rows, each as often, smaller values first, or larger ones first where an item
      is descending; LIMIT then takes the first of them. */
  lemma OrderByAscends(p: PlanNode, items: seq<OrderByItem>, parent: Tuple, c: Ctx, ts: seq<Tuple>) returns (rs: seq<Tuple>)
    requires Rows(p, parent, c) == Ok(ts) && Sortable(ts, items, c)
    ensures Rows(OrderBy(p, items), parent, c) == Ok(rs) && multiset(rs) == multiset(ts)
    ensures forall i, j :: 0 <= i < j < |rs| ==> InOrder(rs[i], rs[j], items, c)
    ensures forall count: nat :: Rows(Limit(OrderBy(p, items), count), parent, c) == Ok(if count < |rs| then rs[..count] else rs)
  {
    hide Rows, Eval, KeyedRows, SortKeys, ColumnsUnmixed, Sort, PreorderOn, InOrder, Compare, Descending, RowsOf;
    var keyed, le := KeyedRows(ts, items, c), ByKeys(Descending(items));
    var sorted := Sort(keyed, le);
    rs := RowsOf(sorted);
    OrderUnfolds(p, items, parent, c, ts);
    forall count: nat ensures Rows(Limit(OrderBy(p, items), count), parent, c) == Ok(if count < |rs| then rs[..count] else rs) {
      LimitUnfolds(OrderBy(p, items), count, parent, c, rs);
    }
    ColumnsAreRankable(Elements(keyed), Descending(items));
    SortPermutes(keyed, le);
    SortSorts(keyed, le, Elements(keyed));
    KeyedRowsAre(ts, items, c);
    RowsPermute(sorted, keyed);
    SameMembers(sorted, keyed);
    forall i, j | 0 <= i < j < |rs| ensures InOrder(rs[i], rs[j], items, c) {
      SortedPair(sorted, items, c, i, j);
    }
  }

  lemma SortedPair(sorted: seq<Keyed>, items: seq<OrderByItem>, c: Ctx, i: nat, j: nat)
    requires i < j < |sorted| && Sorted(sorted, ByKeys(Descending(items)))
    requires forall x :: x in sorted ==> x.keys == SortKeys(x.row, items, c)
    ensures InOrder(RowsOf(sorted)[i], RowsOf(sorted)[j], items, c)
  {
    hide InOrder, SortKeys, Compare;
    assert Ordering.Le(sorted[i], sorted[j], Descending(items));
    assert sorted[i] in sorted && sorted[j] in sorted;
    RankedInOrder(sorted[i].row, sorted[j].row, items, c);
  }
}
