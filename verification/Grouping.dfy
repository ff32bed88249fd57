/** The executor's loops that aggregate rows: adding up, sorting rows into groups, one row per group. */
module Grouping {
  import opened Prelude
  import opened Values
  import opened Ast
  import opened Semantics
  import opened Creation
  import opened Aggregates

  /** `next` has one more number than `rs`. */
  predicate Grows(rs: seq<real>, next: seq<real>, x: real) {
    && next == rs + [x] && Total(next) == Total(rs) + x
    && Least(next) == (if rs == [] || x < Least(rs) then x else Least(rs))
    && Greatest(next) == (if rs == [] || x > Greatest(rs) then x else Greatest(rs))
  }

  lemma NumbersStep(vs: seq<Result<Value>>, i: nat)
    requires i < |vs|
    ensures NumberOf(vs[i]).None? ==> Numbers(vs[..i + 1]) == Numbers(vs[..i])
    ensures NumberOf(vs[i]).Some? ==> Grows(Numbers(vs[..i]), Numbers(vs[..i + 1]), NumberOf(vs[i]).value)
  {
    assert vs[..i + 1][..i] == vs[..i];
    if NumberOf(vs[i]).Some? {
      NumberMore(Numbers(vs[..i]), NumberOf(vs[i]).value);
    }
  }

  /** The total of the numbers and how many there are. */
  method AddUp(vs: seq<Result<Value>>) returns (sum: real, count: nat)
    ensures sum == Total(Numbers(vs)) && count == |Numbers(vs)|
  {
    sum, count := 0.0, 0;
    for i := 0 to |vs|
      invariant sum == Total(Numbers(vs[..i])) && count == |Numbers(vs[..i])|
    {
      NumbersStep(vs, i);
      match vs[i] {
        case Ok(Int(n)) => sum, count := sum + n as real, count + 1;
        case Ok(Float(r)) => sum, count := sum + r, count + 1;
        case _ =>
      }
    }
    assert vs[..|vs|] == vs;
  }

  /** The smallest or the greatest of the numbers, if there are any. */
  method Extreme(vs: seq<Result<Value>>, least: bool) returns (best: Option<real>)
    ensures best == if Numbers(vs) == [] then None else Some(if least then Least(Numbers(vs)) else Greatest(Numbers(vs)))
  {
    best := None;
    for i := 0 to |vs|
      invariant best == if Numbers(vs[..i]) == [] then None
                        else Some(if least then Least(Numbers(vs[..i])) else Greatest(Numbers(vs[..i])))
    {
      NumbersStep(vs, i);
      var current := NumberOf(vs[i]);
      if current.None? {
        continue;
      }
      if best.None? || (if least then current.value < best.value else current.value > best.value) {
        best := current;
      }
    }
    assert vs[..|vs|] == vs;
  }

  method EvaluateAggregate(f: AggFunc, vs: seq<Result<Value>>) returns (v: Value)
    ensures v == Computed(f, vs)
  {
    match f {
      case Count => v := Int(|vs|);
      case Sum =>
        var sum, _ := AddUp(vs);
        v := Float(sum);
      case Avg =>
        var sum, count := AddUp(vs);
        v := if count == 0 then Null else Float(sum / count as real);
      case Min =>
        var best := Extreme(vs, true);
        v := if best.None? then Null else Float(best.value);
      case Max =>
        var best := Extreme(vs, false);
        v := if best.None? then Null else Float(best.value);
    }
  }

  /** One column per aggregate; anything that is no plain aggregate is an error. */
  method CollectColumns(aggregates: seq<(string, Expr)>, args: seq<seq<Result<Value>>>) returns (r: Result<Tuple>)
    ensures r == if AllPlain(aggregates) then Ok(AggregateColumns(aggregates, args, |aggregates|)) else Err(NotPlain)
  {
    var row: Tuple := map[];
    for i := 0 to |aggregates|
      invariant forall j :: 0 <= j < i ==> aggregates[j].1.Aggregate?
      invariant row == PlainColumns(aggregates, args, i)
    {
      if !aggregates[i].1.Aggregate? {
        return Err(NotPlain);
      }
      var v := EvaluateAggregate(aggregates[i].1.func, ArgColumn(args, i));
      row := row[aggregates[i].0 := v];
    }
    PlainIsAggregate(aggregates, args, |aggregates|);
    return Ok(row);
  }

  function PlainColumns(aggregates: seq<(string, Expr)>, args: seq<seq<Result<Value>>>, n: nat): Tuple
    requires n <= |aggregates| && forall j :: 0 <= j < n ==> aggregates[j].1.Aggregate?
  {
    if n == 0 then map[]
    else PlainColumns(aggregates, args, n - 1)[aggregates[n - 1].0 := Computed(aggregates[n - 1].1.func, ArgColumn(args, n - 1))]
  }

  lemma {:induction false} PlainIsAggregate(aggregates: seq<(string, Expr)>, args: seq<seq<Result<Value>>>, n: nat)
    requires AllPlain(aggregates) && n <= |aggregates|
    ensures PlainColumns(aggregates, args, n) == AggregateColumns(aggregates, args, n)
  {
    if n > 0 {
      PlainIsAggregate(aggregates, args, n - 1);
    }
  }

  lemma {:induction false} AllOkFails(vs: seq<Result<Value>>, i: nat)
    requires i <= |vs| && AllOk(vs[..i]).Err?
    ensures AllOk(vs) == AllOk(vs[..i])
    decreases |vs|
  {
    if i < |vs| {
      assert vs[..|vs| - 1][..i] == vs[..i];
      AllOkFails(vs[..|vs| - 1], i);
    } else {
      assert vs[..i] == vs;
    }
  }

  lemma {:induction false} EvalAllAt(es: seq<Expr>, t: Tuple, c: Ctx, i: nat)
    requires i < |es|
    ensures EvalAll(es, t, c)[i] == Eval(es[i], t, c)
  {
    hide Eval;
    if i > 0 {
      EvalAllAt(es[1..], t, c, i - 1);
    }
  }

  /** The values of the group keys on a row, or the first error. */
  method EvaluateKeys(keys: seq<Expr>, t: Tuple, c: Ctx) returns (r: Result<seq<Value>>)
    ensures r == AllOk(EvalAll(keys, t, c))
  {
    hide Eval, EvalAll;
    ghost var vs := EvalAll(keys, t, c);
    var cells: seq<Value> := [];
    for i := 0 to |keys|
      invariant AllOk(vs[..i]) == Ok(cells)
    {
      assert vs[..i + 1][..i] == vs[..i];
      EvalAllAt(keys, t, c, i);
      var v := Eval(keys[i], t, c);
      if v.Err? {
        AllOkFails(vs, i + 1);
        return Err(v.error);
      }
      cells := cells + [v.value];
    }
    assert vs[..|keys|] == vs;
    return Ok(cells);
  }

  lemma {:induction false} LinesFail(keys: seq<seq<Result<Value>>>, args: seq<seq<Result<Value>>>, i: nat)
    requires |keys| == |args| && i <= |keys| && Lines(keys[..i], args[..i]).Err?
    ensures Lines(keys, args) == Lines(keys[..i], args[..i])
    decreases |keys|
  {
    if i < |keys| {
      var n := |keys| - 1;
      assert keys[..n][..i] == keys[..i] && args[..n][..i] == args[..i];
      LinesFail(keys[..n], args[..n], i);
    } else {
      assert keys[..i] == keys && args[..i] == args;
    }
  }

  lemma {:induction false} TablePrefix(ts: seq<Tuple>, es: seq<Expr>, c: Ctx, i: nat)
    requires i <= |ts|
    ensures EvalTable(ts, es, c)[..i] == EvalTable(ts[..i], es, c)
    decreases |ts|
  {
    hide EvalAll;
    if i < |ts| {
      TablePrefix(ts[..|ts| - 1], es, c, i);
      assert ts[..|ts| - 1][..i] == ts[..i];
    } else {
      assert ts[..i] == ts && EvalTable(ts, es, c)[..i] == EvalTable(ts, es, c);
    }
  }

  lemma TableAt(ts: seq<Tuple>, es: seq<Expr>, c: Ctx, i: nat)
    requires i < |ts|
    ensures EvalTable(ts, es, c)[i] == EvalAll(es, ts[i], c)
  {
    hide EvalAll;
    TablePrefix(ts, es, c, i + 1);
    assert ts[..i + 1][..i] == ts[..i];
  }

  lemma LinesStep(ts: seq<Tuple>, keys: seq<Expr>, args: seq<Expr>, c: Ctx, i: nat)
    requires i < |ts| && Lines(EvalTable(ts, keys, c)[..i], EvalTable(ts, args, c)[..i]).Ok?
    ensures var k, a := EvalTable(ts, keys, c), EvalTable(ts, args, c);
            var cells := AllOk(EvalAll(keys, ts[i], c));
            Lines(k[..i + 1], a[..i + 1]) ==
              if cells.Err? then Err(cells.error)
              else Ok(Lines(k[..i], a[..i]).value + [Line(KeyOf(cells.value), cells.value, EvalAll(args, ts[i], c))])
  {
    hide EvalAll, EvalTable, AllOk;
    TableAt(ts, keys, c, i);
    TableAt(ts, args, c, i);
    var k, a := EvalTable(ts, keys, c), EvalTable(ts, args, c);
    assert k[..i + 1][..i] == k[..i] && a[..i + 1][..i] == a[..i];
  }

  /** A hash map from keys to lines, with its keys in the order they came. */
  ghost predicate IsGrouping(ls: seq<Line>, order: seq<Key>, groups: map<Key, seq<Line>>) {
    && order == GroupKeys(ls)
    && (forall k :: k in order <==> k in groups)
    && (forall k :: k in groups ==> groups[k] == Members(ls, k))
    && (forall k :: k !in groups ==> Members(ls, k) == [])
  }

  lemma MembersStep(ls: seq<Line>, l: Line, k: Key)
    ensures Members(ls + [l], k) == Members(ls, k) + if l.key == k then [l] else []
    ensures GroupKeys(ls + [l]) == if l.key in GroupKeys(ls) then GroupKeys(ls) else GroupKeys(ls) + [l.key]
  {
    assert (ls + [l])[..|ls|] == ls;
  }

  lemma GroupingGrows(ls: seq<Line>, l: Line, order: seq<Key>, groups: map<Key, seq<Line>>)
    requires IsGrouping(ls, order, groups)
    ensures IsGrouping(ls + [l], if l.key in groups then order else order + [l.key],
                       groups[l.key := (if l.key in groups then groups[l.key] else []) + [l]])
  {
    hide GroupKeys, Members;
    MembersStep(ls, l, l.key);
    forall k ensures Members(ls + [l], k) == Members(ls, k) + if l.key == k then [l] else [] {
      MembersStep(ls, l, k);
    }
  }

  /** Sorts the rows into groups. */
  method GroupLines(keys: seq<Expr>, args: seq<Expr>, ts: seq<Tuple>, c: Ctx)
    returns (failure: Option<EngineError>, order: seq<Key>, groups: map<Key, seq<Line>>)
    ensures var ls := Lines(EvalTable(ts, keys, c), EvalTable(ts, args, c));
            if ls.Err? then failure == Some(ls.error) else failure.None? && IsGrouping(ls.value, order, groups)
  {
    hide EvalTable, EvalAll, GroupKeys, Members, AllOk, IsGrouping, Lines;
    ghost var k, a := EvalTable(ts, keys, c), EvalTable(ts, args, c);
    ghost var ls: seq<Line> := [];
    failure, order, groups := None, [], map[];
    NothingGrouped();
    for i := 0 to |ts|
      invariant failure.None? && Lines(k[..i], a[..i]) == Ok(ls) && IsGrouping(ls, order, groups)
    {
      LinesStep(ts, keys, args, c, i);
      var cells := EvaluateKeys(keys, ts[i], c);
      if cells.Err? {
        LinesFail(k, a, i + 1);
        failure := Some(cells.error);
        return;
      }
      var l := Line(KeyOf(cells.value), cells.value, EvalAll(args, ts[i], c));
      GroupingGrows(ls, l, order, groups);
      if l.key !in groups {
        order := order + [l.key];
      }
      groups := groups[l.key := (if l.key in groups then groups[l.key] else []) + [l]];
      ls := ls + [l];
    }
    assert k[..|ts|] == k && a[..|ts|] == a;
  }

  lemma NothingGrouped()
    ensures Lines([], []) == Ok([]) && IsGrouping([], [], map[])
  {
  }

  lemma {:induction false} ArrangeMembers<T>(s: seq<T>, picks: seq<nat>, x: T)
    requires x in Arrange(s, picks)
    ensures x in s
    decreases |s|
  {
    var k := if picks == [] then 0 else picks[0] % |s|;
    if x != s[k] {
      ArrangeMembers(s[..k] + s[k + 1..], if picks == [] then [] else picks[1..], x);
    }
  }

  method AggregateAll(ts: seq<Tuple>, keys: seq<Expr>, aggregates: seq<(string, Expr)>, c: Ctx) returns (r: Result<seq<Tuple>>)
    ensures r == AggregatedRows(ts, keys, aggregates, c)
  {
    hide EvalTable, EvalAll, AggregateColumns, KeyColumns, ArgumentsOf, GroupKeys, Members, Lines, Arrange;
    var args := ArgumentsOf(aggregates);
    if keys == [] {
      var row := CollectColumns(aggregates, EvalTable(ts, args, c));
      return if row.Ok? then Ok([row.value]) else Err(row.error);
    }
    var failure, order, groups := GroupLines(keys, args, ts, c);
    if failure.Some? {
      return Err(failure.value);
    }
    ghost var ls := Lines(EvalTable(ts, keys, c), EvalTable(ts, args, c)).value;
    var visited := Arrange(order, c.picks);
    var rows: seq<Tuple> := [];
    for i := 0 to |visited|
      invariant |rows| == i && (i > 0 ==> AllPlain(aggregates))
      invariant forall j :: 0 <= j < i ==> rows[j] == GroupRow(keys, aggregates, Members(ls, visited[j]))
    {
      ArrangeMembers(order, c.picks, visited[i]);
      var group := groups[visited[i]];
      var columns := CollectColumns(aggregates, ArgsOfLines(group));
      if columns.Err? {
        return Err(columns.error);
      }
      var first: Tuple := if group != [] && |group[0].cells| == |keys| then KeyColumns(keys, group[0].cells, |keys|) else map[];
      rows := rows + [first + columns.value];
    }
    if visited != [] {
      assert rows == GroupRows(keys, aggregates, ls, visited);
    }
    return Ok(rows);
  }
}
