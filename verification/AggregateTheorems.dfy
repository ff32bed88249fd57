/** What aggregation means: groups split the rows, nothing depends on the order of rows or groups but which of
    two mixed values a group shows, and COUNT over a MATCH counts its matches. */
module AggregateTheorems {
  import opened Prelude
  import opened Values
  import opened Ast
  import opened Json
  import opened Aggregates
  import opened Planner
  import Text

  // ---------- visiting a hash map ----------

  lemma TakeOut<T>(s: seq<T>, k: nat)
    requires k < |s|
    ensures multiset(s) == multiset{s[k]} + multiset(s[..k] + s[k + 1..])
  {
    assert s == s[..k] + [s[k]] + s[k + 1..];
  }

  lemma HeadAndTail<T>(s: seq<T>)
    requires s != []
    ensures multiset(s) == multiset{s[0]} + multiset(s[1..])
  {
    assert s == [s[0]] + s[1..];
  }

  /** Where the first element of a list stands in a permutation of it. */
  lemma FindFirst<T>(a: seq<T>, b: seq<T>) returns (k: nat)
    requires a != [] && multiset(a) == multiset(b)
    ensures k < |b| && b[k] == a[0] && multiset(a[1..]) == multiset(b[..k] + b[k + 1..])
  {
    HeadAndTail(a);
    assert a[0] in multiset(b);
    k :| 0 <= k < |b| && b[k] == a[0];
    TakeOut(b, k);
    assert multiset(a[1..]) == multiset(a) - multiset{a[0]};
    assert multiset(b[..k] + b[k + 1..]) == multiset(b) - multiset{a[0]};
  }

  lemma EmptyPermutation<T>(b: seq<T>)
    requires multiset(b) == multiset{}
    ensures b == []
  {
    assert |multiset(b)| == 0;
  }

  lemma ArrangeTakes<T>(s: seq<T>, picks: seq<nat>) returns (k: nat, rest: seq<T>, more: seq<nat>)
    requires s != []
    ensures k < |s| && rest == s[..k] + s[k + 1..] && Arrange(s, picks) == [s[k]] + Arrange(rest, more)
  {
    k := if picks == [] then 0 else picks[0] % |s|;
    rest, more := s[..k] + s[k + 1..], if picks == [] then [] else picks[1..];
  }

  lemma {:induction false} ArrangePermutes<T>(s: seq<T>, picks: seq<nat>)
    ensures multiset(Arrange(s, picks)) == multiset(s)
    decreases |s|
  {
    if s != [] {
      hide Arrange;
      var k, rest, more := ArrangeTakes(s, picks);
      TakeOut(s, k);
      ArrangePermutes(rest, more);
    }
  }

  lemma ArrangeStep<T>(s: seq<T>, k: nat, more: seq<nat>)
    requires k < |s|
    ensures Arrange(s, [k] + more) == [s[k]] + Arrange(s[..k] + s[k + 1..], more)
  {
    var picks := [k] + more;
    SmallRemainder(k, |s|);
    assert picks != [] && picks[0] == k && picks[1..] == more;
  }

  lemma SmallRemainder(k: nat, n: nat)
    requires k < n
    ensures k % n == k
  {
  }

  /** Every order of the keys is that of some hash map. */
  lemma {:induction false} AnyArrangement<T>(s: seq<T>, order: seq<T>) returns (picks: seq<nat>)
    requires multiset(s) == multiset(order)
    ensures Arrange(s, picks) == order
    decreases |order|
  {
    if order == [] {
      EmptyPermutation(s);
      picks := [];
    } else {
      hide Arrange;
      var k := FindFirst(order, s);
      var more := AnyArrangement(s[..k] + s[k + 1..], order[1..]);
      picks := [k] + more;
      ArrangeStep(s, k, more);
      assert order == [order[0]] + order[1..];
    }
  }

  // ---------- groups ----------

  lemma {:induction false} KeysAre(ls: seq<Line>)
    ensures Distinct(GroupKeys(ls))
    ensures forall k :: k in GroupKeys(ls) <==> exists l :: l in ls && l.key == k
  {
    if ls != [] {
      var front, last := ls[..|ls| - 1], ls[|ls| - 1];
      KeysAre(front);
      assert ls == front + [last];
      if last.key !in GroupKeys(front) {
        DistinctAppend(GroupKeys(front), [last.key]);
      }
      forall k ensures k in GroupKeys(ls) <==> exists l :: l in ls && l.key == k {
        if k in GroupKeys(front) {
          var l :| l in front && l.key == k;
          assert l in ls;
        }
        if k == last.key {
          assert last in ls;
        }
        if l :| l in ls && l.key == k {
          assert l == last || l in front;
        }
      }
    }
  }

  lemma {:induction false} MembersCount(ls: seq<Line>, k: Key, l: Line)
    ensures multiset(Members(ls, k))[l] == if l.key == k then multiset(ls)[l] else 0
  {
    if ls != [] {
      MembersCount(ls[..|ls| - 1], k, l);
      assert ls == ls[..|ls| - 1] + [ls[|ls| - 1]];
    }
  }

  /** The groups one behind the other. */
  function Joined(ls: seq<Line>, order: seq<Key>): seq<Line> {
    if order == [] then [] else Joined(ls, order[..|order| - 1]) + Members(ls, order[|order| - 1])
  }

  lemma {:induction false} JoinedCount(ls: seq<Line>, order: seq<Key>, l: Line)
    requires Distinct(order)
    ensures multiset(Joined(ls, order))[l] == if l.key in order then multiset(ls)[l] else 0
    decreases |order|
  {
    hide Members;
    if order != [] {
      var front, last := order[..|order| - 1], order[|order| - 1];
      JoinedCount(ls, front, l);
      MembersCount(ls, last, l);
      assert order == front + [last] && last !in front;
    }
  }

  lemma DistinctAlike<T(!new)>(a: seq<T>, b: seq<T>)
    requires Distinct(a) && multiset(a) == multiset(b)
    ensures Distinct(b)
  {
    DistinctCounts(a);
    DistinctCounts(b);
  }

  /** However the groups are visited, every row is in exactly one of them: put one behind the other they are the
      rows again, each as often as before. */
  lemma GroupsPartition(ls: seq<Line>, picks: seq<nat>)
    ensures multiset(Joined(ls, Arrange(GroupKeys(ls), picks))) == multiset(ls)
  {
    hide Joined, GroupKeys, Arrange;
    var order := Arrange(GroupKeys(ls), picks);
    KeysAre(ls);
    ArrangePermutes(GroupKeys(ls), picks);
    DistinctAlike(GroupKeys(ls), order);
    forall l ensures multiset(Joined(ls, order))[l] == multiset(ls)[l] {
      JoinedCount(ls, order, l);
      MultisetIn(ls, l);
      MultisetIn(order, l.key);
      MultisetIn(GroupKeys(ls), l.key);
    }
  }

  function CountsOf(ls: seq<Line>, order: seq<Key>): nat {
    if order == [] then 0 else CountsOf(ls, order[..|order| - 1]) + |Members(ls, order[|order| - 1])|
  }

  lemma {:induction false} JoinedSize(ls: seq<Line>, order: seq<Key>)
    ensures |Joined(ls, order)| == CountsOf(ls, order)
    decreases |order|
  {
    if order != [] {
      JoinedSize(ls, order[..|order| - 1]);
    }
  }

  /** The counts of all groups add up to the number of rows. */
  lemma CountsAddUp(ls: seq<Line>, picks: seq<nat>)
    ensures CountsOf(ls, Arrange(GroupKeys(ls), picks)) == |ls|
  {
    hide Joined, GroupKeys, Arrange, CountsOf;
    GroupsPartition(ls, picks);
    JoinedSize(ls, Arrange(GroupKeys(ls), picks));
    assert |multiset(Joined(ls, Arrange(GroupKeys(ls), picks)))| == |multiset(ls)|;
  }

  // ---------- the order of the rows ----------

  lemma {:induction false} NumbersJoin(a: seq<Result<Value>>, b: seq<Result<Value>>)
    ensures Numbers(a + b) == Numbers(a) + Numbers(b)
    decreases |b|
  {
    if b == [] {
      assert a + b == a;
    } else {
      NumbersJoin(a, b[..|b| - 1]);
      assert (a + b)[..|a + b| - 1] == a + b[..|b| - 1];
    }
  }

  lemma {:induction false} TotalJoin(a: seq<real>, b: seq<real>)
    ensures Total(a + b) == Total(a) + Total(b)
    decreases |b|
  {
    if b == [] {
      assert a + b == a;
    } else {
      TotalJoin(a, b[..|b| - 1]);
      assert (a + b)[..|a + b| - 1] == a + b[..|b| - 1];
    }
  }

  lemma {:induction false} PermutedNumbers(a: seq<Result<Value>>, b: seq<Result<Value>>)
    requires multiset(a) == multiset(b)
    ensures multiset(Numbers(a)) == multiset(Numbers(b))
    decreases |a|
  {
    hide Numbers;
    if a == [] {
      EmptyPermutation(b);
    } else {
      var k := FindFirst(a, b);
      var rest := b[..k] + b[k + 1..];
      PermutedNumbers(a[1..], rest);
      NumbersSplit(a, 0, a[1..]);
      NumbersSplit(b, k, rest);
    }
  }

  lemma NumbersSplit(s: seq<Result<Value>>, k: nat, rest: seq<Result<Value>>)
    requires k < |s| && rest == s[..k] + s[k + 1..]
    ensures multiset(Numbers(s)) == multiset(Numbers([s[k]])) + multiset(Numbers(rest))
  {
    hide Numbers;
    NumbersJoin(s[..k] + [s[k]], s[k + 1..]);
    NumbersJoin(s[..k], [s[k]]);
    NumbersJoin(s[..k], s[k + 1..]);
    assert s == s[..k] + [s[k]] + s[k + 1..];
  }

  lemma {:induction false} PermutedTotal(a: seq<real>, b: seq<real>)
    requires multiset(a) == multiset(b)
    ensures Total(a) == Total(b)
    decreases |a|
  {
    if a == [] {
      EmptyPermutation(b);
    } else {
      hide Total;
      var k := FindFirst(a, b);
      PermutedTotal(a[1..], b[..k] + b[k + 1..]);
      TotalSplit(a, 0);
      TotalSplit(b, k);
      assert a[..0] + a[1..] == a[1..];
    }
  }

  lemma TotalSplit(s: seq<real>, k: nat)
    requires k < |s|
    ensures Total(s) == Total([s[k]]) + Total(s[..k] + s[k + 1..])
  {
    hide Total;
    TotalJoin(s[..k] + [s[k]], s[k + 1..]);
    TotalJoin(s[..k], [s[k]]);
    TotalJoin(s[..k], s[k + 1..]);
    assert s == s[..k] + [s[k]] + s[k + 1..];
  }

  /** `Least` is one of the numbers and none is smaller; `Greatest` likewise. */
  lemma {:induction false} ExtremesAre(rs: seq<real>)
    requires rs != []
    ensures Least(rs) in rs && forall x :: x in rs ==> Least(rs) <= x
    ensures Greatest(rs) in rs && forall x :: x in rs ==> x <= Greatest(rs)
  {
    if |rs| > 1 {
      ExtremesAre(rs[..|rs| - 1]);
      assert rs == rs[..|rs| - 1] + [rs[|rs| - 1]];
    }
  }

  /** No aggregate depends on the order of the rows. */
  lemma ComputedAlike(f: AggFunc, a: seq<Result<Value>>, b: seq<Result<Value>>)
    requires multiset(a) == multiset(b)
    ensures Computed(f, a) == Computed(f, b)
  {
    hide Numbers, Total, Least, Greatest;
    var rs, qs := Numbers(a), Numbers(b);
    assert |multiset(a)| == |multiset(b)|;
    PermutedNumbers(a, b);
    assert |multiset(rs)| == |multiset(qs)|;
    PermutedTotal(rs, qs);
    if rs != [] {
      ExtremesAre(rs);
      ExtremesAre(qs);
      assert forall x :: x in rs <==> x in multiset(rs);
      assert forall x :: x in qs <==> x in multiset(qs);
    }
  }

  /** Two values fall into the same group exactly when they are equal, or one is a node and the other the integer
      that is its id. */
  lemma GroupsMix(v: Value, w: Value)
    ensures ToJson(v) == ToJson(w) <==>
      v == w || (v.NodeRef? && w == Int(v.id)) || (w.NodeRef? && v == Int(w.id))
  {
  }

  predicate Unmixed(cells: seq<Value>, other: seq<Value>) {
    |cells| == |other| && forall i :: 0 <= i < |cells| ==> (cells[i].NodeRef? <==> other[i].NodeRef?)
  }

  lemma UnmixedKeys(cells: seq<Value>, other: seq<Value>)
    requires Unmixed(cells, other) && KeyOf(cells) == KeyOf(other)
    ensures cells == other
  {
    forall i | 0 <= i < |cells| ensures cells[i] == other[i] {
      assert KeyOf(cells)[i] == KeyOf(other)[i];
      GroupsMix(cells[i], other[i]);
    }
  }

  /** The lines are rows with their keys, and no key column mixes nodes and other values. */
  ghost predicate CleanLines(ls: seq<Line>) {
    && (forall l :: l in ls ==> l.key == KeyOf(l.cells))
    && (forall l, m :: l in ls && m in ls ==> Unmixed(l.cells, m.cells))
  }

  function Map<T, U>(f: T -> U, s: seq<T>): (r: seq<U>)
    ensures |r| == |s| && forall i :: 0 <= i < |s| ==> r[i] == f(s[i])
  {
    seq(|s|, i requires 0 <= i < |s| => f(s[i]))
  }

  lemma MapSplit<T, U>(f: T -> U, s: seq<T>, k: nat, rest: seq<T>)
    requires k < |s| && rest == s[..k] + s[k + 1..]
    ensures multiset(Map(f, s)) == multiset{f(s[k])} + multiset(Map(f, rest))
  {
    TakeOut(Map(f, s), k);
    assert Map(f, s)[..k] + Map(f, s)[k + 1..] == Map(f, rest);
  }

  lemma {:induction false} PermutedMap<T, U>(f: T -> U, a: seq<T>, b: seq<T>)
    requires multiset(a) == multiset(b)
    ensures multiset(Map(f, a)) == multiset(Map(f, b))
    decreases |a|
  {
    if a == [] {
      EmptyPermutation(b);
    } else {
      hide Map;
      var k := FindFirst(a, b);
      var rest := b[..k] + b[k + 1..];
      PermutedMap(f, a[1..], rest);
      MapSplit(f, a, 0, a[1..]);
      MapSplit(f, b, k, rest);
    }
  }

  lemma ArgsCount(ls: seq<Line>, ms: seq<Line>)
    requires multiset(ls) == multiset(ms)
    ensures multiset(ArgsOfLines(ls)) == multiset(ArgsOfLines(ms))
  {
    var f := (l: Line) => l.args;
    PermutedMap(f, ls, ms);
    assert ArgsOfLines(ls) == Map(f, ls) && ArgsOfLines(ms) == Map(f, ms);
  }

  lemma PermutedColumn(a: seq<seq<Result<Value>>>, b: seq<seq<Result<Value>>>, i: nat)
    requires multiset(a) == multiset(b)
    ensures multiset(ArgColumn(a, i)) == multiset(ArgColumn(b, i))
  {
    var f := (vs: seq<Result<Value>>) => if i < |vs| then vs[i] else Err(InvalidArgument(""));
    PermutedMap(f, a, b);
    assert ArgColumn(a, i) == Map(f, a) && ArgColumn(b, i) == Map(f, b);
  }

  /** Aggregate columns do not depend on the order of the rows. */
  lemma {:induction false} ColumnsAlike(aggregates: seq<(string, Expr)>, a: seq<seq<Result<Value>>>, b: seq<seq<Result<Value>>>, n: nat)
    requires AllPlain(aggregates) && n <= |aggregates| && multiset(a) == multiset(b)
    ensures AggregateColumns(aggregates, a, n) == AggregateColumns(aggregates, b, n)
  {
    hide Computed, ArgColumn;
    if n > 0 {
      ColumnsAlike(aggregates, a, b, n - 1);
      PermutedColumn(a, b, n - 1);
      ComputedAlike(aggregates[n - 1].1.func, ArgColumn(a, n - 1), ArgColumn(b, n - 1));
    }
  }

  lemma MembersAlike(ls: seq<Line>, ms: seq<Line>, k: Key)
    requires multiset(ls) == multiset(ms)
    ensures multiset(Members(ls, k)) == multiset(Members(ms, k))
  {
    hide Members;
    forall l ensures multiset(Members(ls, k))[l] == multiset(Members(ms, k))[l] {
      MembersCount(ls, k, l);
      MembersCount(ms, k, l);
    }
  }

  lemma MemberOf(ls: seq<Line>, k: Key, l: Line)
    requires l in Members(ls, k)
    ensures l in ls && l.key == k
  {
    hide Members;
    MembersCount(ls, k, l);
    MultisetIn(Members(ls, k), l);
    MultisetIn(ls, l);
  }

  /** While no key column mixes nodes and integers, a group's row does not depend on the order of the rows. */
  lemma GroupRowAlike(keys: seq<Expr>, aggregates: seq<(string, Expr)>, ls: seq<Line>, ms: seq<Line>, k: Key)
    requires AllPlain(aggregates) && multiset(ls) == multiset(ms) && CleanLines(ls)
    ensures GroupRow(keys, aggregates, Members(ls, k)) == GroupRow(keys, aggregates, Members(ms, k))
  {
    hide Members, AggregateColumns, KeyColumns, Unmixed;
    var a, b := Members(ls, k), Members(ms, k);
    MembersAlike(ls, ms, k);
    ArgsCount(a, b);
    ColumnsAlike(aggregates, ArgsOfLines(a), ArgsOfLines(b), |aggregates|);
    assert |multiset(a)| == |multiset(b)|;
    if a != [] {
      assert a[0] in a && b[0] in b;
      MemberOf(ls, k, a[0]);
      MemberOf(ms, k, b[0]);
      MultisetIn(ms, b[0]);
      MultisetIn(ls, b[0]);
      UnmixedKeys(a[0].cells, b[0].cells);
    }
  }

  lemma KeysAlike(ls: seq<Line>, ms: seq<Line>)
    requires multiset(ls) == multiset(ms)
    ensures multiset(GroupKeys(ls)) == multiset(GroupKeys(ms))
  {
    hide GroupKeys;
    KeysAre(ls);
    KeysAre(ms);
    forall l ensures l in ls <==> l in ms {
      MultisetIn(ls, l);
      MultisetIn(ms, l);
    }
    DistinctCounts(GroupKeys(ls));
    DistinctCounts(GroupKeys(ms));
    forall k ensures multiset(GroupKeys(ls))[k] == multiset(GroupKeys(ms))[k] {
      MultisetIn(GroupKeys(ls), k);
      MultisetIn(GroupKeys(ms), k);
    }
  }

  lemma RowsAlike(keys: seq<Expr>, aggregates: seq<(string, Expr)>, ls: seq<Line>, ms: seq<Line>, a: seq<Key>, b: seq<Key>)
    requires AllPlain(aggregates) && multiset(ls) == multiset(ms) && CleanLines(ls) && multiset(a) == multiset(b)
    ensures multiset(GroupRows(keys, aggregates, ls, a)) == multiset(GroupRows(keys, aggregates, ms, b))
  {
    hide GroupRow, Members, CleanLines;
    var f := (k: Key) => if AllPlain(aggregates) then GroupRow(keys, aggregates, Members(ls, k)) else map[];
    PermutedMap(f, a, b);
    assert GroupRows(keys, aggregates, ls, a) == Map(f, a);
    forall i | 0 <= i < |b| ensures GroupRows(keys, aggregates, ms, b)[i] == f(b[i]) {
      GroupRowAlike(keys, aggregates, ls, ms, b[i]);
    }
    assert GroupRows(keys, aggregates, ms, b) == Map(f, b);
  }

  /** The same rows in another order, and groups visited in another order, give the same result rows up to their
      order, while no key column mixes nodes and other values. */
  lemma GroupsIgnoreOrder(keys: seq<Expr>, aggregates: seq<(string, Expr)>, ls: seq<Line>, ms: seq<Line>, p: seq<nat>, q: seq<nat>)
    requires AllPlain(aggregates) && multiset(ls) == multiset(ms) && CleanLines(ls)
    ensures multiset(GroupRows(keys, aggregates, ls, Arrange(GroupKeys(ls), p)))
         == multiset(GroupRows(keys, aggregates, ms, Arrange(GroupKeys(ms), q)))
  {
    hide GroupRows, GroupKeys, Arrange, CleanLines;
    KeysAlike(ls, ms);
    ArrangePermutes(GroupKeys(ls), p);
    ArrangePermutes(GroupKeys(ms), q);
    RowsAlike(keys, aggregates, ls, ms, Arrange(GroupKeys(ls), p), Arrange(GroupKeys(ms), q));
  }

  // ---------- when aggregation fails ----------

  ghost predicate KeysFail(keyTable: seq<seq<Result<Value>>>) {
    exists i, j :: 0 <= i < |keyTable| && 0 <= j < |keyTable[i]| && keyTable[i][j].Err?
  }

  lemma {:induction false} AllOkExactly(vs: seq<Result<Value>>)
    ensures AllOk(vs).Err? <==> exists j :: 0 <= j < |vs| && vs[j].Err?
  {
    if vs != [] {
      AllOkExactly(vs[..|vs| - 1]);
    }
  }

  lemma {:induction false} LinesFailExactly(keys: seq<seq<Result<Value>>>, args: seq<seq<Result<Value>>>)
    requires |keys| == |args|
    ensures Lines(keys, args).Err? <==> KeysFail(keys)
  {
    hide AllOk;
    if keys != [] {
      var n := |keys| - 1;
      LinesFailExactly(keys[..n], args[..n]);
      AllOkExactly(keys[n]);
      if KeysFail(keys[..n]) {
        var i, j :| 0 <= i < n && 0 <= j < |keys[..n][i]| && keys[..n][i][j].Err?;
        assert keys[i][j].Err?;
      }
      if KeysFail(keys) {
        var i, j :| 0 <= i < |keys| && 0 <= j < |keys[i]| && keys[i][j].Err?;
        assert i < n ==> keys[..n][i][j].Err?;
      }
    }
  }

  lemma {:induction false} NoGroups(ls: seq<Line>)
    ensures GroupKeys(ls) == [] <==> ls == []
  {
    if ls != [] {
      NoGroups(ls[..|ls| - 1]);
    }
  }

  /** Aggregation fails exactly when some group key fails to evaluate on some row, or something else than a plain
      aggregate stands for one and there is a row to aggregate or no group key. */
  lemma FailsExactly(keys: seq<Expr>, aggregates: seq<(string, Expr)>, keyTable: seq<seq<Result<Value>>>,
                     argTable: seq<seq<Result<Value>>>, picks: seq<nat>)
    requires |keyTable| == |argTable|
    ensures AggregateRows(keys, aggregates, keyTable, argTable, picks).Err? <==>
      (keys != [] && KeysFail(keyTable)) || (!AllPlain(aggregates) && (keys == [] || keyTable != []))
  {
    hide AggregateColumns, GroupRows, GroupKeys, Lines, Arrange, KeysFail, AllPlain;
    if keys != [] {
      LinesFailExactly(keyTable, argTable);
      var ls := Lines(keyTable, argTable);
      if ls.Ok? {
        NoGroups(ls.value);
        ArrangeSize(GroupKeys(ls.value), picks);
      }
    }
  }

  lemma ArrangeSize<T>(s: seq<T>, picks: seq<nat>)
    ensures Arrange(s, picks) == [] <==> s == []
  {
  }

  // ---------- what each aggregate is ----------

  /** The value counts as the number `x`; strings, truth values, nodes, NULL and failures count as none. */
  predicate CountsAs(v: Result<Value>, x: real) {
    match v
    case Ok(Int(i)) => i as real == x
    case Ok(Float(r)) => r == x
    case _ => false
  }

  lemma {:induction false} NumbersAre(vs: seq<Result<Value>>)
    ensures forall x :: x in Numbers(vs) <==> exists i :: 0 <= i < |vs| && CountsAs(vs[i], x)
  {
    if vs != [] {
      var n := |vs| - 1;
      NumbersAre(vs[..n]);
      forall x ensures x in Numbers(vs) <==> exists i :: 0 <= i < |vs| && CountsAs(vs[i], x) {
        if x in Numbers(vs[..n]) {
          var i :| 0 <= i < n && CountsAs(vs[..n][i], x);
          assert CountsAs(vs[i], x);
        }
        if i :| 0 <= i < |vs| && CountsAs(vs[i], x) {
          assert i < n ==> CountsAs(vs[..n][i], x);
        }
      }
    }
  }

  /** COUNT counts rows. SUM starts at nothing and grows by every number. AVG times the number of numbers is SUM.
      MIN is a number among the values that none of them is below, MAX one that none is above; without numbers all
      three are NULL. */
  lemma ComputedIs(vs: seq<Result<Value>>)
    ensures Computed(Count, vs) == Int(|vs|)
    ensures Computed(Sum, []) == Float(0.0) && Computed(Sum, vs).Float?
    ensures forall v, x :: CountsAs(v, x) ==> Computed(Sum, vs + [v]) == Float(Computed(Sum, vs).r + x)
    ensures forall v :: NoNumber(v) ==> Computed(Sum, vs + [v]) == Computed(Sum, vs)
    ensures Numbers(vs) == [] ==> Computed(Avg, vs) == Null && Computed(Min, vs) == Null && Computed(Max, vs) == Null
    ensures Numbers(vs) != [] ==> Computed(Avg, vs).Float? && Computed(Avg, vs).r * |Numbers(vs)| as real == Computed(Sum, vs).r
    ensures Numbers(vs) != [] ==> IsLeast(Computed(Min, vs), vs) && IsGreatest(Computed(Max, vs), vs)
  {
    hide Numbers, Computed, CountsAs, NoNumber, IsLeast, IsGreatest;
    PlainComputed(vs);
    SumStarts();
    forall v, x | CountsAs(v, x) ensures Computed(Sum, vs + [v]) == Float(Computed(Sum, vs).r + x) {
      SumGrows(vs, v, x);
    }
    forall v | NoNumber(v) ensures Computed(Sum, vs + [v]) == Computed(Sum, vs) {
      SumStays(vs, v);
    }
    if Numbers(vs) != [] {
      LeastIsLeast(vs);
      GreatestIsGreatest(vs);
    }
  }

  ghost predicate NoNumber(v: Result<Value>) {
    forall x :: !CountsAs(v, x)
  }

  lemma PlainComputed(vs: seq<Result<Value>>)
    ensures Computed(Count, vs) == Int(|vs|) && Computed(Sum, vs).Float?
    ensures Numbers(vs) == [] ==> Computed(Avg, vs) == Null && Computed(Min, vs) == Null && Computed(Max, vs) == Null
    ensures Numbers(vs) != [] ==> Computed(Avg, vs).Float? && Computed(Avg, vs).r * |Numbers(vs)| as real == Computed(Sum, vs).r
  {
    hide Numbers, Total;
  }

  /** A number among the values, with none below it. */
  ghost predicate IsLeast(m: Value, vs: seq<Result<Value>>) {
    && m.Float? && (exists i :: 0 <= i < |vs| && CountsAs(vs[i], m.r))
    && forall i, x :: 0 <= i < |vs| && CountsAs(vs[i], x) ==> m.r <= x
  }

  ghost predicate IsGreatest(m: Value, vs: seq<Result<Value>>) {
    && m.Float? && (exists i :: 0 <= i < |vs| && CountsAs(vs[i], m.r))
    && forall i, x :: 0 <= i < |vs| && CountsAs(vs[i], x) ==> x <= m.r
  }

  lemma SumStarts()
    ensures Computed(Sum, []) == Float(0.0)
  {
    assert Numbers([]) == [];
  }

  lemma SumGrows(vs: seq<Result<Value>>, v: Result<Value>, x: real)
    requires CountsAs(v, x)
    ensures Computed(Sum, vs + [v]) == Float(Computed(Sum, vs).r + x)
  {
    hide Total;
    assert (vs + [v])[..|vs|] == vs;
    assert Numbers(vs + [v]) == Numbers(vs) + [x];
    NumberMore(Numbers(vs), x);
  }

  lemma SumStays(vs: seq<Result<Value>>, v: Result<Value>)
    requires NoNumber(v)
    ensures Computed(Sum, vs + [v]) == Computed(Sum, vs)
  {
    hide Total;
    assert (vs + [v])[..|vs|] == vs;
    assert forall x :: NumberOf(v) == Some(x) ==> CountsAs(v, x);
    assert Numbers(vs + [v]) == Numbers(vs) + [] == Numbers(vs);
  }

  lemma LeastIsLeast(vs: seq<Result<Value>>)
    requires Numbers(vs) != []
    ensures IsLeast(Computed(Min, vs), vs)
  {
    hide Numbers, Least, CountsAs;
    NumbersAre(vs);
    ExtremesAre(Numbers(vs));
    var m := Least(Numbers(vs));
    assert Computed(Min, vs) == Float(m) && m in Numbers(vs);
    forall i, x | 0 <= i < |vs| && CountsAs(vs[i], x) ensures m <= x {
      assert x in Numbers(vs);
    }
  }

  lemma GreatestIsGreatest(vs: seq<Result<Value>>)
    requires Numbers(vs) != []
    ensures IsGreatest(Computed(Max, vs), vs)
  {
    hide Numbers, Greatest, CountsAs;
    NumbersAre(vs);
    ExtremesAre(Numbers(vs));
    var m := Greatest(Numbers(vs));
    assert Computed(Max, vs) == Float(m) && m in Numbers(vs);
    forall i, x | 0 <= i < |vs| && CountsAs(vs[i], x) ensures x <= m {
      assert x in Numbers(vs);
    }
  }

  // ---------- the columns of a group ----------

  /** The column of a group key: the text of a name or property, else `group_` and its position. */
  predicate KeyIn(e: Expr, i: nat, w: string) {
    match e
    case Ident(n) => w == n
    case Property(v, p) => w == v + "." + p
    case _ => w == "group_" + Text.Decimal(i)
  }

  ghost predicate LastKeyIn(keys: seq<Expr>, n: nat, i: nat, w: string)
    requires n <= |keys|
  {
    i < n && KeyIn(keys[i], i, w) && forall j :: i < j < n ==> !KeyIn(keys[j], j, w)
  }

  /** Every group key has its column, the last one when several share a name, and there are no others. */
  lemma {:induction false} KeyColumnsAre(keys: seq<Expr>, cells: seq<Value>, n: nat)
    requires n <= |keys| == |cells|
    ensures forall i: nat, w :: LastKeyIn(keys, n, i, w) ==> w in KeyColumns(keys, cells, n) && KeyColumns(keys, cells, n)[w] == cells[i]
    ensures forall w :: w in KeyColumns(keys, cells, n) ==> exists i: nat :: LastKeyIn(keys, n, i, w)
  {
    if n > 0 {
      var m := n - 1;
      KeyColumnsAre(keys, cells, m);
      var name := KeyName(keys[m], m);
      forall i: nat, w ensures LastKeyIn(keys, n, i, w) <==> (i == m && w == name) || (LastKeyIn(keys, m, i, w) && w != name) {}
      forall w | w in KeyColumns(keys, cells, n) ensures exists i: nat :: LastKeyIn(keys, n, i, w) {
        if w == name {
          assert LastKeyIn(keys, n, m, w);
        } else {
          var i: nat :| LastKeyIn(keys, m, i, w);
          assert LastKeyIn(keys, n, i, w);
        }
      }
    }
  }

  /** The column of an item that holds an aggregate: its alias, or the name of the aggregate in small letters. */
  predicate AggregateIn(item: ReturnItem, w: string) {
    if item.alias.Some? then w == item.alias.value
    else
      match item.expr
      case Aggregate(f, _) =>
        (match f
         case Count => w == "count"
         case Sum => w == "sum"
         case Avg => w == "avg"
         case Min => w == "min"
         case Max => w == "max")
      case _ => w == "agg"
  }

  /** One expression is another one or an operand in it, through operators and NOT. */
  predicate Within(x: Expr, e: Expr) {
    || x == e
    || (e.BinaryOp? && (Within(x, e.left) || Within(x, e.right)))
    || (e.Not? && Within(x, e.operand))
  }

  ghost predicate AggregateWithin(e: Expr) {
    exists x: Expr :: x.Aggregate? && Within(x, e)
  }

  /** An aggregate is seen through operators and NOT only. Below IS NULL, in arguments and in EXISTS it is not, and
      the query is then not grouped. */
  lemma {:induction false} AggregateIsSeen(e: Expr)
    ensures HasAggregate(e) <==> AggregateWithin(e)
  {
    match e
    case Aggregate(_, _) => assert Within(e, e);
    case BinaryOp(l, _, r) =>
      AggregateIsSeen(l);
      AggregateIsSeen(r);
    case Not(x) => AggregateIsSeen(x);
    case _ =>
  }

  lemma GroupedExactly(items: seq<ReturnItem>, p: PlanNode)
    ensures PlanReturn(items, p).Aggregation? <==> exists i :: 0 <= i < |items| && AggregateWithin(items[i].expr)
    ensures PlanReturn(items, p).Aggregation? || PlanReturn(items, p) == Project(p, items)
  {
    hide AggregateWithin;
    forall i | 0 <= i < |items| ensures HasAggregate(items[i].expr) <==> AggregateWithin(items[i].expr) {
      AggregateIsSeen(items[i].expr);
    }
  }

  /** RETURN items that hold no aggregate are the group keys, in order; the others are the aggregates, in order,
      each under its column. */
  ghost predicate Splits(items: seq<ReturnItem>, keys: seq<Expr>, aggregates: seq<(string, Expr)>) {
    if items == [] then keys == [] && aggregates == []
    else if HasAggregate(items[0].expr) then
      && aggregates != [] && aggregates[0].1 == items[0].expr && AggregateIn(items[0], aggregates[0].0)
      && Splits(items[1..], keys, aggregates[1..])
    else keys != [] && keys[0] == items[0].expr && Splits(items[1..], keys[1..], aggregates)
  }

  lemma {:induction false} ItemsSplit(items: seq<ReturnItem>)
    ensures Splits(items, GroupKeysOf(items), AggregatesOf(items))
  {
    hide HasAggregate;
    if items != [] {
      ItemsSplit(items[1..]);
      var item := items[0];
      if HasAggregate(item.expr) {
        var name := AggregatesOf(items)[0].0;
        assert AggregatesOf(items)[1..] == AggregatesOf(items[1..]);
        assert AggregateIn(item, name);
        assert GroupKeysOf(items) == GroupKeysOf(items[1..]);
      } else {
        assert GroupKeysOf(items)[1..] == GroupKeysOf(items[1..]);
        assert AggregatesOf(items) == AggregatesOf(items[1..]);
      }
    }
  }
}
