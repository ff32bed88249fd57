/** COUNT, SUM, AVG, MIN and MAX over the rows of a group, and the groups themselves. Rows are given by what
    their group keys and aggregate arguments evaluate to. */
module Aggregates {
  import opened Prelude
  import opened Values
  import opened Ast
  import opened Json
  import Text

  // ---------- one aggregate ----------

  function NumberOf(v: Result<Value>): Option<real> {
    match v
    case Ok(Int(i)) => Some(i as real)
    case Ok(Float(r)) => Some(r)
    case _ => None
  }

  /** The numbers among the values; what fails to evaluate or is no number is passed over. */
  function Numbers(vs: seq<Result<Value>>): seq<real> {
    if vs == [] then []
    else Numbers(vs[..|vs| - 1]) + if NumberOf(vs[|vs| - 1]).Some? then [NumberOf(vs[|vs| - 1]).value] else []
  }

  function Total(rs: seq<real>): real {
    if rs == [] then 0.0 else Total(rs[..|rs| - 1]) + rs[|rs| - 1]
  }

  function Least(rs: seq<real>): real
    requires rs != []
  {
    var last := rs[|rs| - 1];
    if |rs| == 1 then last else if last < Least(rs[..|rs| - 1]) then last else Least(rs[..|rs| - 1])
  }

  function Greatest(rs: seq<real>): real
    requires rs != []
  {
    var last := rs[|rs| - 1];
    if |rs| == 1 then last else if last > Greatest(rs[..|rs| - 1]) then last else Greatest(rs[..|rs| - 1])
  }

  lemma NumberMore(rs: seq<real>, x: real)
    ensures Total(rs + [x]) == Total(rs) + x
    ensures Least(rs + [x]) == if rs == [] || x < Least(rs) then x else Least(rs)
    ensures Greatest(rs + [x]) == if rs == [] || x > Greatest(rs) then x else Greatest(rs)
  {
    assert (rs + [x])[..|rs|] == rs;
  }

  /** COUNT counts rows, whatever its argument; the others look at numbers only. */
  function Computed(f: AggFunc, vs: seq<Result<Value>>): Value {
    var rs := Numbers(vs);
    match f
    case Count => Int(|vs|)
    case Sum => Float(Total(rs))
    case Avg => if rs == [] then Null else Float(Total(rs) / |rs| as real)
    case Min => if rs == [] then Null else Float(Least(rs))
    case Max => if rs == [] then Null else Float(Greatest(rs))
  }

  // ---------- groups ----------

  type Key = seq<Json>

  /** A row to be grouped: its group key, the values behind it, and the arguments of the aggregates. */
  datatype Line = Line(key: Key, cells: seq<Value>, args: seq<Result<Value>>)

  /** The values, or the first error. */
  function AllOk(vs: seq<Result<Value>>): Result<seq<Value>> {
    if vs == [] then Ok([])
    else
      var front :- AllOk(vs[..|vs| - 1]);
      var last :- vs[|vs| - 1];
      Ok(front + [last])
  }

  function KeyOf(cells: seq<Value>): (key: Key)
    ensures |key| == |cells|
  {
    seq(|cells|, i requires 0 <= i < |cells| => ToJson(cells[i]))
  }

  /** The rows as lines, or the error of the first row that has one. */
  function Lines(keys: seq<seq<Result<Value>>>, args: seq<seq<Result<Value>>>): (ls: Result<seq<Line>>)
    requires |keys| == |args|
    ensures ls.Ok? ==> |ls.value| == |keys|
  {
    if keys == [] then Ok([])
    else
      var n := |keys| - 1;
      var front :- Lines(keys[..n], args[..n]);
      var cells :- AllOk(keys[n]);
      Ok(front + [Line(KeyOf(cells), cells, args[n])])
  }

  /** The keys in order of their first line. */
  function GroupKeys(ls: seq<Line>): seq<Key> {
    if ls == [] then []
    else
      var front, k := GroupKeys(ls[..|ls| - 1]), ls[|ls| - 1].key;
      if k in front then front else front + [k]
  }

  function Members(ls: seq<Line>, k: Key): seq<Line> {
    if ls == [] then []
    else Members(ls[..|ls| - 1], k) + if ls[|ls| - 1].key == k then [ls[|ls| - 1]] else []
  }

  /** A hash map hands out its keys in an order nobody promises: `picks` says which of the remaining ones comes
      next each time. */
  function Arrange<T>(s: seq<T>, picks: seq<nat>): (r: seq<T>)
    ensures |r| == |s|
    decreases |s|
  {
    if s == [] then []
    else
      var k := if picks == [] then 0 else picks[0] % |s|;
      [s[k]] + Arrange(s[..k] + s[k + 1..], if picks == [] then [] else picks[1..])
  }

  // ---------- result rows ----------

  function KeyName(e: Expr, i: nat): string {
    match e
    case Ident(n) => n
    case Property(v, p) => v + "." + p
    case _ => "group_" + Text.Decimal(i)
  }

  /** The first `n` key columns, from the values of the group's first line. */
  function KeyColumns(keys: seq<Expr>, cells: seq<Value>, n: nat): Tuple
    requires n <= |keys| == |cells|
  {
    if n == 0 then map[] else KeyColumns(keys, cells, n - 1)[KeyName(keys[n - 1], n - 1) := cells[n - 1]]
  }

  function ArgColumn(args: seq<seq<Result<Value>>>, i: nat): (r: seq<Result<Value>>)
    ensures |r| == |args|
  {
    seq(|args|, j requires 0 <= j < |args| => if i < |args[j]| then args[j][i] else Err(InvalidArgument("")))
  }

  predicate AllPlain(aggregates: seq<(string, Expr)>) {
    forall i :: 0 <= i < |aggregates| ==> aggregates[i].1.Aggregate?
  }

  /** The first `n` aggregate columns over the rows with these arguments. */
  function AggregateColumns(aggregates: seq<(string, Expr)>, args: seq<seq<Result<Value>>>, n: nat): Tuple
    requires AllPlain(aggregates) && n <= |aggregates|
  {
    if n == 0 then map[]
    else AggregateColumns(aggregates, args, n - 1)[aggregates[n - 1].0 := Computed(aggregates[n - 1].1.func, ArgColumn(args, n - 1))]
  }

  function ArgsOfLines(ls: seq<Line>): (r: seq<seq<Result<Value>>>)
    ensures |r| == |ls|
  {
    seq(|ls|, i requires 0 <= i < |ls| => ls[i].args)
  }

  function GroupRow(keys: seq<Expr>, aggregates: seq<(string, Expr)>, group: seq<Line>): Tuple
    requires AllPlain(aggregates)
  {
    (if group != [] && |group[0].cells| == |keys| then KeyColumns(keys, group[0].cells, |keys|) else map[])
    + AggregateColumns(aggregates, ArgsOfLines(group), |aggregates|)
  }

  function GroupRows(keys: seq<Expr>, aggregates: seq<(string, Expr)>, ls: seq<Line>, order: seq<Key>): (r: seq<Tuple>)
    requires AllPlain(aggregates)
    ensures |r| == |order|
  {
    seq(|order|, i requires 0 <= i < |order| => GroupRow(keys, aggregates, Members(ls, order[i])))
  }

  const NotPlain := InvalidArgument("expected aggregate expression")

  /** Without group keys there is one row, even for no input; with them one row per group. */
  function AggregateRows(keys: seq<Expr>, aggregates: seq<(string, Expr)>, keyTable: seq<seq<Result<Value>>>,
                         argTable: seq<seq<Result<Value>>>, picks: seq<nat>): Result<seq<Tuple>>
    requires |keyTable| == |argTable|
  {
    if keys == [] then
      if AllPlain(aggregates) then Ok([AggregateColumns(aggregates, argTable, |aggregates|)]) else Err(NotPlain)
    else
      var ls :- Lines(keyTable, argTable);
      var order := Arrange(GroupKeys(ls), picks);
      if order == [] then Ok([])
      else if AllPlain(aggregates) then Ok(GroupRows(keys, aggregates, ls, order))
      else Err(NotPlain)
  }
}
