/** The executor's loops over rows, hops and patterns, proved against the row semantics. */
module Executor {
  import opened Prelude
  import opened Values
  import opened Ast
  import opened GraphStore
  import opened Traversal
  import opened Planner
  import opened Semantics
  import opened Creation
  import Grouping
  import opened StableSort
  import Ordering

  /** Every row of `left` with every row of `right`; on shared keys the right row wins. */
  method CombineRows(left: seq<Tuple>, right: seq<Tuple>) returns (result: seq<Tuple>)
    ensures result == Product(left, right)
  {
    result := [];
    for i := 0 to |left|
      invariant result == Product(left[..i], right)
    {
      ghost var before := result;
      for j := 0 to |right|
        invariant result == before + MergeWith(left[i], right)[..j]
      {
        result := result + [left[i] + right[j]];
      }
      assert left[..i + 1][..i] == left[..i];
    }
    assert left[..|left|] == left;
  }

  lemma IdsOfMore(nodes: seq<Node>, i: nat)
    requires i < |nodes|
    ensures forall id :: id in IdsOf(nodes[..i + 1]) <==> id in IdsOf(nodes[..i]) || id == nodes[i].id
  {
    assert IdsOf(nodes[..i + 1]) == IdsOf(nodes[..i]) + [nodes[i].id];
  }

  lemma ExpandPathsMore(t: Tuple, from: NodeId, reached: seq<Node>, toVar: string, i: nat)
    requires i < |reached|
    ensures ExpandPaths(t, from, reached[..i + 1], toVar) ==
      ExpandPaths(t, from, reached[..i], toVar) +
      if reached[i].id == from || reached[i].id in IdsOf(reached[..i]) || AlreadyBound(t, toVar, reached[i].id) then []
      else [BindNode(t, toVar, reached[i])]
  {
    hide BindNode, IdsOf;
    assert reached[..i + 1][..i] == reached[..i];
  }

  /** One row per reached node, without the origin and without repetitions. */
  method EmitPaths(t: Tuple, from: NodeId, reached: seq<Node>, toVar: string) returns (result: seq<Tuple>)
    ensures result == ExpandPaths(t, from, reached, toVar)
  {
    result := [];
    var emitted: set<NodeId> := {};
    var i := 0;
    while i < |reached|
      invariant 0 <= i <= |reached|
      invariant forall id :: id in emitted <==> id != from && id in IdsOf(reached[..i])
      invariant result == ExpandPaths(t, from, reached[..i], toVar)
    {
      hide BindNode, IdsOf, ExpandPaths;
      var n := reached[i];
      ExpandPathsMore(t, from, reached, toVar, i);
      IdsOfMore(reached, i);
      i := i + 1;
      if n.id == from || n.id in emitted {
        continue;
      }
      emitted := emitted + {n.id};
      if AlreadyBound(t, toVar, n.id) {
        continue;
      }
      result := result + [BindNode(t, toVar, n)];
    }
    assert reached[..i] == reached;
  }

  lemma ExpandHopsMore(t: Tuple, hops: seq<Hop>, edgeVar: Option<string>, toVar: string, i: nat)
    requires i < |hops|
    ensures ExpandHops(t, hops[..i + 1], edgeVar, toVar) ==
      ExpandHops(t, hops[..i], edgeVar, toVar) +
      if AlreadyBound(t, toVar, hops[i].node.id) then [] else [BindEdge(BindNode(t, toVar, hops[i].node), edgeVar, hops[i].edge)]
  {
    hide BindNode, BindEdge, AlreadyBound;
    assert hops[..i + 1][..i] == hops[..i];
  }

  method EmitHops(t: Tuple, hops: seq<Hop>, edgeVar: Option<string>, toVar: string) returns (result: seq<Tuple>)
    ensures result == ExpandHops(t, hops, edgeVar, toVar)
  {
    hide ExpandHops, BindNode, BindEdge, AlreadyBound;
    result := [];
    NoHops(t, edgeVar, toVar);
    var i := 0;
    while i < |hops|
      invariant 0 <= i <= |hops|
      invariant result == ExpandHops(t, hops[..i], edgeVar, toVar)
    {
      ExpandHopsMore(t, hops, edgeVar, toVar, i);
      var h := hops[i];
      i := i + 1;
      if AlreadyBound(t, toVar, h.node.id) {
        continue;
      }
      result := result + [BindEdge(BindNode(t, toVar, h.node), edgeVar, h.edge)];
    }
    assert hops[..i] == hops;
  }

  lemma NoHops(t: Tuple, edgeVar: Option<string>, toVar: string)
    ensures ExpandHops(t, [], edgeVar, toVar) == []
  {
  }

  method ExpandAll(store: InMemoryGraphStore, ts: seq<Tuple>, x: Expansion) returns (result: seq<Tuple>)
    ensures result == ExpandRows(ts, x, store.State())
  {
    result := [];
    var i := 0;
    while i < |ts|
      invariant 0 <= i <= |ts|
      invariant result == ExpandRows(ts[..i], x, store.State())
    {
      hide Traverse, Successors, ExpandPaths, ExpandHops, PathTypes, HopTypes;
      assert ts[..i + 1][..i] == ts[..i];
      var t := ts[i];
      i := i + 1;
      if x.fromVar in t && t[x.fromVar].NodeRef? {
        var from := t[x.fromVar].id;
        var rows;
        if x.depth.Some? {
          var types := PathTypes(x.edgeType);
          var reached := TraverseVariableLength(store, from, types, x.direction, x.depth.value.min, x.depth.value.max);
          rows := EmitPaths(t, from, reached, x.toVar);
        } else {
          var types := HopTypes(x.edgeType);
          var hops := CollectHops(store, from, types, x.direction);
          rows := EmitHops(t, hops, x.edgeVar, x.toVar);
        }
        result := result + rows;
      }
    }
    assert ts[..i] == ts;
  }

  /** CREATE for one row: nodes and edges are added in pattern order until one fails. */
  method CreateFor(store: InMemoryGraphStore, ps: seq<Pattern>, parent: Tuple) returns (r: Result<Tuple>)
    requires store.Valid()
    modifies store
    ensures store.Valid() && Outcome(store.State(), r) == CreateRow(ps, parent, old(store.State()))
  {
    var created: map<string, NodeId> := map[];
    var row := parent;
    for i := 0 to |ps|
      invariant store.Valid()
      invariant CreatePrefix(ps, i, parent, old(store.State())) == Outcome(store.State(), Ok(Scope(created, row)))
    {
      hide LiteralProps, AddNode, AddEdge;
      match ps[i] {
        case NodePat(n) =>
          var id := store.AddNode(n.labels, LiteralProps(n.properties));
          if n.variable.Some? {
            created, row := created[n.variable.value := id], row[n.variable.value := NodeRef(id)];
          }
        case EdgePat(e) =>
          var from, to := Resolve(e.fromNode, created, parent), Resolve(e.toNode, created, parent);
          if from.None? || to.None? || e.edgeType.None? {
            r := Err(InvalidArgument(if from.None? || to.None? then "undefined variable" else "edge must have type"));
            Failed(ps, i + 1, |ps|, parent, old(store.State()));
            return;
          }
          var id := store.AddEdge(from.value, to.value, e.edgeType.value, LiteralProps(e.properties));
          if e.variable.Some? {
            row := row[e.variable.value := Int(id)];
          }
      }
    }
    r := Ok(row);
  }

  lemma FailedStep(ps: seq<Pattern>, n: nat, parent: Tuple, g: Graph)
    requires n < |ps| && CreatePrefix(ps, n, parent, g).result.Err?
    ensures CreatePrefix(ps, n + 1, parent, g) == CreatePrefix(ps, n, parent, g)
  {
    hide LiteralProps, AddNode, AddEdge, Resolve;
  }

  lemma {:induction false} Failed(ps: seq<Pattern>, i: nat, n: nat, parent: Tuple, g: Graph)
    requires i <= n <= |ps| && CreatePrefix(ps, i, parent, g).result.Err?
    ensures CreatePrefix(ps, n, parent, g) == CreatePrefix(ps, i, parent, g)
  {
    hide CreatePrefix;
    if i < n {
      Failed(ps, i, n - 1, parent, g);
      FailedStep(ps, n - 1, parent, g);
    }
  }

  method CreateForAll(store: InMemoryGraphStore, ps: seq<Pattern>, rows: seq<Tuple>) returns (r: Result<seq<Tuple>>)
    requires store.Valid()
    modifies store
    ensures store.Valid() && Outcome(store.State(), r) == CreateRows(ps, rows, old(store.State()))
  {
    var all := [];
    for i := 0 to |rows|
      invariant store.Valid()
      invariant CreateRows(ps, rows[..i], old(store.State())) == Outcome(store.State(), Ok(all))
    {
      assert rows[..i + 1][..i] == rows[..i];
      var created := CreateFor(store, ps, rows[i]);
      if created.Err? {
        FailedRow(ps, rows, i + 1, old(store.State()));
        return Err(created.error);
      }
      all := all + [created.value];
    }
    assert rows[..|rows|] == rows;
    r := Ok(all);
  }

  lemma {:induction false} FailedRow(ps: seq<Pattern>, rows: seq<Tuple>, i: nat, g: Graph)
    requires i <= |rows| && CreateRows(ps, rows[..i], g).result.Err?
    ensures CreateRows(ps, rows, g) == CreateRows(ps, rows[..i], g)
    decreases |rows|
  {
    if i < |rows| {
      assert rows[..|rows| - 1][..i] == rows[..i];
      FailedRow(ps, rows[..|rows| - 1], i, g);
    } else {
      assert rows[..i] == rows;
    }
  }

  // ---------- plans ----------

  /** Reading plans. `canRead` tells whether EXISTS may look at the store, `picks` how hash maps of groups are
      visited. */
  method Read(store: InMemoryGraphStore, p: PlanNode, parent: Tuple, params: map<string, Value>, canRead: bool, picks: seq<nat>)
    returns (r: Result<seq<Tuple>>)
    requires store.Valid()
    ensures r == Rows(p, parent, Ctx(store.State(), store.order, params, canRead, picks))
    decreases p
  {
    hide ScanRows, NodesOf, ScanByLabel, FilterRows, ProjectRows, KeyedRows, ExpandRows, Product, Sort, Eval, PlanDepth;
    var c := Ctx(store.State(), store.order, params, canRead, picks);
    match p {
      case LabelScan(v, l) =>
        var nodes := store.FindByLabel(l);
        return Ok(ScanRows(parent, v, nodes, Some(l), c.g));
      case FullScan(v) =>
        var nodes := store.ScanAll();
        return Ok(ScanRows(parent, v, nodes, None, c.g));
      case Create(_) =>
        return Err(InvalidArgument("CREATE requires a write-capable store"));
      case MatchCreate(m, _) =>
        var rows := Read(store, m, parent, params, canRead, picks);
        return Err(if rows.Err? then rows.error else InvalidArgument("CREATE requires a write-capable store"));
      case Filter(input, e) =>
        var rows :- Read(store, input, parent, params, canRead, picks);
        return Ok(FilterRows(rows, e, c));
      case Project(input, items) =>
        var rows :- Read(store, input, parent, params, canRead, picks);
        return Ok(ProjectRows(rows, items, c));
      case OrderBy(input, items) =>
        var rows :- Read(store, input, parent, params, canRead, picks);
        return Ok(Ordering.RowsOf(Sort(KeyedRows(rows, items, c), Ordering.ByKeys(Descending(items)))));
      case Aggregation(input, keys, aggregates) =>
        var rows :- Read(store, input, parent, params, canRead, picks);
        r := Grouping.AggregateAll(rows, keys, aggregates, c);
      case Limit(input, count) =>
        var rows :- Read(store, input, parent, params, canRead, picks);
        return Ok(if count < |rows| then rows[..count] else rows);
      case Expand(input, fromVar, edgeVar, toVar, edgeType, direction, depth) =>
        var rows :- Read(store, input, parent, params, canRead, picks);
        var expanded := ExpandAll(store, rows, Expansion(fromVar, edgeVar, toVar, edgeType, direction, depth));
        return Ok(expanded);
      case CartesianProduct(left, right) =>
        var ls :- Read(store, left, parent, params, canRead, picks);
        var rs :- Read(store, right, parent, params, canRead, picks);
        var rows := CombineRows(ls, rs);
        return Ok(rows);
    }
  }

  /** Plans of queries with CREATE. */
  method Write(store: InMemoryGraphStore, p: PlanNode, parent: Tuple, params: map<string, Value>, picks: seq<nat>)
    returns (r: Result<seq<Tuple>>)
    requires store.Valid()
    modifies store
    ensures store.Valid()
    ensures Outcome(store.State(), r) == Execute(p, parent, Ctx(old(store.State()), old(store.order), params, false, picks))
    decreases p
  {
    hide Rows, FilterRows, ProjectRows, KeyedRows, Sort, CreateRow, CreateRows;
    var c := Ctx(store.State(), store.order, params, false, picks);
    match p {
      case Create(ps) =>
        var row :- CreateFor(store, ps, parent);
        return Ok([row]);
      case MatchCreate(m, ps) =>
        var rows :- Read(store, m, parent, params, false, picks);
        r := CreateForAll(store, ps, rows);
      case Filter(input, e) =>
        var rows :- Write(store, input, parent, params, picks);
        return Ok(FilterRows(rows, e, c));
      case Project(input, items) =>
        var rows :- Write(store, input, parent, params, picks);
        return Ok(ProjectRows(rows, items, c));
      case OrderBy(input, items) =>
        var rows :- Write(store, input, parent, params, picks);
        return Ok(Ordering.RowsOf(Sort(KeyedRows(rows, items, c), Ordering.ByKeys(Descending(items)))));
      case Limit(input, count) =>
        var rows :- Write(store, input, parent, params, picks);
        return Ok(if count < |rows| then rows[..count] else rows);
      case Aggregation(input, keys, aggregates) =>
        var rows :- Write(store, input, parent, params, picks);
        r := Grouping.AggregateAll(rows, keys, aggregates, c);
      case _ =>
        r := Read(store, p, parent, params, false, picks);
    }
  }
}
