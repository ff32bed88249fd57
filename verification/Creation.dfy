/** CREATE and MATCH .. CREATE: how patterns turn into new nodes and edges, row by row. */
module Creation {
  import opened Prelude
  import opened Values
  import opened Ast
  import opened GraphStore
  import opened Planner
  import opened Semantics
  import Aggregates
  import opened Chains
  import opened StableSort
  import Ordering

  /** The store after an operation, and its result: a failed operation may have changed the store. */
  datatype Outcome<+T> = Outcome(g: Graph, result: Result<T>)

  /** Nodes created so far by variable, and the row under construction. */
  datatype Scope = Scope(created: map<string, NodeId>, row: Tuple)

  /** The node an edge pattern's endpoint refers to: one created before it, else one the row holds. */
  function Resolve(p: NodePattern, created: map<string, NodeId>, parent: Tuple): Option<NodeId> {
    if p.variable.None? then None
    else if p.variable.value in created then Some(created[p.variable.value])
    else if p.variable.value in parent && parent[p.variable.value].NodeRef? then Some(parent[p.variable.value].id)
    else None
  }

  function CreateNode(p: NodePattern, g: Graph, s: Scope): Outcome<Scope> {
    Outcome(AddNode(g, p.labels, LiteralProps(p.properties)),
            Ok(if p.variable.None? then s
               else Scope(s.created[p.variable.value := g.nextNode], s.row[p.variable.value := NodeRef(g.nextNode)])))
  }

  function CreateEdge(e: EdgePattern, parent: Tuple, g: Graph, s: Scope): Outcome<Scope> {
    var from, to := Resolve(e.fromNode, s.created, parent), Resolve(e.toNode, s.created, parent);
    if from.None? || to.None? then Outcome(g, Err(InvalidArgument("undefined variable")))
    else if e.edgeType.None? then Outcome(g, Err(InvalidArgument("edge must have type")))
    else
      Outcome(AddEdge(g, from.value, to.value, e.edgeType.value, LiteralProps(e.properties)),
              Ok(if e.variable.None? then s else s.(row := s.row[e.variable.value := Int(g.nextEdge)])))
  }

  function CreatePattern(p: Pattern, parent: Tuple, g: Graph, s: Scope): Outcome<Scope> {
    match p
    case NodePat(n) => CreateNode(n, g, s)
    case EdgePat(e) => CreateEdge(e, parent, g, s)
  }

  /** The first `n` patterns, stopping at the first failure without undoing what went before. */
  function CreatePrefix(ps: seq<Pattern>, n: nat, parent: Tuple, g: Graph): Outcome<Scope>
    requires n <= |ps|
  {
    if n == 0 then Outcome(g, Ok(Scope(map[], parent)))
    else
      var o := CreatePrefix(ps, n - 1, parent, g);
      if o.result.Err? then o else CreatePattern(ps[n - 1], parent, o.g, o.result.value)
  }

  function CreateRow(ps: seq<Pattern>, parent: Tuple, g: Graph): Outcome<Tuple> {
    var o := CreatePrefix(ps, |ps|, parent, g);
    Outcome(o.g, if o.result.Ok? then Ok(o.result.value.row) else Err(o.result.error))
  }

  /** CREATE for each row of `rows` in turn. */
  function CreateRows(ps: seq<Pattern>, rows: seq<Tuple>, g: Graph): Outcome<seq<Tuple>> {
    if rows == [] then Outcome(g, Ok([]))
    else
      var o := CreateRows(ps, rows[..|rows| - 1], g);
      if o.result.Err? then o
      else
        var last := CreateRow(ps, rows[|rows| - 1], o.g);
        Outcome(last.g, if last.result.Ok? then Ok(o.result.value + [last.result.value]) else Err(last.result.error))
  }

  /** What an aggregation makes of rows. */
  function AggregatedRows(ts: seq<Tuple>, keys: seq<Expr>, aggregates: seq<(string, Expr)>, c: Ctx): Result<seq<Tuple>> {
    Aggregates.AggregateRows(keys, aggregates, EvalTable(ts, keys, c), EvalTable(ts, ArgumentsOf(aggregates), c), c.picks)
  }

  /** Executing a plan with a write handle. The planner puts writing nodes only under filters,
      projections, aggregations, sorting and limits; EXISTS sees no store here. */
  function Execute(p: PlanNode, parent: Tuple, c: Ctx): Outcome<seq<Tuple>> {
    match p
    case Create(ps) =>
      var o := CreateRow(ps, parent, c.g);
      Outcome(o.g, if o.result.Ok? then Ok([o.result.value]) else Err(o.result.error))
    case MatchCreate(m, ps) =>
      var rows := Rows(m, parent, c);
      if rows.Err? then Outcome(c.g, Err(rows.error)) else CreateRows(ps, rows.value, c.g)
    case Filter(input, e) =>
      var o := Execute(input, parent, c);
      o.(result := if o.result.Err? then o.result else Ok(FilterRows(o.result.value, e, c)))
    case Project(input, items) =>
      var o := Execute(input, parent, c);
      o.(result := if o.result.Err? then o.result else Ok(ProjectRows(o.result.value, items, c)))
    case OrderBy(input, items) =>
      var o := Execute(input, parent, c);
      o.(result := if o.result.Err? then o.result
                   else Ok(Ordering.RowsOf(Sort(KeyedRows(o.result.value, items, c), Ordering.ByKeys(Descending(items))))))
    case Limit(input, count) =>
      var o := Execute(input, parent, c);
      o.(result := if o.result.Err? then o.result
                   else Ok(if count < |o.result.value| then o.result.value[..count] else o.result.value))
    case Aggregation(input, keys, aggregates) =>
      var o := Execute(input, parent, c);
      o.(result := if o.result.Err? then o.result else AggregatedRows(o.result.value, keys, aggregates, c))
    case _ => Outcome(c.g, Rows(p, parent, c))
  }

  // ---------- when CREATE succeeds ----------

  function CreatedVars(ps: seq<Pattern>, n: nat): set<string>
    requires n <= |ps|
  {
    if n == 0 then {}
    else CreatedVars(ps, n - 1) +
         if ps[n - 1].NodePat? && ps[n - 1].node.variable.Some? then {ps[n - 1].node.variable.value} else {}
  }

  predicate InScope(p: NodePattern, vars: set<string>, parent: Tuple) {
    p.variable.Some? &&
    (p.variable.value in vars || (p.variable.value in parent && parent[p.variable.value].NodeRef?))
  }

  /** A node pattern, or an edge pattern with a type and with endpoints created before it or held by
      the row. */
  predicate ScopedAt(ps: seq<Pattern>, i: nat, parent: Tuple)
    requires i < |ps|
  {
    ps[i].EdgePat? ==>
      && ps[i].edge.edgeType.Some?
      && InScope(ps[i].edge.fromNode, CreatedVars(ps, i), parent)
      && InScope(ps[i].edge.toNode, CreatedVars(ps, i), parent)
  }

  predicate WellScoped(ps: seq<Pattern>, n: nat, parent: Tuple)
    requires n <= |ps|
  {
    forall i :: 0 <= i < n ==> ScopedAt(ps, i, parent)
  }

  lemma {:induction false} CreatedKeys(ps: seq<Pattern>, n: nat, parent: Tuple, g: Graph)
    requires n <= |ps| && CreatePrefix(ps, n, parent, g).result.Ok?
    ensures CreatePrefix(ps, n, parent, g).result.value.created.Keys == CreatedVars(ps, n)
    decreases n
  {
    if n > 0 {
      CreatedKeys(ps, n - 1, parent, g);
    }
  }

  lemma PatternSucceeds(ps: seq<Pattern>, i: nat, parent: Tuple, g: Graph, s: Scope)
    requires i < |ps| && s.created.Keys == CreatedVars(ps, i)
    ensures CreatePattern(ps[i], parent, g, s).result.Ok? <==> ScopedAt(ps, i, parent)
  {
    hide AddNode, AddEdge, LiteralProps, CreatedVars;
  }

  /** CREATE on a row succeeds exactly when its patterns are well scoped. */
  lemma {:induction false} CreateSucceeds(ps: seq<Pattern>, n: nat, parent: Tuple, g: Graph)
    requires n <= |ps|
    ensures CreatePrefix(ps, n, parent, g).result.Ok? <==> WellScoped(ps, n, parent)
    decreases n
  {
    hide CreatePattern, ScopedAt, CreatedVars;
    if n > 0 {
      CreateSucceeds(ps, n - 1, parent, g);
      var o := CreatePrefix(ps, n - 1, parent, g);
      if o.result.Ok? {
        CreatedKeys(ps, n - 1, parent, g);
        PatternSucceeds(ps, n - 1, parent, o.g, o.result.value);
      }
      assert WellScoped(ps, n, parent) <==> WellScoped(ps, n - 1, parent) && ScopedAt(ps, n - 1, parent);
    }
  }

  // ---------- what CREATE adds ----------

  function NodePatterns(ps: seq<Pattern>, n: nat): (r: nat)
    requires n <= |ps|
    ensures r <= n
  {
    if n == 0 then 0 else NodePatterns(ps, n - 1) + if ps[n - 1].NodePat? then 1 else 0
  }

  function EdgePatterns(ps: seq<Pattern>, n: nat): nat
    requires n <= |ps|
  {
    n - NodePatterns(ps, n)
  }

  /** Everything stored in `g` is stored unchanged in `h`. */
  ghost predicate Kept(g: Graph, h: Graph) {
    && (forall id :: id in g.nodes ==> id in h.nodes && h.nodes[id] == g.nodes[id])
    && (forall id :: id in g.edges ==> id in h.edges && h.edges[id] == g.edges[id])
  }

  /** `h` is `g` with `dn` more nodes and `de` more edges. */
  ghost predicate Grown(g: Graph, h: Graph, dn: nat, de: nat) {
    WellFormed(h) && Kept(g, h) && |h.nodes| == |g.nodes| + dn && |h.edges| == |g.edges| + de
  }

  lemma InsertCount<K, V>(m: map<K, V>, k: K, v: V)
    requires k !in m
    ensures |m[k := v]| == |m| + 1
  {
    assert m[k := v].Keys == m.Keys + {k};
  }

  lemma AddNodeGrows(g: Graph, labels: seq<string>, properties: map<string, Value>)
    requires WellFormed(g)
    ensures Grown(g, AddNode(g, labels, properties), 1, 0)
  {
    hide LabelsAgree, AdjacencyAgrees, PushAll;
    AddNodeKeepsInvariant(g, labels, properties);
    InsertCount(g.nodes, g.nextNode, Node(g.nextNode, labels, properties));
  }

  lemma AddEdgeGrows(g: Graph, source: NodeId, target: NodeId, edgeType: string, properties: map<string, Value>)
    requires WellFormed(g)
    ensures Grown(g, AddEdge(g, source, target, edgeType, properties), 0, 1)
  {
    hide LabelsAgree, AdjacencyAgrees, Push;
    AddEdgeKeepsInvariant(g, source, target, edgeType, properties);
    InsertCount(g.edges, g.nextEdge, Edge(g.nextEdge, source, target, edgeType, properties));
  }

  lemma CreatePatternGrows(p: Pattern, parent: Tuple, g: Graph, s: Scope)
    requires WellFormed(g)
    ensures var o := CreatePattern(p, parent, g, s);
      if o.result.Ok? then Grown(g, o.g, if p.NodePat? then 1 else 0, if p.EdgePat? then 1 else 0) else o.g == g
  {
    hide WellFormed, Grown, AddNode, AddEdge, LiteralProps;
    match p
    case NodePat(n) =>
      AddNodeGrows(g, n.labels, LiteralProps(n.properties));
    case EdgePat(e) =>
      var from, to := Resolve(e.fromNode, s.created, parent), Resolve(e.toNode, s.created, parent);
      if from.Some? && to.Some? && e.edgeType.Some? {
        AddEdgeGrows(g, from.value, to.value, e.edgeType.value, LiteralProps(e.properties));
      }
  }

  lemma GrownTransitive(g: Graph, h: Graph, k: Graph, dn: nat, de: nat, dn': nat, de': nat)
    requires Grown(g, h, dn, de) && Grown(h, k, dn', de')
    ensures Grown(g, k, dn + dn', de + de')
  {
    hide WellFormed;
  }

  /** After `n` patterns the store has grown by one element per pattern; after a failure, by one element
      per pattern before the failing one. */
  lemma {:induction false} CreatePrefixGrows(ps: seq<Pattern>, n: nat, parent: Tuple, g: Graph) returns (done: nat)
    requires WellFormed(g) && n <= |ps|
    ensures done <= n && (CreatePrefix(ps, n, parent, g).result.Ok? ==> done == n)
    ensures CreatePrefix(ps, n, parent, g).result.Err? ==> done < n && ps[done].EdgePat?
    ensures Grown(g, CreatePrefix(ps, n, parent, g).g, NodePatterns(ps, done), EdgePatterns(ps, done))
    decreases n
  {
    hide WellFormed, CreatePattern, Kept;
    if n == 0 {
      done := 0;
      GrownSelf(g);
    } else {
      done := CreatePrefixGrows(ps, n - 1, parent, g);
      var o := CreatePrefix(ps, n - 1, parent, g);
      if o.result.Ok? {
        CreatePatternGrows(ps[n - 1], parent, o.g, o.result.value);
        var last := CreatePattern(ps[n - 1], parent, o.g, o.result.value);
        if last.result.Ok? {
          done := n;
          GrownTransitive(g, o.g, last.g, NodePatterns(ps, n - 1), EdgePatterns(ps, n - 1),
                          if ps[n - 1].NodePat? then 1 else 0, if ps[n - 1].EdgePat? then 1 else 0);
        } else {
          NodesNeverFail(ps[n - 1], parent, o.g, o.result.value);
        }
      }
    }
  }

  lemma GrownSelf(g: Graph)
    requires WellFormed(g)
    ensures Grown(g, g, 0, 0)
  {
  }

  lemma NodesNeverFail(p: Pattern, parent: Tuple, g: Graph, s: Scope)
    ensures CreatePattern(p, parent, g, s).result.Err? ==> p.EdgePat?
  {
  }

  /** CREATE on a row is not atomic: a failed CREATE leaves the store unchanged exactly when its very
      first pattern is the one that fails. */
  lemma FailureLeavesStore(ps: seq<Pattern>, parent: Tuple, g: Graph)
    requires WellFormed(g) && CreateRow(ps, parent, g).result.Err?
    ensures CreateRow(ps, parent, g).g == g <==> !WellScoped(ps, 1, parent)
  {
    CreateSucceeds(ps, 1, parent, g);
    FailsAt(ps, |ps|, parent, g);
  }

  /** Once the first pattern has succeeded, the store has grown for good. */
  lemma {:induction false} FailsAt(ps: seq<Pattern>, n: nat, parent: Tuple, g: Graph)
    requires WellFormed(g) && 1 <= n <= |ps|
    ensures CreatePrefix(ps, 1, parent, g).result.Err? ==> CreatePrefix(ps, n, parent, g) == CreatePrefix(ps, 1, parent, g)
    ensures CreatePrefix(ps, 1, parent, g).result.Err? ==> CreatePrefix(ps, n, parent, g).g == g
    ensures CreatePrefix(ps, 1, parent, g).result.Ok? ==>
      |CreatePrefix(ps, n, parent, g).g.nodes| + |CreatePrefix(ps, n, parent, g).g.edges| > |g.nodes| + |g.edges|
    decreases n
  {
    hide WellFormed, CreatePattern, CreatePrefix, Kept;
    NextPrefix(ps, n - 1, parent, g);
    var o := CreatePrefix(ps, n - 1, parent, g);
    if n > 1 {
      FailsAt(ps, n - 1, parent, g);
    } else {
      NoPrefix(ps, parent, g);
    }
    if o.result.Ok? {
      var _ := CreatePrefixGrows(ps, n - 1, parent, g);
      CreatePatternGrows(ps[n - 1], parent, o.g, o.result.value);
    }
  }

  lemma NoPrefix(ps: seq<Pattern>, parent: Tuple, g: Graph)
    ensures CreatePrefix(ps, 0, parent, g) == Outcome(g, Ok(Scope(map[], parent)))
  {
  }

  lemma NextPrefix(ps: seq<Pattern>, n: nat, parent: Tuple, g: Graph)
    requires n < |ps|
    ensures var o := CreatePrefix(ps, n, parent, g);
      CreatePrefix(ps, n + 1, parent, g) == if o.result.Err? then o else CreatePattern(ps[n], parent, o.g, o.result.value)
  {
    hide CreatePattern;
  }

  // ---------- no dangling edges ----------

  ghost predicate NoDangling(g: Graph) {
    forall id :: id in g.edges ==> g.edges[id].source in g.nodes && g.edges[id].target in g.nodes
  }

  /** The nodes that variables of the row refer to are stored. */
  ghost predicate Grounded(t: Tuple, g: Graph) {
    forall v :: v in t && Dotless(v) && t[v].NodeRef? ==> t[v].id in g.nodes
  }

  predicate NamesOk(p: Pattern) {
    p.EdgePat? ==>
      && (p.edge.fromNode.variable.Some? ==> Dotless(p.edge.fromNode.variable.value))
      && (p.edge.toNode.variable.Some? ==> Dotless(p.edge.toNode.variable.value))
  }

  ghost predicate ScopeStored(s: Scope, g: Graph) {
    forall v :: v in s.created ==> s.created[v] in g.nodes
  }

  lemma CreatePatternGrounds(p: Pattern, parent: Tuple, g: Graph, s: Scope)
    requires NoDangling(g) && Grounded(parent, g) && ScopeStored(s, g) && NamesOk(p)
    ensures var o := CreatePattern(p, parent, g, s);
      NoDangling(o.g) && Grounded(parent, o.g) && (o.result.Ok? ==> ScopeStored(o.result.value, o.g))
  {
    hide LiteralProps, PushAll;
  }

  lemma {:induction false} CreatePrefixGrounds(ps: seq<Pattern>, n: nat, parent: Tuple, g: Graph)
    requires n <= |ps| && NoDangling(g) && Grounded(parent, g) && forall i :: 0 <= i < |ps| ==> NamesOk(ps[i])
    ensures var o := CreatePrefix(ps, n, parent, g);
      NoDangling(o.g) && Grounded(parent, o.g) && (o.result.Ok? ==> ScopeStored(o.result.value, o.g))
    decreases n
  {
    hide NoDangling, Grounded, CreatePattern, NamesOk;
    if n > 0 {
      CreatePrefixGrounds(ps, n - 1, parent, g);
      var o := CreatePrefix(ps, n - 1, parent, g);
      if o.result.Ok? {
        CreatePatternGrounds(ps[n - 1], parent, o.g, o.result.value);
      }
    }
  }

  // ---------- CREATE for every matched row ----------

  lemma GroundedLater(t: Tuple, g: Graph, h: Graph)
    requires Grounded(t, g) && Kept(g, h)
    ensures Grounded(t, h)
  {
  }

  /** On success every row adds one node per node pattern and one edge per edge pattern. */
  lemma {:induction false} CreateRowsGrows(ps: seq<Pattern>, rows: seq<Tuple>, g: Graph)
    requires WellFormed(g)
    ensures var o := CreateRows(ps, rows, g);
      && WellFormed(o.g) && Kept(g, o.g)
      && (o.result.Ok? ==> |o.result.value| == |rows|
                           && Grown(g, o.g, |rows| * NodePatterns(ps, |ps|), |rows| * EdgePatterns(ps, |ps|)))
    decreases |rows|
  {
    hide WellFormed, Kept, CreatePrefix;
    if rows == [] {
      GrownSelf(g);
    } else {
      var n := |rows| - 1;
      CreateRowsGrows(ps, rows[..n], g);
      var o := CreateRows(ps, rows[..n], g);
      if o.result.Ok? {
        var done := CreatePrefixGrows(ps, |ps|, rows[n], o.g);
        var last := CreateRow(ps, rows[n], o.g);
        GrownTransitive(g, o.g, last.g, n * NodePatterns(ps, |ps|), n * EdgePatterns(ps, |ps|),
                        NodePatterns(ps, done), EdgePatterns(ps, done));
        if last.result.Ok? {
          OneMore(n, NodePatterns(ps, |ps|));
          OneMore(n, EdgePatterns(ps, |ps|));
        }
      }
    }
  }

  lemma OneMore(n: nat, x: nat)
    ensures n * x + x == (n + 1) * x
  {
  }

  lemma {:induction false} CreateRowsGrounds(ps: seq<Pattern>, rows: seq<Tuple>, g: Graph)
    requires WellFormed(g) && NoDangling(g) && forall i :: 0 <= i < |ps| ==> NamesOk(ps[i])
    requires forall i :: 0 <= i < |rows| ==> Grounded(rows[i], g)
    ensures NoDangling(CreateRows(ps, rows, g).g)
    decreases |rows|
  {
    hide WellFormed, Kept, CreatePrefix, NoDangling, Grounded, NamesOk;
    if rows != [] {
      var n := |rows| - 1;
      CreateRowsGrounds(ps, rows[..n], g);
      CreateRowsGrows(ps, rows[..n], g);
      var o := CreateRows(ps, rows[..n], g);
      GroundedLater(rows[n], g, o.g);
      if o.result.Ok? {
        CreatePrefixGrounds(ps, |ps|, rows[n], o.g);
      }
    }
  }

  /** MATCH .. CREATE succeeds exactly when the patterns are well scoped under every matched row. */
  lemma {:induction false} CreateRowsSucceeds(ps: seq<Pattern>, rows: seq<Tuple>, g: Graph)
    ensures CreateRows(ps, rows, g).result.Ok? <==> forall i :: 0 <= i < |rows| ==> WellScoped(ps, |ps|, rows[i])
    decreases |rows|
  {
    hide WellScoped, CreatePrefix;
    if rows != [] {
      var n := |rows| - 1;
      CreateRowsSucceeds(ps, rows[..n], g);
      CreateSucceeds(ps, |ps|, rows[n], CreateRows(ps, rows[..n], g).g);
      if forall i :: 0 <= i < n ==> WellScoped(ps, |ps|, rows[..n][i]) {
        assert forall i :: 0 <= i < n ==> rows[i] == rows[..n][i];
      }
    }
  }
}
