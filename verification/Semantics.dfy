/** What expressions evaluate to and what rows a plan produces, over a store that does not change
    meanwhile. */
module Semantics {
  import opened Prelude
  import opened Values
  import opened Ast
  import opened Text
  import opened GraphStore
  import opened Traversal
  import opened Planner
  import opened StableSort
  import Ordering
  import Aggregates

  /** The store, the iteration order of its node map, the query parameters, whether the executor holds a
      read handle (a query with CREATE holds only a write handle, and EXISTS then finds nothing), and how a
      hash map of groups is visited. */
  datatype Ctx = Ctx(g: Graph, order: seq<NodeId>, params: map<string, Value>, canRead: bool, picks: seq<nat>)

  // ---------- nesting depth of EXISTS ----------

  function ExprDepth(e: Expr): nat
    decreases e
  {
    match e
    case BinaryOp(l, _, r) => Prelude.Max(ExprDepth(l), ExprDepth(r))
    case Not(x) => ExprDepth(x)
    case Aggregate(_, x) => ExprDepth(x)
    case FunctionCall(_, args) => ArgsDepth(args)
    case IsNull(x) => ExprDepth(x)
    case IsNotNull(x) => ExprDepth(x)
    case Exists(q) => 1 + QueryDepth(q)
    case _ => 0
  }

  function ArgsDepth(es: seq<Expr>): nat
    decreases es
  {
    if es == [] then 0 else Prelude.Max(ExprDepth(es[0]), ArgsDepth(es[1..]))
  }

  function ItemsDepth(items: seq<ReturnItem>): nat
    decreases items
  {
    if items == [] then 0 else Prelude.Max(ItemDepth(items[0]), ItemsDepth(items[1..]))
  }

  function ItemDepth(item: ReturnItem): nat
    decreases item
  {
    ExprDepth(item.expr)
  }

  function WithDepth(items: seq<WithItem>): nat
    decreases items
  {
    if items == [] then 0 else Prelude.Max(ExprDepth(items[0].expr), WithDepth(items[1..]))
  }

  function KeysDepth(items: seq<OrderByItem>): nat
    decreases items
  {
    if items == [] then 0 else Prelude.Max(KeyDepth(items[0]), KeysDepth(items[1..]))
  }

  function KeyDepth(item: OrderByItem): nat
    decreases item
  {
    ExprDepth(item.expr)
  }

  function QueryDepth(q: Query): nat
    decreases q
  {
    Prelude.Max(
      Prelude.Max(if q.withClause.Some? then WithDepth(q.withClause.value.items) else 0,
                  if q.whereClause.Some? then ExprDepth(q.whereClause.value) else 0),
      Prelude.Max(if q.returnClause.Some? then ItemsDepth(q.returnClause.value.items) else 0,
                  if q.orderBy.Some? then KeysDepth(q.orderBy.value.items) else 0))
  }

  /** What an aggregate is taken of; anything else that stands for an aggregate has no argument. */
  function ArgumentOf(e: Expr): Expr {
    if e.Aggregate? then e.arg else Lit(LitNull)
  }

  function ArgumentsOf(aggregates: seq<(string, Expr)>): (es: seq<Expr>)
    ensures |es| == |aggregates|
  {
    if aggregates == [] then [] else [ArgumentOf(aggregates[0].1)] + ArgumentsOf(aggregates[1..])
  }

  function PlanDepth(p: PlanNode): nat {
    match p
    case LabelScan(_, _) => 0
    case FullScan(_) => 0
    case Create(_) => 0
    case MatchCreate(m, _) => PlanDepth(m)
    case Filter(input, e) => Prelude.Max(PlanDepth(input), ExprDepth(e))
    case Project(input, items) => Prelude.Max(PlanDepth(input), ItemsDepth(items))
    case OrderBy(input, keys) => Prelude.Max(PlanDepth(input), KeysDepth(keys))
    case Aggregation(input, keys, aggregates) =>
      Prelude.Max(PlanDepth(input), Prelude.Max(ArgsDepth(keys), ArgsDepth(ArgumentsOf(aggregates))))
    case Limit(input, _) => PlanDepth(input)
    case Expand(input, _, _, _, _, _, _) => PlanDepth(input)
    case CartesianProduct(l, r) => Prelude.Max(PlanDepth(l), PlanDepth(r))
  }

  lemma {:induction false} PropertyPredicateIsFlat(v: string, props: Properties)
    requires props != []
    ensures ExprDepth(PropertyPredicate(v, props)) == 0
  {
    var last := PropertyEquals(v, props[|props| - 1]);
    assert ExprDepth(last) == 0;
    if |props| > 1 {
      PropertyPredicateIsFlat(v, props[..|props| - 1]);
      assert ExprDepth(BinaryOp(PropertyPredicate(v, props[..|props| - 1]), And, last)) == 0;
    }
  }

  predicate Flat(e: Option<Expr>) {
    e.Some? ==> ExprDepth(e.value) == 0
  }

  lemma ConjoinIsFlat(e: Option<Expr>, v: string, props: Properties)
    requires Flat(e)
    ensures Flat(ConjoinProperties(e, v, props))
  {
    if props != [] {
      PropertyPredicateIsFlat(v, props);
    }
  }

  predicate FlatPlan(p: Option<PlanNode>) {
    p.Some? ==> PlanDepth(p.value) == 0
  }

  lemma FilterByIsFlat(p: PlanNode, e: Option<Expr>)
    requires PlanDepth(p) == 0 && Flat(e)
    ensures PlanDepth(FilterBy(p, e)) == 0
  {
  }

  lemma FilterByPropertiesIsFlat(p: PlanNode, v: string, props: Properties)
    requires PlanDepth(p) == 0
    ensures PlanDepth(FilterByProperties(p, v, props)) == 0
  {
    ConjoinIsFlat(None, v, props);
  }

  lemma NodeStepIsFlat(ps: seq<Pattern>, targets: set<string>, i: nat, st: PlanState)
    requires i < |ps| && ps[i].NodePat? && StateOk(st) && FlatPlan(st.plan)
    ensures var r := NodeStep(ps, targets, i, st); r.Ok? ==> FlatPlan(r.value.plan)
  {
    var node := ps[i].node;
    if node.variable.Some? {
      var v := node.variable.value;
      if v in st.bound {
        FilterByPropertiesIsFlat(st.plan.value, v, node.properties);
      } else {
        FilterByPropertiesIsFlat(Scan(v, node.labels), v, node.properties);
      }
    }
  }

  lemma EdgeStepIsFlat(ps: seq<Pattern>, i: nat, st: PlanState)
    requires i < |ps| && ps[i].EdgePat? && FlatPlan(st.plan)
    ensures var r := EdgeStep(ps, i, st); r.Ok? ==> FlatPlan(r.value.plan)
  {
    var e, from, to := ps[i].edge, FromVar(ps, i), ToVar(ps, i);
    if from.Ok? && to.Ok? {
      var u, v := from.value, to.value;
      var input := if st.plan.Some? then st.plan.value else Scan(u, e.fromNode.labels);
      FilterByPropertiesIsFlat(input, u, e.fromNode.properties);
      var before := ConjoinProperties(None, v, NeighbourProperties(ps, i - 1, v));
      ConjoinIsFlat(None, v, NeighbourProperties(ps, i - 1, v));
      var around := ConjoinProperties(before, v, NeighbourProperties(ps, i + 1, v));
      ConjoinIsFlat(before, v, NeighbourProperties(ps, i + 1, v));
      ConjoinIsFlat(around, u, e.fromNode.properties);
      var x := ExpandOver(input, e, u, v);
      FilterByIsFlat(x, ConjoinProperties(around, u, e.fromNode.properties));
      SeparateIsFlat(FilterBy(x, ConjoinProperties(around, u, e.fromNode.properties)), e, u, v);
    }
  }

  lemma SeparateIsFlat(p: PlanNode, e: EdgePattern, u: string, v: string)
    requires PlanDepth(p) == 0
    ensures PlanDepth(SeparateEndpoints(p, e, u, v)) == 0
  {
    EndpointsDifferIsFlat(u, v);
  }

  lemma EndpointsDifferIsFlat(u: string, v: string)
    ensures ExprDepth(EndpointsDiffer(u, v)) == 0
  {
    assert ArgsDepth([Ident(u)]) == 0;
    assert ArgsDepth([Ident(v)]) == 0;
  }

  lemma {:induction false} PlanPrefixIsFlat(ps: seq<Pattern>, targets: set<string>, i: nat)
    requires i <= |ps|
    ensures var r := PlanPrefix(ps, targets, i); r.Ok? ==> FlatPlan(r.value.plan)
  {
    if i > 0 {
      PlanPrefixIsFlat(ps, targets, i - 1);
      var st := PlanPrefix(ps, targets, i - 1);
      if st.Ok? {
        if ps[i - 1].NodePat? {
          NodeStepIsFlat(ps, targets, i - 1, st.value);
        } else {
          EdgeStepIsFlat(ps, i - 1, st.value);
        }
      }
    }
  }

  lemma {:induction false} GlobalPredicateIsFlat(ps: seq<Pattern>, i: nat)
    requires i <= |ps|
    ensures Flat(GlobalPredicate(ps, i))
  {
    if i > 0 {
      GlobalPredicateIsFlat(ps, i - 1);
      if ps[i - 1].NodePat? && ps[i - 1].node.variable.Some? {
        ConjoinIsFlat(GlobalPredicate(ps, i - 1), ps[i - 1].node.variable.value, ps[i - 1].node.properties);
      }
    }
  }

  lemma {:induction false} WithItemsDepth(items: seq<WithItem>)
    ensures ItemsDepth(WithItems(items)) == WithDepth(items)
  {
    if items != [] {
      WithItemsDepth(items[1..]);
    }
  }

  lemma PlanMatchIsFlat(ps: seq<Pattern>)
    ensures PlanMatch(ps).Ok? ==> PlanDepth(PlanMatch(ps).value) == 0
  {
    PlanPrefixIsFlat(ps, TargetVars(ps, |ps|), |ps|);
    GlobalPredicateIsFlat(ps, |ps|);
  }

  lemma PlanSourceIsFlat(q: Query)
    ensures PlanSource(q).Ok? ==> PlanDepth(PlanSource(q).value) == 0
  {
    if q.matchClause.Some? {
      PlanMatchIsFlat(q.matchClause.value);
    }
  }

  lemma PlanFiltersDepth(q: Query, source: PlanNode)
    requires PlanDepth(source) == 0
    ensures PlanDepth(PlanFilters(q, source)) <= QueryDepth(q)
  {
    if q.withClause.Some? {
      WithItemsDepth(q.withClause.value.items);
    }
  }

  lemma ArgsDepthCons(e: Expr, es: seq<Expr>)
    ensures ArgsDepth([e] + es) == Prelude.Max(ExprDepth(e), ArgsDepth(es))
  {
    hide ExprDepth;
    assert ([e] + es)[1..] == es;
  }

  lemma ArgumentsCons(x: (string, Expr), rest: seq<(string, Expr)>)
    ensures ArgumentsOf([x] + rest) == [ArgumentOf(x.1)] + ArgumentsOf(rest)
  {
    assert ([x] + rest)[1..] == rest;
  }

  lemma {:induction false} GroupKeysDepth(items: seq<ReturnItem>)
    ensures ArgsDepth(GroupKeysOf(items)) <= ItemsDepth(items)
  {
    hide ExprDepth, HasAggregate, ArgsDepth;
    if items == [] {
      NoArgs();
    } else {
      GroupKeysDepth(items[1..]);
      assert ExprDepth(items[0].expr) == ItemDepth(items[0]) <= ItemsDepth(items);
      ArgsDepthCons(items[0].expr, GroupKeysOf(items[1..]));
      assert [] + GroupKeysOf(items[1..]) == GroupKeysOf(items[1..]);
    }
  }

  lemma NoArgs()
    ensures ArgsDepth([]) == 0
  {
  }

  lemma {:induction false} ArgumentsDepth(items: seq<ReturnItem>)
    ensures ArgsDepth(ArgumentsOf(AggregatesOf(items))) <= ItemsDepth(items)
  {
    hide ExprDepth, HasAggregate, ArgsDepth, ArgumentsOf, ArgumentOf, AggregateName;
    if items == [] {
      NoArgs();
      NoArguments();
    } else {
      ArgumentsDepth(items[1..]);
      var e, rest := items[0].expr, AggregatesOf(items[1..]);
      assert ExprDepth(e) == ItemDepth(items[0]) <= ItemsDepth(items);
      ArgumentDepth(e);
      if HasAggregate(e) {
        var x := AggregatesOf(items)[0];
        assert AggregatesOf(items) == [x] + rest && x.1 == e;
        ArgumentsCons(x, rest);
        ArgsDepthCons(ArgumentOf(e), ArgumentsOf(rest));
      } else {
        assert AggregatesOf(items) == [] + rest == rest;
      }
    }
  }

  lemma NoArguments()
    ensures ArgumentsOf([]) == []
  {
  }

  lemma ArgumentDepth(e: Expr)
    ensures ExprDepth(ArgumentOf(e)) <= ExprDepth(e)
  {
  }

  lemma PlanReturnDepth(items: seq<ReturnItem>, p: PlanNode)
    ensures PlanDepth(PlanReturn(items, p)) <= Prelude.Max(PlanDepth(p), ItemsDepth(items))
  {
    hide ArgsDepth, ItemsDepth, HasAggregate, GroupKeysOf, AggregatesOf, ArgumentsOf;
    GroupKeysDepth(items);
    ArgumentsDepth(items);
    AggregationDepth(p, GroupKeysOf(items), AggregatesOf(items));
  }

  lemma AggregationDepth(p: PlanNode, keys: seq<Expr>, aggregates: seq<(string, Expr)>)
    ensures PlanDepth(Aggregation(p, keys, aggregates))
         == Prelude.Max(PlanDepth(p), Prelude.Max(ArgsDepth(keys), ArgsDepth(ArgumentsOf(aggregates))))
  {
    hide ArgsDepth, ArgumentsOf;
  }

  /** A plan nests EXISTS no deeper than the query it was made from; evaluation therefore terminates. */
  lemma PlanQueryDepth(q: Query)
    ensures PlanQuery(q).Ok? ==> PlanDepth(PlanQuery(q).value) <= QueryDepth(q)
  {
    PlanSourceIsFlat(q);
    var source := PlanSource(q);
    if source.Ok? {
      PlanFiltersDepth(q, source.value);
      var filtered := PlanFilters(q, source.value);
      if q.returnClause.Some? {
        PlanReturnDepth(q.returnClause.value.items, filtered);
      }
    }
  }

  // ---------- bindings ----------

  function PropKey(v: string, k: string): string {
    v + "." + k
  }

  function PropKeys(v: string, props: map<string, Value>): set<string> {
    set k | k in props :: PropKey(v, k)
  }

  /** The entries `v.k` for every property `k`. */
  function DotProps(v: string, props: map<string, Value>): (r: Tuple)
    ensures forall k :: k in props ==> PropKey(v, k) in r && r[PropKey(v, k)] == props[k]
    ensures r.Keys == PropKeys(v, props)
  {
    assert forall key :: key in PropKeys(v, props) ==> |v| + 1 <= |key| && key[|v| + 1..] in props by {
      forall key | key in PropKeys(v, props)
        ensures |v| + 1 <= |key| && key[|v| + 1..] in props
      {
        var k :| k in props && key == PropKey(v, k);
        assert key[|v| + 1..] == k;
      }
    }
    assert forall k :: k in props ==> PropKey(v, k)[|v| + 1..] == k;
    map key | key in PropKeys(v, props) :: props[key[|v| + 1..]]
  }

  function NodeEntries(v: string, n: Node): Tuple {
    map[v := NodeRef(n.id)] + DotProps(v, n.properties)
  }

  function BindNode(t: Tuple, v: string, n: Node): Tuple {
    t + NodeEntries(v, n)
  }

  function EdgeEntries(v: string, e: Edge): Tuple {
    map[v := Int(e.id)] + map[PropKey(v, "edge_type") := Str(e.edgeType)] + DotProps(v, e.properties)
  }

  function BindEdge(t: Tuple, v: Option<string>, e: Edge): Tuple {
    if v.None? then t else t + EdgeEntries(v.value, e)
  }

  function BindNodes(t: Tuple, v: string, nodes: seq<Node>): (r: seq<Tuple>)
    ensures |r| == |nodes|
  {
    seq(|nodes|, i requires 0 <= i < |nodes| => BindNode(t, v, nodes[i]))
  }

  /** A scan of a variable the outer row already binds looks at that one node only. */
  function ScanRows(parent: Tuple, v: string, candidates: seq<Node>, lbl: Option<string>, g: Graph): seq<Tuple> {
    if v !in parent then BindNodes(parent, v, candidates)
    else if parent[v].NodeRef? && parent[v].id in g.nodes
            && (lbl.None? || lbl.value in g.nodes[parent[v].id].labels)
    then [BindNode(parent, v, g.nodes[parent[v].id].(id := parent[v].id))]
    else []
  }

  // ---------- expansion ----------

  function HopTypes(edgeType: Option<string>): seq<string> {
    if edgeType.None? then [] else TrimAll(Split(edgeType.value, '|'))
  }

  function PathTypes(edgeType: Option<string>): seq<string> {
    NonEmpty(HopTypes(edgeType))
  }

  predicate AlreadyBound(t: Tuple, v: string, id: NodeId) {
    v in t && t[v] == NodeRef(id)
  }

  function ExpandHops(t: Tuple, hops: seq<Hop>, edgeVar: Option<string>, toVar: string): seq<Tuple> {
    if hops == [] then []
    else
      var h := hops[|hops| - 1];
      ExpandHops(t, hops[..|hops| - 1], edgeVar, toVar) +
      if AlreadyBound(t, toVar, h.node.id) then [] else [BindEdge(BindNode(t, toVar, h.node), edgeVar, h.edge)]
  }

  function IdsOf(nodes: seq<Node>): (r: seq<NodeId>)
    ensures |r| == |nodes|
  {
    seq(|nodes|, i requires 0 <= i < |nodes| => nodes[i].id)
  }

  /** One row per reached node; the origin and repetitions are skipped. */
  function ExpandPaths(t: Tuple, from: NodeId, reached: seq<Node>, toVar: string): seq<Tuple> {
    if reached == [] then []
    else
      var n, before := reached[|reached| - 1], reached[..|reached| - 1];
      ExpandPaths(t, from, before, toVar) +
      if n.id == from || n.id in IdsOf(before) || AlreadyBound(t, toVar, n.id) then [] else [BindNode(t, toVar, n)]
  }

  /** The fields of an `Expand` node apart from its input. */
  datatype Expansion = Expansion(fromVar: string, edgeVar: Option<string>, toVar: string,
                                 edgeType: Option<string>, direction: Direction, depth: Option<DepthRange>)

  function ExpandRow(t: Tuple, x: Expansion, g: Graph): seq<Tuple> {
    if x.fromVar !in t || !t[x.fromVar].NodeRef? then []
    else
      var from := t[x.fromVar].id;
      if x.depth.Some? then
        ExpandPaths(t, from,
          Traverse(g, PathTypes(x.edgeType), x.direction, Goal(from, x.depth.value.min, x.depth.value.max)), x.toVar)
      else
        ExpandHops(t, Successors(g, from, HopTypes(x.edgeType), x.direction), x.edgeVar, x.toVar)
  }

  function ExpandRows(ts: seq<Tuple>, x: Expansion, g: Graph): seq<Tuple> {
    if ts == [] then [] else ExpandRows(ts[..|ts| - 1], x, g) + ExpandRow(ts[|ts| - 1], x, g)
  }

  // ---------- products ----------

  function MergeWith(left: Tuple, right: seq<Tuple>): (r: seq<Tuple>)
    ensures |r| == |right|
  {
    seq(|right|, i requires 0 <= i < |right| => left + right[i])
  }

  function Product(left: seq<Tuple>, right: seq<Tuple>): seq<Tuple> {
    if left == [] then [] else Product(left[..|left| - 1], right) + MergeWith(left[|left| - 1], right)
  }

  // ---------- evaluation ----------

  function ColumnName(item: ReturnItem): string {
    if item.alias.Some? then item.alias.value
    else match item.expr
      case Ident(n) => n
      case Property(v, p) => PropKey(v, p)
      case _ => "?"
  }

  /** EXISTS over a bare edge pattern whose source the row binds: the pattern and the bound node. */
  function FastPath(q: Query, t: Tuple): Option<(EdgePattern, NodeId)> {
    if q.whereClause.Some? || q.matchClause.None? || EdgeAt(q.matchClause.value, 0).None? then None
    else
      var e := EdgeAt(q.matchClause.value, 0).value;
      if e.fromNode.variable.Some? && e.fromNode.variable.value in t && t[e.fromNode.variable.value].NodeRef?
      then Some((e, t[e.fromNode.variable.value].id)) else None
  }

  predicate LabelMatches(p: NodePattern, n: Node) {
    p.labels == [] || exists l :: l in p.labels && l in n.labels
  }

  predicate FastExists(g: Graph, e: EdgePattern, from: NodeId) {
    if e.depth.Some? then
      exists n :: n in Traverse(g, PathTypes(e.edgeType), e.direction, Goal(from, e.depth.value.min, e.depth.value.max))
                  && LabelMatches(e.toNode, n)
    else
      var hops := match e.direction
        case Right => Neighbours(g, from, e.edgeType)
        case Left => NeighboursIncoming(g, from, e.edgeType)
        case Both => Neighbours(g, from, e.edgeType) + NeighboursIncoming(g, from, e.edgeType);
      exists h :: h in hops && LabelMatches(e.toNode, h.node)
  }

  function Eval(e: Expr, t: Tuple, c: Ctx): Result<Value>
    decreases ExprDepth(e), 0, e
  {
    match e
    case Lit(lit) => Ok(LiteralValue(lit))
    case Ident(n) => if n in t then Ok(t[n]) else Err(InvalidArgument("variable not found"))
    case Property(v, p) => if PropKey(v, p) in t then Ok(t[PropKey(v, p)]) else Err(InvalidArgument("property not found"))
    case BinaryOp(l, op, r) =>
      var x :- Eval(l, t, c);
      var y :- Eval(r, t, c);
      EvalBinaryOp(x, op, y)
    case Not(x) =>
      var v :- Eval(x, t, c);
      if v.Bool? then Ok(Bool(!v.b)) else Err(InvalidArgument("NOT requires boolean"))
    case Parameter(p) => if p in c.params then Ok(c.params[p]) else Err(InvalidArgument("parameter not bound"))
    case IsNull(x) => var v :- Eval(x, t, c); Ok(Bool(v.Null?))
    case IsNotNull(x) => var v :- Eval(x, t, c); Ok(Bool(!v.Null?))
    case FunctionCall(fn, args) =>
      if Upper(fn) != "ID" then Err(InvalidArgument("unknown function"))
      else if |args| != 1 then Err(InvalidArgument("ID() requires exactly 1 argument"))
      else
        assert ExprDepth(args[0]) <= ArgsDepth(args);
        var v :- Eval(args[0], t, c);
        if v.NodeRef? then Ok(Int(v.id)) else Err(InvalidArgument("ID() requires a node argument"))
    case Exists(q) =>
      var fast := FastPath(q, t);
      if fast.Some? then Ok(Bool(c.canRead && FastExists(c.g, fast.value.0, fast.value.1)))
      else
        var plan :- PlanQuery(q);
        PlanQueryDepth(q);
        if !c.canRead then Ok(Bool(false))
        else
          var rows :- Rows(plan, t, c);
          Ok(Bool(rows != []))
    case Aggregate(_, _) => Err(InvalidArgument("aggregate must be evaluated at Project"))
  }

  function FilterRows(ts: seq<Tuple>, e: Expr, c: Ctx): seq<Tuple>
    decreases ExprDepth(e), 1, |ts|
  {
    if ts == [] then []
    else FilterRows(ts[..|ts| - 1], e, c) + if IsTrue(Eval(e, ts[|ts| - 1], c)) then [ts[|ts| - 1]] else []
  }

  /** Items that fail to evaluate are left out of the row. */
  function ProjectRow(t: Tuple, items: seq<ReturnItem>, c: Ctx): Tuple
    decreases ItemsDepth(items), 1, |items|
  {
    if items == [] then map[]
    else
      assert ExprDepth(items[0].expr) == ItemDepth(items[0]) <= ItemsDepth(items);
      var v := Eval(items[0].expr, t, c);
      (if v.Ok? then map[ColumnName(items[0]) := v.value] else map[]) + ProjectRow(t, items[1..], c)
  }

  function ProjectRows(ts: seq<Tuple>, items: seq<ReturnItem>, c: Ctx): (r: seq<Tuple>)
    ensures |r| == |ts|
    decreases ItemsDepth(items), 2, |ts|
  {
    if ts == [] then []
    else ProjectRows(ts[..|ts| - 1], items, c) + [ProjectRow(ts[|ts| - 1], items, c)]
  }

  function EvalAll(es: seq<Expr>, t: Tuple, c: Ctx): (r: seq<Result<Value>>)
    ensures |r| == |es|
    decreases ArgsDepth(es), 1, |es|
  {
    if es == [] then [] else [Eval(es[0], t, c)] + EvalAll(es[1..], t, c)
  }

  function EvalTable(ts: seq<Tuple>, es: seq<Expr>, c: Ctx): (r: seq<seq<Result<Value>>>)
    ensures |r| == |ts|
    decreases ArgsDepth(es), 2, |ts|
  {
    if ts == [] then [] else EvalTable(ts[..|ts| - 1], es, c) + [EvalAll(es, ts[|ts| - 1], c)]
  }

  function SortKeys(t: Tuple, items: seq<OrderByItem>, c: Ctx): (r: seq<Option<Value>>)
    ensures |r| == |items|
    decreases KeysDepth(items), 1, |items|
  {
    if items == [] then []
    else
      assert ExprDepth(items[0].expr) == KeyDepth(items[0]) <= KeysDepth(items);
      var v := Eval(items[0].expr, t, c);
      [if v.Ok? then Some(v.value) else None] + SortKeys(t, items[1..], c)
  }

  function KeyedRows(ts: seq<Tuple>, items: seq<OrderByItem>, c: Ctx): (r: seq<Ordering.Keyed>)
    ensures |r| == |ts| && Ordering.Widths(r, |items|)
    decreases KeysDepth(items), 2, |ts|
  {
    if ts == [] then []
    else KeyedRows(ts[..|ts| - 1], items, c) + [Ordering.Keyed(ts[|ts| - 1], SortKeys(ts[|ts| - 1], items, c))]
  }

  function Descending(items: seq<OrderByItem>): (r: seq<bool>)
    ensures |r| == |items|
  {
    seq(|items|, i requires 0 <= i < |items| => items[i].descending)
  }

  /** The rows a plan yields under an outer row. Plans that write need a write handle; see the module
      on creation. */
  function Rows(p: PlanNode, parent: Tuple, c: Ctx): Result<seq<Tuple>>
    decreases PlanDepth(p), 3, p
  {
    match p
    case LabelScan(v, l) => Ok(ScanRows(parent, v, ScanByLabel(c.g, l), Some(l), c.g))
    case FullScan(v) => Ok(ScanRows(parent, v, NodesOf(c.order, c.g), None, c.g))
    case Create(_) => Err(InvalidArgument("CREATE requires a write-capable store"))
    case MatchCreate(m, _) =>
      var _ :- Rows(m, parent, c);
      Err(InvalidArgument("CREATE requires a write-capable store"))
    case Filter(input, e) =>
      var ts :- Rows(input, parent, c);
      Ok(FilterRows(ts, e, c))
    case Project(input, items) =>
      var ts :- Rows(input, parent, c);
      Ok(ProjectRows(ts, items, c))
    case OrderBy(input, items) =>
      var ts :- Rows(input, parent, c);
      Ok(Ordering.RowsOf(Sort(KeyedRows(ts, items, c), Ordering.ByKeys(Descending(items)))))
    case Aggregation(input, keys, aggregates) =>
      var ts :- Rows(input, parent, c);
      Aggregates.AggregateRows(keys, aggregates, EvalTable(ts, keys, c), EvalTable(ts, ArgumentsOf(aggregates), c), c.picks)
    case Limit(input, count) =>
      var ts :- Rows(input, parent, c);
      Ok(if count < |ts| then ts[..count] else ts)
    case Expand(input, fromVar, edgeVar, toVar, edgeType, direction, depth) =>
      var ts :- Rows(input, parent, c);
      Ok(ExpandRows(ts, Expansion(fromVar, edgeVar, toVar, edgeType, direction, depth), c.g))
    case CartesianProduct(left, right) =>
      var ls :- Rows(left, parent, c);
      var rs :- Rows(right, parent, c);
      Ok(Product(ls, rs))
  }

  // ---------- one step of Rows ----------

  function SortedBy(rows: seq<Tuple>, items: seq<OrderByItem>, c: Ctx): seq<Tuple> {
    Ordering.RowsOf(StableSort.Sort(KeyedRows(rows, items, c), Ordering.ByKeys(Descending(items))))
  }

  function FirstRows(rows: seq<Tuple>, count: nat): seq<Tuple> {
    if count < |rows| then rows[..count] else rows
  }

  lemma FilterUnfolds(p: PlanNode, e: Expr, parent: Tuple, c: Ctx, rows: seq<Tuple>)
    requires Rows(p, parent, c) == Ok(rows)
    ensures Rows(Filter(p, e), parent, c) == Ok(FilterRows(rows, e, c))
  {
    hide Eval, FilterRows, ProjectRows, KeyedRows, ExpandRows, ScanRows, Product;
  }

  lemma ProjectUnfolds(p: PlanNode, items: seq<ReturnItem>, parent: Tuple, c: Ctx, rows: seq<Tuple>)
    requires Rows(p, parent, c) == Ok(rows)
    ensures Rows(Project(p, items), parent, c) == Ok(ProjectRows(rows, items, c))
  {
    hide Eval, FilterRows, ProjectRows, KeyedRows, ExpandRows, ScanRows, Product;
  }

  lemma OrderUnfolds(p: PlanNode, items: seq<OrderByItem>, parent: Tuple, c: Ctx, rows: seq<Tuple>)
    requires Rows(p, parent, c) == Ok(rows)
    ensures Rows(OrderBy(p, items), parent, c) == Ok(SortedBy(rows, items, c))
  {
    hide Eval, FilterRows, ProjectRows, KeyedRows, ExpandRows, ScanRows, Product, StableSort.Sort, Descending, Ordering.RowsOf;
  }

  lemma LimitUnfolds(p: PlanNode, count: nat, parent: Tuple, c: Ctx, rows: seq<Tuple>)
    requires Rows(p, parent, c) == Ok(rows)
    ensures Rows(Limit(p, count), parent, c) == Ok(FirstRows(rows, count))
  {
    hide Eval, FilterRows, ProjectRows, KeyedRows, ExpandRows, ScanRows, Product, StableSort.Sort;
  }
}
