/** The planner: a MATCH clause becomes a tree of scans, filters, expands and cartesian products. */
module Planner {
  import opened Prelude
  import opened Values
  import opened Ast
  import opened Text

  datatype PlanNode =
    | LabelScan(variable: string, lbl: string)
    | FullScan(variable: string)
    | Create(patterns: seq<Pattern>)
    | MatchCreate(matchInput: PlanNode, createPatterns: seq<Pattern>)
    | Filter(input: PlanNode, predicate_: Expr)
    | Project(input: PlanNode, items: seq<ReturnItem>)
    | OrderBy(input: PlanNode, keys: seq<OrderByItem>)
    | Aggregation(input: PlanNode, groupBy: seq<Expr>, aggregates: seq<(string, Expr)>)
    | Limit(input: PlanNode, count: nat)
    | Expand(input: PlanNode, fromVar: string, edgeVar: Option<string>, toVar: string,
             edgeType: Option<string>, direction: Direction, depth: Option<DepthRange>)
    | CartesianProduct(left: PlanNode, right: PlanNode)

  // ---------- predicates for inline properties ----------

  function PropertyEquals(v: string, p: (string, Literal)): Expr {
    BinaryOp(Property(v, p.0), Eq, Lit(p.1))
  }

  function PropertyPredicate(v: string, props: Properties): Expr
    requires props != []
  {
    var last := PropertyEquals(v, props[|props| - 1]);
    if |props| == 1 then last else BinaryOp(PropertyPredicate(v, props[..|props| - 1]), And, last)
  }

  method BuildPropertyPredicate(v: string, props: Properties) returns (e: Expr)
    requires props != []
    ensures e == PropertyPredicate(v, props)
  {
    e := PropertyEquals(v, props[0]);
    var i := 1;
    assert props[..1] == [props[0]];
    while i < |props|
      invariant 1 <= i <= |props|
      invariant e == PropertyPredicate(v, props[..i])
    {
      assert props[..i + 1][..i] == props[..i];
      e := BinaryOp(e, And, PropertyEquals(v, props[i]));
      i := i + 1;
    }
    assert props[..i] == props;
  }

  function Conjoin(left: Option<Expr>, right: Expr): Option<Expr> {
    Some(if left.Some? then BinaryOp(left.value, And, right) else right)
  }

  function ConjoinProperties(e: Option<Expr>, v: string, props: Properties): Option<Expr> {
    if props == [] then e else Conjoin(e, PropertyPredicate(v, props))
  }

  function FilterBy(input: PlanNode, e: Option<Expr>): PlanNode {
    if e.Some? then Filter(input, e.value) else input
  }

  function FilterByProperties(input: PlanNode, v: string, props: Properties): PlanNode {
    FilterBy(input, ConjoinProperties(None, v, props))
  }

  function Scan(v: string, labels: seq<string>): PlanNode {
    if labels == [] then FullScan(v) else LabelScan(v, labels[0])
  }

  // ---------- planning a MATCH clause ----------

  /** The plan built so far and the variables it binds through node scans and expansions. */
  datatype PlanState = PlanState(plan: Option<PlanNode>, bound: set<string>)

  predicate StateOk(st: PlanState) {
    st.bound != {} ==> st.plan.Some?
  }

  /** The node pattern at position `i`, if there is one. */
  function NodeAt(ps: seq<Pattern>, i: int): Option<NodePattern> {
    if 0 <= i < |ps| && ps[i].NodePat? then Some(ps[i].node) else None
  }

  function EdgeAt(ps: seq<Pattern>, i: int): Option<EdgePattern> {
    if 0 <= i < |ps| && ps[i].EdgePat? then Some(ps[i].edge) else None
  }

  /** The variable that the pattern at `i`, if it is an edge, gives to its target. */
  function TargetsAt(ps: seq<Pattern>, i: nat): set<string>
    requires i < |ps|
  {
    if ps[i].NodePat? then {}
    else if ps[i].edge.toNode.variable.Some? then {ps[i].edge.toNode.variable.value}
    else if NodeAt(ps, i + 1).Some? && NodeAt(ps, i + 1).value.variable.Some? then {NodeAt(ps, i + 1).value.variable.value}
    else {}
  }

  function TargetVars(ps: seq<Pattern>, i: nat): set<string>
    requires i <= |ps|
  {
    if i == 0 then {} else TargetVars(ps, i - 1) + TargetsAt(ps, i - 1)
  }

  /** Whether the node pattern at `i` needs no scan of its own because an edge pattern binds it. */
  predicate BoundByEdge(ps: seq<Pattern>, targets: set<string>, i: nat, planned: bool)
    requires i < |ps| && ps[i].NodePat?
  {
    var v := ps[i].node.variable;
    v.Some? && (
      || v.value in targets
      || (EdgeAt(ps, i - 1).Some? && EdgeAt(ps, i - 1).value.toNode.variable == v)
      || (EdgeAt(ps, i + 1).Some? && EdgeAt(ps, i + 1).value.toNode.variable == v)
      || (planned && EdgeAt(ps, i + 1).Some? && EdgeAt(ps, i + 1).value.fromNode.variable == v))
  }

  function NodeStep(ps: seq<Pattern>, targets: set<string>, i: nat, st: PlanState): (r: Result<PlanState>)
    requires i < |ps| && ps[i].NodePat? && StateOk(st)
    ensures r.Ok? ==> StateOk(r.value)
  {
    var node := ps[i].node;
    if node.variable.Some? && node.variable.value in st.bound then
      Ok(st.(plan := Some(FilterByProperties(st.plan.value, node.variable.value, node.properties))))
    else if BoundByEdge(ps, targets, i, st.plan.Some?) then Ok(st)
    else if node.variable.None? then Err(InvalidArgument("node must have variable"))
    else
      var v := node.variable.value;
      var scan := FilterByProperties(Scan(v, node.labels), v, node.properties);
      Ok(PlanState(Some(if st.plan.Some? then CartesianProduct(st.plan.value, scan) else scan), st.bound + {v}))
  }

  function FromVar(ps: seq<Pattern>, i: nat): Result<string>
    requires i < |ps| && ps[i].EdgePat?
  {
    if ps[i].edge.fromNode.variable.Some? then Ok(ps[i].edge.fromNode.variable.value)
    else if NodeAt(ps, i - 1).Some? && NodeAt(ps, i - 1).value.variable.Some? then Ok(NodeAt(ps, i - 1).value.variable.value)
    else Err(InvalidArgument("from node must have variable"))
  }

  /** The name given to an unnamed last node. */
  function AnonymousVar(i: nat): string {
    "__anon_to_" + Decimal(i)
  }

  function ToVar(ps: seq<Pattern>, i: nat): Result<string>
    requires i < |ps| && ps[i].EdgePat?
  {
    if ps[i].edge.toNode.variable.Some? then Ok(ps[i].edge.toNode.variable.value)
    else if NodeAt(ps, i + 1).Some? then
      if NodeAt(ps, i + 1).value.variable.Some? then Ok(NodeAt(ps, i + 1).value.variable.value)
      else Err(InvalidArgument("to node must have variable"))
    else Ok(AnonymousVar(i))
  }

  /** Inline properties of the node pattern at `i`, when it is the node named `v`. */
  function NeighbourProperties(ps: seq<Pattern>, i: int, v: string): Properties {
    if NodeAt(ps, i).Some? && NodeAt(ps, i).value.variable == Some(v) then NodeAt(ps, i).value.properties else []
  }

  function EndpointsDiffer(u: string, v: string): Expr {
    BinaryOp(FunctionCall("ID", [Ident(u)]), Ne, FunctionCall("ID", [Ident(v)]))
  }

  function ExpandOver(input: PlanNode, e: EdgePattern, u: string, v: string): PlanNode {
    Expand(FilterByProperties(input, u, e.fromNode.properties), u, e.variable, v, e.edgeType, e.direction, e.depth)
  }

  function SeparateEndpoints(input: PlanNode, e: EdgePattern, u: string, v: string): PlanNode {
    if e.depth.Some? && e.depth.value.min >= 1 then Filter(input, EndpointsDiffer(u, v)) else input
  }

  function EdgeStep(ps: seq<Pattern>, i: nat, st: PlanState): (r: Result<PlanState>)
    requires i < |ps| && ps[i].EdgePat?
    ensures r.Ok? ==> StateOk(r.value)
  {
    var e := ps[i].edge;
    var u :- FromVar(ps, i);
    var v :- ToVar(ps, i);
    var input := if st.plan.Some? then st.plan.value else Scan(u, e.fromNode.labels);
    var before := ConjoinProperties(None, v, NeighbourProperties(ps, i - 1, v));
    var around := ConjoinProperties(before, v, NeighbourProperties(ps, i + 1, v));
    var pred := ConjoinProperties(around, u, e.fromNode.properties);
    Ok(PlanState(Some(SeparateEndpoints(FilterBy(ExpandOver(input, e, u, v), pred), e, u, v)), st.bound + {v}))
  }

  function PatternStep(ps: seq<Pattern>, targets: set<string>, i: nat, st: PlanState): (r: Result<PlanState>)
    requires i < |ps| && StateOk(st)
    ensures r.Ok? ==> StateOk(r.value)
  {
    if ps[i].NodePat? then NodeStep(ps, targets, i, st) else EdgeStep(ps, i, st)
  }

  /** The state after the first `i` patterns. */
  function PlanPrefix(ps: seq<Pattern>, targets: set<string>, i: nat): (r: Result<PlanState>)
    requires i <= |ps|
    ensures r.Ok? ==> StateOk(r.value)
  {
    if i == 0 then Ok(PlanState(None, {}))
    else
      var st :- PlanPrefix(ps, targets, i - 1);
      PatternStep(ps, targets, i - 1, st)
  }

  /** All inline properties of the first `i` node patterns, enforced once more at the top. */
  function GlobalPredicate(ps: seq<Pattern>, i: nat): Option<Expr>
    requires i <= |ps|
  {
    if i == 0 then None
    else
      var e := GlobalPredicate(ps, i - 1);
      if ps[i - 1].NodePat? && ps[i - 1].node.variable.Some?
      then ConjoinProperties(e, ps[i - 1].node.variable.value, ps[i - 1].node.properties)
      else e
  }

  function PlanMatch(ps: seq<Pattern>): Result<PlanNode> {
    if ps == [] then Err(InvalidArgument("empty MATCH clause"))
    else
      var st :- PlanPrefix(ps, TargetVars(ps, |ps|), |ps|);
      if st.plan.None? then Err(InvalidArgument("invalid MATCH plan"))
      else Ok(FilterBy(st.plan.value, GlobalPredicate(ps, |ps|)))
  }

  method PlanMatchClause(ps: seq<Pattern>) returns (r: Result<PlanNode>)
    ensures r == PlanMatch(ps)
  {
    if ps == [] {
      return Err(InvalidArgument("empty MATCH clause"));
    }
    var targets: set<string> := {};
    for i := 0 to |ps|
      invariant targets == TargetVars(ps, i)
    {
      match ps[i] {
        case NodePat(_) =>
        case EdgePat(e) =>
          if e.toNode.variable.Some? {
            targets := targets + {e.toNode.variable.value};
          } else if i + 1 < |ps| && ps[i + 1].NodePat? && ps[i + 1].node.variable.Some? {
            targets := targets + {ps[i + 1].node.variable.value};
          }
      }
    }
    var plan: Option<PlanNode>, bound: set<string> := None, {};
    for i := 0 to |ps|
      invariant PlanPrefix(ps, targets, i) == Ok(PlanState(plan, bound))
    {
      var step := PatternStep(ps, targets, i, PlanState(plan, bound));
      if step.Err? {
        PrefixFailure(ps, targets, i + 1, |ps|);
        return Err(step.error);
      }
      plan, bound := step.value.plan, step.value.bound;
    }
    if plan.None? {
      return Err(InvalidArgument("invalid MATCH plan"));
    }
    var everything: Option<Expr> := None;
    for i := 0 to |ps|
      invariant everything == GlobalPredicate(ps, i)
    {
      match ps[i] {
        case EdgePat(_) =>
        case NodePat(node) =>
          if node.variable.Some? && node.properties != [] {
            var e := BuildPropertyPredicate(node.variable.value, node.properties);
            everything := Conjoin(everything, e);
          }
      }
    }
    return Ok(FilterBy(plan.value, everything));
  }

  lemma {:induction false} PrefixFailure(ps: seq<Pattern>, targets: set<string>, i: nat, n: nat)
    requires i <= n <= |ps| && PlanPrefix(ps, targets, i).Err?
    ensures PlanPrefix(ps, targets, n) == Err(PlanPrefix(ps, targets, i).error)
  {
    if i < n {
      PrefixFailure(ps, targets, i, n - 1);
    }
  }

  // ---------- planning a query ----------

  predicate HasAggregate(e: Expr) {
    match e
    case Aggregate(_, _) => true
    case BinaryOp(l, _, r) => HasAggregate(l) || HasAggregate(r)
    case Not(x) => HasAggregate(x)
    case _ => false
  }

  function AggregateName(f: AggFunc): string {
    match f
    case Count => "count"
    case Sum => "sum"
    case Avg => "avg"
    case Min => "min"
    case Max => "max"
  }

  function AggregatesOf(items: seq<ReturnItem>): seq<(string, Expr)> {
    if items == [] then []
    else
      var item := items[0];
      (if !HasAggregate(item.expr) then []
       else
         [(if item.alias.Some? then item.alias.value
           else if item.expr.Aggregate? then AggregateName(item.expr.func)
           else "agg", item.expr)]) + AggregatesOf(items[1..])
  }

  function GroupKeysOf(items: seq<ReturnItem>): seq<Expr> {
    if items == [] then []
    else (if HasAggregate(items[0].expr) then [] else [items[0].expr]) + GroupKeysOf(items[1..])
  }

  function WithItems(items: seq<WithItem>): seq<ReturnItem> {
    if items == [] then []
    else [ReturnItem(items[0].expr, Some(items[0].alias))] + WithItems(items[1..])
  }

  /** The part of a plan below WITH, WHERE and RETURN. */
  function PlanSource(q: Query): Result<PlanNode> {
    if q.matchClause.Some? then
      var m :- PlanMatch(q.matchClause.value);
      Ok(if q.createClause.Some? then MatchCreate(m, q.createClause.value) else m)
    else if q.createClause.Some? then
      if q.createClause.value == [] then Err(InvalidArgument("empty CREATE clause"))
      else Ok(Create(q.createClause.value))
    else Err(InvalidArgument("query must have MATCH or CREATE"))
  }

  function PlanFilters(q: Query, source: PlanNode): PlanNode {
    var p := if q.withClause.Some? then Project(source, WithItems(q.withClause.value.items)) else source;
    if q.whereClause.Some? then Filter(p, q.whereClause.value) else p
  }

  function PlanReturn(items: seq<ReturnItem>, p: PlanNode): PlanNode {
    if exists i :: 0 <= i < |items| && HasAggregate(items[i].expr)
    then Aggregation(p, GroupKeysOf(items), AggregatesOf(items))
    else Project(p, items)
  }

  /** ORDER BY and LIMIT take effect only under a RETURN clause. */
  function PlanQuery(q: Query): Result<PlanNode> {
    var source :- PlanSource(q);
    var filtered := PlanFilters(q, source);
    if q.returnClause.None? then Ok(filtered)
    else
      var returned := PlanReturn(q.returnClause.value.items, filtered);
      var ordered := if q.orderBy.Some? then OrderBy(returned, q.orderBy.value.items) else returned;
      Ok(if q.limit.Some? then Limit(ordered, q.limit.value) else ordered)
  }
}
