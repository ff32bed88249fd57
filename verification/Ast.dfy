/** The syntax tree shared by the parser, the planner and the executor. */
module Ast {
  import opened Prelude
  import opened Values

  datatype Literal =
    | LitStr(s: string)
    | LitInt(i: int)
    | LitFloat(r: real)
    | LitBool(b: bool)
    | LitNull

  function LiteralValue(lit: Literal): Value {
    match lit
    case LitStr(s) => Str(s)
    case LitInt(i) => Int(i)
    case LitFloat(r) => Float(r)
    case LitBool(b) => Bool(b)
    case LitNull => Null
  }

  /** Inline properties as key/literal pairs, in the (unspecified) iteration order of the hash map
      that holds them. */
  type Properties = seq<(string, Literal)>

  /** The property map that the pairs make; a later pair of the same key wins. */
  function LiteralProps(props: Properties): map<string, Value> {
    if props == [] then map[]
    else LiteralProps(props[..|props| - 1])[props[|props| - 1].0 := LiteralValue(props[|props| - 1].1)]
  }

  datatype NodePattern = NodePattern(variable: Option<string>, labels: seq<string>, properties: Properties)

  datatype Direction = Left | Right | Both

  datatype DepthRange = DepthRange(min: nat, max: nat)

  datatype EdgePattern = EdgePattern(
    variable: Option<string>,
    edgeType: Option<string>,
    direction: Direction,
    properties: Properties,
    fromNode: NodePattern,
    toNode: NodePattern,
    depth: Option<DepthRange>)

  datatype Pattern = NodePat(node: NodePattern) | EdgePat(edge: EdgePattern)

  datatype AggFunc = Count | Sum | Avg | Min | Max

  datatype Expr =
    | Lit(lit: Literal)
    | Ident(name: string)
    | Property(variable: string, property: string)
    | Parameter(param: string)
    | BinaryOp(left: Expr, op: BinOp, right: Expr)
    | Not(operand: Expr)
    | Aggregate(func: AggFunc, arg: Expr)
    | FunctionCall(fn: string, args: seq<Expr>)
    | IsNull(arg: Expr)
    | IsNotNull(arg: Expr)
    | Exists(query: Query)

  datatype ReturnItem = ReturnItem(expr: Expr, alias: Option<string>)

  datatype ReturnClause = ReturnClause(items: seq<ReturnItem>)

  datatype WithItem = WithItem(expr: Expr, alias: string)

  datatype WithClause = WithClause(items: seq<WithItem>)

  datatype OrderByItem = OrderByItem(expr: Expr, descending: bool)

  datatype OrderByClause = OrderByClause(items: seq<OrderByItem>)

  datatype Query = Query(
    matchClause: Option<seq<Pattern>>,
    createClause: Option<seq<Pattern>>,
    withClause: Option<WithClause>,
    whereClause: Option<Expr>,
    returnClause: Option<ReturnClause>,
    orderBy: Option<OrderByClause>,
    limit: Option<nat>)
}
