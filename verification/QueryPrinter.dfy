/** How queries are written: the tokens of a query's tree, and which trees can be written at all. */
module QueryPrinter {
  import opened Prelude
  import opened Text
  import opened Lexer
  import opened Grammar
  import opened SdkPrinter
  import V = Values
  import A = Ast

  /** What a writer may choose: brackets around nothing, the depth range behind the bracket instead of inside, a
      comma behind the last property, and ASC written out. */
  datatype Style = Style(boxed: bool, outside: bool, trailing: bool, ascending: bool)

  // ---------- patterns ----------

  function TokenOf(lit: A.Literal): Token {
    match lit
    case LitStr(s) => StringTok(s)
    case LitInt(i) => IntTok(i)
    case LitFloat(r) => FloatTok(r)
    case LitBool(b) => if b then KwTrue else KwFalse
    case LitNull => KwNull
  }

  function PropTokens(props: A.Properties, y: Style): seq<Token> {
    if props == [] then []
    else
      [Word(props[0].0), Colon, TokenOf(props[0].1)] +
      (if |props| > 1 then [Comma] + PropTokens(props[1..], y) else if y.trailing then [Comma] else [])
  }

  function Braced(props: A.Properties, y: Style): seq<Token> {
    if props == [] then [] else [LeftBrace] + PropTokens(props, y) + [RightBrace]
  }

  function VarTokens(v: Option<string>): seq<Token> {
    if v.Some? then [Word(v.value)] else []
  }

  function LabelTokens(labels: seq<string>): seq<Token> {
    if labels == [] then [] else [Colon, Word(labels[0])]
  }

  function NodeTokens(p: A.NodePattern, y: Style): seq<Token> {
    [LeftParen] + VarTokens(p.variable) + LabelTokens(p.labels) + Braced(p.properties, y) + [RightParen]
  }

  function DepthTokens(depth: Option<A.DepthRange>): seq<Token> {
    match depth
    case None => []
    case Some(DepthRange(min, max)) =>
      if min == 1 && max == U32_MAX then [Star]
      else if min == max then [Star, IntTok(min)]
      else if max == U32_MAX then [Star, IntTok(min), DotDot]
      else if min == 0 then [Star, DotDot, IntTok(max)]
      else [Star, IntTok(min), DotDot, IntTok(max)]
  }

  /** Further alternatives of an edge type. */
  function BarTokens(types: seq<string>): seq<Token> {
    if types == [] then [] else [Pipe, Word(types[0])] + BarTokens(types[1..])
  }

  function TypeTokens(edgeType: Option<string>): seq<Token> {
    if edgeType.None? then []
    else
      var types := Split(edgeType.value, '|');
      [Colon, Word(types[0])] + BarTokens(types[1..])
  }

  /** The bracket of an edge; nothing needs none. */
  function BoxTokens(e: A.EdgePattern, y: Style): seq<Token> {
    if !y.boxed && e.variable.None? && e.edgeType.None? && e.properties == [] && e.depth.None? then []
    else
      [LeftBracket] + VarTokens(e.variable) + TypeTokens(e.edgeType) + (if y.outside then [] else DepthTokens(e.depth)) +
      Braced(e.properties, y) + [RightBracket] + (if y.outside then DepthTokens(e.depth) else [])
  }

  function ArrowTokens(dir: A.Direction): seq<Token> {
    match dir
    case Left => []
    case Right => [Arrow]
    case Both => [Minus]
  }

  /** An edge and the node behind it. A left-pointing edge has its arrow before the bracket and nothing behind. */
  function EdgeTokens(e: A.EdgePattern, y: Style): seq<Token> {
    [if e.direction == A.Left then LeftArrow else Minus] + BoxTokens(e, y) + ArrowTokens(e.direction) + NodeTokens(e.toNode, y)
  }

  /** MATCH patterns: an edge continues the pattern before it, a node begins a new one. */
  function MatchTokens(ps: seq<A.Pattern>, first: bool, y: Style): seq<Token> {
    if ps == [] then []
    else
      (match ps[0]
       case NodePat(n) => (if first then [] else [Comma]) + NodeTokens(n, y)
       case EdgePat(e) => EdgeTokens(e, y)) +
      MatchTokens(ps[1..], false, y)
  }

  /** CREATE patterns: every edge is written with both of its nodes. */
  function CreateTokens(ps: seq<A.Pattern>, y: Style): seq<Token> {
    if ps == [] then []
    else
      (match ps[0]
       case NodePat(n) => NodeTokens(n, y)
       case EdgePat(e) => NodeTokens(e.fromNode, y) + EdgeTokens(e, y)) +
      (if |ps| > 1 then [Comma] else []) + CreateTokens(ps[1..], y)
  }

  // ---------- expressions and queries ----------

  function OpLevel(op: V.BinOp): nat {
    match op
    case Or => 0
    case And => 1
    case Eq | Ne | Lt | Le | Gt | Ge => 2
    case Add | Sub => 3
    case Mul | Div => 4
  }

  /** How tightly the text of an expression holds together: 0 for OR up to 4 for products, 5 for everything that
      needs no parentheses anywhere. */
  function Level(e: A.Expr): (l: nat)
    ensures l <= 5
  {
    match e
    case BinaryOp(_, op, _) => OpLevel(op)
    case IsNull(_) => 2
    case IsNotNull(_) => 2
    case _ => 5
  }

  /** The loosest left operand that needs no parentheses; comparisons do not chain, all else groups to the left. */
  function LeftLevel(op: V.BinOp): nat {
    if OpLevel(op) == 2 then 3 else OpLevel(op)
  }

  function AggregateName(f: A.AggFunc): string {
    match f
    case Count => "COUNT"
    case Sum => "SUM"
    case Avg => "AVG"
    case Min => "MIN"
    case Max => "MAX"
  }

  /** An expression where one of the given level is expected: in parentheses if it is looser. */
  function TokensAt(e: A.Expr, level: nat, y: Style): seq<Token>
    decreases e, 1
  {
    if Level(e) < level then [LeftParen] + ExprTokens(e, y) + [RightParen] else ExprTokens(e, y)
  }

  function ExprTokens(e: A.Expr, y: Style): seq<Token>
    decreases e, 0
  {
    match e
    case Lit(lit) => [TokenOf(lit)]
    case Ident(name) => [Word(name)]
    case Property(variable, property) => [Word(variable), Dot, Word(property)]
    case Parameter(param) => [Dollar, Word(param)]
    case BinaryOp(l, op, r) => TokensAt(l, LeftLevel(op), y) + [OpToken(op)] + TokensAt(r, OpLevel(op) + 1, y)
    case Not(x) => [KwNot] + TokensAt(x, 5, y)
    case Aggregate(f, x) => [Word(AggregateName(f)), LeftParen] + ExprTokens(x, y) + [RightParen]
    case FunctionCall(fn, args) => [Word(fn), LeftParen] + ArgTokens(args, y) + [RightParen]
    case IsNull(x) => TokensAt(x, 3, y) + [KwIs, KwNull]
    case IsNotNull(x) => TokensAt(x, 3, y) + [KwIs, KwNot, KwNull]
    case Exists(q) => [KwExists, LeftBrace] + QueryTokens(q, y) + [RightBrace]
  }

  function ArgTokens(args: seq<A.Expr>, y: Style): seq<Token>
    decreases args
  {
    if args == [] then [] else ExprTokens(args[0], y) + (if |args| > 1 then [Comma] else []) + ArgTokens(args[1..], y)
  }

  function WithTokens(items: seq<A.WithItem>, y: Style): seq<Token>
    decreases items
  {
    if items == [] then []
    else WithItemTokens(items[0], y) + (if |items| > 1 then [Comma] else []) + WithTokens(items[1..], y)
  }

  function WithItemTokens(item: A.WithItem, y: Style): seq<Token>
    decreases item
  {
    ExprTokens(item.expr, y) + [KwAs, Word(item.alias)]
  }

  function ReturnTokens(items: seq<A.ReturnItem>, y: Style): seq<Token>
    decreases items
  {
    if items == [] then []
    else ReturnItemTokens(items[0], y) + (if |items| > 1 then [Comma] else []) + ReturnTokens(items[1..], y)
  }

  function ReturnItemTokens(item: A.ReturnItem, y: Style): seq<Token>
    decreases item
  {
    ExprTokens(item.expr, y)
  }

  function OrderTokens(items: seq<A.OrderByItem>, y: Style): seq<Token>
    decreases items
  {
    if items == [] then []
    else OrderItemTokens(items[0], y) + (if |items| > 1 then [Comma] else []) + OrderTokens(items[1..], y)
  }

  function OrderItemTokens(item: A.OrderByItem, y: Style): seq<Token>
    decreases item
  {
    ExprTokens(item.expr, y) + (if item.descending then [KwDesc] else if y.ascending then [KwAsc] else [])
  }

  /** The tokens of one clause: MATCH, CREATE, WITH, WHERE, RETURN, ORDER BY and LIMIT are numbered in order. */
  function ClauseTokens(q: A.Query, k: nat, y: Style): seq<Token>
    decreases q, 0
  {
    if k == 0 then if q.matchClause.Some? then [KwMatch] + MatchTokens(q.matchClause.value, true, y) else []
    else if k == 1 then if q.createClause.Some? then [KwCreate] + CreateTokens(q.createClause.value, y) else []
    else if k == 2 then if q.withClause.Some? then [KwWith] + WithTokens(q.withClause.value.items, y) else []
    else if k == 3 then if q.whereClause.Some? then [KwWhere] + ExprTokens(q.whereClause.value, y) else []
    else if k == 4 then if q.returnClause.Some? then [KwReturn] + ReturnTokens(q.returnClause.value.items, y) else []
    else if k == 5 then if q.orderBy.Some? then [KwOrder, KwBy] + OrderTokens(q.orderBy.value.items, y) else []
    else if q.limit.Some? then [KwLimit, IntTok(q.limit.value)] else []
  }

  function ClausesFrom(q: A.Query, k: nat, y: Style): seq<Token>
    decreases q, 1, 7 - k
  {
    if k >= 7 then [] else ClauseTokens(q, k, y) + ClausesFrom(q, k + 1, y)
  }

  function QueryTokens(q: A.Query, y: Style): seq<Token>
    decreases q, 2
  {
    ClausesFrom(q, 0, y)
  }

  // ---------- what can be written ----------

  /** A float of finitely many decimal places. */
  predicate FloatText(r: real, whole: nat, places: string) {
    && places != [] && AllDigits(places)
    && r == whole as real + DecimalValue(places) as real / Pow10(|places|) as real
  }

  ghost predicate WritableFloat(r: real) {
    exists whole, places :: FloatText(r, whole, places)
  }

  ghost predicate WritableLiteral(lit: A.Literal) {
    match lit
    case LitStr(s) => Unsplit(s)
    case LitInt(i) => 0 <= i < I64_LIMIT
    case LitFloat(r) => WritableFloat(r)
    case LitBool(_) => true
    case LitNull => true
  }

  predicate WritableVar(v: Option<string>) {
    v.Some? ==> Name(v.value)
  }

  ghost predicate WritableProps(props: A.Properties) {
    && (forall i :: 0 <= i < |props| ==> Name(props[i].0) && WritableLiteral(props[i].1))
    && (forall i, j :: 0 <= i < j < |props| ==> props[i].0 != props[j].0)
  }

  ghost predicate WritableNode(p: A.NodePattern) {
    WritableVar(p.variable) && |p.labels| <= 1 && (p.labels != [] ==> Name(p.labels[0])) && WritableProps(p.properties)
  }

  predicate WritableType(edgeType: Option<string>) {
    edgeType.Some? ==> forall i :: 0 <= i < |Split(edgeType.value, '|')| ==> Name(Split(edgeType.value, '|')[i])
  }

  predicate WritableDepth(depth: Option<A.DepthRange>) {
    depth.Some? ==> depth.value.min < U32 && depth.value.max < U32
  }

  ghost predicate WritableEdge(e: A.EdgePattern) {
    && WritableVar(e.variable) && WritableType(e.edgeType) && WritableProps(e.properties) && WritableDepth(e.depth)
    && WritableNode(e.fromNode) && WritableNode(e.toNode)
  }

  /** Patterns of MATCH behind a node: an edge begins at it, a node may follow. */
  ghost predicate WritableRest(from: A.NodePattern, ps: seq<A.Pattern>)
    decreases |ps|
  {
    ps != [] ==>
      match ps[0]
      case NodePat(n) => WritableNode(n) && WritableRest(n, ps[1..])
      case EdgePat(e) => WritableEdge(e) && e.fromNode == from && WritableRest(e.toNode, ps[1..])
  }

  ghost predicate WritableMatch(ps: seq<A.Pattern>) {
    ps != [] && ps[0].NodePat? && WritableNode(ps[0].node) && WritableRest(ps[0].node, ps[1..])
  }

  /** Patterns of CREATE: no node stands right behind an edge. */
  ghost predicate WritableCreate(ps: seq<A.Pattern>) {
    && ps != []
    && (forall i :: 0 <= i < |ps| ==> if ps[i].NodePat? then WritableNode(ps[i].node) else WritableEdge(ps[i].edge))
    && (forall i :: 0 < i < |ps| && ps[i].NodePat? ==> ps[i - 1].NodePat?)
  }

  ghost predicate WritableExpr(e: A.Expr)
    decreases e
  {
    match e
    case Lit(lit) => WritableLiteral(lit)
    case Ident(name) => Name(name)
    case Property(variable, property) => Name(variable) && Name(property)
    case Parameter(param) => Name(param)
    case BinaryOp(l, _, r) => WritableExpr(l) && WritableExpr(r)
    case Not(x) => WritableExpr(x)
    case Aggregate(_, x) => WritableExpr(x)
    case FunctionCall(fn, args) => Name(fn) && Aggregator(fn).None? && WritableArgs(args)
    case IsNull(x) => WritableExpr(x)
    case IsNotNull(x) => WritableExpr(x)
    case Exists(q) => WritableQuery(q)
  }

  ghost predicate WritableArgs(args: seq<A.Expr>)
    decreases args
  {
    args != [] ==> WritableExpr(args[0]) && WritableArgs(args[1..])
  }

  ghost predicate WritableWith(items: seq<A.WithItem>)
    decreases items
  {
    items != [] ==> WritableWithItem(items[0]) && WritableWith(items[1..])
  }

  ghost predicate WritableWithItem(item: A.WithItem)
    decreases item
  {
    WritableExpr(item.expr) && Name(item.alias)
  }

  ghost predicate WritableReturn(items: seq<A.ReturnItem>)
    decreases items
  {
    items != [] ==> WritableReturnItem(items[0]) && WritableReturn(items[1..])
  }

  /** RETURN takes no alias. */
  ghost predicate WritableReturnItem(item: A.ReturnItem)
    decreases item
  {
    WritableExpr(item.expr) && item.alias.None?
  }

  ghost predicate WritableOrder(items: seq<A.OrderByItem>)
    decreases items
  {
    items != [] ==> WritableOrderItem(items[0]) && WritableOrder(items[1..])
  }

  ghost predicate WritableOrderItem(item: A.OrderByItem)
    decreases item
  {
    WritableExpr(item.expr)
  }

  /** Names are words and no keywords, strings hold no quote, numbers are not negative, every clause has an item,
      and there is a MATCH or a CREATE. */
  ghost predicate WritableQuery(q: A.Query)
    decreases q
  {
    && (q.matchClause.Some? || q.createClause.Some?)
    && (q.matchClause.Some? ==> WritableMatch(q.matchClause.value))
    && (q.createClause.Some? ==> WritableCreate(q.createClause.value))
    && (q.withClause.Some? ==> q.withClause.value.items != [] && WritableWith(q.withClause.value.items))
    && (q.whereClause.Some? ==> WritableExpr(q.whereClause.value))
    && (q.returnClause.Some? ==> q.returnClause.value.items != [] && WritableReturn(q.returnClause.value.items))
    && (q.orderBy.Some? ==> q.orderBy.value.items != [] && WritableOrder(q.orderBy.value.items))
    && (q.limit.Some? ==> q.limit.value < I64_LIMIT)
  }
}
