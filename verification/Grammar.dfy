/** What the recursive-descent parser accepts, as functions from a token list and a position to a tree
    and the position after it. Every successful call consumes a token and stays before the final
    `Eof`; the order of the functions by remaining tokens and rank proves that parsing terminates. */
module Grammar {
  import opened Prelude
  import opened Text
  import V = Values
  import opened Lexer
  import A = Ast

  /** A tree and the position of the first token after it. */
  datatype Read<+T> = Read(tree: T, next: nat)

  /** A token list as the lexer delivers it. */
  predicate Ended(ts: seq<Token>) {
    ts != [] && ts[|ts| - 1] == Eof
  }

  function Fail<T>(reason: string): Result<T> {
    Err(InvalidArgument(reason))
  }

  /** The position after the token at `pos`; the end is never passed. */
  function After(ts: seq<Token>, pos: nat): (next: nat)
    requires Ended(ts) && pos < |ts|
    ensures pos <= next < |ts| && (ts[pos] != Eof ==> pos < next)
  {
    if ts[pos] == Eof then pos else pos + 1
  }

  function Expect(ts: seq<Token>, pos: nat, token: Token): (r: Result<nat>)
    requires Ended(ts) && pos < |ts| && token != Eof
    ensures r.Ok? ==> pos < r.value < |ts|
  {
    if ts[pos] == token then Ok(pos + 1) else Fail("unexpected token")
  }

  function ExpectWord(ts: seq<Token>, pos: nat): (r: Result<Read<string>>)
    requires Ended(ts) && pos < |ts|
    ensures r.Ok? ==> pos < r.value.next < |ts|
  {
    if ts[pos].Word? then Ok(Read(ts[pos].name, pos + 1)) else Fail("expected identifier")
  }

  function OptionalWord(ts: seq<Token>, pos: nat): (r: Read<Option<string>>)
    requires Ended(ts) && pos < |ts|
    ensures pos <= r.next < |ts|
  {
    if ts[pos].Word? then Read(Some(ts[pos].name), pos + 1) else Read(None, pos)
  }

  // ---------- patterns ----------

  function ParseLiteral(ts: seq<Token>, pos: nat): (r: Result<Read<A.Literal>>)
    requires Ended(ts) && pos < |ts|
    ensures r.Ok? ==> pos < r.value.next < |ts|
  {
    match ts[pos]
    case StringTok(s) => Ok(Read(A.LitStr(s), pos + 1))
    case IntTok(i) => Ok(Read(A.LitInt(i), pos + 1))
    case FloatTok(x) => Ok(Read(A.LitFloat(x), pos + 1))
    case KwTrue => Ok(Read(A.LitBool(true), pos + 1))
    case KwFalse => Ok(Read(A.LitBool(false), pos + 1))
    case KwNull => Ok(Read(A.LitNull, pos + 1))
    case _ => Fail("expected literal")
  }

  /** Inserting into the property map: a repeated key keeps its place and takes the new value. */
  function Insert(props: A.Properties, key: string, value: A.Literal): A.Properties {
    if props == [] then [(key, value)]
    else if props[0].0 == key then [(key, value)] + props[1..]
    else [props[0]] + Insert(props[1..], key, value)
  }

  /** Properties up to, not including, the closing brace; a comma before the brace is accepted. */
  function ParseProperties(ts: seq<Token>, pos: nat, props: A.Properties): (r: Result<Read<A.Properties>>)
    requires Ended(ts) && pos < |ts|
    ensures r.Ok? ==> pos <= r.value.next < |ts|
    decreases |ts| - pos
  {
    if ts[pos] == RightBrace then Ok(Read(props, pos))
    else
      var key :- ExpectWord(ts, pos);
      var colon :- Expect(ts, key.next, Colon);
      var value :- ParseLiteral(ts, colon);
      var more := Insert(props, key.tree, value.tree);
      if ts[value.next] == Comma then ParseProperties(ts, value.next + 1, more) else Ok(Read(more, value.next))
  }

  function ParseBraced(ts: seq<Token>, pos: nat): (r: Result<Read<A.Properties>>)
    requires Ended(ts) && pos < |ts|
    ensures r.Ok? ==> pos <= r.value.next < |ts|
  {
    if ts[pos] != LeftBrace then Ok(Read([], pos))
    else
      var props :- ParseProperties(ts, pos + 1, []);
      var end :- Expect(ts, props.next, RightBrace);
      Ok(Read(props.tree, end))
  }

  /** After a colon the next token is consumed even when it is no label. */
  function ParseLabels(ts: seq<Token>, pos: nat): (r: Read<seq<string>>)
    requires Ended(ts) && pos < |ts|
    ensures pos <= r.next < |ts|
  {
    if ts[pos] != Colon then Read([], pos)
    else Read(if ts[pos + 1].Word? then [ts[pos + 1].name] else [], After(ts, pos + 1))
  }

  function ParseNodePattern(ts: seq<Token>, pos: nat): (r: Result<Read<A.NodePattern>>)
    requires Ended(ts) && pos < |ts|
    ensures r.Ok? ==> pos < r.value.next < |ts|
  {
    var open :- Expect(ts, pos, LeftParen);
    var variable := OptionalWord(ts, open);
    var labels := ParseLabels(ts, variable.next);
    var props :- ParseBraced(ts, labels.next);
    var end :- Expect(ts, props.next, RightParen);
    Ok(Read(A.NodePattern(variable.tree, labels.tree, props.tree), end))
  }

  const U32 := 0x1_0000_0000
  const U32_MAX := 0xFFFF_FFFF
  const U64 := 0x1_0000_0000_0000_0000

  /** The `*` range of an edge: `*`, `*N`, `*N..`, `*N..M`, `*..M`. Numbers keep their low 32 bits. */
  function ParseDepth(ts: seq<Token>, pos: nat): (r: Result<Read<Option<A.DepthRange>>>)
    requires Ended(ts) && pos < |ts|
    ensures r.Ok? ==> pos <= r.value.next < |ts|
  {
    if ts[pos] != Star then Ok(Read(None, pos))
    else if ts[pos + 1].IntTok? then
      var min := ts[pos + 1].i % U32;
      if ts[pos + 2] != DotDot then Ok(Read(Some(A.DepthRange(min, min)), pos + 2))
      else if ts[pos + 3].IntTok? then Ok(Read(Some(A.DepthRange(min, ts[pos + 3].i % U32)), pos + 4))
      else Ok(Read(Some(A.DepthRange(min, U32_MAX)), pos + 3))
    else if ts[pos + 1] == DotDot then
      if ts[pos + 2].IntTok? then Ok(Read(Some(A.DepthRange(0, ts[pos + 2].i % U32)), pos + 3))
      else Fail("expected number after ..")
    else Ok(Read(Some(A.DepthRange(1, U32_MAX)), pos + 1))
  }

  /** The alternatives after the first edge type. */
  function ParseMoreTypes(ts: seq<Token>, pos: nat, types: seq<string>): (r: Result<Read<seq<string>>>)
    requires Ended(ts) && pos < |ts|
    ensures r.Ok? ==> pos <= r.value.next < |ts|
    decreases |ts| - pos
  {
    if ts[pos] != Pipe then Ok(Read(types, pos))
    else
      var t :- ExpectWord(ts, pos + 1);
      ParseMoreTypes(ts, t.next, types + [t.tree])
  }

  /** The edge type: alternatives are kept as one string joined by bars. */
  function ParseEdgeType(ts: seq<Token>, pos: nat): (r: Result<Read<Option<string>>>)
    requires Ended(ts) && pos < |ts|
    ensures r.Ok? ==> pos <= r.value.next < |ts|
  {
    if ts[pos] != Colon then Ok(Read(None, pos))
    else
      var first :- ExpectWord(ts, pos + 1);
      var types :- ParseMoreTypes(ts, first.next, [first.tree]);
      Ok(Read(Some(Join(types.tree, '|')), types.next))
  }

  datatype EdgeDetail = EdgeDetail(variable: Option<string>, edgeType: Option<string>, properties: A.Properties, depth: Option<A.DepthRange>)

  /** The bracketed part of an edge and a quantifier behind it; a range may be given once. */
  function ParseEdgeDetail(ts: seq<Token>, pos: nat): (r: Result<Read<EdgeDetail>>)
    requires Ended(ts) && pos < |ts|
    ensures r.Ok? ==> pos <= r.value.next < |ts|
  {
    if ts[pos] != LeftBracket then Ok(Read(EdgeDetail(None, None, [], None), pos))
    else
      var variable := OptionalWord(ts, pos + 1);
      var edgeType :- ParseEdgeType(ts, variable.next);
      var inside :- ParseDepth(ts, edgeType.next);
      var props :- ParseBraced(ts, inside.next);
      var close :- Expect(ts, props.next, RightBracket);
      var outside :- ParseDepth(ts, close);
      if inside.tree.Some? && outside.tree.Some? then Fail("depth specified twice")
      else
        Ok(Read(EdgeDetail(variable.tree, edgeType.tree, props.tree, if inside.tree.Some? then inside.tree else outside.tree),
                outside.next))
  }

  /** The direction and the position after the closing dash or arrow. After `<-` nothing closes the
      edge. */
  function CloseEdge(ts: seq<Token>, pos: nat, left: bool): (r: Read<A.Direction>)
    requires Ended(ts) && pos < |ts|
    ensures pos <= r.next < |ts|
  {
    if left then Read(A.Left, pos)
    else if ts[pos] == Arrow then Read(A.Right, pos + 1)
    else if ts[pos] == Minus then Read(A.Both, pos + 1)
    else Read(A.Both, pos)
  }

  function ParseEdgePattern(ts: seq<Token>, pos: nat, from: A.NodePattern): (r: Result<Read<A.EdgePattern>>)
    requires Ended(ts) && pos < |ts| && (ts[pos] == Minus || ts[pos] == LeftArrow)
    ensures r.Ok? ==> pos < r.value.next < |ts| && r.value.tree.fromNode == from
  {
    var detail :- ParseEdgeDetail(ts, pos + 1);
    var direction := CloseEdge(ts, detail.next, ts[pos] == LeftArrow);
    var to :- ParseNodePattern(ts, direction.next);
    Ok(Read(A.EdgePattern(detail.tree.variable, detail.tree.edgeType, direction.tree, detail.tree.properties, from, to.tree,
                          detail.tree.depth), to.next))
  }

  /** The edges of a chain that starts at `from`, appended to `patterns`. */
  function ParseEdges(ts: seq<Token>, pos: nat, from: A.NodePattern, patterns: seq<A.Pattern>): (r: Result<Read<(A.NodePattern, seq<A.Pattern>)>>)
    requires Ended(ts) && pos < |ts|
    ensures r.Ok? ==> pos <= r.value.next < |ts|
    decreases |ts| - pos
  {
    if ts[pos] != Minus && ts[pos] != LeftArrow then Ok(Read((from, patterns), pos))
    else
      var edge :- ParseEdgePattern(ts, pos, from);
      ParseEdges(ts, edge.next, edge.tree.toNode, patterns + [A.EdgePat(edge.tree)])
  }

  /** One chain in a MATCH: its first node, then its edges. */
  function ParseChain(ts: seq<Token>, pos: nat, patterns: seq<A.Pattern>): (r: Result<Read<seq<A.Pattern>>>)
    requires Ended(ts) && pos < |ts|
    ensures r.Ok? ==> pos < r.value.next < |ts|
  {
    var first :- ParseNodePattern(ts, pos);
    var chain :- ParseEdges(ts, first.next, first.tree, patterns + [A.NodePat(first.tree)]);
    Ok(Read(chain.tree.1, chain.next))
  }

  /** MATCH patterns: chains separated by commas. */
  function ParseMatchPatterns(ts: seq<Token>, pos: nat, patterns: seq<A.Pattern>): (r: Result<Read<seq<A.Pattern>>>)
    requires Ended(ts) && pos < |ts|
    ensures r.Ok? ==> pos < r.value.next < |ts|
    decreases |ts| - pos
  {
    var chain :- ParseChain(ts, pos, patterns);
    MatchRest(ts, chain)
  }

  function MatchRest(ts: seq<Token>, chain: Read<seq<A.Pattern>>): (r: Result<Read<seq<A.Pattern>>>)
    requires Ended(ts) && chain.next < |ts|
    ensures r.Ok? ==> chain.next <= r.value.next < |ts|
    decreases |ts| - chain.next
  {
    if ts[chain.next] == Comma then ParseMatchPatterns(ts, chain.next + 1, chain.tree) else Ok(chain)
  }

  /** One chain in a CREATE: its last node is added only when the list so far does not end in an edge, so
      a lone node after a chain is lost. */
  function ParseCreateChain(ts: seq<Token>, pos: nat, patterns: seq<A.Pattern>): (r: Result<Read<seq<A.Pattern>>>)
    requires Ended(ts) && pos < |ts|
    ensures r.Ok? ==> pos < r.value.next < |ts|
  {
    var first :- ParseNodePattern(ts, pos);
    var chain :- ParseEdges(ts, first.next, first.tree, patterns);
    var all := chain.tree.1;
    Ok(Read(if all == [] || !all[|all| - 1].EdgePat? then all + [A.NodePat(chain.tree.0)] else all, chain.next))
  }

  function ParseCreatePatterns(ts: seq<Token>, pos: nat, patterns: seq<A.Pattern>): (r: Result<Read<seq<A.Pattern>>>)
    requires Ended(ts) && pos < |ts|
    ensures r.Ok? ==> pos < r.value.next < |ts|
    decreases |ts| - pos
  {
    var chain :- ParseCreateChain(ts, pos, patterns);
    CreateRest(ts, chain)
  }

  function CreateRest(ts: seq<Token>, chain: Read<seq<A.Pattern>>): (r: Result<Read<seq<A.Pattern>>>)
    requires Ended(ts) && chain.next < |ts|
    ensures r.Ok? ==> chain.next <= r.value.next < |ts|
    decreases |ts| - chain.next
  {
    if ts[chain.next] == Comma then ParseCreatePatterns(ts, chain.next + 1, chain.tree) else Ok(chain)
  }

  // ---------- expressions ----------

  function Aggregator(name: string): Option<A.AggFunc> {
    match Upper(name)
    case "COUNT" => Some(A.Count)
    case "SUM" => Some(A.Sum)
    case "AVG" => Some(A.Avg)
    case "MIN" => Some(A.Min)
    case "MAX" => Some(A.Max)
    case _ => None
  }

  function ComparisonOp(token: Token): Option<V.BinOp> {
    match token
    case OpEq => Some(V.Eq)
    case OpNe => Some(V.Ne)
    case OpLt => Some(V.Lt)
    case OpLe => Some(V.Le)
    case OpGt => Some(V.Gt)
    case OpGe => Some(V.Ge)
    case _ => None
  }

  function AdditiveOp(token: Token): Option<V.BinOp> {
    match token
    case Plus => Some(V.Add)
    case Minus => Some(V.Sub)
    case _ => None
  }

  function MultiplicativeOp(token: Token): Option<V.BinOp> {
    match token
    case Star => Some(V.Mul)
    case Slash => Some(V.Div)
    case _ => None
  }

  type ParsedExpr = Result<Read<A.Expr>>

  function ParseExpr(ts: seq<Token>, pos: nat): (r: ParsedExpr)
    requires Ended(ts) && pos < |ts|
    ensures r.Ok? ==> pos < r.value.next < |ts|
    decreases |ts| - pos, 8
  {
    var left :- ParseAnd(ts, pos);
    OrRest(ts, left.next, left.tree)
  }

  function OrRest(ts: seq<Token>, pos: nat, left: A.Expr): (r: ParsedExpr)
    requires Ended(ts) && pos < |ts|
    ensures r.Ok? ==> pos <= r.value.next < |ts|
    decreases |ts| - pos, 0
  {
    if ts[pos] != KwOr then Ok(Read(left, pos))
    else
      var right :- ParseAnd(ts, pos + 1);
      OrRest(ts, right.next, A.BinaryOp(left, V.Or, right.tree))
  }

  function ParseAnd(ts: seq<Token>, pos: nat): (r: ParsedExpr)
    requires Ended(ts) && pos < |ts|
    ensures r.Ok? ==> pos < r.value.next < |ts|
    decreases |ts| - pos, 7
  {
    var left :- ParseComparison(ts, pos);
    AndRest(ts, left.next, left.tree)
  }

  function AndRest(ts: seq<Token>, pos: nat, left: A.Expr): (r: ParsedExpr)
    requires Ended(ts) && pos < |ts|
    ensures r.Ok? ==> pos <= r.value.next < |ts|
    decreases |ts| - pos, 0
  {
    if ts[pos] != KwAnd then Ok(Read(left, pos))
    else
      var right :- ParseComparison(ts, pos + 1);
      AndRest(ts, right.next, A.BinaryOp(left, V.And, right.tree))
  }

  /** At most one comparison: comparisons do not chain. */
  function ParseComparison(ts: seq<Token>, pos: nat): (r: ParsedExpr)
    requires Ended(ts) && pos < |ts|
    ensures r.Ok? ==> pos < r.value.next < |ts|
    decreases |ts| - pos, 6
  {
    var left :- ParseAdditive(ts, pos);
    CompareRest(ts, left.next, left.tree)
  }

  function CompareRest(ts: seq<Token>, pos: nat, left: A.Expr): (r: ParsedExpr)
    requires Ended(ts) && pos < |ts|
    ensures r.Ok? ==> pos <= r.value.next < |ts|
    decreases |ts| - pos, 0
  {
    if ts[pos] == KwIs then
      var negated := ts[pos + 1] == KwNot;
      var end :- Expect(ts, if negated then pos + 2 else pos + 1, KwNull);
      Ok(Read(if negated then A.IsNotNull(left) else A.IsNull(left), end))
    else if ComparisonOp(ts[pos]).Some? then
      var right :- ParseAdditive(ts, pos + 1);
      Ok(Read(A.BinaryOp(left, ComparisonOp(ts[pos]).value, right.tree), right.next))
    else Ok(Read(left, pos))
  }

  function ParseAdditive(ts: seq<Token>, pos: nat): (r: ParsedExpr)
    requires Ended(ts) && pos < |ts|
    ensures r.Ok? ==> pos < r.value.next < |ts|
    decreases |ts| - pos, 5
  {
    var left :- ParseMultiplicative(ts, pos);
    AddRest(ts, left.next, left.tree)
  }

  function AddRest(ts: seq<Token>, pos: nat, left: A.Expr): (r: ParsedExpr)
    requires Ended(ts) && pos < |ts|
    ensures r.Ok? ==> pos <= r.value.next < |ts|
    decreases |ts| - pos, 0
  {
    if AdditiveOp(ts[pos]).None? then Ok(Read(left, pos))
    else
      var right :- ParseMultiplicative(ts, pos + 1);
      AddRest(ts, right.next, A.BinaryOp(left, AdditiveOp(ts[pos]).value, right.tree))
  }

  function ParseMultiplicative(ts: seq<Token>, pos: nat): (r: ParsedExpr)
    requires Ended(ts) && pos < |ts|
    ensures r.Ok? ==> pos < r.value.next < |ts|
    decreases |ts| - pos, 4
  {
    var left :- ParsePrimary(ts, pos);
    MulRest(ts, left.next, left.tree)
  }

  function MulRest(ts: seq<Token>, pos: nat, left: A.Expr): (r: ParsedExpr)
    requires Ended(ts) && pos < |ts|
    ensures r.Ok? ==> pos <= r.value.next < |ts|
    decreases |ts| - pos, 0
  {
    if MultiplicativeOp(ts[pos]).None? then Ok(Read(left, pos))
    else
      var right :- ParsePrimary(ts, pos + 1);
      MulRest(ts, right.next, A.BinaryOp(left, MultiplicativeOp(ts[pos]).value, right.tree))
  }

  function ParsePrimary(ts: seq<Token>, pos: nat): (r: ParsedExpr)
    requires Ended(ts) && pos < |ts|
    ensures r.Ok? ==> pos < r.value.next < |ts|
    decreases |ts| - pos, 3
  {
    match ts[pos]
    case Dollar =>
      var name :- ExpectWord(ts, pos + 1);
      Ok(Read(A.Parameter(name.tree), name.next))
    case Word(name) =>
      if ts[pos + 1] == LeftParen then ParseCall(ts, pos)
      else if ts[pos + 1] == Dot then
        var property :- ExpectWord(ts, pos + 2);
        Ok(Read(A.Property(name, property.tree), property.next))
      else Ok(Read(A.Ident(name), pos + 1))
    case KwNot =>
      var operand :- ParsePrimary(ts, pos + 1);
      Ok(Read(A.Not(operand.tree), operand.next))
    case KwExists =>
      var open :- Expect(ts, pos + 1, LeftBrace);
      var query :- ParseQuery(ts, open);
      var end :- Expect(ts, query.next, RightBrace);
      Ok(Read(A.Exists(query.tree), end))
    case LeftParen =>
      var inner :- ParseExpr(ts, pos + 1);
      var end :- Expect(ts, inner.next, RightParen);
      Ok(Read(inner.tree, end))
    case StringTok(_) | IntTok(_) | FloatTok(_) | KwTrue | KwFalse | KwNull =>
      var lit :- ParseLiteral(ts, pos);
      Ok(Read(A.Lit(lit.tree), lit.next))
    case _ => Fail("unexpected token in expr")
  }

  /** A name followed by an opening parenthesis: an aggregate with one argument, or any function. */
  function ParseCall(ts: seq<Token>, pos: nat): (r: ParsedExpr)
    requires Ended(ts) && pos + 1 < |ts| && ts[pos].Word? && ts[pos + 1] == LeftParen
    ensures r.Ok? ==> pos < r.value.next < |ts|
    decreases |ts| - pos, 2
  {
    var name := ts[pos].name;
    if Aggregator(name).Some? then
      var arg :- ParseExpr(ts, pos + 2);
      var end :- Expect(ts, arg.next, RightParen);
      Ok(Read(A.Aggregate(Aggregator(name).value, arg.tree), end))
    else
      var args :- if ts[pos + 2] == RightParen then Ok(Read([], pos + 2)) else ParseArgs(ts, pos + 2, []);
      var end :- Expect(ts, args.next, RightParen);
      Ok(Read(A.FunctionCall(name, args.tree), end))
  }

  function ParseArgs(ts: seq<Token>, pos: nat, args: seq<A.Expr>): (r: Result<Read<seq<A.Expr>>>)
    requires Ended(ts) && pos < |ts|
    ensures r.Ok? ==> pos < r.value.next < |ts|
    decreases |ts| - pos, 9
  {
    var arg :- ParseExpr(ts, pos);
    if ts[arg.next] == Comma then ParseArgs(ts, arg.next + 1, args + [arg.tree]) else Ok(Read(args + [arg.tree], arg.next))
  }

  // ---------- clauses ----------

  function ParseReturnItems(ts: seq<Token>, pos: nat, items: seq<A.ReturnItem>): (r: Result<Read<seq<A.ReturnItem>>>)
    requires Ended(ts) && pos < |ts|
    ensures r.Ok? ==> pos < r.value.next < |ts|
    decreases |ts| - pos, 9
  {
    var expr :- ParseExpr(ts, pos);
    var more := items + [A.ReturnItem(expr.tree, None)];
    if ts[expr.next] == Comma then ParseReturnItems(ts, expr.next + 1, more) else Ok(Read(more, expr.next))
  }

  function ParseWithItems(ts: seq<Token>, pos: nat, items: seq<A.WithItem>): (r: Result<Read<seq<A.WithItem>>>)
    requires Ended(ts) && pos < |ts|
    ensures r.Ok? ==> pos < r.value.next < |ts|
    decreases |ts| - pos, 9
  {
    var expr :- ParseExpr(ts, pos);
    var as_ :- Expect(ts, expr.next, KwAs);
    var alias :- ExpectWord(ts, as_);
    var more := items + [A.WithItem(expr.tree, alias.tree)];
    if ts[alias.next] == Comma then ParseWithItems(ts, alias.next + 1, more) else Ok(Read(more, alias.next))
  }

  function ParseOrderItem(ts: seq<Token>, pos: nat): (r: Result<Read<A.OrderByItem>>)
    requires Ended(ts) && pos < |ts|
    ensures r.Ok? ==> pos < r.value.next < |ts|
    decreases |ts| - pos, 9, 0
  {
    var expr :- ParseExpr(ts, pos);
    Ok(Read(A.OrderByItem(expr.tree, ts[expr.next] == KwDesc),
            if ts[expr.next] == KwDesc || ts[expr.next] == KwAsc then expr.next + 1 else expr.next))
  }

  function ParseOrderItems(ts: seq<Token>, pos: nat, items: seq<A.OrderByItem>): (r: Result<Read<seq<A.OrderByItem>>>)
    requires Ended(ts) && pos < |ts|
    ensures r.Ok? ==> pos < r.value.next < |ts|
    decreases |ts| - pos, 9, 1
  {
    var item :- ParseOrderItem(ts, pos);
    if ts[item.next] == Comma then ParseOrderItems(ts, item.next + 1, items + [item.tree]) else Ok(Read(items + [item.tree], item.next))
  }

  function ParseMatch(ts: seq<Token>, pos: nat): (r: Result<Read<Option<seq<A.Pattern>>>>)
    requires Ended(ts) && pos < |ts|
    ensures r.Ok? ==> pos <= r.value.next < |ts| && (r.value.tree.Some? ==> pos < r.value.next)
  {
    if ts[pos] != KwMatch then Ok(Read(None, pos))
    else
      var patterns :- ParseMatchPatterns(ts, pos + 1, []);
      Ok(Read(Some(patterns.tree), patterns.next))
  }

  function ParseCreate(ts: seq<Token>, pos: nat): (r: Result<Read<Option<seq<A.Pattern>>>>)
    requires Ended(ts) && pos < |ts|
    ensures r.Ok? ==> pos <= r.value.next < |ts| && (r.value.tree.Some? ==> pos < r.value.next)
  {
    if ts[pos] != KwCreate then Ok(Read(None, pos))
    else
      var patterns :- ParseCreatePatterns(ts, pos + 1, []);
      Ok(Read(Some(patterns.tree), patterns.next))
  }

  function ParseWith(ts: seq<Token>, pos: nat): (r: Result<Read<Option<A.WithClause>>>)
    requires Ended(ts) && pos < |ts|
    ensures r.Ok? ==> pos <= r.value.next < |ts|
    decreases |ts| - pos, 10
  {
    if ts[pos] != KwWith then Ok(Read(None, pos))
    else
      var items :- ParseWithItems(ts, pos + 1, []);
      Ok(Read(Some(A.WithClause(items.tree)), items.next))
  }

  function ParseWhere(ts: seq<Token>, pos: nat): (r: Result<Read<Option<A.Expr>>>)
    requires Ended(ts) && pos < |ts|
    ensures r.Ok? ==> pos <= r.value.next < |ts|
    decreases |ts| - pos, 10
  {
    if ts[pos] != KwWhere then Ok(Read(None, pos))
    else
      var expr :- ParseExpr(ts, pos + 1);
      Ok(Read(Some(expr.tree), expr.next))
  }

  function ParseReturn(ts: seq<Token>, pos: nat): (r: Result<Read<Option<A.ReturnClause>>>)
    requires Ended(ts) && pos < |ts|
    ensures r.Ok? ==> pos <= r.value.next < |ts|
    decreases |ts| - pos, 10
  {
    if ts[pos] != KwReturn then Ok(Read(None, pos))
    else
      var items :- ParseReturnItems(ts, pos + 1, []);
      Ok(Read(Some(A.ReturnClause(items.tree)), items.next))
  }

  function ParseOrderBy(ts: seq<Token>, pos: nat): (r: Result<Read<Option<A.OrderByClause>>>)
    requires Ended(ts) && pos < |ts|
    ensures r.Ok? ==> pos <= r.value.next < |ts|
    decreases |ts| - pos, 10
  {
    if ts[pos] != KwOrder then Ok(Read(None, pos))
    else
      var start :- Expect(ts, pos + 1, KwBy);
      var items :- ParseOrderItems(ts, start, []);
      Ok(Read(Some(A.OrderByClause(items.tree)), items.next))
  }

  /** A negative limit, which only a token list made by hand can hold, wraps to a huge one. */
  function ParseLimit(ts: seq<Token>, pos: nat): (r: Result<Read<Option<nat>>>)
    requires Ended(ts) && pos < |ts|
    ensures r.Ok? ==> pos <= r.value.next < |ts|
  {
    if ts[pos] != KwLimit then Ok(Read(None, pos))
    else if ts[pos + 1].IntTok? then Ok(Read(Some(ts[pos + 1].i % U64), pos + 2))
    else Fail("expected int after LIMIT")
  }

  /** A query; what follows it is not looked at. */
  function ParseQuery(ts: seq<Token>, pos: nat): (r: Result<Read<A.Query>>)
    requires Ended(ts) && pos < |ts|
    ensures r.Ok? ==> pos < r.value.next < |ts|
    decreases |ts| - pos, 11
  {
    var matched :- ParseMatch(ts, pos);
    var created :- ParseCreate(ts, matched.next);
    if matched.tree.None? && created.tree.None? then Fail("expected MATCH or CREATE")
    else
      var with_ :- ParseWith(ts, created.next);
      var filter :- ParseWhere(ts, with_.next);
      var returned :- ParseReturn(ts, filter.next);
      var order :- ParseOrderBy(ts, returned.next);
      var limit :- ParseLimit(ts, order.next);
      Ok(Read(A.Query(matched.tree, created.tree, with_.tree, filter.tree, returned.tree, order.tree, limit.tree), limit.next))
  }

  /** Parsing a text; anything behind the query is ignored. */
  function ParseText(input: string): Result<A.Query> {
    var ts :- Lex(input);
    var query :- ParseQuery(ts, 0);
    Ok(query.tree)
  }
}
