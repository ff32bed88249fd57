/** The recursive-descent parser as an object over a token list. Every method reads exactly what its
    namesake in `Grammar` says. */
module Parser {
  import opened Prelude
  import opened Text
  import V = Values
  import opened Lexer
  import opened Grammar
  import G = Grammar
  import A = Ast

  ghost predicate Reads<T>(r: Result<T>, end: nat, spec: Result<Read<T>>) {
    match spec
    case Ok(x) => r == Ok(x.tree) && end == x.next
    case Err(e) => r == Err(e)
  }

  class Parser {
    const tokens: seq<Token>
    var pos: nat

    constructor (tokens: seq<Token>)
      requires Ended(tokens)
      ensures Valid() && this.tokens == tokens && pos == 0
    {
      this.tokens := tokens;
      pos := 0;
    }

    ghost predicate Valid()
      reads this
    {
      Ended(tokens) && pos < |tokens|
    }

    function Peek(): (t: Token)
      requires Valid()
      reads this
      ensures t == tokens[pos]
    {
      tokens[pos]
    }

    /** Consumes a token, except at the end. */
    method Advance() returns (t: Token)
      requires Valid()
      modifies this
      ensures Valid() && t == old(Peek()) && pos == After(tokens, old(pos))
    {
      t := Peek();
      if t != Eof {
        pos := pos + 1;
      }
    }

    method Expect(token: Token) returns (r: Result<()>)
      requires Valid() && token != Eof
      modifies this
      ensures Valid()
      ensures match G.Expect(tokens, old(pos), token) case Ok(next) => r == Ok(()) && pos == next case Err(e) => r == Err(e)
    {
      var t := Advance();
      r := if t == token then Ok(()) else Fail("unexpected token");
    }

    method ExpectWord() returns (r: Result<string>)
      requires Valid()
      modifies this
      ensures Valid() && Reads(r, pos, G.ExpectWord(tokens, old(pos)))
    {
      var t := Advance();
      r := if t.Word? then Ok(t.name) else Fail("expected identifier");
    }

    method OptionalWord() returns (name: Option<string>)
      requires Valid()
      modifies this
      ensures Valid() && Read(name, pos) == G.OptionalWord(tokens, old(pos))
    {
      name := None;
      if Peek().Word? {
        name := Some(Peek().name);
        pos := pos + 1;
      }
    }

    // ---------- patterns ----------

    method ParseLiteral() returns (r: Result<A.Literal>)
      requires Valid()
      modifies this
      ensures Valid() && Reads(r, pos, G.ParseLiteral(tokens, old(pos)))
    {
      var t := Advance();
      match t {
        case StringTok(s) => return Ok(A.LitStr(s));
        case IntTok(i) => return Ok(A.LitInt(i));
        case FloatTok(x) => return Ok(A.LitFloat(x));
        case KwTrue => return Ok(A.LitBool(true));
        case KwFalse => return Ok(A.LitBool(false));
        case KwNull => return Ok(A.LitNull);
        case _ => return Fail("expected literal");
      }
    }

    method ParseProperties() returns (r: Result<A.Properties>)
      requires Valid()
      modifies this
      ensures Valid() && Reads(r, pos, G.ParseProperties(tokens, old(pos), []))
    {
      hide G.ParseLiteral, Insert, G.ParseExpr, G.ParseQuery;
      ghost var start := pos;
      var props: A.Properties := [];
      while true
        invariant Valid() && start <= pos
        invariant G.ParseProperties(tokens, start, []) == G.ParseProperties(tokens, pos, props)
        decreases |tokens| - pos
      {
        if Peek() == RightBrace {
          return Ok(props);
        }
        var key :- ExpectWord();
        var _ :- Expect(Colon);
        var value :- ParseLiteral();
        props := Insert(props, key, value);
        if Peek() != Comma {
          return Ok(props);
        }
        pos := pos + 1;
      }
      assert false;
    }

    method ParseBraced() returns (r: Result<A.Properties>)
      requires Valid()
      modifies this
      ensures Valid() && Reads(r, pos, G.ParseBraced(tokens, old(pos)))
    {
      hide G.ParseProperties;
      if Peek() != LeftBrace {
        return Ok([]);
      }
      pos := pos + 1;
      var props :- ParseProperties();
      var _ :- Expect(RightBrace);
      return Ok(props);
    }

    method ParseLabels() returns (labels: seq<string>)
      requires Valid()
      modifies this
      ensures Valid() && Read(labels, pos) == G.ParseLabels(tokens, old(pos))
    {
      labels := [];
      if Peek() == Colon {
        pos := pos + 1;
        var t := Advance();
        if t.Word? {
          labels := [t.name];
        }
      }
    }

    method ParseNodePattern() returns (r: Result<A.NodePattern>)
      requires Valid()
      modifies this
      ensures Valid() && Reads(r, pos, G.ParseNodePattern(tokens, old(pos)))
    {
      hide G.ParseBraced, G.ParseLabels, G.OptionalWord;
      var _ :- Expect(LeftParen);
      var variable := OptionalWord();
      var labels := ParseLabels();
      var props :- ParseBraced();
      var _ :- Expect(RightParen);
      return Ok(A.NodePattern(variable, labels, props));
    }

    method ParseDepth() returns (r: Result<Option<A.DepthRange>>)
      requires Valid()
      modifies this
      ensures Valid() && Reads(r, pos, G.ParseDepth(tokens, old(pos)))
    {
      if Peek() != Star {
        return Ok(None);
      }
      pos := pos + 1;
      if Peek().IntTok? {
        var min := Peek().i % U32;
        pos := pos + 1;
        if Peek() != DotDot {
          return Ok(Some(A.DepthRange(min, min)));
        }
        pos := pos + 1;
        if Peek().IntTok? {
          var max := Peek().i % U32;
          pos := pos + 1;
          return Ok(Some(A.DepthRange(min, max)));
        }
        return Ok(Some(A.DepthRange(min, U32_MAX)));
      }
      if Peek() == DotDot {
        pos := pos + 1;
        if !Peek().IntTok? {
          return Fail("expected number after ..");
        }
        var max := Peek().i % U32;
        pos := pos + 1;
        return Ok(Some(A.DepthRange(0, max)));
      }
      return Ok(Some(A.DepthRange(1, U32_MAX)));
    }

    method ParseEdgeType() returns (r: Result<Option<string>>)
      requires Valid()
      modifies this
      ensures Valid() && Reads(r, pos, G.ParseEdgeType(tokens, old(pos)))
    {
      if Peek() != Colon {
        return Ok(None);
      }
      pos := pos + 1;
      var first :- ExpectWord();
      var types := [first];
      ghost var start := pos;
      while Peek() == Pipe
        invariant Valid() && start <= pos
        invariant G.ParseMoreTypes(tokens, start, [first]) == G.ParseMoreTypes(tokens, pos, types)
        decreases |tokens| - pos
      {
        pos := pos + 1;
        var t :- ExpectWord();
        types := types + [t];
      }
      return Ok(Some(Join(types, '|')));
    }

    method ParseEdgeDetail() returns (r: Result<EdgeDetail>)
      requires Valid()
      modifies this
      ensures Valid() && Reads(r, pos, G.ParseEdgeDetail(tokens, old(pos)))
    {
      hide G.ParseBraced, G.ParseDepth, G.ParseEdgeType, G.OptionalWord;
      if Peek() != LeftBracket {
        return Ok(EdgeDetail(None, None, [], None));
      }
      pos := pos + 1;
      var variable := OptionalWord();
      var edgeType :- ParseEdgeType();
      var inside :- ParseDepth();
      var props :- ParseBraced();
      var _ :- Expect(RightBracket);
      var outside :- ParseDepth();
      if inside.Some? && outside.Some? {
        return Fail("depth specified twice");
      }
      return Ok(EdgeDetail(variable, edgeType, props, if inside.Some? then inside else outside));
    }

    method CloseEdge(left: bool) returns (direction: A.Direction)
      requires Valid()
      modifies this
      ensures Valid() && Read(direction, pos) == G.CloseEdge(tokens, old(pos), left)
    {
      direction := if left then A.Left else A.Both;
      if direction == A.Both && Peek() == Arrow {
        pos := pos + 1;
        direction := A.Right;
      } else if direction == A.Both && Peek() == Minus {
        pos := pos + 1;
      }
    }

    method ParseEdgePattern(from: A.NodePattern) returns (r: Result<A.EdgePattern>)
      requires Valid() && (Peek() == Minus || Peek() == LeftArrow)
      modifies this
      ensures Valid() && Reads(r, pos, G.ParseEdgePattern(tokens, old(pos), from))
    {
      hide G.ParseEdgeDetail, G.ParseNodePattern, G.CloseEdge;
      var left := Peek() == LeftArrow;
      pos := pos + 1;
      var detail :- ParseEdgeDetail();
      var direction := CloseEdge(left);
      var to :- ParseNodePattern();
      return Ok(A.EdgePattern(detail.variable, detail.edgeType, direction, detail.properties, from, to, detail.depth));
    }

    method ParseEdges(first: A.NodePattern, before: seq<A.Pattern>) returns (r: Result<(A.NodePattern, seq<A.Pattern>)>)
      requires Valid()
      modifies this
      ensures Valid() && Reads(r, pos, G.ParseEdges(tokens, old(pos), first, before))
    {
      hide G.ParseEdgePattern;
      ghost var start := pos;
      var from, patterns := first, before;
      while Peek() == Minus || Peek() == LeftArrow
        invariant Valid() && start <= pos
        invariant G.ParseEdges(tokens, start, first, before) == G.ParseEdges(tokens, pos, from, patterns)
        decreases |tokens| - pos
      {
        var edge :- ParseEdgePattern(from);
        from := edge.toNode;
        patterns := patterns + [A.EdgePat(edge)];
      }
      return Ok((from, patterns));
    }

    method ParseChain(before: seq<A.Pattern>) returns (r: Result<seq<A.Pattern>>)
      requires Valid()
      modifies this
      ensures Valid() && Reads(r, pos, G.ParseChain(tokens, old(pos), before))
    {
      hide G.ParseNodePattern, G.ParseEdges;
      var from :- ParseNodePattern();
      var chain :- ParseEdges(from, before + [A.NodePat(from)]);
      return Ok(chain.1);
    }

    method ParseMatchPatterns() returns (r: Result<seq<A.Pattern>>)
      requires Valid()
      modifies this
      ensures Valid() && Reads(r, pos, G.ParseMatchPatterns(tokens, old(pos), []))
    {
      hide G.ParseChain;
      ghost var start := pos;
      var patterns: seq<A.Pattern> := [];
      while true
        invariant Valid() && start <= pos
        invariant G.ParseMatchPatterns(tokens, start, []) == G.ParseMatchPatterns(tokens, pos, patterns)
        decreases |tokens| - pos
      {
        patterns :- ParseChain(patterns);
        if Peek() != Comma {
          return Ok(patterns);
        }
        pos := pos + 1;
      }
      assert false;
    }

    method ParseCreateChain(before: seq<A.Pattern>) returns (r: Result<seq<A.Pattern>>)
      requires Valid()
      modifies this
      ensures Valid() && Reads(r, pos, G.ParseCreateChain(tokens, old(pos), before))
    {
      hide G.ParseNodePattern, G.ParseEdges;
      var from :- ParseNodePattern();
      var chain :- ParseEdges(from, before);
      var patterns := chain.1;
      if patterns == [] || !patterns[|patterns| - 1].EdgePat? {
        patterns := patterns + [A.NodePat(chain.0)];
      }
      return Ok(patterns);
    }

    method ParseCreatePatterns() returns (r: Result<seq<A.Pattern>>)
      requires Valid()
      modifies this
      ensures Valid() && Reads(r, pos, G.ParseCreatePatterns(tokens, old(pos), []))
    {
      hide G.ParseCreateChain;
      ghost var start := pos;
      var patterns: seq<A.Pattern> := [];
      while true
        invariant Valid() && start <= pos
        invariant G.ParseCreatePatterns(tokens, start, []) == G.ParseCreatePatterns(tokens, pos, patterns)
        decreases |tokens| - pos
      {
        patterns :- ParseCreateChain(patterns);
        if Peek() != Comma {
          return Ok(patterns);
        }
        pos := pos + 1;
      }
      assert false;
    }

    // ---------- expressions ----------

    method ParseExpr() returns (r: Result<A.Expr>)
      requires Valid()
      modifies this
      ensures Valid() && Reads(r, pos, G.ParseExpr(tokens, old(pos)))
      decreases |tokens| - pos, 8
    {
      hide G.ParseAnd;
      ghost var start := pos;
      var left :- ParseAnd();
      while Peek() == KwOr
        invariant Valid() && start < pos
        invariant G.ParseExpr(tokens, start) == G.OrRest(tokens, pos, left)
        decreases |tokens| - pos
      {
        var op := V.Or;
        pos := pos + 1;
        var right :- ParseAnd();
        left := A.BinaryOp(left, op, right);
      }
      return Ok(left);
    }

    method ParseAnd() returns (r: Result<A.Expr>)
      requires Valid()
      modifies this
      ensures Valid() && Reads(r, pos, G.ParseAnd(tokens, old(pos)))
      decreases |tokens| - pos, 7
    {
      hide G.ParseComparison;
      ghost var start := pos;
      var left :- ParseComparison();
      while Peek() == KwAnd
        invariant Valid() && start < pos
        invariant G.ParseAnd(tokens, start) == G.AndRest(tokens, pos, left)
        decreases |tokens| - pos
      {
        var op := V.And;
        pos := pos + 1;
        var right :- ParseComparison();
        left := A.BinaryOp(left, op, right);
      }
      return Ok(left);
    }

    method ParseComparison() returns (r: Result<A.Expr>)
      requires Valid()
      modifies this
      ensures Valid() && Reads(r, pos, G.ParseComparison(tokens, old(pos)))
      decreases |tokens| - pos, 6
    {
      hide G.ParseAdditive;
      var left :- ParseAdditive();
      if Peek() == KwIs {
        pos := pos + 1;
        var negated := Peek() == KwNot;
        if negated {
          pos := pos + 1;
        }
        var _ :- Expect(KwNull);
        return Ok(if negated then A.IsNotNull(left) else A.IsNull(left));
      }
      var op := ComparisonOp(Peek());
      if op.None? {
        return Ok(left);
      }
      pos := pos + 1;
      var right :- ParseAdditive();
      return Ok(A.BinaryOp(left, op.value, right));
    }

    method ParseAdditive() returns (r: Result<A.Expr>)
      requires Valid()
      modifies this
      ensures Valid() && Reads(r, pos, G.ParseAdditive(tokens, old(pos)))
      decreases |tokens| - pos, 5
    {
      hide G.ParseMultiplicative;
      ghost var start := pos;
      var left :- ParseMultiplicative();
      while AdditiveOp(Peek()).Some?
        invariant Valid() && start < pos
        invariant G.ParseAdditive(tokens, start) == G.AddRest(tokens, pos, left)
        decreases |tokens| - pos
      {
        var op := AdditiveOp(Peek()).value;
        pos := pos + 1;
        var right :- ParseMultiplicative();
        left := A.BinaryOp(left, op, right);
      }
      return Ok(left);
    }

    method ParseMultiplicative() returns (r: Result<A.Expr>)
      requires Valid()
      modifies this
      ensures Valid() && Reads(r, pos, G.ParseMultiplicative(tokens, old(pos)))
      decreases |tokens| - pos, 4
    {
      hide G.ParsePrimary;
      ghost var start := pos;
      var left :- ParsePrimary();
      while MultiplicativeOp(Peek()).Some?
        invariant Valid() && start < pos
        invariant G.ParseMultiplicative(tokens, start) == G.MulRest(tokens, pos, left)
        decreases |tokens| - pos
      {
        var op := MultiplicativeOp(Peek()).value;
        pos := pos + 1;
        var right :- ParsePrimary();
        left := A.BinaryOp(left, op, right);
      }
      return Ok(left);
    }

    method ParsePrimary() returns (r: Result<A.Expr>)
      requires Valid()
      modifies this
      ensures Valid() && Reads(r, pos, G.ParsePrimary(tokens, old(pos)))
      decreases |tokens| - pos, 3
    {
      hide G.ParseExpr, G.ParseQuery, G.ParseCall, G.ParseLiteral;
      match Peek() {
        case Dollar =>
          pos := pos + 1;
          var name :- ExpectWord();
          return Ok(A.Parameter(name));
        case Word(_) =>
          r := ParseName();
        case KwNot =>
          r := ParseNegation();
        case KwExists =>
          r := ParseExists();
        case LeftParen =>
          r := ParseParenthesised();
        case StringTok(_) | IntTok(_) | FloatTok(_) | KwTrue | KwFalse | KwNull =>
          var lit :- ParseLiteral();
          return Ok(A.Lit(lit));
        case _ =>
          return Fail("unexpected token in expr");
      }
    }

    method ParseName() returns (r: Result<A.Expr>)
      requires Valid() && Peek().Word?
      modifies this
      ensures Valid() && Reads(r, pos, G.ParsePrimary(tokens, old(pos)))
      decreases |tokens| - pos, 2, 1
    {
      hide G.ParseExpr, G.ParseQuery, G.ParseCall, G.ParseLiteral;
      var name := Peek().name;
      if tokens[pos + 1] == LeftParen {
        r := ParseCall();
        return;
      }
      pos := pos + 1;
      if Peek() != Dot {
        return Ok(A.Ident(name));
      }
      pos := pos + 1;
      var property :- ExpectWord();
      return Ok(A.Property(name, property));
    }

    method ParseNegation() returns (r: Result<A.Expr>)
      requires Valid() && Peek() == KwNot
      modifies this
      ensures Valid() && Reads(r, pos, G.ParsePrimary(tokens, old(pos)))
      decreases |tokens| - pos, 2, 1
    {
      hide G.ParseExpr, G.ParseQuery, G.ParseCall, G.ParseLiteral;
      pos := pos + 1;
      var operand :- ParsePrimary();
      return Ok(A.Not(operand));
    }

    method ParseParenthesised() returns (r: Result<A.Expr>)
      requires Valid() && Peek() == LeftParen
      modifies this
      ensures Valid() && Reads(r, pos, G.ParsePrimary(tokens, old(pos)))
      decreases |tokens| - pos, 2, 1
    {
      hide G.ParseExpr, G.ParseQuery, G.ParseCall, G.ParseLiteral;
      pos := pos + 1;
      var inner :- ParseExpr();
      var _ :- Expect(RightParen);
      return Ok(inner);
    }

    method ParseExists() returns (r: Result<A.Expr>)
      requires Valid() && Peek() == KwExists
      modifies this
      ensures Valid() && Reads(r, pos, G.ParsePrimary(tokens, old(pos)))
      decreases |tokens| - pos, 2, 1
    {
      hide G.ParseExpr, G.ParseQuery, G.ParseCall, G.ParseLiteral;
      pos := pos + 1;
      var _ :- Expect(LeftBrace);
      var query :- ParseQuery();
      var _ :- Expect(RightBrace);
      return Ok(A.Exists(query));
    }

    method ParseCall() returns (r: Result<A.Expr>)
      requires Valid() && Peek().Word? && pos + 1 < |tokens| && tokens[pos + 1] == LeftParen
      modifies this
      ensures Valid() && Reads(r, pos, G.ParseCall(tokens, old(pos)))
      decreases |tokens| - pos, 2, 0
    {
      hide G.ParseExpr, G.ParseArgs, Aggregator;
      var name := Peek().name;
      var aggregator := Aggregator(name);
      pos := pos + 2;
      if aggregator.Some? {
        var arg :- ParseExpr();
        var _ :- Expect(RightParen);
        return Ok(A.Aggregate(aggregator.value, arg));
      }
      var args: seq<A.Expr> := [];
      if Peek() != RightParen {
        args :- ParseArgs();
      }
      var _ :- Expect(RightParen);
      return Ok(A.FunctionCall(name, args));
    }

    method ParseArgs() returns (r: Result<seq<A.Expr>>)
      requires Valid()
      modifies this
      ensures Valid() && Reads(r, pos, G.ParseArgs(tokens, old(pos), []))
      decreases |tokens| - pos, 9
    {
      hide G.ParseExpr;
      ghost var start := pos;
      var items: seq<A.Expr> := [];
      while true
        invariant Valid() && start <= pos
        invariant G.ParseArgs(tokens, start, []) == G.ParseArgs(tokens, pos, items)
        decreases |tokens| - pos
      {
        var arg :- ParseExpr();
        items := items + [arg];
        if Peek() != Comma {
          return Ok(items);
        }
        pos := pos + 1;
      }
      assert false;
    }

    // ---------- clauses ----------

    method ParseReturnItems() returns (r: Result<seq<A.ReturnItem>>)
      requires Valid()
      modifies this
      ensures Valid() && Reads(r, pos, G.ParseReturnItems(tokens, old(pos), []))
      decreases |tokens| - pos, 9
    {
      hide G.ParseExpr;
      ghost var start := pos;
      var items: seq<A.ReturnItem> := [];
      while true
        invariant Valid() && start <= pos
        invariant G.ParseReturnItems(tokens, start, []) == G.ParseReturnItems(tokens, pos, items)
        decreases |tokens| - pos
      {
        var expr :- ParseExpr();
        items := items + [A.ReturnItem(expr, None)];
        if Peek() != Comma {
          return Ok(items);
        }
        pos := pos + 1;
      }
      assert false;
    }

    method ParseWithItems() returns (r: Result<seq<A.WithItem>>)
      requires Valid()
      modifies this
      ensures Valid() && Reads(r, pos, G.ParseWithItems(tokens, old(pos), []))
      decreases |tokens| - pos, 9
    {
      hide G.ParseExpr;
      ghost var start := pos;
      var items: seq<A.WithItem> := [];
      while true
        invariant Valid() && start <= pos
        invariant G.ParseWithItems(tokens, start, []) == G.ParseWithItems(tokens, pos, items)
        decreases |tokens| - pos
      {
        var expr :- ParseExpr();
        var _ :- Expect(KwAs);
        var alias :- ExpectWord();
        items := items + [A.WithItem(expr, alias)];
        if Peek() != Comma {
          return Ok(items);
        }
        pos := pos + 1;
      }
      assert false;
    }

    method ParseOrderItem() returns (r: Result<A.OrderByItem>)
      requires Valid()
      modifies this
      ensures Valid() && Reads(r, pos, G.ParseOrderItem(tokens, old(pos)))
      decreases |tokens| - pos, 9, 0
    {
      hide G.ParseExpr;
      var expr :- ParseExpr();
      var descending := Peek() == KwDesc;
      if Peek() == KwDesc || Peek() == KwAsc {
        pos := pos + 1;
      }
      return Ok(A.OrderByItem(expr, descending));
    }

    method ParseOrderItems() returns (r: Result<seq<A.OrderByItem>>)
      requires Valid()
      modifies this
      ensures Valid() && Reads(r, pos, G.ParseOrderItems(tokens, old(pos), []))
      decreases |tokens| - pos, 9, 1
    {
      hide G.ParseOrderItem;
      ghost var start := pos;
      var items: seq<A.OrderByItem> := [];
      while true
        invariant Valid() && start <= pos
        invariant G.ParseOrderItems(tokens, start, []) == G.ParseOrderItems(tokens, pos, items)
        decreases |tokens| - pos
      {
        var item :- ParseOrderItem();
        items := items + [item];
        if Peek() != Comma {
          return Ok(items);
        }
        pos := pos + 1;
      }
      assert false;
    }

    method ParseMatch() returns (r: Result<Option<seq<A.Pattern>>>)
      requires Valid()
      modifies this
      ensures Valid() && Reads(r, pos, G.ParseMatch(tokens, old(pos)))
    {
      hide G.ParseMatchPatterns;
      if Peek() != KwMatch {
        return Ok(None);
      }
      pos := pos + 1;
      var patterns :- ParseMatchPatterns();
      return Ok(Some(patterns));
    }

    method ParseCreate() returns (r: Result<Option<seq<A.Pattern>>>)
      requires Valid()
      modifies this
      ensures Valid() && Reads(r, pos, G.ParseCreate(tokens, old(pos)))
    {
      hide G.ParseCreatePatterns;
      if Peek() != KwCreate {
        return Ok(None);
      }
      pos := pos + 1;
      var patterns :- ParseCreatePatterns();
      return Ok(Some(patterns));
    }

    method ParseWith() returns (r: Result<Option<A.WithClause>>)
      requires Valid()
      modifies this
      ensures Valid() && Reads(r, pos, G.ParseWith(tokens, old(pos)))
      decreases |tokens| - pos, 10
    {
      hide G.ParseWithItems;
      if Peek() != KwWith {
        return Ok(None);
      }
      pos := pos + 1;
      var items :- ParseWithItems();
      return Ok(Some(A.WithClause(items)));
    }

    method ParseWhere() returns (r: Result<Option<A.Expr>>)
      requires Valid()
      modifies this
      ensures Valid() && Reads(r, pos, G.ParseWhere(tokens, old(pos)))
      decreases |tokens| - pos, 10
    {
      hide G.ParseExpr;
      if Peek() != KwWhere {
        return Ok(None);
      }
      pos := pos + 1;
      var expr :- ParseExpr();
      return Ok(Some(expr));
    }

    method ParseReturn() returns (r: Result<Option<A.ReturnClause>>)
      requires Valid()
      modifies this
      ensures Valid() && Reads(r, pos, G.ParseReturn(tokens, old(pos)))
      decreases |tokens| - pos, 10
    {
      hide G.ParseReturnItems;
      if Peek() != KwReturn {
        return Ok(None);
      }
      pos := pos + 1;
      var items :- ParseReturnItems();
      return Ok(Some(A.ReturnClause(items)));
    }

    method ParseOrderBy() returns (r: Result<Option<A.OrderByClause>>)
      requires Valid()
      modifies this
      ensures Valid() && Reads(r, pos, G.ParseOrderBy(tokens, old(pos)))
      decreases |tokens| - pos, 10
    {
      hide G.ParseOrderItems;
      if Peek() != KwOrder {
        return Ok(None);
      }
      pos := pos + 1;
      var _ :- Expect(KwBy);
      var items :- ParseOrderItems();
      return Ok(Some(A.OrderByClause(items)));
    }

    method ParseLimit() returns (r: Result<Option<nat>>)
      requires Valid()
      modifies this
      ensures Valid() && Reads(r, pos, G.ParseLimit(tokens, old(pos)))
    {
      if Peek() != KwLimit {
        return Ok(None);
      }
      pos := pos + 1;
      var t := Advance();
      return if t.IntTok? then Ok(Some(t.i % U64)) else Fail("expected int after LIMIT");
    }

    method ParseQuery() returns (r: Result<A.Query>)
      requires Valid()
      modifies this
      ensures Valid() && Reads(r, pos, G.ParseQuery(tokens, old(pos)))
      decreases |tokens| - pos, 11
    {
      hide G.ParseMatch, G.ParseCreate, G.ParseWith, G.ParseWhere, G.ParseReturn, G.ParseOrderBy, G.ParseLimit;
      var matched :- ParseMatch();
      var created :- ParseCreate();
      if matched.None? && created.None? {
        return Fail("expected MATCH or CREATE");
      }
      var with_ :- ParseWith();
      var filter :- ParseWhere();
      var returned :- ParseReturn();
      var order :- ParseOrderBy();
      var limit :- ParseLimit();
      return Ok(A.Query(matched, created, with_, filter, returned, order, limit));
    }
  }

  method Parse(input: string) returns (r: Result<A.Query>)
    ensures r == ParseText(input)
  {
    hide Lex, G.ParseQuery;
    var tokens :- Tokenize(input);
    var parser := new Parser(tokens);
    r := parser.ParseQuery();
  }
}
