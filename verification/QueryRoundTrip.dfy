/** A query written as text is read back as the same query, however the writer uses its freedom. */
module QueryRoundTrip {
  import opened Prelude
  import opened Text
  import opened Lexer
  import opened Grammar
  import opened SdkPrinter
  import opened PrintParse
  import opened QueryPrinter
  import opened TokenText
  import opened QueryReading
  import V = Values
  import A = Ast

  // ---------- every token has a text ----------

  lemma SpellJoin(a: seq<Token>, b: seq<Token>)
    requires AllSpellable(a) && AllSpellable(b)
    ensures AllSpellable(a + b)
  {
    hide Spellable;
  }

  lemma LiteralSpells(lit: A.Literal)
    requires WritableLiteral(lit)
    ensures Spellable(TokenOf(lit))
  {
    hide WritableFloat;
  }

  lemma {:induction false} PropsSpell(props: A.Properties, y: Style)
    requires WritableProps(props)
    ensures AllSpellable(PropTokens(props, y))
    decreases |props|
  {
    hide Name, WritableLiteral;
    if props != [] {
      LiteralSpells(props[0].1);
      var pair := [Word(props[0].0), Colon, TokenOf(props[0].1)];
      assert AllSpellable(pair);
      if |props| > 1 {
        TailWritable(props);
        PropsSpell(props[1..], y);
        SpellJoin([Comma], PropTokens(props[1..], y));
      }
      SpellJoin(pair, if |props| > 1 then [Comma] + PropTokens(props[1..], y) else if y.trailing then [Comma] else []);
    }
  }

  lemma TailWritable(props: A.Properties)
    requires WritableProps(props) && props != []
    ensures WritableProps(props[1..])
  {
    hide Name, WritableLiteral;
    var rest := props[1..];
    forall i, j | 0 <= i < j < |rest| ensures rest[i].0 != rest[j].0 {
      var k, l := i + 1, j + 1;
      assert rest[i] == props[k] && rest[j] == props[l];
    }
  }

  lemma BracedSpell(props: A.Properties, y: Style)
    requires WritableProps(props)
    ensures AllSpellable(Braced(props, y))
  {
    hide PropTokens, WritableProps, Spellable;
    PropsSpell(props, y);
    assert Spellable(LeftBrace) && Spellable(RightBrace) by { PlainSpell(LeftBrace); PlainSpell(RightBrace); }
    SpellJoin([LeftBrace], PropTokens(props, y));
    SpellJoin([LeftBrace] + PropTokens(props, y), [RightBrace]);
  }

  lemma PlainSpell(t: Token)
    requires !t.Word? && !t.StringTok? && !t.IntTok? && !t.FloatTok? && t != Eof
    ensures Spellable(t)
  {
  }

  lemma NodeSpells(p: A.NodePattern, y: Style)
    requires WritableNode(p)
    ensures AllSpellable(NodeTokens(p, y))
  {
    hide Braced, WritableProps, Name;
    BracedSpell(p.properties, y);
    var a, b, c := VarTokens(p.variable), LabelTokens(p.labels), Braced(p.properties, y);
    SpellJoin([LeftParen], a);
    SpellJoin([LeftParen] + a, b);
    SpellJoin([LeftParen] + a + b, c);
    SpellJoin([LeftParen] + a + b + c, [RightParen]);
  }

  lemma DepthSpells(depth: Option<A.DepthRange>)
    requires WritableDepth(depth)
    ensures AllSpellable(DepthTokens(depth))
  {
  }

  lemma {:induction false} BarsSpell(types: seq<string>)
    requires forall i :: 0 <= i < |types| ==> Name(types[i])
    ensures AllSpellable(BarTokens(types))
    decreases |types|
  {
    hide Name;
    if types != [] {
      BarsSpell(types[1..]);
      SpellJoin([Pipe, Word(types[0])], BarTokens(types[1..]));
    }
  }

  lemma TypeSpells(edgeType: Option<string>)
    requires WritableType(edgeType)
    ensures AllSpellable(TypeTokens(edgeType))
  {
    hide Name, Split, BarTokens;
    if edgeType.Some? {
      var types := Split(edgeType.value, '|');
      BarsSpell(types[1..]);
      SpellJoin([Colon, Word(types[0])], BarTokens(types[1..]));
    }
  }

  lemma BoxSpells(e: A.EdgePattern, y: Style)
    requires WritableEdge(e)
    ensures AllSpellable(BoxTokens(e, y))
  {
    hide Braced, TypeTokens, DepthTokens, WritableProps, WritableNode, WritableType, WritableDepth, Name;
    BracedSpell(e.properties, y);
    TypeSpells(e.edgeType);
    DepthSpells(e.depth);
    var depth, none: seq<Token> := DepthTokens(e.depth), [];
    var a, b, d := VarTokens(e.variable), TypeTokens(e.edgeType), Braced(e.properties, y);
    var c, o := if y.outside then none else depth, if y.outside then depth else none;
    SpellJoin([LeftBracket], a);
    SpellJoin([LeftBracket] + a, b);
    SpellJoin([LeftBracket] + a + b, c);
    SpellJoin([LeftBracket] + a + b + c, d);
    SpellJoin([LeftBracket] + a + b + c + d, [RightBracket]);
    SpellJoin([LeftBracket] + a + b + c + d + [RightBracket], o);
  }

  lemma EdgeSpells(e: A.EdgePattern, y: Style)
    requires WritableEdge(e)
    ensures AllSpellable(EdgeTokens(e, y)) && AllSpellable(NodeTokens(e.fromNode, y))
  {
    hide BoxTokens, NodeTokens, WritableProps, WritableNode, WritableType, WritableDepth;
    BoxSpells(e, y);
    NodeSpells(e.toNode, y);
    NodeSpells(e.fromNode, y);
    var open := [if e.direction == A.Left then LeftArrow else Minus];
    SpellJoin(open, BoxTokens(e, y));
    SpellJoin(open + BoxTokens(e, y), ArrowTokens(e.direction));
    SpellJoin(open + BoxTokens(e, y) + ArrowTokens(e.direction), NodeTokens(e.toNode, y));
  }

  lemma {:induction false} RestSpells(from: A.NodePattern, ps: seq<A.Pattern>, y: Style)
    requires WritableRest(from, ps)
    ensures AllSpellable(MatchTokens(ps, false, y))
    decreases |ps|
  {
    hide EdgeTokens, NodeTokens, WritableEdge, WritableNode;
    if ps != [] {
      match ps[0]
      case NodePat(n) =>
        NodeSpells(n, y);
        RestSpells(n, ps[1..], y);
        SpellJoin([Comma], NodeTokens(n, y));
        SpellJoin([Comma] + NodeTokens(n, y), MatchTokens(ps[1..], false, y));
      case EdgePat(e) =>
        EdgeSpells(e, y);
        RestSpells(e.toNode, ps[1..], y);
        SpellJoin(EdgeTokens(e, y), MatchTokens(ps[1..], false, y));
    }
  }

  lemma MatchSpells(ps: seq<A.Pattern>, y: Style)
    requires WritableMatch(ps)
    ensures AllSpellable(MatchTokens(ps, true, y))
  {
    hide NodeTokens, WritableRest, WritableNode;
    NodeSpells(ps[0].node, y);
    RestSpells(ps[0].node, ps[1..], y);
    SpellJoin([], NodeTokens(ps[0].node, y));
    SpellJoin([] + NodeTokens(ps[0].node, y), MatchTokens(ps[1..], false, y));
  }

  lemma {:induction false} CreateSpells(ps: seq<A.Pattern>, y: Style)
    requires forall i :: 0 <= i < |ps| ==> if ps[i].NodePat? then WritableNode(ps[i].node) else WritableEdge(ps[i].edge)
    ensures AllSpellable(CreateTokens(ps, y))
    decreases |ps|
  {
    hide EdgeTokens, NodeTokens, WritableEdge, WritableNode, Spellable;
    if ps != [] {
      CreateSpells(ps[1..], y);
      PlainSpell(Comma);
      var comma := if |ps| > 1 then [Comma] else [];
      match ps[0]
      case NodePat(n) =>
        NodeSpells(n, y);
        SpellJoin(NodeTokens(n, y), comma);
        SpellJoin(NodeTokens(n, y) + comma, CreateTokens(ps[1..], y));
      case EdgePat(e) =>
        EdgeSpells(e, y);
        var one := NodeTokens(e.fromNode, y) + EdgeTokens(e, y);
        SpellJoin(NodeTokens(e.fromNode, y), EdgeTokens(e, y));
        SpellJoin(one, comma);
        SpellJoin(one + comma, CreateTokens(ps[1..], y));
    }
  }

  lemma {:induction false} AtSpells(e: A.Expr, level: nat, y: Style)
    requires WritableExpr(e)
    ensures AllSpellable(TokensAt(e, level, y))
    decreases e, 1
  {
    hide ExprTokens, WritableExpr, Spellable;
    ExprSpells(e, y);
    PlainSpell(LeftParen);
    PlainSpell(RightParen);
    SpellJoin([LeftParen], ExprTokens(e, y));
    SpellJoin([LeftParen] + ExprTokens(e, y), [RightParen]);
  }

  lemma OpSpells(op: V.BinOp)
    ensures Spellable(OpToken(op))
  {
  }

  lemma AggregateNameIsName(f: A.AggFunc)
    ensures Name(AggregateName(f))
  {
    var name := AggregateName(f);
    assert Upper(name) == name;
  }

  lemma LeafSpells(e: A.Expr, y: Style)
    requires IsLeaf(e) && WritableExpr(e)
    ensures AllSpellable(ExprTokens(e, y))
  {
    hide Name, WritableLiteral;
    if e.Lit? {
      LiteralSpells(e.lit);
    }
  }

  /** Brackets around tokens. */
  lemma Wrapped(head: seq<Token>, inner: seq<Token>, close: Token)
    requires AllSpellable(head) && AllSpellable(inner) && Spellable(close)
    ensures AllSpellable(head + inner + [close])
  {
    hide Spellable;
    SpellJoin(head, inner);
    SpellJoin(head + inner, [close]);
  }

  lemma {:induction false} ExprSpells(e: A.Expr, y: Style)
    requires WritableExpr(e)
    ensures AllSpellable(ExprTokens(e, y))
    decreases e, 0
  {
    hide TokensAt, Name, OpToken, AggregateName, WritableLiteral, Aggregator;
    match e {
      case BinaryOp(l, op, r) =>
        AtSpells(l, LeftLevel(op), y);
        AtSpells(r, OpLevel(op) + 1, y);
        OpSpells(op);
        Wrapped([], TokensAt(l, LeftLevel(op), y), OpToken(op));
        assert [] + TokensAt(l, LeftLevel(op), y) == TokensAt(l, LeftLevel(op), y);
        SpellJoin(TokensAt(l, LeftLevel(op), y) + [OpToken(op)], TokensAt(r, OpLevel(op) + 1, y));
      case Not(x) =>
        AtSpells(x, 5, y);
        SpellJoin([KwNot], TokensAt(x, 5, y));
      case IsNull(x) =>
        AtSpells(x, 3, y);
        SpellJoin(TokensAt(x, 3, y), [KwIs, KwNull]);
      case IsNotNull(x) =>
        AtSpells(x, 3, y);
        SpellJoin(TokensAt(x, 3, y), [KwIs, KwNot, KwNull]);
      case Aggregate(f, x) =>
        ExprSpells(x, y);
        AggregateNameIsName(f);
        Wrapped([Word(AggregateName(f)), LeftParen], ExprTokens(x, y), RightParen);
      case FunctionCall(fn, args) =>
        ArgsSpell(args, y);
        Wrapped([Word(fn), LeftParen], ArgTokens(args, y), RightParen);
      case Exists(q) =>
        QuerySpells(q, y);
        Wrapped([KwExists, LeftBrace], QueryTokens(q, y), RightBrace);
      case _ => LeafSpells(e, y);
    }
  }

  /** An item, a comma and the items behind it. */
  lemma Listed(one: seq<Token>, more: bool, rest: seq<Token>)
    requires AllSpellable(one) && AllSpellable(rest)
    ensures AllSpellable(one + (if more then [Comma] else []) + rest)
  {
    var comma := if more then [Comma] else [];
    assert AllSpellable(comma);
    hide Spellable;
    SpellJoin(one, comma);
    SpellJoin(one + comma, rest);
  }

  lemma {:induction false} ArgsSpell(args: seq<A.Expr>, y: Style)
    requires WritableArgs(args)
    ensures AllSpellable(ArgTokens(args, y))
    decreases args
  {
    hide ExprTokens, WritableExpr, AllSpellable;
    if args == [] {
      NothingSpells();
    } else {
      ExprSpells(args[0], y);
      ArgsSpell(args[1..], y);
      Listed(ExprTokens(args[0], y), |args| > 1, ArgTokens(args[1..], y));
    }
  }

  lemma NothingSpells()
    ensures AllSpellable([])
  {
  }

  lemma {:induction false} WithItemSpells(item: A.WithItem, y: Style)
    requires WritableWithItem(item)
    ensures AllSpellable(WithItemTokens(item, y))
    decreases item
  {
    hide ExprTokens, WritableExpr, Name;
    ExprSpells(item.expr, y);
    SpellJoin(ExprTokens(item.expr, y), [KwAs, Word(item.alias)]);
  }

  lemma {:induction false} WithSpells(items: seq<A.WithItem>, y: Style)
    requires WritableWith(items)
    ensures AllSpellable(WithTokens(items, y))
    decreases items
  {
    hide WithItemTokens, WritableWithItem, AllSpellable;
    if items == [] {
      NothingSpells();
    } else {
      WithItemSpells(items[0], y);
      WithSpells(items[1..], y);
      Listed(WithItemTokens(items[0], y), |items| > 1, WithTokens(items[1..], y));
    }
  }

  lemma {:induction false} ReturnItemSpells(item: A.ReturnItem, y: Style)
    requires WritableReturnItem(item)
    ensures AllSpellable(ReturnItemTokens(item, y))
    decreases item
  {
    hide ExprTokens, WritableExpr;
    ExprSpells(item.expr, y);
  }

  lemma {:induction false} ReturnSpells(items: seq<A.ReturnItem>, y: Style)
    requires WritableReturn(items)
    ensures AllSpellable(ReturnTokens(items, y))
    decreases items
  {
    hide ReturnItemTokens, WritableReturnItem, AllSpellable;
    if items == [] {
      NothingSpells();
    } else {
      ReturnItemSpells(items[0], y);
      ReturnSpells(items[1..], y);
      Listed(ReturnItemTokens(items[0], y), |items| > 1, ReturnTokens(items[1..], y));
    }
  }

  lemma {:induction false} OrderItemSpells(item: A.OrderByItem, y: Style)
    requires WritableOrderItem(item)
    ensures AllSpellable(OrderItemTokens(item, y))
    decreases item
  {
    hide ExprTokens, WritableExpr;
    ExprSpells(item.expr, y);
    SpellJoin(ExprTokens(item.expr, y), if item.descending then [KwDesc] else if y.ascending then [KwAsc] else []);
  }

  lemma {:induction false} OrderSpells(items: seq<A.OrderByItem>, y: Style)
    requires WritableOrder(items)
    ensures AllSpellable(OrderTokens(items, y))
    decreases items
  {
    hide OrderItemTokens, WritableOrderItem, AllSpellable;
    if items == [] {
      NothingSpells();
    } else {
      OrderItemSpells(items[0], y);
      OrderSpells(items[1..], y);
      Listed(OrderItemTokens(items[0], y), |items| > 1, OrderTokens(items[1..], y));
    }
  }

  lemma {:induction false} ClauseSpells(q: A.Query, k: nat, y: Style)
    requires WritableQuery(q)
    ensures AllSpellable(ClauseTokens(q, k, y))
    decreases q, 0
  {
    hide MatchTokens, CreateTokens, WithTokens, ReturnTokens, OrderTokens, ExprTokens, WritableRest, WritableWith, WritableReturn, WritableOrder, WritableExpr,
         WritableNode, WritableEdge;
    if k == 0 && q.matchClause.Some? {
      MatchSpells(q.matchClause.value, y);
      SpellJoin([KwMatch], MatchTokens(q.matchClause.value, true, y));
    } else if k == 1 && q.createClause.Some? {
      CreateSpells(q.createClause.value, y);
      SpellJoin([KwCreate], CreateTokens(q.createClause.value, y));
    } else if k == 2 && q.withClause.Some? {
      WithSpells(q.withClause.value.items, y);
      SpellJoin([KwWith], WithTokens(q.withClause.value.items, y));
    } else if k == 3 && q.whereClause.Some? {
      ExprSpells(q.whereClause.value, y);
      SpellJoin([KwWhere], ExprTokens(q.whereClause.value, y));
    } else if k == 4 && q.returnClause.Some? {
      ReturnSpells(q.returnClause.value.items, y);
      SpellJoin([KwReturn], ReturnTokens(q.returnClause.value.items, y));
    } else if k == 5 && q.orderBy.Some? {
      OrderSpells(q.orderBy.value.items, y);
      SpellJoin([KwOrder, KwBy], OrderTokens(q.orderBy.value.items, y));
    }
  }

  lemma {:induction false} ClausesSpell(q: A.Query, k: nat, y: Style)
    requires WritableQuery(q)
    ensures AllSpellable(ClausesFrom(q, k, y))
    decreases q, 1, 7 - k
  {
    hide ClauseTokens, WritableQuery, Spellable;
    if k < 7 {
      ClauseSpells(q, k, y);
      ClausesSpell(q, k + 1, y);
      SpellJoin(ClauseTokens(q, k, y), ClausesFrom(q, k + 1, y));
    }
  }

  lemma {:induction false} QuerySpells(q: A.Query, y: Style)
    requires WritableQuery(q)
    ensures AllSpellable(QueryTokens(q, y))
    decreases q, 2
  {
    hide ClausesFrom, WritableQuery, AllSpellable;
    ClausesSpell(q, 0, y);
  }

  // ---------- the round trip ----------

  /** A query as text. */
  ghost function QueryText(q: A.Query, y: Style): string
    requires WritableQuery(q)
  {
    QuerySpells(q, y);
    Spell(QueryTokens(q, y))
  }

  /** Every query that can be written is read back from its text: patterns with their directions, types, depth
      ranges and properties, expressions with their precedence, and every clause. */
  lemma WrittenQueryIsRead(q: A.Query, y: Style)
    requires WritableQuery(q)
    ensures ParseText(QueryText(q, y)) == Ok(q)
  {
    hide Lex, ParseQuery, QueryTokens, WritableQuery, AllSpellable, Spell;
    QuerySpells(q, y);
    var tokens := QueryTokens(q, y);
    LexSpelled(tokens);
    var ts := tokens + [Eof];
    assert ts[0..|tokens|] == tokens;
    QueryReads(ts, 0, q, y);
  }
}
