/** Whatever the parser reads can be written: together with the round trip, a query is read from some text exactly
    when it can be written. */
module WritableQueries {
  import opened Prelude
  import opened Text
  import opened Lexer
  import opened Grammar
  import opened SdkPrinter
  import opened PrintParse
  import EdgeTypes
  import opened QueryPrinter
  import opened TokenText
  import opened PatternLists
  import opened PatternReading
  import opened QueryRoundTrip
  import V = Values
  import A = Ast

  // ---------- what the lexer delivers ----------

  /** Every token but the end has a text. */
  ghost predicate Clean(ts: seq<Token>) {
    forall i :: 0 <= i < |ts| ==> ts[i] == Eof || Spellable(ts[i])
  }

  lemma {:induction false} WordIsWord(s: string)
    ensures forall i :: 0 <= i < WordLength(s) ==> IsWordChar(s[i])
  {
    if s != [] && IsWordChar(s[0]) {
      WordIsWord(s[1..]);
      forall i | 0 <= i < WordLength(s) ensures IsWordChar(s[i]) {
        assert i > 0 ==> s[i] == s[1..][i - 1];
      }
    }
  }

  lemma WordIsSpellable(word: string)
    requires IsWord(word)
    ensures Spellable(WordToken(word))
  {
    if WordToken(word).Word? {
      assert WordToken(word) == Word(word);
    }
  }

  lemma {:induction false} UnquotedIsUnsplit(s: string)
    ensures Unsplit(s[..Unquoted(s)])
  {
    if s != [] && s[0] != '\'' {
      UnquotedIsUnsplit(s[1..]);
      assert s[..Unquoted(s)] == [s[0]] + s[1..][..Unquoted(s[1..])];
    }
  }

  lemma {:induction false} NumberStops(s: string)
    ensures NumberLength(s) > 0 ==> IsDigit(s[NumberLength(s) - 1])
  {
    if s != [] && (IsDigit(s[0]) || (s[0] == '.' && 1 < |s| && IsDigit(s[1]))) {
      NumberStops(s[1..]);
      if s[0] == '.' {
        NumberStarts(s[1..]);
      }
      if NumberLength(s) > 1 {
        assert s[NumberLength(s) - 1] == s[1..][NumberLength(s[1..]) - 1];
      }
    }
  }

  lemma {:induction false} LastPiece(s: string)
    requires s != [] && s[|s| - 1] != '.'
    ensures Split(s, '.')[|Split(s, '.')| - 1] != []
  {
    if |s| > 1 {
      assert s[1..][|s[1..]| - 1] == s[|s| - 1];
      LastPiece(s[1..]);
    }
  }

  lemma NumberIsSpellable(s: string)
    requires s != [] && s[|s| - 1] != '.' && NumberToken(s).Ok?
    ensures Spellable(NumberToken(s).value)
  {
    hide Split, DecimalValue, Pow10;
    LastPiece(s);
    var parts := Split(s, '.');
    if |parts| == 2 && AllDigits(parts[0]) && AllDigits(parts[1]) {
      var r := NumberToken(s).value.r;
      assert FloatText(r, DecimalValue(parts[0]), parts[1]);
    }
  }

  lemma RunIsSpellable(s: string)
    requires s != [] && ScanRun(s).Ok?
    ensures Spellable(ScanRun(s).value.token)
  {
    hide NumberToken, WordToken, NumberLength, WordLength, Spellable;
    if IsDigit(s[0]) {
      var n := NumberLength(s);
      NumberStarts(s);
      NumberStops(s);
      assert s[..n][n - 1] == s[n - 1];
      NumberIsSpellable(s[..n]);
    } else {
      WordIsWord(s);
      WordStarts(s);
      WordIsSpellable(s[..WordLength(s)]);
    }
  }

  lemma NumberStarts(s: string)
    requires s != [] && IsDigit(s[0])
    ensures NumberLength(s) > 0
  {
  }

  lemma WordStarts(s: string)
    requires s != [] && IsWordChar(s[0])
    ensures WordLength(s) > 0
  {
  }

  lemma TokenIsSpellable(s: string)
    requires s != [] && !IsSpace(s[0]) && ScanToken(s).Ok?
    ensures Spellable(ScanToken(s).value.token)
  {
    hide ScanRun, WordToken, Name, WritableFloat;
    if s[0] == '\'' {
      UnquotedIsUnsplit(s[1..]);
    }
    if ScanToken(s) == ScanRun(s) {
      RunIsSpellable(s);
    }
  }

  lemma {:induction false} LexIsClean(s: string)
    requires Lex(s).Ok?
    ensures Clean(Lex(s).value)
    decreases |s|
  {
    hide Spellable, ScanToken;
    var next := Scan(s).value;
    if next.token != Eof {
      SpacesStop(s);
      TokenIsSpellable(s[Spaces(s)..]);
      LexIsClean(s[next.length..]);
    }
  }

  // ---------- patterns ----------

  lemma WordIsName(ts: seq<Token>, pos: nat)
    requires Clean(ts) && pos < |ts| && ts[pos].Word?
    ensures Name(ts[pos].name)
  {
    hide Name;
    assert Spellable(ts[pos]);
  }

  lemma OptionalIsWritable(ts: seq<Token>, pos: nat)
    requires Ended(ts) && Clean(ts) && pos < |ts|
    ensures WritableVar(OptionalWord(ts, pos).tree)
  {
    hide Clean, Name;
    if ts[pos].Word? {
      WordIsName(ts, pos);
    }
  }

  lemma LiteralIsWritable(ts: seq<Token>, pos: nat)
    requires Ended(ts) && Clean(ts) && pos < |ts| && ParseLiteral(ts, pos).Ok?
    ensures WritableLiteral(ParseLiteral(ts, pos).value.tree)
  {
    hide Name, WritableFloat;
    assert ts[pos] == Eof || Spellable(ts[pos]);
  }

  lemma InsertKeeps(props: A.Properties, key: string, value: A.Literal)
    requires WritableProps(props) && Name(key) && WritableLiteral(value)
    ensures WritableProps(Insert(props, key, value))
  {
    hide Name, WritableLiteral, Insert;
    var all := Insert(props, key, value);
    InsertPairs(props, key, value);
    forall i | 0 <= i < |all| ensures Name(all[i].0) && WritableLiteral(all[i].1) {
      assert all[i] in all;
    }
  }

  lemma {:induction false} PropsAreWritable(ts: seq<Token>, pos: nat, before: A.Properties)
    requires Ended(ts) && Clean(ts) && pos < |ts| && WritableProps(before) && ParseProperties(ts, pos, before).Ok?
    ensures WritableProps(ParseProperties(ts, pos, before).value.tree)
    decreases |ts| - pos
  {
    hide Ended, Clean, WritableProps, WritableLiteral, ParseLiteral, Insert, Name;
    if ts[pos] != RightBrace {
      var key := ExpectWord(ts, pos).value;
      WordIsName(ts, pos);
      var value := ParseLiteral(ts, key.next + 1).value;
      LiteralIsWritable(ts, key.next + 1);
      InsertKeeps(before, key.tree, value.tree);
      if ts[value.next] == Comma {
        PropsAreWritable(ts, value.next + 1, Insert(before, key.tree, value.tree));
      }
    }
  }

  lemma NoProps()
    ensures WritableProps([])
  {
  }

  lemma BracedIsWritable(ts: seq<Token>, pos: nat)
    requires Ended(ts) && Clean(ts) && pos < |ts| && ParseBraced(ts, pos).Ok?
    ensures WritableProps(ParseBraced(ts, pos).value.tree)
  {
    hide Clean, WritableProps, ParseProperties;
    NoProps();
    if ts[pos] == LeftBrace {
      PropsAreWritable(ts, pos + 1, []);
    }
  }

  lemma LabelsAreWritable(ts: seq<Token>, pos: nat)
    requires Ended(ts) && Clean(ts) && pos < |ts|
    ensures var labels := ParseLabels(ts, pos).tree; |labels| <= 1 && (labels != [] ==> Name(labels[0]))
  {
    hide Clean, Name;
    if ts[pos] == Colon && ts[pos + 1].Word? {
      WordIsName(ts, pos + 1);
    }
  }

  lemma NodeIsWritable(ts: seq<Token>, pos: nat)
    requires Ended(ts) && Clean(ts) && pos < |ts| && ParseNodePattern(ts, pos).Ok?
    ensures WritableNode(ParseNodePattern(ts, pos).value.tree)
  {
    hide Ended, Clean, WritableProps, ParseBraced, ParseLabels, OptionalWord, Name;
    var variable := OptionalWord(ts, pos + 1);
    OptionalIsWritable(ts, pos + 1);
    var labels := ParseLabels(ts, variable.next);
    LabelsAreWritable(ts, variable.next);
    BracedIsWritable(ts, labels.next);
  }

  lemma DepthIsWritable(ts: seq<Token>, pos: nat)
    requires Ended(ts) && pos < |ts| && ParseDepth(ts, pos).Ok?
    ensures WritableDepth(ParseDepth(ts, pos).value.tree)
  {
  }

  lemma {:induction false} TypesAreNames(ts: seq<Token>, pos: nat, types: seq<string>)
    requires Ended(ts) && Clean(ts) && pos < |ts| && types != [] && EdgeTypes.Names(types) && ParseMoreTypes(ts, pos, types).Ok?
    ensures ParseMoreTypes(ts, pos, types).value.tree != [] && EdgeTypes.Names(ParseMoreTypes(ts, pos, types).value.tree)
    decreases |ts| - pos
  {
    hide Ended, Clean, Name;
    if ts[pos] == Pipe {
      var t := ExpectWord(ts, pos + 1).value;
      WordIsName(ts, pos + 1);
      TypesAreNames(ts, t.next, types + [t.tree]);
    }
  }

  lemma TypeIsWritable(ts: seq<Token>, pos: nat)
    requires Ended(ts) && Clean(ts) && pos < |ts| && ParseEdgeType(ts, pos).Ok?
    ensures WritableType(ParseEdgeType(ts, pos).value.tree)
  {
    hide Ended, Clean, Name, ParseMoreTypes, Join, Split;
    if ts[pos] == Colon {
      var first := ExpectWord(ts, pos + 1).value;
      WordIsName(ts, pos + 1);
      TypesAreNames(ts, first.next, [first.tree]);
      EdgeTypes.UnionRoundTrip(ParseMoreTypes(ts, first.next, [first.tree]).value.tree);
    }
  }

  lemma DetailIsWritable(ts: seq<Token>, pos: nat)
    requires Ended(ts) && Clean(ts) && pos < |ts| && ParseEdgeDetail(ts, pos).Ok?
    ensures var d := ParseEdgeDetail(ts, pos).value.tree;
            WritableVar(d.variable) && WritableType(d.edgeType) && WritableProps(d.properties) && WritableDepth(d.depth)
  {
    hide Ended, Clean, Name, ParseEdgeType, ParseDepth, ParseBraced, OptionalWord, WritableProps, WritableType;
    NoProps();
    NoTypeIsWritable();
    if ts[pos] == LeftBracket {
      var variable := OptionalWord(ts, pos + 1);
      OptionalIsWritable(ts, pos + 1);
      var edgeType := ParseEdgeType(ts, variable.next).value;
      TypeIsWritable(ts, variable.next);
      var inside := ParseDepth(ts, edgeType.next).value;
      DepthIsWritable(ts, edgeType.next);
      var props := ParseBraced(ts, inside.next).value;
      BracedIsWritable(ts, inside.next);
      DepthIsWritable(ts, props.next + 1);
    }
  }

  lemma NoTypeIsWritable()
    ensures WritableType(None)
  {
  }

  lemma EdgeIsWritable(ts: seq<Token>, pos: nat, from: A.NodePattern)
    requires Ended(ts) && Clean(ts) && pos < |ts| && (ts[pos] == Minus || ts[pos] == LeftArrow) && WritableNode(from)
    requires ParseEdgePattern(ts, pos, from).Ok?
    ensures WritableEdge(ParseEdgePattern(ts, pos, from).value.tree)
  {
    hide Clean, WritableNode, WritableProps, WritableType, WritableDepth, ParseEdgeDetail, ParseNodePattern, CloseEdge, Name;
    var detail := ParseEdgeDetail(ts, pos + 1).value;
    DetailIsWritable(ts, pos + 1);
    var direction := CloseEdge(ts, detail.next, ts[pos] == LeftArrow);
    NodeIsWritable(ts, direction.next);
  }

  // ---------- pattern lists ----------

  /** The node that an edge behind this pattern begins at. */
  function NodeBehind(p: A.Pattern): A.NodePattern {
    if p.NodePat? then p.node else p.edge.toNode
  }

  /** Patterns of a MATCH so far. */
  ghost predicate Chained(ps: seq<A.Pattern>) {
    && (ps != [] ==> ps[0].NodePat?)
    && (forall i :: 0 <= i < |ps| ==> WritablePattern(ps[i]))
    && (forall i :: 0 < i < |ps| && ps[i].EdgePat? ==> ps[i].edge.fromNode == NodeBehind(ps[i - 1]))
  }

  lemma ChainedMore(ps: seq<A.Pattern>, p: A.Pattern)
    requires Chained(ps) && WritablePattern(p) && (p.EdgePat? ==> ps != [] && p.edge.fromNode == NodeBehind(ps[|ps| - 1]))
    ensures Chained(ps + [p])
  {
    hide WritablePattern;
  }

  lemma {:induction false} ChainedRest(ps: seq<A.Pattern>, i: nat)
    requires Chained(ps) && 0 < i <= |ps|
    ensures WritableRest(NodeBehind(ps[i - 1]), ps[i..])
    decreases |ps| - i
  {
    hide WritableNode, WritableEdge;
    if i < |ps| {
      assert ps[i..][1..] == ps[i + 1..];
      ChainedRest(ps, i + 1);
    }
  }

  lemma ChainedIsWritable(ps: seq<A.Pattern>)
    requires Chained(ps) && ps != []
    ensures WritableMatch(ps)
  {
    hide WritableRest, WritableNode, WritableEdge;
    ChainedRest(ps, 1);
  }

  lemma {:induction false} EdgesChain(ts: seq<Token>, pos: nat, before: seq<A.Pattern>)
    requires Ended(ts) && Clean(ts) && pos < |ts| && Chained(before) && before != [] && WritableNode(NodeBehind(before[|before| - 1]))
    requires ParseEdges(ts, pos, NodeBehind(before[|before| - 1]), before).Ok?
    ensures var r := ParseEdges(ts, pos, NodeBehind(before[|before| - 1]), before).value.tree; Chained(r.1) && r.1 != []
    decreases |ts| - pos
  {
    hide Ended, Clean, Chained, WritableNode, ParseEdgePattern;
    var from := NodeBehind(before[|before| - 1]);
    if ts[pos] == Minus || ts[pos] == LeftArrow {
      var e := ParseEdgePattern(ts, pos, from).value;
      EdgeIsWritable(ts, pos, from);
      WritableTo(e.tree);
      ChainedMore(before, A.EdgePat(e.tree));
      EdgesChain(ts, e.next, before + [A.EdgePat(e.tree)]);
    }
  }

  lemma WritableTo(e: A.EdgePattern)
    requires WritableEdge(e)
    ensures WritableNode(e.toNode) && WritablePattern(A.EdgePat(e))
  {
    hide WritableNode, WritableProps, WritableType;
  }

  lemma {:induction false} MatchChains(ts: seq<Token>, pos: nat, before: seq<A.Pattern>)
    requires Ended(ts) && Clean(ts) && pos < |ts| && Chained(before) && ParseMatchPatterns(ts, pos, before).Ok?
    ensures var r := ParseMatchPatterns(ts, pos, before).value.tree; Chained(r) && r != []
    decreases |ts| - pos
  {
    hide Ended, Clean, Chained, WritableNode, ParseNodePattern, ParseEdges;
    var first := ParseNodePattern(ts, pos).value;
    NodeIsWritable(ts, pos);
    var start := before + [A.NodePat(first.tree)];
    ChainedMore(before, A.NodePat(first.tree));
    EdgesChain(ts, first.next, start);
    var chain := ParseChain(ts, pos, before).value;
    if ts[chain.next] == Comma {
      MatchChains(ts, chain.next + 1, chain.tree);
    }
  }

  /** Patterns of a CREATE so far. */
  ghost predicate Made(ps: seq<A.Pattern>) {
    && (forall i :: 0 <= i < |ps| ==> WritablePattern(ps[i]))
    && (forall i :: 0 < i < |ps| && ps[i].NodePat? ==> ps[i - 1].NodePat?)
  }

  lemma MadeMore(ps: seq<A.Pattern>, p: A.Pattern)
    requires Made(ps) && WritablePattern(p) && (p.NodePat? ==> !EndsInEdge(ps))
    ensures Made(ps + [p])
  {
    hide WritablePattern;
  }

  lemma {:induction false} EdgesMake(ts: seq<Token>, pos: nat, from: A.NodePattern, before: seq<A.Pattern>)
    requires Ended(ts) && Clean(ts) && pos < |ts| && Made(before) && WritableNode(from) && ParseEdges(ts, pos, from, before).Ok?
    ensures var r := ParseEdges(ts, pos, from, before).value.tree; Made(r.1) && WritableNode(r.0)
    decreases |ts| - pos
  {
    hide Ended, Clean, Made, WritableNode, ParseEdgePattern;
    if ts[pos] == Minus || ts[pos] == LeftArrow {
      var e := ParseEdgePattern(ts, pos, from).value;
      EdgeIsWritable(ts, pos, from);
      WritableTo(e.tree);
      MadeMore(before, A.EdgePat(e.tree));
      EdgesMake(ts, e.next, e.tree.toNode, before + [A.EdgePat(e.tree)]);
    }
  }

  lemma {:induction false} CreateMakes(ts: seq<Token>, pos: nat, before: seq<A.Pattern>)
    requires Ended(ts) && Clean(ts) && pos < |ts| && Made(before) && ParseCreatePatterns(ts, pos, before).Ok?
    ensures var r := ParseCreatePatterns(ts, pos, before).value.tree; Made(r) && r != []
    decreases |ts| - pos
  {
    hide Ended, Clean, Made, WritableNode, ParseNodePattern, ParseEdges;
    var first := ParseNodePattern(ts, pos).value;
    NodeIsWritable(ts, pos);
    EdgesMake(ts, first.next, first.tree, before);
    var edges := ParseEdges(ts, first.next, first.tree, before).value.tree;
    if edges.1 == [] || !edges.1[|edges.1| - 1].EdgePat? {
      MadeMore(edges.1, A.NodePat(edges.0));
    }
    var chain := ParseCreateChain(ts, pos, before).value;
    if ts[chain.next] == Comma {
      CreateMakes(ts, chain.next + 1, chain.tree);
    }
  }

  lemma MadeIsWritable(ps: seq<A.Pattern>)
    requires Made(ps) && ps != []
    ensures WritableCreate(ps)
  {
    hide WritableNode, WritableEdge;
  }

  // ---------- expressions ----------

  lemma {:induction false} ExprIsWritable(ts: seq<Token>, pos: nat)
    requires Ended(ts) && Clean(ts) && pos < |ts| && ParseExpr(ts, pos).Ok?
    ensures WritableExpr(ParseExpr(ts, pos).value.tree)
    decreases |ts| - pos, 8
  {
    hide Ended, Clean, WritableExpr, ParseAnd, OrRest;
    AndIsWritable(ts, pos);
    var left := ParseAnd(ts, pos).value;
    OrRestIsWritable(ts, left.next, left.tree);
  }

  lemma BinaryIsWritable(l: A.Expr, op: V.BinOp, r: A.Expr)
    requires WritableExpr(l) && WritableExpr(r)
    ensures WritableExpr(A.BinaryOp(l, op, r))
  {
  }

  lemma {:induction false} OrRestIsWritable(ts: seq<Token>, pos: nat, left: A.Expr)
    requires Ended(ts) && Clean(ts) && pos < |ts| && WritableExpr(left) && OrRest(ts, pos, left).Ok?
    ensures WritableExpr(OrRest(ts, pos, left).value.tree)
    decreases |ts| - pos, 0
  {
    hide Ended, Clean, WritableExpr, ParseAnd;
    if ts[pos] == KwOr {
      var right := ParseAnd(ts, pos + 1).value;
      AndIsWritable(ts, pos + 1);
      BinaryIsWritable(left, V.Or, right.tree);
      OrRestIsWritable(ts, right.next, A.BinaryOp(left, V.Or, right.tree));
    }
  }

  lemma {:induction false} AndIsWritable(ts: seq<Token>, pos: nat)
    requires Ended(ts) && Clean(ts) && pos < |ts| && ParseAnd(ts, pos).Ok?
    ensures WritableExpr(ParseAnd(ts, pos).value.tree)
    decreases |ts| - pos, 7
  {
    hide Ended, Clean, WritableExpr, ParseComparison, AndRest;
    ComparisonIsWritable(ts, pos);
    var left := ParseComparison(ts, pos).value;
    AndRestIsWritable(ts, left.next, left.tree);
  }

  lemma {:induction false} AndRestIsWritable(ts: seq<Token>, pos: nat, left: A.Expr)
    requires Ended(ts) && Clean(ts) && pos < |ts| && WritableExpr(left) && AndRest(ts, pos, left).Ok?
    ensures WritableExpr(AndRest(ts, pos, left).value.tree)
    decreases |ts| - pos, 0
  {
    hide Ended, Clean, WritableExpr, ParseComparison;
    if ts[pos] == KwAnd {
      var right := ParseComparison(ts, pos + 1).value;
      ComparisonIsWritable(ts, pos + 1);
      BinaryIsWritable(left, V.And, right.tree);
      AndRestIsWritable(ts, right.next, A.BinaryOp(left, V.And, right.tree));
    }
  }

  lemma {:induction false} ComparisonIsWritable(ts: seq<Token>, pos: nat)
    requires Ended(ts) && Clean(ts) && pos < |ts| && ParseComparison(ts, pos).Ok?
    ensures WritableExpr(ParseComparison(ts, pos).value.tree)
    decreases |ts| - pos, 6
  {
    hide Ended, Clean, WritableExpr, ParseAdditive, CompareRest;
    AdditiveIsWritable(ts, pos);
    var left := ParseAdditive(ts, pos).value;
    CompareRestIsWritable(ts, left.next, left.tree);
  }

  lemma NullTestsAreWritable(x: A.Expr)
    requires WritableExpr(x)
    ensures WritableExpr(A.IsNull(x)) && WritableExpr(A.IsNotNull(x)) && WritableExpr(A.Not(x))
  {
  }

  lemma {:induction false} CompareRestIsWritable(ts: seq<Token>, pos: nat, left: A.Expr)
    requires Ended(ts) && Clean(ts) && pos < |ts| && WritableExpr(left) && CompareRest(ts, pos, left).Ok?
    ensures WritableExpr(CompareRest(ts, pos, left).value.tree)
    decreases |ts| - pos, 0
  {
    hide Ended, Clean, WritableExpr, ParseAdditive;
    NullTestsAreWritable(left);
    if ts[pos] != KwIs && ComparisonOp(ts[pos]).Some? {
      var right := ParseAdditive(ts, pos + 1).value;
      AdditiveIsWritable(ts, pos + 1);
      BinaryIsWritable(left, ComparisonOp(ts[pos]).value, right.tree);
    }
  }

  lemma {:induction false} AdditiveIsWritable(ts: seq<Token>, pos: nat)
    requires Ended(ts) && Clean(ts) && pos < |ts| && ParseAdditive(ts, pos).Ok?
    ensures WritableExpr(ParseAdditive(ts, pos).value.tree)
    decreases |ts| - pos, 5
  {
    hide Ended, Clean, WritableExpr, ParseMultiplicative, AddRest;
    ProductIsWritable(ts, pos);
    var left := ParseMultiplicative(ts, pos).value;
    AddRestIsWritable(ts, left.next, left.tree);
  }

  lemma {:induction false} AddRestIsWritable(ts: seq<Token>, pos: nat, left: A.Expr)
    requires Ended(ts) && Clean(ts) && pos < |ts| && WritableExpr(left) && AddRest(ts, pos, left).Ok?
    ensures WritableExpr(AddRest(ts, pos, left).value.tree)
    decreases |ts| - pos, 0
  {
    hide Ended, Clean, WritableExpr, ParseMultiplicative;
    if AdditiveOp(ts[pos]).Some? {
      var right := ParseMultiplicative(ts, pos + 1).value;
      ProductIsWritable(ts, pos + 1);
      BinaryIsWritable(left, AdditiveOp(ts[pos]).value, right.tree);
      AddRestIsWritable(ts, right.next, A.BinaryOp(left, AdditiveOp(ts[pos]).value, right.tree));
    }
  }

  lemma {:induction false} ProductIsWritable(ts: seq<Token>, pos: nat)
    requires Ended(ts) && Clean(ts) && pos < |ts| && ParseMultiplicative(ts, pos).Ok?
    ensures WritableExpr(ParseMultiplicative(ts, pos).value.tree)
    decreases |ts| - pos, 4
  {
    hide Ended, Clean, WritableExpr, ParsePrimary, MulRest;
    PrimaryIsWritable(ts, pos);
    var left := ParsePrimary(ts, pos).value;
    MulRestIsWritable(ts, left.next, left.tree);
  }

  lemma {:induction false} MulRestIsWritable(ts: seq<Token>, pos: nat, left: A.Expr)
    requires Ended(ts) && Clean(ts) && pos < |ts| && WritableExpr(left) && MulRest(ts, pos, left).Ok?
    ensures WritableExpr(MulRest(ts, pos, left).value.tree)
    decreases |ts| - pos, 0
  {
    hide Ended, Clean, WritableExpr, ParsePrimary;
    if MultiplicativeOp(ts[pos]).Some? {
      var right := ParsePrimary(ts, pos + 1).value;
      PrimaryIsWritable(ts, pos + 1);
      BinaryIsWritable(left, MultiplicativeOp(ts[pos]).value, right.tree);
      MulRestIsWritable(ts, right.next, A.BinaryOp(left, MultiplicativeOp(ts[pos]).value, right.tree));
    }
  }

  lemma LeafIsWritable(ts: seq<Token>, pos: nat)
    requires Ended(ts) && Clean(ts) && pos < |ts| && ParsePrimary(ts, pos).Ok?
    requires ts[pos] != KwNot && ts[pos] != KwExists && ts[pos] != LeftParen && !(ts[pos].Word? && ts[pos + 1] == LeftParen)
    ensures WritableExpr(ParsePrimary(ts, pos).value.tree)
  {
    hide Clean, Name, ParseLiteral, ParseExpr, ParseQuery, ParseCall, WritableLiteral;
    if ts[pos].Word? {
      WordIsName(ts, pos);
      if ts[pos + 1] == Dot {
        WordIsName(ts, pos + 2);
      }
    } else if ts[pos] == Dollar {
      WordIsName(ts, pos + 1);
    } else {
      LiteralIsWritable(ts, pos);
    }
  }

  lemma {:induction false} PrimaryIsWritable(ts: seq<Token>, pos: nat)
    requires Ended(ts) && Clean(ts) && pos < |ts| && ParsePrimary(ts, pos).Ok?
    ensures WritableExpr(ParsePrimary(ts, pos).value.tree)
    decreases |ts| - pos, 3
  {
    hide Ended, Clean, WritableExpr, ParsePrimary, ParseExpr, ParseQuery, ParseCall, WritableQuery;
    PrimaryForms(ts, pos);
    if ts[pos] == KwNot {
      PrimaryIsWritable(ts, pos + 1);
      NullTestsAreWritable(ParsePrimary(ts, pos + 1).value.tree);
    } else if ts[pos] == KwExists {
      QueryIsWritable(ts, pos + 2);
      ExistsIsWritable(ParseQuery(ts, pos + 2).value.tree);
    } else if ts[pos] == LeftParen {
      ExprIsWritable(ts, pos + 1);
    } else if IsCall(ts, pos) {
      CallIsWritable(ts, pos);
    } else {
      LeafIsWritable(ts, pos);
    }
  }

  predicate IsCall(ts: seq<Token>, pos: nat) {
    pos + 1 < |ts| && ts[pos].Word? && ts[pos + 1] == LeftParen
  }

  lemma PrimaryForms(ts: seq<Token>, pos: nat)
    requires Ended(ts) && pos < |ts| && ParsePrimary(ts, pos).Ok?
    ensures ts[pos] != Eof && (ts[pos] == KwNot || ts[pos] == KwExists || ts[pos] == LeftParen ==> pos + 1 < |ts|)
    ensures ts[pos] == KwNot ==>
      ParsePrimary(ts, pos + 1).Ok? && ParsePrimary(ts, pos).value.tree == A.Not(ParsePrimary(ts, pos + 1).value.tree)
    ensures ts[pos] == KwExists ==>
      pos + 2 < |ts| && ParseQuery(ts, pos + 2).Ok? && ParsePrimary(ts, pos).value.tree == A.Exists(ParseQuery(ts, pos + 2).value.tree)
    ensures ts[pos] == LeftParen ==>
      ParseExpr(ts, pos + 1).Ok? && ParsePrimary(ts, pos).value.tree == ParseExpr(ts, pos + 1).value.tree
    ensures IsCall(ts, pos) ==> ParsePrimary(ts, pos) == ParseCall(ts, pos)
    ensures ts[pos].Word? ==> pos + 1 < |ts|
  {
    hide ParseExpr, ParseQuery, ParseCall;
  }

  lemma ExistsIsWritable(q: A.Query)
    requires WritableQuery(q)
    ensures WritableExpr(A.Exists(q))
  {
    hide WritableQuery;
  }

  lemma CallsAreWritable(f: A.AggFunc, x: A.Expr, fn: string, args: seq<A.Expr>)
    ensures WritableExpr(x) ==> WritableExpr(A.Aggregate(f, x))
    ensures Name(fn) && Aggregator(fn).None? && WritableArgs(args) ==> WritableExpr(A.FunctionCall(fn, args))
  {
    hide Name, Aggregator, WritableArgs;
  }

  lemma {:induction false} CallIsWritable(ts: seq<Token>, pos: nat)
    requires Ended(ts) && Clean(ts) && pos + 1 < |ts| && ts[pos].Word? && ts[pos + 1] == LeftParen && ParseCall(ts, pos).Ok?
    ensures WritableExpr(ParseCall(ts, pos).value.tree)
    decreases |ts| - pos, 2
  {
    hide Clean, WritableExpr, ParseExpr, ParseArgs, Aggregator, WritableArgs, Name;
    var name := ts[pos].name;
    WordIsName(ts, pos);
    if Aggregator(name).Some? {
      ExprIsWritable(ts, pos + 2);
      CallsAreWritable(Aggregator(name).value, ParseExpr(ts, pos + 2).value.tree, name, []);
    } else {
      NoArgsAreWritable();
      if ts[pos + 2] != RightParen {
        ArgsAreWritable(ts, pos + 2, []);
      }
      CallsAreWritable(A.Count, A.Lit(A.LitNull), name, if ts[pos + 2] == RightParen then [] else ParseArgs(ts, pos + 2, []).value.tree);
    }
  }

  lemma NoArgsAreWritable()
    ensures WritableArgs([])
  {
  }

  lemma {:induction false} MoreArgs(args: seq<A.Expr>, e: A.Expr)
    requires WritableArgs(args) && WritableExpr(e)
    ensures WritableArgs(args + [e])
    decreases |args|
  {
    hide WritableExpr;
    if args != [] {
      MoreArgs(args[1..], e);
      assert (args + [e])[1..] == args[1..] + [e];
    } else {
      assert (args + [e])[1..] == [];
    }
  }

  lemma {:induction false} ArgsAreWritable(ts: seq<Token>, pos: nat, before: seq<A.Expr>)
    requires Ended(ts) && Clean(ts) && pos < |ts| && WritableArgs(before) && ParseArgs(ts, pos, before).Ok?
    ensures WritableArgs(ParseArgs(ts, pos, before).value.tree)
    decreases |ts| - pos, 9
  {
    hide Ended, Clean, WritableExpr, ParseExpr, WritableArgs;
    var e := ParseExpr(ts, pos).value;
    ExprIsWritable(ts, pos);
    MoreArgs(before, e.tree);
    if ts[e.next] == Comma {
      ArgsAreWritable(ts, e.next + 1, before + [e.tree]);
    }
  }

  // ---------- clauses ----------

  lemma {:induction false} MoreReturn(items: seq<A.ReturnItem>, x: A.ReturnItem)
    requires WritableReturn(items) && WritableReturnItem(x)
    ensures WritableReturn(items + [x])
    decreases |items|
  {
    hide WritableReturnItem;
    if items != [] {
      MoreReturn(items[1..], x);
      assert (items + [x])[1..] == items[1..] + [x];
    } else {
      assert (items + [x])[1..] == [];
    }
  }

  lemma {:induction false} MoreWith(items: seq<A.WithItem>, x: A.WithItem)
    requires WritableWith(items) && WritableWithItem(x)
    ensures WritableWith(items + [x])
    decreases |items|
  {
    hide WritableWithItem;
    if items != [] {
      MoreWith(items[1..], x);
      assert (items + [x])[1..] == items[1..] + [x];
    } else {
      assert (items + [x])[1..] == [];
    }
  }

  lemma {:induction false} MoreOrder(items: seq<A.OrderByItem>, x: A.OrderByItem)
    requires WritableOrder(items) && WritableOrderItem(x)
    ensures WritableOrder(items + [x])
    decreases |items|
  {
    hide WritableOrderItem;
    if items != [] {
      MoreOrder(items[1..], x);
      assert (items + [x])[1..] == items[1..] + [x];
    } else {
      assert (items + [x])[1..] == [];
    }
  }

  lemma NoItems()
    ensures WritableReturn([]) && WritableWith([]) && WritableOrder([])
  {
  }

  lemma {:induction false} ReturnIsWritable(ts: seq<Token>, pos: nat, before: seq<A.ReturnItem>)
    requires Ended(ts) && Clean(ts) && pos < |ts| && WritableReturn(before) && ParseReturnItems(ts, pos, before).Ok?
    ensures WritableReturn(ParseReturnItems(ts, pos, before).value.tree) && ParseReturnItems(ts, pos, before).value.tree != []
    decreases |ts| - pos, 9
  {
    hide Ended, Clean, WritableExpr, ParseExpr, WritableReturn;
    var e := ParseExpr(ts, pos).value;
    ExprIsWritable(ts, pos);
    var item := A.ReturnItem(e.tree, None);
    MoreReturn(before, item);
    if ts[e.next] == Comma {
      ReturnIsWritable(ts, e.next + 1, before + [item]);
    }
  }

  lemma {:induction false} WithIsWritable(ts: seq<Token>, pos: nat, before: seq<A.WithItem>)
    requires Ended(ts) && Clean(ts) && pos < |ts| && WritableWith(before) && ParseWithItems(ts, pos, before).Ok?
    ensures WritableWith(ParseWithItems(ts, pos, before).value.tree) && ParseWithItems(ts, pos, before).value.tree != []
    decreases |ts| - pos, 9
  {
    hide Clean, WritableExpr, ParseExpr, WritableWith, Name;
    var e := ParseExpr(ts, pos).value;
    ExprIsWritable(ts, pos);
    WordIsName(ts, e.next + 1);
    var item := A.WithItem(e.tree, ts[e.next + 1].name);
    MoreWith(before, item);
    if ts[e.next + 2] == Comma {
      WithIsWritable(ts, e.next + 3, before + [item]);
    }
  }

  lemma {:induction false} OrderIsWritable(ts: seq<Token>, pos: nat, before: seq<A.OrderByItem>)
    requires Ended(ts) && Clean(ts) && pos < |ts| && WritableOrder(before) && ParseOrderItems(ts, pos, before).Ok?
    ensures WritableOrder(ParseOrderItems(ts, pos, before).value.tree) && ParseOrderItems(ts, pos, before).value.tree != []
    decreases |ts| - pos, 9
  {
    hide Ended, Clean, WritableExpr, ParseExpr, WritableOrder;
    var e := ParseExpr(ts, pos).value;
    ExprIsWritable(ts, pos);
    var item := ParseOrderItem(ts, pos).value;
    MoreOrder(before, item.tree);
    if ts[item.next] == Comma {
      OrderIsWritable(ts, item.next + 1, before + [item.tree]);
    }
  }

  lemma MatchClauseIsWritable(ts: seq<Token>, pos: nat)
    requires Ended(ts) && Clean(ts) && pos < |ts| && ParseMatch(ts, pos).Ok?
    ensures ParseMatch(ts, pos).value.tree.Some? ==> WritableMatch(ParseMatch(ts, pos).value.tree.value)
  {
    hide Clean, ParseMatchPatterns, WritableMatch, Chained;
    if ts[pos] == KwMatch {
      NothingChained();
      MatchChains(ts, pos + 1, []);
      ChainedIsWritable(ParseMatchPatterns(ts, pos + 1, []).value.tree);
    }
  }

  lemma NothingChained()
    ensures Chained([]) && Made([])
  {
  }

  lemma CreateClauseIsWritable(ts: seq<Token>, pos: nat)
    requires Ended(ts) && Clean(ts) && pos < |ts| && ParseCreate(ts, pos).Ok?
    ensures ParseCreate(ts, pos).value.tree.Some? ==> WritableCreate(ParseCreate(ts, pos).value.tree.value)
  {
    hide Clean, ParseCreatePatterns, WritableCreate, Made;
    if ts[pos] == KwCreate {
      NothingChained();
      CreateMakes(ts, pos + 1, []);
      MadeIsWritable(ParseCreatePatterns(ts, pos + 1, []).value.tree);
    }
  }

  lemma LimitIsWritable(ts: seq<Token>, pos: nat)
    requires Ended(ts) && Clean(ts) && pos < |ts| && ParseLimit(ts, pos).Ok?
    ensures ParseLimit(ts, pos).value.tree.Some? ==> ParseLimit(ts, pos).value.tree.value < I64_LIMIT
  {
    if ts[pos] == KwLimit && ts[pos + 1].IntTok? {
      assert Spellable(ts[pos + 1]);
    }
  }

  lemma {:induction false} WithClauseIsWritable(ts: seq<Token>, pos: nat)
    requires Ended(ts) && Clean(ts) && pos < |ts| && ParseWith(ts, pos).Ok?
    ensures var w := ParseWith(ts, pos).value.tree; w.Some? ==> w.value.items != [] && WritableWith(w.value.items)
    decreases |ts| - pos, 10
  {
    hide Clean, ParseWithItems, WritableWith;
    NoItems();
    if ts[pos] == KwWith {
      WithIsWritable(ts, pos + 1, []);
    }
  }

  lemma {:induction false} WhereClauseIsWritable(ts: seq<Token>, pos: nat)
    requires Ended(ts) && Clean(ts) && pos < |ts| && ParseWhere(ts, pos).Ok?
    ensures ParseWhere(ts, pos).value.tree.Some? ==> WritableExpr(ParseWhere(ts, pos).value.tree.value)
    decreases |ts| - pos, 10
  {
    hide Clean, ParseExpr, WritableExpr;
    if ts[pos] == KwWhere {
      ExprIsWritable(ts, pos + 1);
    }
  }

  lemma {:induction false} ReturnClauseIsWritable(ts: seq<Token>, pos: nat)
    requires Ended(ts) && Clean(ts) && pos < |ts| && ParseReturn(ts, pos).Ok?
    ensures var w := ParseReturn(ts, pos).value.tree; w.Some? ==> w.value.items != [] && WritableReturn(w.value.items)
    decreases |ts| - pos, 10
  {
    hide Clean, ParseReturnItems, WritableReturn;
    NoItems();
    if ts[pos] == KwReturn {
      ReturnIsWritable(ts, pos + 1, []);
    }
  }

  lemma {:induction false} OrderClauseIsWritable(ts: seq<Token>, pos: nat)
    requires Ended(ts) && Clean(ts) && pos < |ts| && ParseOrderBy(ts, pos).Ok?
    ensures var w := ParseOrderBy(ts, pos).value.tree; w.Some? ==> w.value.items != [] && WritableOrder(w.value.items)
    decreases |ts| - pos, 10
  {
    hide Clean, ParseOrderItems, WritableOrder;
    NoItems();
    if ts[pos] == KwOrder {
      OrderIsWritable(ts, pos + 2, []);
    }
  }

  lemma {:induction false} QueryIsWritable(ts: seq<Token>, pos: nat)
    requires Ended(ts) && Clean(ts) && pos < |ts| && ParseQuery(ts, pos).Ok?
    ensures WritableQuery(ParseQuery(ts, pos).value.tree)
    decreases |ts| - pos, 11
  {
    hide Ended, Clean, ParseMatch, ParseCreate, ParseWith, ParseWhere, ParseReturn, ParseOrderBy, ParseLimit, WritableMatch, WritableCreate, WritableWith,
         WritableReturn, WritableOrder, WritableExpr;
    var matched := ParseMatch(ts, pos).value;
    MatchClauseIsWritable(ts, pos);
    var created := ParseCreate(ts, matched.next).value;
    CreateClauseIsWritable(ts, matched.next);
    var with_ := ParseWith(ts, created.next).value;
    WithClauseIsWritable(ts, created.next);
    var filter := ParseWhere(ts, with_.next).value;
    WhereClauseIsWritable(ts, with_.next);
    var returned := ParseReturn(ts, filter.next).value;
    ReturnClauseIsWritable(ts, filter.next);
    var order := ParseOrderBy(ts, returned.next).value;
    OrderClauseIsWritable(ts, returned.next);
    LimitIsWritable(ts, order.next);
  }

  // ---------- the theorem ----------

  lemma ReadIsWritable(text: string)
    requires ParseText(text).Ok?
    ensures WritableQuery(ParseText(text).value)
  {
    hide Lex, ParseQuery, WritableQuery, Clean;
    LexIsClean(text);
    QueryIsWritable(Lex(text).value, 0);
  }

  ghost predicate ReadFrom(q: A.Query, text: string) {
    ParseText(text) == Ok(q)
  }

  /** A query is read from some text exactly when it can be written. */
  lemma ReadExactly(q: A.Query)
    ensures WritableQuery(q) <==> exists text :: ReadFrom(q, text)
  {
    hide ParseText, WritableQuery, QueryText;
    if WritableQuery(q) {
      var y := Style(false, false, false, false);
      WrittenQueryIsRead(q, y);
      assert ReadFrom(q, QueryText(q, y));
    }
    if text :| ReadFrom(q, text) {
      ReadIsWritable(text);
    }
  }

  /** Reading, writing and reading again gives the same query: nothing the parser reads depends on how it was
      written. */
  lemma RereadIsSame(text: string, y: Style)
    requires ParseText(text).Ok?
    ensures WritableQuery(ParseText(text).value) && ParseText(QueryText(ParseText(text).value, y)) == ParseText(text)
  {
    hide Lex, ParseQuery, WritableQuery, QueryText;
    ReadIsWritable(text);
    WrittenQueryIsRead(ParseText(text).value, y);
  }
}
