/** What WHERE keeps and what RETURN shows, in terms of the nodes and edges that a match goes through. */
module QueryMeaning {
  import opened Prelude
  import opened Values
  import opened Ast
  import opened Text
  import opened GraphStore
  import opened Planner
  import opened Semantics
  import opened Chains
  import opened Matching
  import opened Expansions
  import opened Compilation
  import opened Correlation
  import opened MatchCreation
  import opened Answers
  import opened RowContents
  import opened ValueLaws
  import opened Created

  // ---------- conditions on one row ----------

  /** The number `x` stands in this relation to `y`. */
  ghost predicate Related(op: BinOp, x: real, y: real) {
    match op
    case Eq => x == y
    case Ne => x != y
    case Lt => Below(x, y)
    case Le => Below(x, y) || x == y
    case Gt => Below(y, x)
    case Ge => Below(y, x) || x == y
    case _ => false
  }

  lemma NumbersRelate(l: Value, op: BinOp, r: Value)
    requires Numeric(l) && Numeric(r)
    ensures Yes(l, op, r) <==> Related(op, Number(l), Number(r))
  {
    hide Below, IsTrue;
    NumbersCompare(l, r);
    NumbersCompare(r, l);
    if !Comparison(op) {
      NoComparison(l, op, r);
    }
  }

  lemma NoComparison(l: Value, op: BinOp, r: Value)
    requires Numeric(l) && Numeric(r) && !Comparison(op)
    ensures !Yes(l, op, r)
  {
    FailsExactly(l, op, r);
    if Arithmetic(op) {
      NumbersAdd(l, r);
      NumbersDivide(l, r);
    }
  }

  /** A condition on one property: a comparison with a literal, IS NULL or IS NOT NULL. */
  datatype Test = Compared(op: BinOp, lit: Literal) | Missing | Present

  function TestExpr(v: string, k: string, test: Test): Expr {
    match test
    case Compared(op, lit) => BinaryOp(Property(v, k), op, Lit(lit))
    case Missing => IsNull(Property(v, k))
    case Present => IsNotNull(Property(v, k))
  }

  /** The stored value passes the test. */
  ghost predicate Passing(p: Value, test: Test) {
    match test
    case Compared(op, LitInt(i)) => Numeric(p) && Related(op, Number(p), i as real)
    case Compared(op, LitFloat(x)) => Numeric(p) && Related(op, Number(p), x)
    case Compared(op, LitStr(s)) => p.Str? && ((op == BinOp.Eq && p.s == s) || (op == BinOp.Ne && p.s != s))
    case Compared(op, LitBool(b)) => p.Bool? && (match op
      case Eq => p.b == b
      case Ne => p.b != b
      case And => p.b && b
      case Or => p.b || b
      case _ => false)
    case Compared(_, LitNull) => false
    case Missing => p == Null
    case Present => p != Null
  }

  lemma ComparedMeans(p: Value, op: BinOp, lit: Literal)
    ensures Yes(p, op, LiteralValue(lit)) <==> Passing(p, Compared(op, lit))
  {
    hide Related;
    var r := LiteralValue(lit);
    FailsExactly(p, op, r);
    if Numeric(p) && Numeric(r) {
      NumbersRelate(p, op, r);
    } else if (p.Str? && r.Str?) || (p.Bool? && r.Bool?) {
      SameKindCompares(p, op, r);
      if p.Bool? {
        TruthTables(p.b, r.b);
      }
    }
  }

  /** The condition holds of a row exactly when the row has the property and its value passes. A property that
      is not there fails every test, IS NULL included. */
  lemma TestMeans(t: Tuple, v: string, k: string, test: Test, c: Ctx)
    ensures IsTrue(Eval(TestExpr(v, k, test), t, c)) <==> v + "." + k in t && Passing(t[v + "." + k], test)
  {
    var key := v + "." + k;
    assert key == PropKey(v, k);
    assert Eval(Property(v, k), t, c) == if key in t then Ok(t[key]) else Err(InvalidArgument("property not found"));
    match test
    case Compared(op, lit) =>
      assert Eval(Lit(lit), t, c) == Ok(LiteralValue(lit));
      if key in t {
        ComparedMeans(t[key], op, lit);
        assert Eval(TestExpr(v, k, test), t, c) == EvalBinaryOp(t[key], op, LiteralValue(lit));
      }
    case Missing =>
    case Present =>
  }

  /** AND holds when both sides hold, NOT when its operand is false. OR holds when one side holds, but only if
      the other evaluates to a truth value as well. */
  lemma ConditionsCombine(a: Expr, b: Expr, t: Tuple, c: Ctx)
    ensures IsTrue(Eval(BinaryOp(a, BinOp.And, b), t, c)) <==> IsTrue(Eval(a, t, c)) && IsTrue(Eval(b, t, c))
    ensures IsTrue(Eval(BinaryOp(a, BinOp.Or, b), t, c)) <==>
      (IsTrue(Eval(a, t, c)) && Decided(b, t, c)) || (Decided(a, t, c) && IsTrue(Eval(b, t, c)))
    ensures IsTrue(Eval(Not(a), t, c)) <==> Decided(a, t, c) && !IsTrue(Eval(a, t, c))
  {
    hide Eval;
    BinaryEvaluates(a, BinOp.And, b, t, c);
    BinaryEvaluates(a, BinOp.Or, b, t, c);
    NotEvaluates(a, t, c);
  }

  lemma BinaryEvaluates(a: Expr, op: BinOp, b: Expr, t: Tuple, c: Ctx)
    ensures var x, y := Eval(a, t, c), Eval(b, t, c);
      Eval(BinaryOp(a, op, b), t, c) == if x.Err? then x else if y.Err? then y else EvalBinaryOp(x.value, op, y.value)
  {
    hide EvalBinaryOp, Rows, PlanQuery, FastPath, FastExists;
  }

  lemma NotEvaluates(a: Expr, t: Tuple, c: Ctx)
    ensures IsTrue(Eval(Not(a), t, c)) <==> Decided(a, t, c) && !IsTrue(Eval(a, t, c))
  {
    hide EvalBinaryOp, Rows, PlanQuery, FastPath, FastExists;
  }

  /** The expression evaluates to a truth value. */
  ghost predicate Decided(e: Expr, t: Tuple, c: Ctx) {
    Eval(e, t, c).Ok? && Eval(e, t, c).value.Bool?
  }

  /** A parameter stands for the value it was given, in any operator; one that was not given is an error. */
  lemma ParameterIsLiteral(x: Expr, op: BinOp, p: string, lit: Literal, t: Tuple, c: Ctx)
    ensures p in c.params && SameLiteral(lit, c.params[p]) ==>
      Eval(BinaryOp(x, op, Parameter(p)), t, c) == Eval(BinaryOp(x, op, Lit(lit)), t, c)
    ensures p !in c.params ==> Eval(BinaryOp(x, op, Parameter(p)), t, c).Err?
  {
    hide EvalBinaryOp, Rows, PlanQuery, FastPath, FastExists;
    BinaryEvaluates(x, op, Parameter(p), t, c);
    BinaryEvaluates(x, op, Lit(lit), t, c);
  }

  // ---------- conditions on matches ----------

  /** MATCH chain WHERE a.k test RETURN .. keeps exactly the matches whose node has a property that passes. */
  lemma WhereTestsNodes(q: Query, ch: Chain, c: Ctx, i: nat, k: string, test: Test) returns (kept: seq<Match>)
    requires ReturnQuery(q, ch) && WellShaped(ch) && WellNamed(ch) && StoreOk(c) && q.withClause.None?
    requires i <= |ch.edges| && q.whereClause == Some(TestExpr(NodeVar(ch, i), k, test))
    ensures PlanQuery(q).Ok? && Rows(PlanQuery(q).value, map[], c).Ok? && |Rows(PlanQuery(q).value, map[], c).value| == |kept|
    ensures Distinct(kept)
    ensures forall m :: m in kept <==> FullMatch(ch, map[], c.g, m) && NodePasses(c.g, m, i, k, test)
  {
    hide PlanQuery, Rows, WellShaped, WellNamed, LaidOut, MatchRow, FullMatch, ProjectRow, NodeVar, Eval, HoldsMatch, TestExpr, HasAggregates, Passing, WellFormed;
    kept := QueryAnswersMatches(q, ch, c);
    EmptyParentOk(ch, c.g);
    forall m | FullMatch(ch, map[], c.g, m)
      ensures WhereHolds(q, Staged(q, MatchRow(ch, map[], c.g, m), c), c) <==> NodePasses(c.g, m, i, k, test)
    {
      RowHoldsMatch(ch, map[], c.g, m);
      FittingMatch(ch, map[], c.g, m);
      NodeIsShown(ch, c.g, MatchRow(ch, map[], c.g, m), m, i);
      TestMeans(MatchRow(ch, map[], c.g, m), NodeVar(ch, i), k, test, c);
    }
  }

  ghost predicate NodePasses(g: Graph, m: Match, i: nat, k: string, test: Test) {
    i <= |m.steps| && At(m, i) in g.nodes && k in g.nodes[At(m, i)].properties && Passing(g.nodes[At(m, i)].properties[k], test)
  }

  lemma NodeIsShown(ch: Chain, g: Graph, t: Tuple, m: Match, i: nat)
    requires HoldsMatch(ch, g, t, m) && i <= |ch.edges|
    ensures HoldsNode(t, NodeVar(ch, i), g, At(m, i))
  {
    hide HoldsNode, HoldsEdge, HoldsOnlyEdge, Crosses;
  }

  /** MATCH chain WHERE ID(a) op n RETURN .. keeps exactly the matches whose node has an id in that relation. */
  lemma WhereTestsIds(q: Query, ch: Chain, c: Ctx, i: nat, fn: string, op: BinOp, n: int) returns (kept: seq<Match>)
    requires ReturnQuery(q, ch) && WellShaped(ch) && WellNamed(ch) && StoreOk(c) && q.withClause.None? && Upper(fn) == "ID"
    requires i <= |ch.edges| && q.whereClause == Some(BinaryOp(FunctionCall(fn, [Ident(NodeVar(ch, i))]), op, Lit(LitInt(n))))
    ensures PlanQuery(q).Ok? && Rows(PlanQuery(q).value, map[], c).Ok? && |Rows(PlanQuery(q).value, map[], c).value| == |kept|
    ensures Distinct(kept)
    ensures forall m :: m in kept <==> FullMatch(ch, map[], c.g, m) && i <= |m.steps| && Related(op, At(m, i) as real, n as real)
  {
    hide PlanQuery, Rows, WellShaped, WellNamed, LaidOut, MatchRow, FullMatch, ProjectRow, NodeVar, Eval, HoldsMatch, HasAggregates, Related, WellFormed;
    kept := QueryAnswersMatches(q, ch, c);
    EmptyParentOk(ch, c.g);
    forall m | FullMatch(ch, map[], c.g, m)
      ensures i <= |m.steps| && (WhereHolds(q, Staged(q, MatchRow(ch, map[], c.g, m), c), c) <==> Related(op, At(m, i) as real, n as real))
    {
      RowHoldsMatch(ch, map[], c.g, m);
      FittingMatch(ch, map[], c.g, m);
      NodeIsShown(ch, c.g, MatchRow(ch, map[], c.g, m), m, i);
      IdTestMeans(MatchRow(ch, map[], c.g, m), NodeVar(ch, i), fn, At(m, i), op, n, c);
    }
  }

  lemma IdTestMeans(t: Tuple, v: string, fn: string, id: NodeId, op: BinOp, n: int, c: Ctx)
    requires v in t && t[v] == NodeRef(id) && Upper(fn) == "ID"
    ensures IsTrue(Eval(BinaryOp(FunctionCall(fn, [Ident(v)]), op, Lit(LitInt(n))), t, c)) <==> Related(op, id as real, n as real)
  {
    hide Related;
    var call := FunctionCall(fn, [Ident(v)]);
    assert Eval(Ident(v), t, c) == Ok(NodeRef(id));
    assert Eval(call, t, c) == Ok(Int(id));
    assert Eval(Lit(LitInt(n)), t, c) == Ok(Int(n));
    assert Eval(BinaryOp(call, op, Lit(LitInt(n))), t, c) == EvalBinaryOp(Int(id), op, Int(n));
    NumbersRelate(Int(id), op, Int(n));
  }

  // ---------- what a row of the answer shows ----------

  /** The column of an item: its alias, or the text of a name or property. */
  ghost predicate InColumn(item: ReturnItem, w: string) {
    match item.alias
    case Some(alias) => w == alias
    case None =>
      match item.expr
      case Ident(n) => w == n
      case Property(v, p) => w == v + "." + p
      case _ => w == "?"
  }

  /** Item `j` shows its value in the column: it evaluates, and no later item of that column does. */
  ghost predicate ShowsIn(items: seq<ReturnItem>, j: nat, w: string, t: Tuple, c: Ctx) {
    && j < |items| && InColumn(items[j], w) && Eval(items[j].expr, t, c).Ok?
    && forall l :: j < l < |items| && InColumn(items[l], w) ==> Eval(items[l].expr, t, c).Err?
  }

  lemma ColumnIs(item: ReturnItem, w: string)
    ensures InColumn(item, w) <==> ColumnName(item) == w
  {
  }

  lemma ProjectStep(t: Tuple, items: seq<ReturnItem>, c: Ctx)
    requires items != []
    ensures ProjectRow(t, items, c) ==
      (if Eval(items[0].expr, t, c).Ok? then map[ColumnName(items[0]) := Eval(items[0].expr, t, c).value] else map[]) + ProjectRow(t, items[1..], c)
  {
    hide Eval, ColumnName;
  }

  lemma ShowsLater(items: seq<ReturnItem>, j: nat, w: string, t: Tuple, c: Ctx)
    requires items != []
    ensures ShowsIn(items[1..], j, w, t, c) <==> ShowsIn(items, j + 1, w, t, c)
  {
    hide Eval, InColumn;
    var rest := items[1..];
    forall l | 0 <= l < |rest| ensures rest[l] == items[l + 1] {}
    if ShowsIn(rest, j, w, t, c) {
      forall l | j + 1 < l < |items| && InColumn(items[l], w) ensures Eval(items[l].expr, t, c).Err? {
        assert rest[l - 1] == items[l];
      }
    }
    if ShowsIn(items, j + 1, w, t, c) {
      forall l | j < l < |rest| && InColumn(rest[l], w) ensures Eval(rest[l].expr, t, c).Err? {
        var k := l + 1;
        assert rest[l] == items[k];
      }
    }
  }

  /** A row of the answer holds in each column the value of the last item of that column that evaluates, and
      has no other columns. */
  lemma {:induction false} ColumnsShow(t: Tuple, items: seq<ReturnItem>, c: Ctx, w: string) returns (j: nat)
    ensures w in ProjectRow(t, items, c) ==> ShowsIn(items, j, w, t, c) && ProjectRow(t, items, c)[w] == Eval(items[j].expr, t, c).value
    ensures w !in ProjectRow(t, items, c) ==> forall l :: 0 <= l < |items| && InColumn(items[l], w) ==> Eval(items[l].expr, t, c).Err?
    decreases |items|
  {
    hide Eval, InColumn, ColumnName, ProjectRow;
    if items == [] {
      j := 0;
      NoColumns(t, c);
    } else {
      var k := ColumnsShow(t, items[1..], c, w);
      ProjectStep(t, items, c);
      ColumnIs(items[0], w);
      ShowsLater(items, k, w, t, c);
      var rest := items[1..];
      forall l | 0 < l < |items| ensures items[l] == rest[l - 1] {}
      j := if w in ProjectRow(t, rest, c) then k + 1 else 0;
    }
  }

  lemma NoColumns(t: Tuple, c: Ctx)
    ensures ProjectRow(t, [], c) == map[]
  {
  }

  /** No other item has the column. */
  ghost predicate OwnColumn(items: seq<ReturnItem>, j: nat, w: string) {
    j < |items| && InColumn(items[j], w) && forall l :: 0 <= l < |items| && l != j ==> !InColumn(items[l], w)
  }

  /** The row shows what the match goes through: the node under a node variable, its property under a
      property, the number of the edge under an edge variable; an absent property has no column. */
  ghost predicate ShowsMatch(ch: Chain, items: seq<ReturnItem>, g: Graph, row: Tuple, m: Match) {
    && |m.steps| == |ch.edges|
    && (forall j: nat, w, i: nat, k :: j < |items| && OwnColumn(items, j, w) && 0 <= i <= |ch.edges| && items[j].expr == Property(NodeVar(ch, i), k) && At(m, i) in g.nodes ==>
          (w in row <==> k in g.nodes[At(m, i)].properties) && (w in row ==> row[w] == g.nodes[At(m, i)].properties[k]))
    && (forall j: nat, w, i: nat :: j < |items| && OwnColumn(items, j, w) && 0 <= i <= |ch.edges| && items[j].expr == Ident(NodeVar(ch, i)) ==>
          w in row && row[w] == NodeRef(At(m, i)))
    && (forall j: nat, w, r, k: nat :: j < |items| && OwnColumn(items, j, w) && k < |ch.edges| && BindsLast(ch, k, r) && items[j].expr == Ident(r) ==>
          m.steps[k].Along? && w in row && row[w] == Int(m.steps[k].edge))
    && (forall w :: w in row ==> exists j :: 0 <= j < |items| && InColumn(items[j], w))
  }

  /** A column for a property of an edge shows it, `edge_type` the type of the edge unless it has a property of that
      name. */
  ghost predicate ShowsEdges(ch: Chain, items: seq<ReturnItem>, g: Graph, row: Tuple, m: Match) {
    forall j: nat, w, r, k: nat, p :: j < |items| && OwnColumn(items, j, w) && BindsAlone(ch, k, r) && items[j].expr == Property(r, p) ==>
      k < |m.steps| && m.steps[k].Along? && ShowsEdge(g, m.steps[k].edge, p, w, row)
  }

  ghost predicate ShowsEdge(g: Graph, id: EdgeId, p: string, w: string, row: Tuple) {
    && id in g.edges && (w in row <==> p in g.edges[id].properties || p == "edge_type")
    && (w in row ==> row[w] == if p in g.edges[id].properties then g.edges[id].properties[p] else Str(g.edges[id].edgeType))
  }

  // ---------- WITH ----------

  /** WITH item `j` shows its value under the name: it evaluates, and no later item of that name does. */
  ghost predicate PassesOn(items: seq<WithItem>, j: nat, w: string, t: Tuple, c: Ctx) {
    && j < |items| && items[j].alias == w && Eval(items[j].expr, t, c).Ok?
    && forall l :: j < l < |items| && items[l].alias == w ==> Eval(items[l].expr, t, c).Err?
  }

  lemma {:induction false} WithItemsAt(items: seq<WithItem>)
    ensures |WithItems(items)| == |items|
    ensures forall j :: 0 <= j < |items| ==> WithItems(items)[j] == ReturnItem(items[j].expr, Some(items[j].alias))
  {
    if items != [] {
      WithItemsAt(items[1..]);
    }
  }

  /** Behind a WITH a row holds under each alias the value of its last item that evaluates, and nothing else: what
      WITH does not name is gone, also the properties of a node that it passes on. */
  lemma WithPassesOn(q: Query, t: Tuple, c: Ctx, w: string) returns (j: nat)
    requires q.withClause.Some?
    ensures w in Staged(q, t, c) ==> PassesOn(q.withClause.value.items, j, w, t, c) && Staged(q, t, c)[w] == Eval(q.withClause.value.items[j].expr, t, c).value
    ensures w !in Staged(q, t, c) ==>
      forall l :: 0 <= l < |q.withClause.value.items| && q.withClause.value.items[l].alias == w ==> Eval(q.withClause.value.items[l].expr, t, c).Err?
  {
    hide Eval, ProjectRow, WithItems;
    var items := q.withClause.value.items;
    WithItemsAt(items);
    j := ColumnsShow(t, WithItems(items), c, w);
    forall l | 0 <= l < |items| ensures InColumn(WithItems(items)[l], w) <==> items[l].alias == w {}
  }

  lemma OwnColumnShows(t: Tuple, items: seq<ReturnItem>, c: Ctx, j: nat, w: string)
    requires OwnColumn(items, j, w)
    ensures w in ProjectRow(t, items, c) <==> Eval(items[j].expr, t, c).Ok?
    ensures w in ProjectRow(t, items, c) ==> ProjectRow(t, items, c)[w] == Eval(items[j].expr, t, c).value
  {
    hide Eval, InColumn, ProjectRow;
    var k := ColumnsShow(t, items, c, w);
  }

  lemma ReadsName(n: string, t: Tuple, c: Ctx)
    ensures Eval(Ident(n), t, c).Ok? <==> n in t
    ensures n in t ==> Eval(Ident(n), t, c).value == t[n]
  {
  }

  lemma ReadsProperty(v: string, k: string, t: Tuple, c: Ctx)
    ensures Eval(Property(v, k), t, c).Ok? <==> v + "." + k in t
    ensures v + "." + k in t ==> Eval(Property(v, k), t, c).value == t[v + "." + k]
  {
    assert PropKey(v, k) == v + "." + k;
  }

  lemma RowShowsMatch(ch: Chain, items: seq<ReturnItem>, c: Ctx, t: Tuple, m: Match)
    requires HoldsMatch(ch, c.g, t, m)
    ensures ShowsMatch(ch, items, c.g, ProjectRow(t, items, c), m)
  {
    hide HoldsMatch, HoldsNode, HoldsEdge, Eval, ProjectRow, NodeVar, OwnColumn, BindsLast, InColumn;
    var row, g := ProjectRow(t, items, c), c.g;
    HeldSize(ch, g, t, m);
    forall j: nat, w, i: nat, k | j < |items| && OwnColumn(items, j, w) && 0 <= i <= |ch.edges| && items[j].expr == Property(NodeVar(ch, i), k) && At(m, i) in g.nodes
      ensures (w in row <==> k in g.nodes[At(m, i)].properties) && (w in row ==> row[w] == g.nodes[At(m, i)].properties[k])
    {
      OwnColumnShows(t, items, c, j, w);
      ReadsProperty(NodeVar(ch, i), k, t, c);
      NodeIsShown(ch, g, t, m, i);
      HeldProperty(t, NodeVar(ch, i), g, At(m, i), k);
    }
    forall j: nat, w, i: nat | j < |items| && OwnColumn(items, j, w) && 0 <= i <= |ch.edges| && items[j].expr == Ident(NodeVar(ch, i))
      ensures w in row && row[w] == NodeRef(At(m, i))
    {
      OwnColumnShows(t, items, c, j, w);
      ReadsName(NodeVar(ch, i), t, c);
      NodeIsShown(ch, g, t, m, i);
      HeldName(t, NodeVar(ch, i), g, At(m, i));
    }
    forall j: nat, w, r, k: nat | j < |items| && OwnColumn(items, j, w) && k < |ch.edges| && BindsLast(ch, k, r) && items[j].expr == Ident(r)
      ensures m.steps[k].Along? && w in row && row[w] == Int(m.steps[k].edge)
    {
      OwnColumnShows(t, items, c, j, w);
      ReadsName(r, t, c);
      HeldEdgeName(ch, g, t, m, k, r);
    }
    forall w | w in row ensures exists j :: 0 <= j < |items| && InColumn(items[j], w) {
      var j := ColumnsShow(t, items, c, w);
    }
  }

  lemma RowShowsEdges(ch: Chain, items: seq<ReturnItem>, c: Ctx, t: Tuple, m: Match)
    requires HoldsMatch(ch, c.g, t, m)
    ensures ShowsEdges(ch, items, c.g, ProjectRow(t, items, c), m)
  {
    hide HoldsMatch, HoldsEdge, HoldsOnlyEdge, Eval, ProjectRow, OwnColumn, BindsAlone;
    var row, g := ProjectRow(t, items, c), c.g;
    forall j: nat, w, r, k: nat, p | j < |items| && OwnColumn(items, j, w) && BindsAlone(ch, k, r) && items[j].expr == Property(r, p)
      ensures k < |m.steps| && m.steps[k].Along? && ShowsEdge(g, m.steps[k].edge, p, w, row)
    {
      HeldEdge(ch, g, t, m, k, r);
      OwnColumnShows(t, items, c, j, w);
      ReadsProperty(r, p, t, c);
      HeldEdgeProperty(t, r, g, m.steps[k].edge, p);
    }
  }

  lemma HeldEdge(ch: Chain, g: Graph, t: Tuple, m: Match, k: nat, r: string)
    requires HoldsMatch(ch, g, t, m) && BindsAlone(ch, k, r)
    ensures k < |m.steps| && m.steps[k].Along? && HoldsEdge(t, r, g, m.steps[k].edge) && HoldsOnlyEdge(t, r, g, m.steps[k].edge)
  {
    hide HoldsNode, HoldsEdge, HoldsOnlyEdge, Crosses;
    assert BindsLast(ch, k, r);
  }

  lemma HeldEdgeProperty(t: Tuple, r: string, g: Graph, id: EdgeId, p: string)
    requires HoldsEdge(t, r, g, id) && HoldsOnlyEdge(t, r, g, id)
    ensures id in g.edges
    ensures r + "." + p in t <==> p in g.edges[id].properties || p == "edge_type"
    ensures r + "." + p in t ==> t[r + "." + p] == if p in g.edges[id].properties then g.edges[id].properties[p] else Str(g.edges[id].edgeType)
  {
  }

  lemma HeldSize(ch: Chain, g: Graph, t: Tuple, m: Match)
    requires HoldsMatch(ch, g, t, m)
    ensures |m.steps| == |ch.edges|
  {
    hide HoldsNode, HoldsEdge, HoldsOnlyEdge, Crosses;
  }

  lemma HeldProperty(t: Tuple, v: string, g: Graph, id: NodeId, k: string)
    requires HoldsNode(t, v, g, id)
    ensures v + "." + k in t <==> k in g.nodes[id].properties
    ensures v + "." + k in t ==> t[v + "." + k] == g.nodes[id].properties[k]
  {
  }

  lemma HeldName(t: Tuple, v: string, g: Graph, id: NodeId)
    requires HoldsNode(t, v, g, id)
    ensures v in t && t[v] == NodeRef(id)
  {
  }

  lemma HeldEdgeName(ch: Chain, g: Graph, t: Tuple, m: Match, k: nat, r: string)
    requires HoldsMatch(ch, g, t, m) && k < |ch.edges| == |m.steps| && BindsLast(ch, k, r)
    ensures m.steps[k].Along? && r in t && t[r] == Int(m.steps[k].edge)
  {
    hide HoldsNode, HoldsOnlyEdge, Crosses, BindsLast;
  }

  /** MATCH chain [WHERE ..] RETURN .. answers with one row per match that satisfies the condition, showing what
      that match goes through. */
  lemma AnswersShowMatches(q: Query, ch: Chain, c: Ctx) returns (kept: seq<Match>)
    requires ReturnQuery(q, ch) && WellShaped(ch) && WellNamed(ch) && StoreOk(c) && q.withClause.None?
    ensures PlanQuery(q).Ok? && Rows(PlanQuery(q).value, map[], c).Ok? && |Rows(PlanQuery(q).value, map[], c).value| == |kept|
    ensures Distinct(kept) && forall m :: m in kept <==> FullMatch(ch, map[], c.g, m) && WhereHolds(q, MatchRow(ch, map[], c.g, m), c)
    ensures forall i :: 0 <= i < |kept| ==>
      ShowsMatch(ch, q.returnClause.value.items, c.g, Rows(PlanQuery(q).value, map[], c).value[i], kept[i])
    ensures forall i :: 0 <= i < |kept| ==>
      ShowsEdges(ch, q.returnClause.value.items, c.g, Rows(PlanQuery(q).value, map[], c).value[i], kept[i])
  {
    hide PlanQuery, Rows, WellShaped, WellNamed, LaidOut, MatchRow, FullMatch, ProjectRow, Eval, HasAggregates, WellFormed, ShowsMatch, ShowsEdges, WhereHolds, HoldsMatch;
    kept := QueryAnswersMatches(q, ch, c);
    EmptyParentOk(ch, c.g);
    forall m ensures Staged(q, MatchRow(ch, map[], c.g, m), c) == MatchRow(ch, map[], c.g, m) {}
    forall i | 0 <= i < |kept| ensures ShowsMatch(ch, q.returnClause.value.items, c.g, Rows(PlanQuery(q).value, map[], c).value[i], kept[i]) {
      assert kept[i] in kept;
      RowHoldsMatch(ch, map[], c.g, kept[i]);
      RowShowsMatch(ch, q.returnClause.value.items, c, MatchRow(ch, map[], c.g, kept[i]), kept[i]);
    }
    forall i | 0 <= i < |kept| ensures ShowsEdges(ch, q.returnClause.value.items, c.g, Rows(PlanQuery(q).value, map[], c).value[i], kept[i]) {
      assert kept[i] in kept;
      RowHoldsMatch(ch, map[], c.g, kept[i]);
      RowShowsEdges(ch, q.returnClause.value.items, c, MatchRow(ch, map[], c.g, kept[i]), kept[i]);
    }
  }
}
