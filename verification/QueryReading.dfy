/** The tokens of expressions and of whole queries parse to them: parentheses stand exactly where precedence needs
    them, and every clause is read where it was written. */
module QueryReading {
  import opened Prelude
  import opened Lexer
  import opened Grammar
  import opened SdkPrinter
  import opened PrintParse
  import opened QueryPrinter
  import opened PatternReading
  import opened PatternLists
  import V = Values
  import A = Ast

  // ---------- levels ----------

  /** The token continues no expression of this level. */
  predicate Ends(t: Token, level: nat) {
    && t != LeftParen && t != Dot
    && (level <= 4 ==> MultiplicativeOp(t).None?)
    && (level <= 3 ==> AdditiveOp(t).None?)
    && (level <= 2 ==> ComparisonOp(t).None? && t != KwIs)
    && (level <= 1 ==> t != KwAnd)
    && (level <= 0 ==> t != KwOr)
  }

  /** What must end before an operator of this level can be looked for. */
  function Needs(level: nat): nat {
    if level == 0 then 1 else if level <= 2 then 2 else if level == 3 then 4 else 5
  }

  /** The parsing function of this level has read `e` up to `next`, and goes on from there. */
  ghost predicate Yields(ts: seq<Token>, pos: nat, level: nat, e: A.Expr, next: nat)
    requires Ended(ts) && pos < |ts| && next < |ts|
  {
    if level == 0 then ParseExpr(ts, pos) == OrRest(ts, next, e)
    else if level == 1 then ParseAnd(ts, pos) == AndRest(ts, next, e)
    else if level == 2 then ParseComparison(ts, pos) == Ok(Read(e, next))
    else if level == 3 then ParseAdditive(ts, pos) == AddRest(ts, next, e)
    else if level == 4 then ParseMultiplicative(ts, pos) == MulRest(ts, next, e)
    else ParsePrimary(ts, pos) == Ok(Read(e, next))
  }

  lemma EndsMore(t: Token, weak: nat, strong: nat)
    requires Ends(t, weak) && weak <= strong
    ensures Ends(t, strong)
  {
  }

  // ---------- one step of the ladder ----------

  lemma AndStart(ts: seq<Token>, pos: nat, left: Read<A.Expr>)
    requires Ended(ts) && pos < |ts| && ParseComparison(ts, pos) == Ok(left)
    ensures ParseAnd(ts, pos) == AndRest(ts, left.next, left.tree)
  {
    hide ParseComparison, AndRest;
  }

  lemma AndStep(ts: seq<Token>, pos: nat, left: A.Expr, right: Read<A.Expr>)
    requires Ended(ts) && pos + 1 < |ts| && ts[pos] == KwAnd && ParseComparison(ts, pos + 1) == Ok(right)
    ensures AndRest(ts, pos, left) == AndRest(ts, right.next, A.BinaryOp(left, V.And, right.tree))
  {
    hide ParseComparison;
  }

  lemma AndEnd(ts: seq<Token>, pos: nat, left: A.Expr)
    requires Ended(ts) && pos < |ts| && ts[pos] != KwAnd
    ensures AndRest(ts, pos, left) == Ok(Read(left, pos))
  {
    hide ParseComparison;
  }

  lemma OrStart(ts: seq<Token>, pos: nat, left: Read<A.Expr>)
    requires Ended(ts) && pos < |ts| && ParseAnd(ts, pos) == Ok(left)
    ensures ParseExpr(ts, pos) == OrRest(ts, left.next, left.tree)
  {
    hide ParseAnd, OrRest;
  }

  lemma OrStep(ts: seq<Token>, pos: nat, left: A.Expr, right: Read<A.Expr>)
    requires Ended(ts) && pos + 1 < |ts| && ts[pos] == KwOr && ParseAnd(ts, pos + 1) == Ok(right)
    ensures OrRest(ts, pos, left) == OrRest(ts, right.next, A.BinaryOp(left, V.Or, right.tree))
  {
    hide ParseAnd;
  }

  lemma OrEnd(ts: seq<Token>, pos: nat, left: A.Expr)
    requires Ended(ts) && pos < |ts| && ts[pos] != KwOr
    ensures OrRest(ts, pos, left) == Ok(Read(left, pos))
  {
    hide ParseAnd;
  }

  lemma NullTest(ts: seq<Token>, pos: nat, left: A.Expr, negated: bool)
    requires Ended(ts) && pos + 2 < |ts| && ts[pos] == KwIs
    requires if negated then ts[pos + 1] == KwNot && ts[pos + 2] == KwNull else ts[pos + 1] == KwNull
    ensures CompareRest(ts, pos, left) ==
      Ok(if negated then Read(A.IsNotNull(left), pos + 3) else Read(A.IsNull(left), pos + 2))
  {
    hide ParseAdditive;
  }

  /** An expression that has no operator of this level. */
  lemma Lift(ts: seq<Token>, pos: nat, level: nat, e: A.Expr, next: nat)
    requires Ended(ts) && pos < |ts| && next < |ts| && level < 5 && Yields(ts, pos, level + 1, e, next) && Ends(ts[next], Needs(level))
    ensures Yields(ts, pos, level, e, next)
  {
    hide Ended, ParseExpr, ParseAnd, ParseComparison, ParseAdditive, ParseMultiplicative, ParsePrimary, OrRest, AndRest, CompareRest, AddRest, MulRest,
         MultiplicativeOp, AdditiveOp, ComparisonOp;
    var done := Read(e, next);
    if level == 4 {
      ProductStart(ts, pos, done);
    } else if level == 3 {
      ProductEnd(ts, next, e);
      SumStart(ts, pos, done);
    } else if level == 2 {
      SumEnd(ts, next, e);
      CompareStart(ts, pos, done);
      CompareEnd(ts, next, e);
    } else if level == 1 {
      AndStart(ts, pos, done);
    } else {
      AndEnd(ts, next, e);
      OrStart(ts, pos, done);
    }
  }

  // ---------- operators ----------

  lemma OpTokens(op: V.BinOp)
    ensures OpLevel(op) == 4 ==> MultiplicativeOp(OpToken(op)) == Some(op)
    ensures OpLevel(op) == 3 ==> AdditiveOp(OpToken(op)) == Some(op)
    ensures OpLevel(op) == 2 ==> ComparisonOp(OpToken(op)) == Some(op)
    ensures OpLevel(op) == 1 ==> OpToken(op) == KwAnd && op == V.And
    ensures OpLevel(op) == 0 ==> OpToken(op) == KwOr && op == V.Or
    ensures Ends(OpToken(op), Needs(LeftLevel(op)))
    ensures OpLevel(op) == 2 ==> Ends(OpToken(op), 3)
  {
  }

  lemma OperandsStand(ts: seq<Token>, pos: nat, a: seq<Token>, t: Token, b: seq<Token>)
    requires Stands(ts, pos, a + [t] + b)
    ensures Stands(ts, pos, a) && ts[pos + |a|] == t && Stands(ts, pos + |a| + 1, b)
  {
    StandsSplit(ts, pos, a + [t], b);
    StandsSplit(ts, pos, a, [t]);
    StandsAt(ts, pos + |a|, [t], 0);
  }

  /** Both operands read, the operator joins them. */
  lemma OperatorReads(ts: seq<Token>, pos: nat, l: A.Expr, op: V.BinOp, r: A.Expr, mid: nat, next: nat)
    requires Ended(ts) && pos < |ts| && mid + 1 < |ts| && next < |ts| && ts[mid] == OpToken(op) && Ends(ts[next], Needs(OpLevel(op)))
    requires Yields(ts, pos, LeftLevel(op), l, mid) && Yields(ts, mid + 1, OpLevel(op) + 1, r, next)
    ensures Yields(ts, pos, OpLevel(op), A.BinaryOp(l, op, r), next)
  {
    hide Ended, ParseExpr, ParseAnd, ParseComparison, ParseAdditive, ParseMultiplicative, ParsePrimary, OrRest, AndRest, CompareRest, AddRest, MulRest,
         MultiplicativeOp, AdditiveOp, ComparisonOp, OpToken;
    OpTokens(op);
    var right := Read(r, next);
    match OpLevel(op) {
      case 4 =>
        ProductStep(ts, mid, l, right);
      case 3 =>
        ProductEnd(ts, next, r);
        SumStep(ts, mid, l, right);
      case 2 =>
        SumEnd(ts, mid, l);
        CompareStart(ts, pos, Read(l, mid));
        SumEnd(ts, next, r);
        CompareStep(ts, mid, l, right);
      case 1 =>
        AndStep(ts, mid, l, right);
      case _ =>
        AndEnd(ts, next, r);
        OrStep(ts, mid, l, right);
    }
  }

  lemma NullTestReads(ts: seq<Token>, pos: nat, x: A.Expr, negated: bool, mid: nat)
    requires Ended(ts) && pos < |ts| && mid < |ts| && Yields(ts, pos, 3, x, mid)
    requires Stands(ts, mid, if negated then [KwIs, KwNot, KwNull] else [KwIs, KwNull])
    ensures Yields(ts, pos, 2, if negated then A.IsNotNull(x) else A.IsNull(x), mid + if negated then 3 else 2)
  {
    hide Ended, Stands, ParseComparison, ParseAdditive, CompareRest, AddRest, MultiplicativeOp;
    var tokens := if negated then [KwIs, KwNot, KwNull] else [KwIs, KwNull];
    StandsInside(ts, mid, tokens);
    StandsAt(ts, mid, tokens, 0);
    StandsAt(ts, mid, tokens, 1);
    if negated {
      StandsAt(ts, mid, tokens, 2);
    }
    SumEnd(ts, mid, x);
    CompareStart(ts, pos, Read(x, mid));
    NullTest(ts, mid, x, negated);
  }

  // ---------- primaries ----------

  lemma LiteralReadsHere(ts: seq<Token>, pos: nat, lit: A.Literal)
    requires Ended(ts) && pos < |ts| && ts[pos] == TokenOf(lit)
    ensures ParsePrimary(ts, pos) == Ok(Read(A.Lit(lit), pos + 1))
  {
    hide ParseCall, ParseExpr, ParseQuery;
    LiteralReads(ts, pos, lit);
  }

  lemma ParameterReads(ts: seq<Token>, pos: nat)
    requires Ended(ts) && pos + 1 < |ts| && ts[pos] == Dollar && ts[pos + 1].Word?
    ensures ParsePrimary(ts, pos) == Ok(Read(A.Parameter(ts[pos + 1].name), pos + 2))
  {
    hide ParseCall, ParseExpr, ParseQuery;
  }

  lemma NotReads(ts: seq<Token>, pos: nat, x: Read<A.Expr>)
    requires Ended(ts) && pos + 1 < |ts| && ts[pos] == KwNot && ParsePrimary(ts, pos + 1) == Ok(x)
    ensures ParsePrimary(ts, pos) == Ok(Read(A.Not(x.tree), x.next))
  {
    hide ParseCall, ParseExpr, ParseQuery;
  }

  lemma ExistsReads(ts: seq<Token>, pos: nat, q: Read<A.Query>)
    requires Ended(ts) && pos + 2 < |ts| && ts[pos] == KwExists && ts[pos + 1] == LeftBrace
    requires ParseQuery(ts, pos + 2) == Ok(q) && q.next + 1 < |ts| && ts[q.next] == RightBrace
    ensures ParsePrimary(ts, pos) == Ok(Read(A.Exists(q.tree), q.next + 1))
  {
    hide ParseCall, ParseExpr, ParseQuery;
  }

  lemma AggregatorOf(f: A.AggFunc)
    ensures Aggregator(AggregateName(f)) == Some(f)
  {
    var name := AggregateName(f);
    assert Text.Upper(name) == name;
  }

  lemma AggregateReads(ts: seq<Token>, pos: nat, f: A.AggFunc, x: Read<A.Expr>)
    requires Ended(ts) && pos + 2 < |ts| && ts[pos] == Word(AggregateName(f)) && ts[pos + 1] == LeftParen
    requires ParseExpr(ts, pos + 2) == Ok(x) && x.next + 1 < |ts| && ts[x.next] == RightParen
    ensures ParsePrimary(ts, pos) == Ok(Read(A.Aggregate(f, x.tree), x.next + 1))
  {
    hide ParseExpr, ParseQuery, ParseArgs, Aggregator;
    AggregatorOf(f);
  }

  lemma CallReads(ts: seq<Token>, pos: nat, args: Read<seq<A.Expr>>)
    requires Ended(ts) && pos + 2 < |ts| && ts[pos].Word? && ts[pos + 1] == LeftParen && Aggregator(ts[pos].name).None?
    requires if ts[pos + 2] == RightParen then args == Read([], pos + 2) else ParseArgs(ts, pos + 2, []) == Ok(args)
    requires args.next + 1 < |ts| && ts[args.next] == RightParen
    ensures ParsePrimary(ts, pos) == Ok(Read(A.FunctionCall(ts[pos].name, args.tree), args.next + 1))
  {
    hide ParseExpr, ParseQuery, ParseArgs, Aggregator;
  }

  /** Names, properties, parameters and literals. */
  predicate IsLeaf(e: A.Expr) {
    e.Lit? || e.Ident? || e.Property? || e.Parameter?
  }

  lemma LeafReads(ts: seq<Token>, pos: nat, e: A.Expr, y: Style)
    requires Ended(ts) && IsLeaf(e) && Stands(ts, pos, ExprTokens(e, y)) && Ends(ts[pos + |ExprTokens(e, y)|], 5)
    ensures ParsePrimary(ts, pos) == Ok(Read(e, pos + |ExprTokens(e, y)|))
  {
    hide Ended, Stands, ParsePrimary, TokenOf, MultiplicativeOp, AdditiveOp, ComparisonOp;
    var tokens := ExprTokens(e, y);
    StandsInside(ts, pos, tokens);
    StandsAt(ts, pos, tokens, 0);
    match e {
      case Lit(lit) => LiteralReadsHere(ts, pos, lit);
      case Ident(_) => PlainWord(ts, pos);
      case Property(_, _) =>
        StandsAt(ts, pos, tokens, 1);
        StandsAt(ts, pos, tokens, 2);
        DottedWord(ts, pos);
      case Parameter(_) =>
        StandsAt(ts, pos, tokens, 1);
        ParameterReads(ts, pos);
    }
  }

  // ---------- the first token of a clause ----------

  /** The number of the clause that a token begins, 7 for the end of a query, -1 for all other tokens. */
  function Rank(t: Token): int {
    match t
    case KwMatch => 0
    case KwCreate => 1
    case KwWith => 2
    case KwWhere => 3
    case KwReturn => 4
    case KwOrder => 5
    case KwLimit => 6
    case RightBrace => 7
    case Eof => 7
    case _ => -1
  }

  /** Tokens behind an expression that is complete. */
  predicate Follows(t: Token) {
    Rank(t) >= 0 || t in {Comma, RightParen, KwAs, KwAsc, KwDesc}
  }

  lemma FollowsEnds(t: Token, level: nat)
    requires Follows(t)
    ensures Ends(t, level)
  {
  }

  lemma RankEndsPatterns(t: Token)
    requires Rank(t) >= 0
    ensures EndsPatterns(t) && t != Comma && Follows(t) && t != KwAsc && t != KwDesc && t != KwAs
  {
  }

  // ---------- expressions ----------

  function Order(e: A.Expr, level: nat): nat {
    if level <= Level(e) then 1 + Level(e) - level else if level <= 5 then 16 - level else 10
  }

  lemma SameTokens(e: A.Expr, level: nat, y: Style)
    requires level < 5 && level != Level(e)
    ensures TokensAt(e, level, y) == TokensAt(e, level + 1, y)
  {
    hide ExprTokens;
  }

  lemma Bare(e: A.Expr, level: nat, y: Style)
    requires level <= Level(e)
    ensures TokensAt(e, level, y) == ExprTokens(e, y)
  {
    hide ExprTokens;
  }

  lemma InParens(e: A.Expr, level: nat, y: Style)
    requires Level(e) < level
    ensures TokensAt(e, level, y) == [LeftParen] + ExprTokens(e, y) + [RightParen]
  {
    hide ExprTokens;
  }

  lemma {:induction false} Reads(ts: seq<Token>, pos: nat, e: A.Expr, level: nat, y: Style)
    requires Ended(ts) && level <= 5 && Stands(ts, pos, TokensAt(e, level, y)) && WritableExpr(e) && Ends(ts[pos + |TokensAt(e, level, y)|], Needs(level))
    ensures Yields(ts, pos, level, e, pos + |TokensAt(e, level, y)|)
    decreases e, Order(e, level)
  {
    hide Ended, Stands, TokensAt, ExprTokens, WritableExpr, Yields, Ends, ParseExpr, OrRest, ParsePrimary, Level, OpToken;
    var n := |TokensAt(e, level, y)|;
    StandsInside(ts, pos, TokensAt(e, level, y));
    if level < 5 && level != Level(e) {
      SameTokens(e, level, y);
      NeedsLess(ts[pos + n], level);
      Reads(ts, pos, e, level + 1, y);
      Lift(ts, pos, level, e, pos + n);
    } else if level == Level(e) {
      Bare(e, level, y);
      BareReads(ts, pos, e, y);
    } else {
      InParens(e, level, y);
      ParenParts(ts, pos, ExprTokens(e, y));
      Bare(e, 0, y);
      ParenEnds(1);
      Reads(ts, pos + 1, e, 0, y);
      ParenReads(ts, pos, e, pos + n - 1);
    }
  }

  lemma ParenParts(ts: seq<Token>, pos: nat, inner: seq<Token>)
    requires Stands(ts, pos, [LeftParen] + inner + [RightParen])
    ensures ts[pos] == LeftParen && Stands(ts, pos + 1, inner) && ts[pos + 1 + |inner|] == RightParen
  {
    hide Stands;
    StandsSplit(ts, pos, [LeftParen] + inner, [RightParen]);
    StandsAt(ts, pos + 1 + |inner|, [RightParen], 0);
    StandsSplit(ts, pos, [LeftParen], inner);
    StandsAt(ts, pos, [LeftParen], 0);
  }

  lemma ParenEnds(level: nat)
    ensures Ends(RightParen, level)
  {
  }

  lemma NeedsLess(t: Token, level: nat)
    requires level < 5 && Ends(t, Needs(level))
    ensures Ends(t, Needs(level + 1))
  {
  }

  lemma ParenReads(ts: seq<Token>, pos: nat, e: A.Expr, close: nat)
    requires Ended(ts) && pos + 1 < |ts| && close + 1 < |ts| && ts[pos] == LeftParen && ts[close] == RightParen && Yields(ts, pos + 1, 0, e, close)
    ensures Yields(ts, pos, 5, e, close + 1)
  {
    hide Ended, ParseExpr, OrRest, ParsePrimary;
    OrEnd(ts, close, e);
    Grouped(ts, pos, Read(e, close));
  }

  /** An expression without parentheses around it, at its own level. */
  lemma {:induction false} BareReads(ts: seq<Token>, pos: nat, e: A.Expr, y: Style)
    requires Ended(ts) && Stands(ts, pos, ExprTokens(e, y)) && WritableExpr(e) && Ends(ts[pos + |ExprTokens(e, y)|], Needs(Level(e)))
    ensures Yields(ts, pos, Level(e), e, pos + |ExprTokens(e, y)|)
    decreases e, 0
  {
    hide Ended, Stands, TokensAt, Yields, Ends, ParsePrimary, ParseExpr, OpToken, Name, WritableLiteral;
    match e {
      case BinaryOp(l, op, r) => BinaryReads(ts, pos, l, op, r, y);
      case IsNull(x) => IsNullReads(ts, pos, x, false, y);
      case IsNotNull(x) => IsNullReads(ts, pos, x, true, y);
      case Not(x) => NegationReads(ts, pos, x, y);
      case Aggregate(f, x) => AggregationReads(ts, pos, f, x, y);
      case FunctionCall(fn, args) => FunctionReads(ts, pos, fn, args, y);
      case Exists(q) => SubqueryReads(ts, pos, q, y);
      case _ => LeafYields(ts, pos, e, y);
    }
  }

  lemma LeafYields(ts: seq<Token>, pos: nat, e: A.Expr, y: Style)
    requires Ended(ts) && IsLeaf(e) && Stands(ts, pos, ExprTokens(e, y)) && Ends(ts[pos + |ExprTokens(e, y)|], 5)
    ensures Yields(ts, pos, 5, e, pos + |ExprTokens(e, y)|)
  {
    hide Ended, Stands, ExprTokens, Ends, ParsePrimary;
    LeafReads(ts, pos, e, y);
  }

  lemma {:induction false} BinaryReads(ts: seq<Token>, pos: nat, l: A.Expr, op: V.BinOp, r: A.Expr, y: Style)
    requires Ended(ts) && Stands(ts, pos, ExprTokens(A.BinaryOp(l, op, r), y)) && WritableExpr(l) && WritableExpr(r)
    requires Ends(ts[pos + |ExprTokens(A.BinaryOp(l, op, r), y)|], Needs(OpLevel(op)))
    ensures Yields(ts, pos, OpLevel(op), A.BinaryOp(l, op, r), pos + |ExprTokens(A.BinaryOp(l, op, r), y)|)
    decreases A.BinaryOp(l, op, r), 0, 0
  {
    hide Ended, Stands, TokensAt, Yields, Ends, OpToken, WritableExpr;
    var a, b := TokensAt(l, LeftLevel(op), y), TokensAt(r, OpLevel(op) + 1, y);
    StandsInside(ts, pos, ExprTokens(A.BinaryOp(l, op, r), y));
    OperandsStand(ts, pos, a, OpToken(op), b);
    StandsInside(ts, pos + |a| + 1, b);
    OpTokens(op);
    LevelsFit(op, ts[pos + |a| + 1 + |b|]);
    Reads(ts, pos, l, LeftLevel(op), y);
    Reads(ts, pos + |a| + 1, r, OpLevel(op) + 1, y);
    OperatorReads(ts, pos, l, op, r, pos + |a|, pos + |a| + 1 + |b|);
  }

  lemma LevelsFit(op: V.BinOp, t: Token)
    requires Ends(t, Needs(OpLevel(op)))
    ensures LeftLevel(op) <= 5 && OpLevel(op) + 1 <= 5 && Ends(t, Needs(OpLevel(op) + 1))
  {
  }

  lemma {:induction false} IsNullReads(ts: seq<Token>, pos: nat, x: A.Expr, negated: bool, y: Style)
    requires var e := if negated then A.IsNotNull(x) else A.IsNull(x); Ended(ts) && Stands(ts, pos, ExprTokens(e, y)) && WritableExpr(x)
    ensures var e := if negated then A.IsNotNull(x) else A.IsNull(x); Yields(ts, pos, 2, e, pos + |ExprTokens(e, y)|)
    decreases if negated then A.IsNotNull(x) else A.IsNull(x), 0, 0
  {
    hide Ended, Stands, TokensAt, Yields, Ends, WritableExpr;
    var a, tail := TokensAt(x, 3, y), if negated then [KwIs, KwNot, KwNull] else [KwIs, KwNull];
    assert ExprTokens(if negated then A.IsNotNull(x) else A.IsNull(x), y) == a + tail;
    StandsSplit(ts, pos, a, tail);
    StandsInside(ts, pos + |a|, tail);
    StandsAt(ts, pos + |a|, tail, 0);
    IsEnds();
    Reads(ts, pos, x, 3, y);
    NullTestReads(ts, pos, x, negated, pos + |a|);
  }

  lemma IsEnds()
    ensures Ends(KwIs, 4)
  {
  }

  lemma {:induction false} NegationReads(ts: seq<Token>, pos: nat, x: A.Expr, y: Style)
    requires Ended(ts) && Stands(ts, pos, ExprTokens(A.Not(x), y)) && WritableExpr(x) && Ends(ts[pos + |ExprTokens(A.Not(x), y)|], 5)
    ensures Yields(ts, pos, 5, A.Not(x), pos + |ExprTokens(A.Not(x), y)|)
    decreases A.Not(x), 0, 0
  {
    hide Ended, Stands, TokensAt, Ends, WritableExpr, ParsePrimary;
    var a := TokensAt(x, 5, y);
    StandsInside(ts, pos, ExprTokens(A.Not(x), y));
    StandsSplit(ts, pos, [KwNot], a);
    StandsAt(ts, pos, [KwNot], 0);
    Reads(ts, pos + 1, x, 5, y);
    NotReads(ts, pos, Read(x, pos + 1 + |a|));
  }

  /** A whole expression, with nothing behind it that continues one. */
  lemma {:induction false} ExprReads(ts: seq<Token>, pos: nat, e: A.Expr, y: Style)
    requires Ended(ts) && Stands(ts, pos, ExprTokens(e, y)) && WritableExpr(e) && Follows(ts[pos + |ExprTokens(e, y)|])
    ensures ParseExpr(ts, pos) == Ok(Read(e, pos + |ExprTokens(e, y)|))
    decreases e, 20
  {
    hide Ended, Stands, TokensAt, ExprTokens, Ends, WritableExpr, ParseExpr, OrRest, Follows;
    var next := pos + |ExprTokens(e, y)|;
    StandsInside(ts, pos, ExprTokens(e, y));
    Bare(e, 0, y);
    FollowsEnds(ts[next], 1);
    FollowsEnds(ts[next], 0);
    Reads(ts, pos, e, 0, y);
    NoOr(ts[next]);
    OrEnd(ts, next, e);
  }

  lemma NoOr(t: Token)
    requires Ends(t, 0)
    ensures t != KwOr
  {
  }

  lemma {:induction false} AggregationReads(ts: seq<Token>, pos: nat, f: A.AggFunc, x: A.Expr, y: Style)
    requires Ended(ts) && Stands(ts, pos, ExprTokens(A.Aggregate(f, x), y)) && WritableExpr(x)
    ensures Yields(ts, pos, 5, A.Aggregate(f, x), pos + |ExprTokens(A.Aggregate(f, x), y)|)
    decreases A.Aggregate(f, x), 0, 0
  {
    hide Ended, Stands, WritableExpr, ParsePrimary, ParseExpr, Follows, AggregateName;
    var head, a := [Word(AggregateName(f)), LeftParen], ExprTokens(x, y);
    StandsInside(ts, pos, ExprTokens(A.Aggregate(f, x), y));
    StandsSplit(ts, pos, head + a, [RightParen]);
    StandsAt(ts, pos + |head + a|, [RightParen], 0);
    StandsSplit(ts, pos, head, a);
    StandsAt(ts, pos, head, 0);
    StandsAt(ts, pos, head, 1);
    ParenFollows();
    ExprReads(ts, pos + 2, x, y);
    AggregateReads(ts, pos, f, Read(x, pos + 2 + |a|));
  }

  lemma ParenFollows()
    ensures Follows(RightParen) && Follows(Comma) && Follows(KwAs) && Follows(KwAsc) && Follows(KwDesc)
  {
  }

  lemma {:induction false} FunctionReads(ts: seq<Token>, pos: nat, fn: string, args: seq<A.Expr>, y: Style)
    requires Ended(ts) && Stands(ts, pos, ExprTokens(A.FunctionCall(fn, args), y)) && WritableArgs(args) && Aggregator(fn).None?
    ensures Yields(ts, pos, 5, A.FunctionCall(fn, args), pos + |ExprTokens(A.FunctionCall(fn, args), y)|)
    decreases A.FunctionCall(fn, args), 0, 0
  {
    hide Ended, Stands, WritableArgs, ParsePrimary, ParseArgs, ArgTokens, Aggregator;
    var head, a := [Word(fn), LeftParen], ArgTokens(args, y);
    StandsInside(ts, pos, ExprTokens(A.FunctionCall(fn, args), y));
    StandsSplit(ts, pos, head + a, [RightParen]);
    StandsAt(ts, pos + |head + a|, [RightParen], 0);
    StandsSplit(ts, pos, head, a);
    StandsAt(ts, pos, head, 0);
    StandsAt(ts, pos, head, 1);
    if args == [] {
      NoArgs(y);
    } else {
      ArgsRead(ts, pos + 2, [], args, y);
      assert [] + args == args;
      ArgsStart(ts, pos + 2, []);
    }
    CallReads(ts, pos, Read(args, pos + 2 + |a|));
  }

  lemma NoArgs(y: Style)
    ensures ArgTokens([], y) == []
  {
  }

  lemma NothingPrimary(ts: seq<Token>, pos: nat)
    requires Ended(ts) && pos < |ts| && ts[pos] == RightParen
    ensures ParsePrimary(ts, pos).Err? && ParseMultiplicative(ts, pos).Err?
  {
    hide MulRest;
  }

  lemma NothingCompared(ts: seq<Token>, pos: nat)
    requires Ended(ts) && pos < |ts| && ParseMultiplicative(ts, pos).Err?
    ensures ParseAdditive(ts, pos).Err? && ParseComparison(ts, pos).Err?
  {
    hide ParseMultiplicative, AddRest, CompareRest;
  }

  lemma NothingJoined(ts: seq<Token>, pos: nat)
    requires Ended(ts) && pos < |ts| && ParseComparison(ts, pos).Err?
    ensures ParseAnd(ts, pos).Err? && ParseExpr(ts, pos).Err?
  {
    hide ParseComparison, AndRest, OrRest;
  }

  /** No argument begins with a closing parenthesis. */
  lemma ArgsStart(ts: seq<Token>, pos: nat, before: seq<A.Expr>)
    requires Ended(ts) && pos < |ts| && ParseArgs(ts, pos, before).Ok?
    ensures ts[pos] != RightParen
  {
    hide ParseExpr;
    assert ParseExpr(ts, pos).Ok?;
    if ts[pos] == RightParen {
      NothingPrimary(ts, pos);
      NothingCompared(ts, pos);
      NothingJoined(ts, pos);
    }
  }

  lemma ArgTokensAre(args: seq<A.Expr>, y: Style)
    requires args != []
    ensures |args| == 1 ==> ArgTokens(args, y) == ExprTokens(args[0], y)
    ensures |args| > 1 ==> ArgTokens(args, y) == ExprTokens(args[0], y) + ([Comma] + ArgTokens(args[1..], y))
  {
    hide ExprTokens;
    if |args| == 1 {
      assert ArgTokens(args[1..], y) == [];
    }
  }

  lemma ArgsStep(ts: seq<Token>, pos: nat, before: seq<A.Expr>, e: Read<A.Expr>)
    requires Ended(ts) && pos < |ts| && ParseExpr(ts, pos) == Ok(e)
    ensures ParseArgs(ts, pos, before) ==
      if ts[e.next] == Comma then ParseArgs(ts, e.next + 1, before + [e.tree]) else Ok(Read(before + [e.tree], e.next))
  {
    hide ParseExpr;
  }

  lemma {:induction false} ArgsRead(ts: seq<Token>, pos: nat, before: seq<A.Expr>, args: seq<A.Expr>, y: Style)
    requires Ended(ts) && args != [] && Stands(ts, pos, ArgTokens(args, y)) && WritableArgs(args) && ts[pos + |ArgTokens(args, y)|] == RightParen
    ensures ParseArgs(ts, pos, before) == Ok(Read(before + args, pos + |ArgTokens(args, y)|))
    decreases args
  {
    hide Ended, Stands, ParseArgs, ParseExpr, ArgTokens, ExprTokens, WritableExpr, Follows;
    StandsInside(ts, pos, ArgTokens(args, y));
    ArgTokensAre(args, y);
    ParenFollows();
    var one := ExprTokens(args[0], y);
    var next := pos + |one|;
    if |args| > 1 {
      var rest := ArgTokens(args[1..], y);
      StandsSplit(ts, pos, one, [Comma] + rest);
      StandsSplit(ts, next, [Comma], rest);
      StandsAt(ts, next, [Comma], 0);
      ExprReads(ts, pos, args[0], y);
      ArgsStep(ts, pos, before, Read(args[0], next));
      ArgsRead(ts, next + 1, before + [args[0]], args[1..], y);
      assert before + [args[0]] + args[1..] == before + args;
    } else {
      ExprReads(ts, pos, args[0], y);
      ArgsStep(ts, pos, before, Read(args[0], next));
      assert before + [args[0]] == before + args;
    }
  }

  lemma {:induction false} SubqueryReads(ts: seq<Token>, pos: nat, q: A.Query, y: Style)
    requires Ended(ts) && Stands(ts, pos, ExprTokens(A.Exists(q), y)) && WritableQuery(q)
    ensures Yields(ts, pos, 5, A.Exists(q), pos + |ExprTokens(A.Exists(q), y)|)
    decreases A.Exists(q), 0, 0
  {
    hide Ended, Stands, WritableQuery, ParsePrimary, ParseQuery, QueryTokens;
    var head, a := [KwExists, LeftBrace], QueryTokens(q, y);
    StandsInside(ts, pos, ExprTokens(A.Exists(q), y));
    StandsSplit(ts, pos, head + a, [RightBrace]);
    StandsAt(ts, pos + |head + a|, [RightBrace], 0);
    StandsSplit(ts, pos, head, a);
    StandsAt(ts, pos, head, 0);
    StandsAt(ts, pos, head, 1);
    QueryReads(ts, pos + 2, q, y);
    ExistsReads(ts, pos, Read(q, pos + 2 + |a|));
  }

  // ---------- items of clauses ----------

  lemma WithStep(ts: seq<Token>, pos: nat, before: seq<A.WithItem>, e: Read<A.Expr>)
    requires Ended(ts) && pos < |ts| && ParseExpr(ts, pos) == Ok(e) && e.next + 2 < |ts| && ts[e.next] == KwAs && ts[e.next + 1].Word?
    ensures var more := before + [A.WithItem(e.tree, ts[e.next + 1].name)];
            ParseWithItems(ts, pos, before) ==
              if ts[e.next + 2] == Comma then ParseWithItems(ts, e.next + 3, more) else Ok(Read(more, e.next + 2))
  {
    hide ParseExpr;
  }

  lemma ReturnStep(ts: seq<Token>, pos: nat, before: seq<A.ReturnItem>, e: Read<A.Expr>)
    requires Ended(ts) && pos < |ts| && ParseExpr(ts, pos) == Ok(e)
    ensures var more := before + [A.ReturnItem(e.tree, None)];
            ParseReturnItems(ts, pos, before) == if ts[e.next] == Comma then ParseReturnItems(ts, e.next + 1, more) else Ok(Read(more, e.next))
  {
    hide ParseExpr;
  }

  lemma OrderStep(ts: seq<Token>, pos: nat, before: seq<A.OrderByItem>, item: Read<A.OrderByItem>)
    requires Ended(ts) && pos < |ts| && ParseOrderItem(ts, pos) == Ok(item)
    ensures var more := before + [item.tree];
            ParseOrderItems(ts, pos, before) == if ts[item.next] == Comma then ParseOrderItems(ts, item.next + 1, more) else Ok(Read(more, item.next))
  {
    hide ParseOrderItem;
  }

  lemma OrderItemIs(ts: seq<Token>, pos: nat, e: Read<A.Expr>)
    requires Ended(ts) && pos < |ts| && ParseExpr(ts, pos) == Ok(e)
    ensures ts[e.next] == KwDesc ==> ParseOrderItem(ts, pos) == Ok(Read(A.OrderByItem(e.tree, true), e.next + 1))
    ensures ts[e.next] == KwAsc ==> ParseOrderItem(ts, pos) == Ok(Read(A.OrderByItem(e.tree, false), e.next + 1))
    ensures ts[e.next] != KwDesc && ts[e.next] != KwAsc ==> ParseOrderItem(ts, pos) == Ok(Read(A.OrderByItem(e.tree, false), e.next))
  {
    hide ParseExpr;
  }

  lemma WithTokensAre(items: seq<A.WithItem>, y: Style)
    requires items != []
    ensures |items| == 1 ==> WithTokens(items, y) == WithItemTokens(items[0], y)
    ensures |items| > 1 ==> WithTokens(items, y) == WithItemTokens(items[0], y) + ([Comma] + WithTokens(items[1..], y))
  {
    hide WithItemTokens;
    if |items| == 1 {
      assert WithTokens(items[1..], y) == [];
    }
  }

  lemma ReturnTokensAre(items: seq<A.ReturnItem>, y: Style)
    requires items != []
    ensures |items| == 1 ==> ReturnTokens(items, y) == ReturnItemTokens(items[0], y)
    ensures |items| > 1 ==> ReturnTokens(items, y) == ReturnItemTokens(items[0], y) + ([Comma] + ReturnTokens(items[1..], y))
  {
    hide ReturnItemTokens;
    if |items| == 1 {
      assert ReturnTokens(items[1..], y) == [];
    }
  }

  lemma OrderTokensAre(items: seq<A.OrderByItem>, y: Style)
    requires items != []
    ensures |items| == 1 ==> OrderTokens(items, y) == OrderItemTokens(items[0], y)
    ensures |items| > 1 ==> OrderTokens(items, y) == OrderItemTokens(items[0], y) + ([Comma] + OrderTokens(items[1..], y))
  {
    hide OrderItemTokens;
    if |items| == 1 {
      assert OrderTokens(items[1..], y) == [];
    }
  }

  /** One item up to the token behind it. */
  lemma {:induction false} WithItemReads(ts: seq<Token>, pos: nat, before: seq<A.WithItem>, item: A.WithItem, y: Style)
    requires Ended(ts) && Stands(ts, pos, WithItemTokens(item, y)) && WritableWithItem(item)
    ensures var next := pos + |WithItemTokens(item, y)|;
            ParseWithItems(ts, pos, before) == if ts[next] == Comma then ParseWithItems(ts, next + 1, before + [item]) else Ok(Read(before + [item], next))
    decreases item
  {
    hide Ended, Stands, ParseWithItems, ParseExpr, ExprTokens, WritableExpr, Follows, Name;
    var one, tail := ExprTokens(item.expr, y), [KwAs, Word(item.alias)];
    StandsInside(ts, pos, WithItemTokens(item, y));
    StandsSplit(ts, pos, one, tail);
    StandsAt(ts, pos + |one|, tail, 0);
    StandsAt(ts, pos + |one|, tail, 1);
    ParenFollows();
    ExprReads(ts, pos, item.expr, y);
    WithStep(ts, pos, before, Read(item.expr, pos + |one|));
  }

  lemma {:induction false} ReturnItemReads(ts: seq<Token>, pos: nat, before: seq<A.ReturnItem>, item: A.ReturnItem, y: Style)
    requires Ended(ts) && Stands(ts, pos, ReturnItemTokens(item, y)) && WritableReturnItem(item) && Follows(ts[pos + |ReturnItemTokens(item, y)|])
    ensures var next := pos + |ReturnItemTokens(item, y)|;
            ParseReturnItems(ts, pos, before) == if ts[next] == Comma then ParseReturnItems(ts, next + 1, before + [item]) else Ok(Read(before + [item], next))
    decreases item
  {
    hide Ended, Stands, ParseReturnItems, ParseExpr, ExprTokens, WritableExpr, Follows;
    StandsInside(ts, pos, ReturnItemTokens(item, y));
    ExprReads(ts, pos, item.expr, y);
    ReturnStep(ts, pos, before, Read(item.expr, pos + |ExprTokens(item.expr, y)|));
  }

  lemma {:induction false} OrderItemReads(ts: seq<Token>, pos: nat, before: seq<A.OrderByItem>, item: A.OrderByItem, y: Style)
    requires Ended(ts) && Stands(ts, pos, OrderItemTokens(item, y)) && WritableOrderItem(item)
    requires var t := ts[pos + |OrderItemTokens(item, y)|]; t == Comma || Rank(t) >= 0
    ensures var next := pos + |OrderItemTokens(item, y)|;
            ParseOrderItems(ts, pos, before) == if ts[next] == Comma then ParseOrderItems(ts, next + 1, before + [item]) else Ok(Read(before + [item], next))
    decreases item
  {
    hide Ended, Stands, ParseOrderItems, ParseOrderItem, ParseExpr, ExprTokens, OrderItemTokens, WritableExpr, Follows, Rank;
    var one, next := ExprTokens(item.expr, y), pos + |OrderItemTokens(item, y)|;
    OrderItemParts(ts, pos, item, y);
    ExprReads(ts, pos, item.expr, y);
    OrderItemIs(ts, pos, Read(item.expr, pos + |one|));
    assert item == A.OrderByItem(item.expr, item.descending);
    OrderStep(ts, pos, before, Read(item, next));
  }

  /** Behind the expression stands what gives the direction, if anything, and then the next token. */
  lemma OrderItemParts(ts: seq<Token>, pos: nat, item: A.OrderByItem, y: Style)
    requires Ended(ts) && Stands(ts, pos, OrderItemTokens(item, y))
    requires var t := ts[pos + |OrderItemTokens(item, y)|]; t == Comma || Rank(t) >= 0
    ensures var at, next := pos + |ExprTokens(item.expr, y)|, pos + |OrderItemTokens(item, y)|;
      && Stands(ts, pos, ExprTokens(item.expr, y)) && at <= next < |ts| && Follows(ts[at])
      && (if item.descending then ts[at] == KwDesc && next == at + 1
          else if y.ascending then ts[at] == KwAsc && next == at + 1
          else next == at && ts[at] != KwDesc && ts[at] != KwAsc)
  {
    hide Stands, ExprTokens, Follows, Rank;
    var one, tail := ExprTokens(item.expr, y), if item.descending then [KwDesc] else if y.ascending then [KwAsc] else [];
    var next := pos + |OrderItemTokens(item, y)|;
    StandsInside(ts, pos, OrderItemTokens(item, y));
    StandsSplit(ts, pos, one, tail);
    FirstOf(ts, pos + |one|, tail);
    ParenFollows();
    if Rank(ts[next]) >= 0 {
      RankEndsPatterns(ts[next]);
    }
  }

  lemma CommaParts(ts: seq<Token>, pos: nat, one: seq<Token>, rest: seq<Token>)
    requires Stands(ts, pos, one + ([Comma] + rest))
    ensures pos + |one| < |ts| && Stands(ts, pos, one) && ts[pos + |one|] == Comma && Stands(ts, pos + |one| + 1, rest)
  {
    hide Stands;
    StandsInside(ts, pos, one + ([Comma] + rest));
    StandsSplit(ts, pos, one, [Comma] + rest);
    StandsSplit(ts, pos + |one|, [Comma], rest);
    StandsAt(ts, pos + |one|, [Comma], 0);
  }

  lemma {:induction false} WithItemsRead(ts: seq<Token>, pos: nat, before: seq<A.WithItem>, items: seq<A.WithItem>, y: Style)
    requires Ended(ts) && items != [] && Stands(ts, pos, WithTokens(items, y)) && WritableWith(items) && Rank(ts[pos + |WithTokens(items, y)|]) >= 0
    ensures ParseWithItems(ts, pos, before) == Ok(Read(before + items, pos + |WithTokens(items, y)|))
    decreases items
  {
    hide Ended, Stands, ParseWithItems, WithTokens, WithItemTokens, WritableWithItem;
    StandsInside(ts, pos, WithTokens(items, y));
    WithTokensAre(items, y);
    RankEndsPatterns(ts[pos + |WithTokens(items, y)|]);
    var one := WithItemTokens(items[0], y);
    if |items| > 1 {
      var rest := WithTokens(items[1..], y);
      CommaParts(ts, pos, one, rest);
      WithItemReads(ts, pos, before, items[0], y);
      WithItemsRead(ts, pos + |one| + 1, before + [items[0]], items[1..], y);
      assert before + [items[0]] + items[1..] == before + items;
    } else {
      WithItemReads(ts, pos, before, items[0], y);
      assert before + [items[0]] == before + items;
    }
  }

  lemma {:induction false} ReturnItemsRead(ts: seq<Token>, pos: nat, before: seq<A.ReturnItem>, items: seq<A.ReturnItem>, y: Style)
    requires Ended(ts) && items != [] && Stands(ts, pos, ReturnTokens(items, y)) && WritableReturn(items) && Rank(ts[pos + |ReturnTokens(items, y)|]) >= 0
    ensures ParseReturnItems(ts, pos, before) == Ok(Read(before + items, pos + |ReturnTokens(items, y)|))
    decreases items
  {
    hide Ended, Stands, ParseReturnItems, ReturnTokens, ReturnItemTokens, WritableReturnItem, Follows;
    StandsInside(ts, pos, ReturnTokens(items, y));
    ReturnTokensAre(items, y);
    RankEndsPatterns(ts[pos + |ReturnTokens(items, y)|]);
    ParenFollows();
    var one := ReturnItemTokens(items[0], y);
    if |items| > 1 {
      var rest := ReturnTokens(items[1..], y);
      CommaParts(ts, pos, one, rest);
      ReturnItemReads(ts, pos, before, items[0], y);
      ReturnItemsRead(ts, pos + |one| + 1, before + [items[0]], items[1..], y);
      assert before + [items[0]] + items[1..] == before + items;
    } else {
      ReturnItemReads(ts, pos, before, items[0], y);
      assert before + [items[0]] == before + items;
    }
  }

  lemma {:induction false} OrderItemsRead(ts: seq<Token>, pos: nat, before: seq<A.OrderByItem>, items: seq<A.OrderByItem>, y: Style)
    requires Ended(ts) && items != [] && Stands(ts, pos, OrderTokens(items, y)) && WritableOrder(items) && Rank(ts[pos + |OrderTokens(items, y)|]) >= 0
    ensures ParseOrderItems(ts, pos, before) == Ok(Read(before + items, pos + |OrderTokens(items, y)|))
    decreases items
  {
    hide Ended, Stands, ParseOrderItems, OrderTokens, OrderItemTokens, WritableOrderItem, Rank, Follows;
    StandsInside(ts, pos, OrderTokens(items, y));
    OrderTokensAre(items, y);
    RankEndsPatterns(ts[pos + |OrderTokens(items, y)|]);
    var one := OrderItemTokens(items[0], y);
    if |items| > 1 {
      var rest := OrderTokens(items[1..], y);
      CommaParts(ts, pos, one, rest);
      OrderItemReads(ts, pos, before, items[0], y);
      OrderItemsRead(ts, pos + |one| + 1, before + [items[0]], items[1..], y);
      assert before + [items[0]] + items[1..] == before + items;
    } else {
      OrderItemReads(ts, pos, before, items[0], y);
      assert before + [items[0]] == before + items;
    }
  }

  // ---------- clauses ----------

  /** Clause `k` of the query has been read, up to `next`. */
  ghost predicate ClauseRead(ts: seq<Token>, pos: nat, q: A.Query, k: nat, next: nat)
    requires Ended(ts) && pos < |ts|
  {
    if k == 0 then ParseMatch(ts, pos) == Ok(Read(q.matchClause, next))
    else if k == 1 then ParseCreate(ts, pos) == Ok(Read(q.createClause, next))
    else if k == 2 then ParseWith(ts, pos) == Ok(Read(q.withClause, next))
    else if k == 3 then ParseWhere(ts, pos) == Ok(Read(q.whereClause, next))
    else if k == 4 then ParseReturn(ts, pos) == Ok(Read(q.returnClause, next))
    else if k == 5 then ParseOrderBy(ts, pos) == Ok(Read(q.orderBy, next))
    else ParseLimit(ts, pos) == Ok(Read(q.limit, next))
  }

  predicate HasClause(q: A.Query, k: nat) {
    if k == 0 then q.matchClause.Some?
    else if k == 1 then q.createClause.Some?
    else if k == 2 then q.withClause.Some?
    else if k == 3 then q.whereClause.Some?
    else if k == 4 then q.returnClause.Some?
    else if k == 5 then q.orderBy.Some?
    else q.limit.Some?
  }

  lemma AbsentReads(ts: seq<Token>, pos: nat, q: A.Query, k: nat)
    requires Ended(ts) && pos < |ts| && k < 7 && !HasClause(q, k) && Rank(ts[pos]) > k
    ensures ClauseRead(ts, pos, q, k, pos)
  {
    hide ParseExpr, ParseMatchPatterns, ParseCreatePatterns, ParseWithItems, ParseReturnItems, ParseOrderItems;
  }

  lemma ClauseStarts(q: A.Query, k: nat, y: Style)
    requires k < 7
    ensures !HasClause(q, k) ==> ClauseTokens(q, k, y) == []
    ensures HasClause(q, k) ==> ClauseTokens(q, k, y) != [] && Rank(ClauseTokens(q, k, y)[0]) == k
  {
    hide MatchTokens, CreateTokens, WithTokens, ReturnTokens, OrderTokens, ExprTokens;
  }

  lemma MatchClauseReads(ts: seq<Token>, pos: nat, ps: seq<A.Pattern>, y: Style)
    requires Ended(ts) && Stands(ts, pos, [KwMatch] + MatchTokens(ps, true, y)) && WritableMatch(ps)
    requires Rank(ts[pos + 1 + |MatchTokens(ps, true, y)|]) >= 0
    ensures ParseMatch(ts, pos) == Ok(Read(Some(ps), pos + 1 + |MatchTokens(ps, true, y)|))
  {
    hide Ended, Stands, MatchTokens, WritableMatch, ParseMatchPatterns, EndsPatterns;
    StandsInside(ts, pos, [KwMatch] + MatchTokens(ps, true, y));
    StandsSplit(ts, pos, [KwMatch], MatchTokens(ps, true, y));
    StandsAt(ts, pos, [KwMatch], 0);
    RankEndsPatterns(ts[pos + 1 + |MatchTokens(ps, true, y)|]);
    MatchListReads(ts, pos + 1, ps, y);
  }

  lemma CreateClauseReads(ts: seq<Token>, pos: nat, ps: seq<A.Pattern>, y: Style)
    requires Ended(ts) && Stands(ts, pos, [KwCreate] + CreateTokens(ps, y)) && WritableCreate(ps)
    requires Rank(ts[pos + 1 + |CreateTokens(ps, y)|]) >= 0
    ensures ParseCreate(ts, pos) == Ok(Read(Some(ps), pos + 1 + |CreateTokens(ps, y)|))
  {
    hide Ended, Stands, CreateTokens, WritableCreate, ParseCreatePatterns, EndsPatterns;
    StandsInside(ts, pos, [KwCreate] + CreateTokens(ps, y));
    StandsSplit(ts, pos, [KwCreate], CreateTokens(ps, y));
    StandsAt(ts, pos, [KwCreate], 0);
    RankEndsPatterns(ts[pos + 1 + |CreateTokens(ps, y)|]);
    CreateListReads(ts, pos + 1, ps, y);
  }

  lemma LimitReads(ts: seq<Token>, pos: nat, n: nat)
    requires Ended(ts) && Stands(ts, pos, [KwLimit, IntTok(n)]) && n < I64_LIMIT
    ensures ParseLimit(ts, pos) == Ok(Read(Some(n), pos + 2))
  {
    StandsAt(ts, pos, [KwLimit, IntTok(n)], 0);
    StandsAt(ts, pos, [KwLimit, IntTok(n)], 1);
  }

  lemma {:induction false} WithClauseReads(ts: seq<Token>, pos: nat, w: A.WithClause, y: Style)
    requires Ended(ts) && Stands(ts, pos, [KwWith] + WithTokens(w.items, y)) && w.items != [] && WritableWith(w.items)
    requires Rank(ts[pos + 1 + |WithTokens(w.items, y)|]) >= 0
    ensures ParseWith(ts, pos) == Ok(Read(Some(w), pos + 1 + |WithTokens(w.items, y)|))
    decreases w
  {
    hide Ended, Stands, WithTokens, WritableWith, ParseWithItems, Rank;
    StandsInside(ts, pos, [KwWith] + WithTokens(w.items, y));
    StandsSplit(ts, pos, [KwWith], WithTokens(w.items, y));
    StandsAt(ts, pos, [KwWith], 0);
    WithItemsRead(ts, pos + 1, [], w.items, y);
    assert [] + w.items == w.items;
  }

  lemma {:induction false} WhereClauseReads(ts: seq<Token>, pos: nat, e: A.Expr, y: Style)
    requires Ended(ts) && Stands(ts, pos, [KwWhere] + ExprTokens(e, y)) && WritableExpr(e) && Rank(ts[pos + 1 + |ExprTokens(e, y)|]) >= 0
    ensures ParseWhere(ts, pos) == Ok(Read(Some(e), pos + 1 + |ExprTokens(e, y)|))
    decreases e, 30
  {
    hide Ended, Stands, ExprTokens, WritableExpr, ParseExpr, Follows;
    StandsInside(ts, pos, [KwWhere] + ExprTokens(e, y));
    StandsSplit(ts, pos, [KwWhere], ExprTokens(e, y));
    StandsAt(ts, pos, [KwWhere], 0);
    RankEndsPatterns(ts[pos + 1 + |ExprTokens(e, y)|]);
    ExprReads(ts, pos + 1, e, y);
  }

  lemma {:induction false} ReturnClauseReads(ts: seq<Token>, pos: nat, w: A.ReturnClause, y: Style)
    requires Ended(ts) && Stands(ts, pos, [KwReturn] + ReturnTokens(w.items, y)) && w.items != [] && WritableReturn(w.items)
    requires Rank(ts[pos + 1 + |ReturnTokens(w.items, y)|]) >= 0
    ensures ParseReturn(ts, pos) == Ok(Read(Some(w), pos + 1 + |ReturnTokens(w.items, y)|))
    decreases w
  {
    hide Ended, Stands, ReturnTokens, WritableReturn, ParseReturnItems, Rank;
    StandsInside(ts, pos, [KwReturn] + ReturnTokens(w.items, y));
    StandsSplit(ts, pos, [KwReturn], ReturnTokens(w.items, y));
    StandsAt(ts, pos, [KwReturn], 0);
    ReturnItemsRead(ts, pos + 1, [], w.items, y);
    assert [] + w.items == w.items;
  }

  lemma {:induction false} OrderClauseReads(ts: seq<Token>, pos: nat, w: A.OrderByClause, y: Style)
    requires Ended(ts) && Stands(ts, pos, [KwOrder, KwBy] + OrderTokens(w.items, y)) && w.items != [] && WritableOrder(w.items)
    requires Rank(ts[pos + 2 + |OrderTokens(w.items, y)|]) >= 0
    ensures ParseOrderBy(ts, pos) == Ok(Read(Some(w), pos + 2 + |OrderTokens(w.items, y)|))
    decreases w
  {
    hide Ended, Stands, OrderTokens, WritableOrder, ParseOrderItems, Rank;
    StandsInside(ts, pos, [KwOrder, KwBy] + OrderTokens(w.items, y));
    StandsSplit(ts, pos, [KwOrder, KwBy], OrderTokens(w.items, y));
    StandsAt(ts, pos, [KwOrder, KwBy], 0);
    StandsAt(ts, pos, [KwOrder, KwBy], 1);
    OrderItemsRead(ts, pos + 2, [], w.items, y);
    assert [] + w.items == w.items;
  }

  lemma {:induction false} ClauseReads(ts: seq<Token>, pos: nat, q: A.Query, k: nat, y: Style)
    requires Ended(ts) && k < 7 && WritableQuery(q) && Stands(ts, pos, ClauseTokens(q, k, y)) && Rank(ts[pos + |ClauseTokens(q, k, y)|]) > k
    ensures ClauseRead(ts, pos, q, k, pos + |ClauseTokens(q, k, y)|)
    decreases q, 0
  {
    hide Ended, Stands, Rank, MatchTokens, CreateTokens, WithTokens, ReturnTokens, OrderTokens, ExprTokens, WritableMatch, WritableCreate, WritableWith,
         WritableReturn, WritableOrder, WritableExpr, ParseMatch, ParseCreate, ParseWith, ParseWhere, ParseReturn, ParseOrderBy, ParseLimit;
    StandsInside(ts, pos, ClauseTokens(q, k, y));
    if !HasClause(q, k) {
      ClauseStarts(q, k, y);
      AbsentReads(ts, pos, q, k);
    } else if k == 0 {
      MatchClauseReads(ts, pos, q.matchClause.value, y);
    } else if k == 1 {
      CreateClauseReads(ts, pos, q.createClause.value, y);
    } else if k == 2 {
      WithClauseReads(ts, pos, q.withClause.value, y);
    } else if k == 3 {
      WhereClauseReads(ts, pos, q.whereClause.value, y);
    } else if k == 4 {
      ReturnClauseReads(ts, pos, q.returnClause.value, y);
    } else if k == 5 {
      OrderClauseReads(ts, pos, q.orderBy.value, y);
    } else {
      LimitReads(ts, pos, q.limit.value);
    }
  }

  lemma ClausesAre(q: A.Query, k: nat, y: Style)
    ensures k < 7 ==> ClausesFrom(q, k, y) == ClauseTokens(q, k, y) + ClausesFrom(q, k + 1, y)
    ensures k >= 7 ==> ClausesFrom(q, k, y) == []
  {
    hide ClauseTokens;
  }

  /** What stands behind clause `k - 1` begins a later clause or ends the query. */
  lemma {:induction false} RankOfRest(ts: seq<Token>, pos: nat, q: A.Query, k: nat, y: Style)
    requires k <= 7 && Stands(ts, pos, ClausesFrom(q, k, y)) && Rank(ts[pos + |ClausesFrom(q, k, y)|]) == 7
    ensures Rank(ts[pos]) >= k
    decreases 7 - k
  {
    hide Stands, Rank, ClauseTokens, ClausesFrom;
    ClausesAre(q, k, y);
    if k < 7 {
      ClauseStarts(q, k, y);
      StandsSplit(ts, pos, ClauseTokens(q, k, y), ClausesFrom(q, k + 1, y));
      FirstOf(ts, pos, ClauseTokens(q, k, y));
      if !HasClause(q, k) {
        RankOfRest(ts, pos, q, k + 1, y);
      }
    }
  }

  /** Where clause `k` begins. */
  function ClauseAt(q: A.Query, pos: nat, k: nat, y: Style): nat {
    if k == 0 then pos else ClauseAt(q, pos, k - 1, y) + |ClauseTokens(q, k - 1, y)|
  }

  lemma {:induction false} ClausesStand(ts: seq<Token>, pos: nat, q: A.Query, k: nat, y: Style)
    requires k <= 7 && Stands(ts, pos, QueryTokens(q, y)) && Rank(ts[pos + |QueryTokens(q, y)|]) == 7
    ensures Stands(ts, ClauseAt(q, pos, k, y), ClausesFrom(q, k, y))
    ensures ClauseAt(q, pos, k, y) + |ClausesFrom(q, k, y)| == pos + |QueryTokens(q, y)|
    decreases k
  {
    hide Stands, Rank, ClauseTokens, ClausesFrom;
    if k > 0 {
      ClausesStand(ts, pos, q, k - 1, y);
      ClausesAre(q, k - 1, y);
      StandsSplit(ts, ClauseAt(q, pos, k - 1, y), ClauseTokens(q, k - 1, y), ClausesFrom(q, k, y));
    }
  }

  lemma {:induction false} ClauseReadsHere(ts: seq<Token>, pos: nat, q: A.Query, k: nat, y: Style)
    requires Ended(ts) && k < 7 && WritableQuery(q) && Stands(ts, pos, QueryTokens(q, y)) && Rank(ts[pos + |QueryTokens(q, y)|]) == 7
    ensures ClauseAt(q, pos, k, y) < |ts| && ClauseRead(ts, ClauseAt(q, pos, k, y), q, k, ClauseAt(q, pos, k + 1, y))
    decreases q, 1
  {
    hide Ended, Stands, Rank, ClauseTokens, ClausesFrom, WritableQuery, ClauseRead, QueryTokens;
    ClausesStand(ts, pos, q, k, y);
    ClausesStand(ts, pos, q, k + 1, y);
    ClausesAre(q, k, y);
    StandsSplit(ts, ClauseAt(q, pos, k, y), ClauseTokens(q, k, y), ClausesFrom(q, k + 1, y));
    RankOfRest(ts, ClauseAt(q, pos, k + 1, y), q, k + 1, y);
    StandsInside(ts, ClauseAt(q, pos, k, y), ClausesFrom(q, k, y));
    ClauseReads(ts, ClauseAt(q, pos, k, y), q, k, y);
  }

  lemma QuerySteps(ts: seq<Token>, q: A.Query, p: seq<nat>)
    requires Ended(ts) && |p| == 8 && (forall i :: 0 <= i < 8 ==> p[i] < |ts|)
    requires forall k :: 0 <= k < 7 ==> ClauseRead(ts, p[k], q, k, p[k + 1])
    requires q.matchClause.Some? || q.createClause.Some?
    ensures ParseQuery(ts, p[0]) == Ok(Read(q, p[7]))
  {
    hide ParseMatch, ParseCreate, ParseWith, ParseWhere, ParseReturn, ParseOrderBy, ParseLimit;
    assert ClauseRead(ts, p[0], q, 0, p[1]) && ClauseRead(ts, p[1], q, 1, p[2]) && ClauseRead(ts, p[2], q, 2, p[3]);
    assert ClauseRead(ts, p[3], q, 3, p[4]) && ClauseRead(ts, p[4], q, 4, p[5]) && ClauseRead(ts, p[5], q, 5, p[6]) && ClauseRead(ts, p[6], q, 6, p[7]);
  }

  /** The tokens of a query parse to it and are all taken. */
  lemma {:induction false} QueryReads(ts: seq<Token>, pos: nat, q: A.Query, y: Style)
    requires Ended(ts) && Stands(ts, pos, QueryTokens(q, y)) && WritableQuery(q) && Rank(ts[pos + |QueryTokens(q, y)|]) == 7
    ensures ParseQuery(ts, pos) == Ok(Read(q, pos + |QueryTokens(q, y)|))
    decreases q, 2
  {
    hide Ended, Stands, Rank, ClauseTokens, ClausesFrom, ClauseRead, ParseQuery, QueryTokens, ClauseAt, WritableMatch, WritableCreate, WritableWith, WritableReturn,
         WritableOrder, WritableExpr;
    var p := seq(8, k requires 0 <= k < 8 => ClauseAt(q, pos, k, y));
    forall k | 0 <= k < 7 ensures p[k] < |ts| && ClauseRead(ts, p[k], q, k, p[k + 1]) {
      ClauseReadsHere(ts, pos, q, k, y);
    }
    ClausesStand(ts, pos, q, 7, y);
    ClausesAre(q, 7, y);
    StandsInside(ts, pos, QueryTokens(q, y));
    FirstClauseAt(q, pos, y);
    QuerySteps(ts, q, p);
  }

  lemma FirstClauseAt(q: A.Query, pos: nat, y: Style)
    ensures ClauseAt(q, pos, 0, y) == pos
  {
  }
}
