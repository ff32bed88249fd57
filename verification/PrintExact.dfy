/** Exactly which SDK expressions survive printing and parsing. Whatever the parser accepts has a
    grouping: a tree whose tokens are the ones consumed, with the parentheses kept. Groupings respect
    precedence and are unique, so an expression that comes back had to respect precedence itself. */
module PrintExact {
  import opened Prelude
  import opened Text
  import opened Lexer
  import opened Grammar
  import opened SdkPrinter
  import opened PrintParse
  import V = Values
  import A = Ast

  datatype Group =
    | Leaf(e: A.Expr)
    | Infix(left: Group, op: V.BinOp, right: Group)
    | Paren(inner: Group)

  function Strip(g: Group): A.Expr {
    match g
    case Leaf(e) => e
    case Infix(l, op, r) => A.BinaryOp(Strip(l), op, Strip(r))
    case Paren(x) => Strip(x)
  }

  /** The tokens of a name, a property or a literal; none for other expressions. */
  function LeafTokens(e: A.Expr): seq<Token> {
    match e
    case Ident(name) => [Word(name)]
    case Property(variable, property) => [Word(variable), Dot, Word(property)]
    case Lit(LitStr(s)) => [StringTok(s)]
    case Lit(LitInt(i)) => [IntTok(i)]
    case Lit(LitFloat(x)) => [FloatTok(x)]
    case Lit(LitBool(b)) => [if b then KwTrue else KwFalse]
    case Lit(LitNull) => [KwNull]
    case _ => []
  }

  function GroupTokens(g: Group): seq<Token> {
    match g
    case Leaf(e) => LeafTokens(e)
    case Infix(l, op, r) => GroupTokens(l) + [OpToken(op)] + GroupTokens(r)
    case Paren(x) => [LeftParen] + GroupTokens(x) + [RightParen]
  }

  predicate Sound(g: Group) {
    match g
    case Leaf(e) => LeafTokens(e) != []
    case Infix(l, _, r) => Sound(l) && Sound(r)
    case Paren(x) => Sound(x)
  }

  function OpStrength(op: V.BinOp): nat {
    match op
    case Eq | Ne | Lt | Le | Gt | Ge => 1
    case Add | Sub => 2
    case Mul | Div => 3
    case And | Or => 0
  }

  function GroupStrength(g: Group): nat {
    if g.Infix? then OpStrength(g.op) else 4
  }

  predicate WellGrouped(g: Group) {
    match g
    case Leaf(_) => true
    case Paren(x) => WellGrouped(x)
    case Infix(l, op, r) =>
      && WellGrouped(l) && WellGrouped(r)
      && (Logical(op) || (GroupStrength(l) >= (if OpStrength(op) == 1 then 2 else OpStrength(op)) && GroupStrength(r) > OpStrength(op)))
  }

  /** Trees of binary operators over names, properties and literals. */
  predicate Simple(e: A.Expr) {
    match e
    case BinaryOp(l, _, r) => Simple(l) && Simple(r)
    case _ => LeafTokens(e) != []
  }

  /** `g` groups the tokens from `pos` up to `next` into `tree`. */
  ghost predicate Groups(g: Group, ts: seq<Token>, pos: nat, next: nat, tree: A.Expr) {
    && Sound(g) && WellGrouped(g) && Strip(g) == tree
    && pos <= next <= |ts| && ts[pos..next] == GroupTokens(g)
  }

  // ---------- every successful parse has a grouping ----------

  lemma GroupInfix(ts: seq<Token>, pos: nat, l: Group, op: V.BinOp, r: Group, mid: nat, next: nat, left: A.Expr, right: A.Expr)
    requires Groups(l, ts, pos, mid, left) && mid < |ts| && ts[mid] == OpToken(op) && Groups(r, ts, mid + 1, next, right)
    requires Logical(op) || (GroupStrength(l) >= (if OpStrength(op) == 1 then 2 else OpStrength(op)) && GroupStrength(r) > OpStrength(op))
    ensures Groups(Infix(l, op, r), ts, pos, next, A.BinaryOp(left, op, right))
  {
    assert ts[pos..next] == ts[pos..mid] + [ts[mid]] + ts[mid + 1..next];
  }

  lemma GroupParen(ts: seq<Token>, pos: nat, x: Group, next: nat, tree: A.Expr)
    requires pos + 1 <= next < |ts| && ts[pos] == LeftParen && Groups(x, ts, pos + 1, next, tree) && ts[next] == RightParen
    ensures Groups(Paren(x), ts, pos, next + 1, tree)
  {
    assert ts[pos..next + 1] == [ts[pos]] + ts[pos + 1..next] + [ts[next]];
  }

  lemma {:induction false} MulKeepsLeft(ts: seq<Token>, pos: nat, left: A.Expr)
    requires Ended(ts) && pos < |ts|
    ensures MulRest(ts, pos, left).Ok? && Simple(MulRest(ts, pos, left).value.tree) ==> Simple(left)
    decreases |ts| - pos
  {
    hide ParsePrimary;
    if MultiplicativeOp(ts[pos]).Some? && ParsePrimary(ts, pos + 1).Ok? {
      var right := ParsePrimary(ts, pos + 1).value;
      MulKeepsLeft(ts, right.next, A.BinaryOp(left, MultiplicativeOp(ts[pos]).value, right.tree));
    }
  }

  lemma {:induction false} AddKeepsLeft(ts: seq<Token>, pos: nat, left: A.Expr)
    requires Ended(ts) && pos < |ts|
    ensures AddRest(ts, pos, left).Ok? && Simple(AddRest(ts, pos, left).value.tree) ==> Simple(left)
    decreases |ts| - pos
  {
    hide ParseMultiplicative;
    if AdditiveOp(ts[pos]).Some? && ParseMultiplicative(ts, pos + 1).Ok? {
      var right := ParseMultiplicative(ts, pos + 1).value;
      AddKeepsLeft(ts, right.next, A.BinaryOp(left, AdditiveOp(ts[pos]).value, right.tree));
    }
  }

  lemma {:induction false} AndKeepsLeft(ts: seq<Token>, pos: nat, left: A.Expr)
    requires Ended(ts) && pos < |ts|
    ensures AndRest(ts, pos, left).Ok? && Simple(AndRest(ts, pos, left).value.tree) ==> Simple(left)
    decreases |ts| - pos
  {
    hide ParseComparison;
    if ts[pos] == KwAnd && ParseComparison(ts, pos + 1).Ok? {
      var right := ParseComparison(ts, pos + 1).value;
      AndKeepsLeft(ts, right.next, A.BinaryOp(left, V.And, right.tree));
    }
  }

  lemma {:induction false} OrKeepsLeft(ts: seq<Token>, pos: nat, left: A.Expr)
    requires Ended(ts) && pos < |ts|
    ensures OrRest(ts, pos, left).Ok? && Simple(OrRest(ts, pos, left).value.tree) ==> Simple(left)
    decreases |ts| - pos
  {
    hide ParseAnd;
    if ts[pos] == KwOr && ParseAnd(ts, pos + 1).Ok? {
      var right := ParseAnd(ts, pos + 1).value;
      OrKeepsLeft(ts, right.next, A.BinaryOp(left, V.Or, right.tree));
    }
  }

  lemma MulRestUnfold(ts: seq<Token>, pos: nat, left: A.Expr) returns (right: Read<A.Expr>)
    requires Ended(ts) && pos < |ts| && MultiplicativeOp(ts[pos]).Some? && MulRest(ts, pos, left).Ok?
    ensures ParsePrimary(ts, pos + 1) == Ok(right) && pos + 1 < right.next < |ts|
    ensures MulRest(ts, pos, left) == MulRest(ts, right.next, A.BinaryOp(left, MultiplicativeOp(ts[pos]).value, right.tree))
    ensures OpToken(MultiplicativeOp(ts[pos]).value) == ts[pos] && OpStrength(MultiplicativeOp(ts[pos]).value) == 3
  {
    hide ParsePrimary;
    right := ParsePrimary(ts, pos + 1).value;
  }

  lemma AddRestUnfold(ts: seq<Token>, pos: nat, left: A.Expr) returns (right: Read<A.Expr>)
    requires Ended(ts) && pos < |ts| && AdditiveOp(ts[pos]).Some? && AddRest(ts, pos, left).Ok?
    ensures ParseMultiplicative(ts, pos + 1) == Ok(right) && pos + 1 < right.next < |ts|
    ensures AddRest(ts, pos, left) == AddRest(ts, right.next, A.BinaryOp(left, AdditiveOp(ts[pos]).value, right.tree))
    ensures OpToken(AdditiveOp(ts[pos]).value) == ts[pos] && OpStrength(AdditiveOp(ts[pos]).value) == 2
  {
    hide ParseMultiplicative;
    right := ParseMultiplicative(ts, pos + 1).value;
  }

  lemma AndRestUnfold(ts: seq<Token>, pos: nat, left: A.Expr) returns (right: Read<A.Expr>)
    requires Ended(ts) && pos < |ts| && ts[pos] == KwAnd && AndRest(ts, pos, left).Ok?
    ensures ParseComparison(ts, pos + 1) == Ok(right) && pos + 1 < right.next < |ts|
    ensures AndRest(ts, pos, left) == AndRest(ts, right.next, A.BinaryOp(left, V.And, right.tree))
  {
    hide ParseComparison;
    right := ParseComparison(ts, pos + 1).value;
  }

  lemma OrRestUnfold(ts: seq<Token>, pos: nat, left: A.Expr) returns (right: Read<A.Expr>)
    requires Ended(ts) && pos < |ts| && ts[pos] == KwOr && OrRest(ts, pos, left).Ok?
    ensures ParseAnd(ts, pos + 1) == Ok(right) && pos + 1 < right.next < |ts|
    ensures OrRest(ts, pos, left) == OrRest(ts, right.next, A.BinaryOp(left, V.Or, right.tree))
  {
    hide ParseAnd;
    right := ParseAnd(ts, pos + 1).value;
  }

  lemma {:induction false} GroupMulRest(ts: seq<Token>, start: nat, pos: nat, left: A.Expr, l: Group) returns (g: Group)
    requires Ended(ts) && pos < |ts| && Groups(l, ts, start, pos, left) && GroupStrength(l) >= 3
    requires MulRest(ts, pos, left).Ok? && Simple(MulRest(ts, pos, left).value.tree)
    ensures Groups(g, ts, start, MulRest(ts, pos, left).value.next, MulRest(ts, pos, left).value.tree) && GroupStrength(g) >= 3
    decreases |ts| - pos, 0
  {
    hide MulRest, Groups, Simple, ParsePrimary, Ended;
    if MultiplicativeOp(ts[pos]).None? {
      ProductEnd(ts, pos, left);
      g := l;
    } else {
      var right := MulRestUnfold(ts, pos, left);
      var op := MultiplicativeOp(ts[pos]).value;
      MulKeepsLeft(ts, right.next, A.BinaryOp(left, op, right.tree));
      SimpleParts(left, op, right.tree);
      var r := GroupPrimary(ts, pos + 1);
      GroupInfix(ts, start, l, op, r, pos, right.next, left, right.tree);
      g := GroupMulRest(ts, start, right.next, A.BinaryOp(left, op, right.tree), Infix(l, op, r));
    }
  }

  lemma SimpleParts(l: A.Expr, op: V.BinOp, r: A.Expr)
    ensures Simple(A.BinaryOp(l, op, r)) ==> Simple(l) && Simple(r)
  {
  }

  lemma {:induction false} GroupProduct(ts: seq<Token>, pos: nat) returns (g: Group)
    requires Ended(ts) && pos < |ts| && ParseMultiplicative(ts, pos).Ok? && Simple(ParseMultiplicative(ts, pos).value.tree)
    ensures var r := ParseMultiplicative(ts, pos).value; Groups(g, ts, pos, r.next, r.tree) && GroupStrength(g) >= 3
    decreases |ts| - pos, 4
  {
    hide MulRest, Groups, Simple, ParsePrimary, Ended;
    var left := ParsePrimary(ts, pos).value;
    MulKeepsLeft(ts, left.next, left.tree);
    var l := GroupPrimary(ts, pos);
    g := GroupMulRest(ts, pos, left.next, left.tree, l);
  }

  lemma {:induction false} GroupAddRest(ts: seq<Token>, start: nat, pos: nat, left: A.Expr, l: Group) returns (g: Group)
    requires Ended(ts) && pos < |ts| && Groups(l, ts, start, pos, left) && GroupStrength(l) >= 2
    requires AddRest(ts, pos, left).Ok? && Simple(AddRest(ts, pos, left).value.tree)
    ensures Groups(g, ts, start, AddRest(ts, pos, left).value.next, AddRest(ts, pos, left).value.tree) && GroupStrength(g) >= 2
    decreases |ts| - pos, 0
  {
    hide AddRest, Groups, Simple, ParseMultiplicative, Ended;
    if AdditiveOp(ts[pos]).None? {
      SumEnd(ts, pos, left);
      g := l;
    } else {
      var right := AddRestUnfold(ts, pos, left);
      var op := AdditiveOp(ts[pos]).value;
      AddKeepsLeft(ts, right.next, A.BinaryOp(left, op, right.tree));
      SimpleParts(left, op, right.tree);
      var r := GroupProduct(ts, pos + 1);
      GroupInfix(ts, start, l, op, r, pos, right.next, left, right.tree);
      g := GroupAddRest(ts, start, right.next, A.BinaryOp(left, op, right.tree), Infix(l, op, r));
    }
  }

  lemma {:induction false} GroupSum(ts: seq<Token>, pos: nat) returns (g: Group)
    requires Ended(ts) && pos < |ts| && ParseAdditive(ts, pos).Ok? && Simple(ParseAdditive(ts, pos).value.tree)
    ensures var r := ParseAdditive(ts, pos).value; Groups(g, ts, pos, r.next, r.tree) && GroupStrength(g) >= 2
    decreases |ts| - pos, 5
  {
    hide AddRest, Groups, Simple, ParseMultiplicative, Ended;
    var left := ParseMultiplicative(ts, pos).value;
    AddKeepsLeft(ts, left.next, left.tree);
    var l := GroupProduct(ts, pos);
    g := GroupAddRest(ts, pos, left.next, left.tree, l);
  }

  /** After its left operand a comparison is simple only if it stops there or compares once. */
  lemma CompareCases(ts: seq<Token>, pos: nat, left: A.Expr)
    requires Ended(ts) && pos < |ts| && CompareRest(ts, pos, left).Ok? && Simple(CompareRest(ts, pos, left).value.tree)
    ensures Simple(left) && ts[pos] != KwIs
    ensures ComparisonOp(ts[pos]).None? ==> CompareRest(ts, pos, left) == Ok(Read(left, pos))
    ensures ComparisonOp(ts[pos]).Some? ==>
      && pos + 1 < |ts| && ParseAdditive(ts, pos + 1).Ok? && Simple(ParseAdditive(ts, pos + 1).value.tree)
      && CompareRest(ts, pos, left) == Ok(Read(A.BinaryOp(left, ComparisonOp(ts[pos]).value, ParseAdditive(ts, pos + 1).value.tree),
                                               ParseAdditive(ts, pos + 1).value.next))
      && OpToken(ComparisonOp(ts[pos]).value) == ts[pos] && OpStrength(ComparisonOp(ts[pos]).value) == 1
  {
    hide ParseAdditive;
  }

  lemma {:induction false} GroupComparison(ts: seq<Token>, pos: nat) returns (g: Group)
    requires Ended(ts) && pos < |ts| && ParseComparison(ts, pos).Ok? && Simple(ParseComparison(ts, pos).value.tree)
    ensures var r := ParseComparison(ts, pos).value; Groups(g, ts, pos, r.next, r.tree)
    decreases |ts| - pos, 6
  {
    hide CompareRest, Groups, Simple, ParseAdditive, Ended;
    var left := ParseAdditive(ts, pos).value;
    CompareCases(ts, left.next, left.tree);
    g := GroupSum(ts, pos);
    if ComparisonOp(ts[left.next]).Some? {
      var op := ComparisonOp(ts[left.next]).value;
      var right := ParseAdditive(ts, left.next + 1).value;
      var r := GroupSum(ts, left.next + 1);
      GroupInfix(ts, pos, g, op, r, left.next, right.next, left.tree, right.tree);
      g := Infix(g, op, r);
    }
  }

  lemma {:induction false} GroupAndRest(ts: seq<Token>, start: nat, pos: nat, left: A.Expr, l: Group) returns (g: Group)
    requires Ended(ts) && pos < |ts| && Groups(l, ts, start, pos, left)
    requires AndRest(ts, pos, left).Ok? && Simple(AndRest(ts, pos, left).value.tree)
    ensures Groups(g, ts, start, AndRest(ts, pos, left).value.next, AndRest(ts, pos, left).value.tree)
    decreases |ts| - pos, 0
  {
    hide Groups, Simple, ParseComparison, Ended;
    if ts[pos] != KwAnd {
      g := l;
    } else {
      var right := AndRestUnfold(ts, pos, left);
      AndKeepsLeft(ts, right.next, A.BinaryOp(left, V.And, right.tree));
      SimpleParts(left, V.And, right.tree);
      var r := GroupComparison(ts, pos + 1);
      GroupInfix(ts, start, l, V.And, r, pos, right.next, left, right.tree);
      g := GroupAndRest(ts, start, right.next, A.BinaryOp(left, V.And, right.tree), Infix(l, V.And, r));
    }
  }

  lemma {:induction false} GroupAnd(ts: seq<Token>, pos: nat) returns (g: Group)
    requires Ended(ts) && pos < |ts| && ParseAnd(ts, pos).Ok? && Simple(ParseAnd(ts, pos).value.tree)
    ensures var r := ParseAnd(ts, pos).value; Groups(g, ts, pos, r.next, r.tree)
    decreases |ts| - pos, 7
  {
    hide AndRest, Groups, Simple, ParseComparison, Ended;
    var left := ParseComparison(ts, pos).value;
    AndKeepsLeft(ts, left.next, left.tree);
    var l := GroupComparison(ts, pos);
    g := GroupAndRest(ts, pos, left.next, left.tree, l);
  }

  lemma {:induction false} GroupOrRest(ts: seq<Token>, start: nat, pos: nat, left: A.Expr, l: Group) returns (g: Group)
    requires Ended(ts) && pos < |ts| && Groups(l, ts, start, pos, left)
    requires OrRest(ts, pos, left).Ok? && Simple(OrRest(ts, pos, left).value.tree)
    ensures Groups(g, ts, start, OrRest(ts, pos, left).value.next, OrRest(ts, pos, left).value.tree)
    decreases |ts| - pos, 0
  {
    hide Groups, Simple, ParseAnd, Ended;
    if ts[pos] != KwOr {
      g := l;
    } else {
      var right := OrRestUnfold(ts, pos, left);
      OrKeepsLeft(ts, right.next, A.BinaryOp(left, V.Or, right.tree));
      SimpleParts(left, V.Or, right.tree);
      var r := GroupAnd(ts, pos + 1);
      GroupInfix(ts, start, l, V.Or, r, pos, right.next, left, right.tree);
      g := GroupOrRest(ts, start, right.next, A.BinaryOp(left, V.Or, right.tree), Infix(l, V.Or, r));
    }
  }

  lemma {:induction false} GroupExpr(ts: seq<Token>, pos: nat) returns (g: Group)
    requires Ended(ts) && pos < |ts| && ParseExpr(ts, pos).Ok? && Simple(ParseExpr(ts, pos).value.tree)
    ensures var r := ParseExpr(ts, pos).value; Groups(g, ts, pos, r.next, r.tree)
    decreases |ts| - pos, 8
  {
    hide OrRest, Groups, Simple, ParseAnd, Ended;
    var left := ParseAnd(ts, pos).value;
    OrKeepsLeft(ts, left.next, left.tree);
    var l := GroupAnd(ts, pos);
    g := GroupOrRest(ts, pos, left.next, left.tree, l);
  }

  /** A simple primary is a parenthesised expression or a leaf. */
  lemma PrimaryParen(ts: seq<Token>, pos: nat)
    requires Ended(ts) && pos < |ts| && ParsePrimary(ts, pos).Ok? && ts[pos] == LeftParen
    ensures pos + 1 < |ts| && ParseExpr(ts, pos + 1).Ok?
    ensures var p := ParsePrimary(ts, pos).value; var inner := ParseExpr(ts, pos + 1).value;
            inner.tree == p.tree && p.next == inner.next + 1 && ts[p.next - 1] == RightParen
  {
    hide ParseExpr, ParseQuery, ParseCall, ParseLiteral;
  }

  /** A parenthesis behind a name makes a call, which is no leaf. */
  lemma CallIsNoLeaf(ts: seq<Token>, pos: nat)
    requires Ended(ts) && pos + 1 < |ts| && ts[pos].Word? && ts[pos + 1] == LeftParen && ParseCall(ts, pos).Ok?
    ensures !Simple(ParseCall(ts, pos).value.tree)
  {
    hide ParseExpr, ParseArgs, Aggregator, Expect, Ended;
  }

  lemma PrimaryName(ts: seq<Token>, pos: nat)
    requires Ended(ts) && pos < |ts| && ts[pos].Word?
    ensures ParsePrimary(ts, pos) ==
      if ts[pos + 1] == LeftParen then ParseCall(ts, pos)
      else if ts[pos + 1] == Dot then
        if ts[pos + 2].Word? then Ok(Read(A.Property(ts[pos].name, ts[pos + 2].name), pos + 3)) else Fail("expected identifier")
      else Ok(Read(A.Ident(ts[pos].name), pos + 1))
  {
    hide ParseExpr, ParseQuery, ParseArgs, ParseLiteral, ParseCall, Expect;
  }

  lemma PrimaryLiteral(ts: seq<Token>, pos: nat)
    requires Ended(ts) && pos < |ts| && !ts[pos].Word? && ts[pos] != LeftParen
    requires ParsePrimary(ts, pos).Ok? && Simple(ParsePrimary(ts, pos).value.tree)
    ensures ParseLiteral(ts, pos).Ok? && ParsePrimary(ts, pos).value == Read(A.Lit(ParseLiteral(ts, pos).value.tree), ParseLiteral(ts, pos).value.next)
  {
    hide ParseExpr, ParseQuery, ParseArgs, ParseLiteral, ParseCall, Expect, ExpectWord, Ended;
  }

  lemma LiteralTokens(ts: seq<Token>, pos: nat)
    requires Ended(ts) && pos < |ts| && ParseLiteral(ts, pos).Ok?
    ensures ParseLiteral(ts, pos).value.next == pos + 1 && LeafTokens(A.Lit(ParseLiteral(ts, pos).value.tree)) == [ts[pos]]
  {
    hide Ended;
  }

  lemma PrimaryLeaf(ts: seq<Token>, pos: nat)
    requires Ended(ts) && pos < |ts| && ParsePrimary(ts, pos).Ok? && Simple(ParsePrimary(ts, pos).value.tree) && ts[pos] != LeftParen
    ensures var p := ParsePrimary(ts, pos).value; pos < p.next <= |ts| && ts[pos..p.next] == LeafTokens(p.tree)
  {
    hide ParsePrimary, ParseCall, ParseLiteral, Ended;
    if ts[pos].Word? {
      PrimaryName(ts, pos);
      if ts[pos + 1] == LeftParen {
        CallIsNoLeaf(ts, pos);
      }
    } else {
      PrimaryLiteral(ts, pos);
      LiteralTokens(ts, pos);
    }
  }

  lemma {:induction false} GroupPrimary(ts: seq<Token>, pos: nat) returns (g: Group)
    requires Ended(ts) && pos < |ts| && ParsePrimary(ts, pos).Ok? && Simple(ParsePrimary(ts, pos).value.tree)
    ensures var r := ParsePrimary(ts, pos).value; Groups(g, ts, pos, r.next, r.tree) && GroupStrength(g) == 4
    decreases |ts| - pos, 3
  {
    hide ParsePrimary, ParseExpr, Simple, Ended;
    var p := ParsePrimary(ts, pos).value;
    if ts[pos] == LeftParen {
      PrimaryParen(ts, pos);
      var x := GroupExpr(ts, pos + 1);
      GroupParen(ts, pos, x, p.next - 1, p.tree);
      g := Paren(x);
    } else {
      PrimaryLeaf(ts, pos);
      g := Leaf(p.tree);
    }
  }

  // ---------- groupings are unique ----------

  function Depth(ts: seq<Token>): int {
    if ts == [] then 0
    else Depth(ts[..|ts| - 1]) + match ts[|ts| - 1] case LeftParen => 1 case RightParen => -1 case _ => 0
  }

  lemma {:induction false} DepthAppend(a: seq<Token>, b: seq<Token>)
    ensures Depth(a + b) == Depth(a) + Depth(b)
    decreases |b|
  {
    if b == [] {
      assert a + b == a;
    } else {
      DepthAppend(a, b[..|b| - 1]);
      assert (a + b)[..|a + b| - 1] == a + b[..|b| - 1];
    }
  }

  lemma DepthLeaf(e: A.Expr, n: nat)
    requires n <= |LeafTokens(e)|
    ensures Depth(LeafTokens(e)[..n]) == 0
  {
    var ts := LeafTokens(e);
    assert |ts| <= 3;
    assert forall i :: 0 <= i < |ts| ==> ts[i] != LeftParen && ts[i] != RightParen;
    NoParens(ts[..n]);
  }

  lemma {:induction false} NoParens(ts: seq<Token>)
    requires forall i :: 0 <= i < |ts| ==> ts[i] != LeftParen && ts[i] != RightParen
    ensures Depth(ts) == 0
  {
    if ts != [] {
      NoParens(ts[..|ts| - 1]);
    }
  }

  /** Parentheses balance, and no prefix closes more than it opens. */
  lemma {:induction false} Balanced(g: Group, n: nat)
    requires n <= |GroupTokens(g)|
    ensures Depth(GroupTokens(g)[..n]) >= 0
    ensures Depth(GroupTokens(g)) == 0
    decreases g
  {
    hide LeafTokens;
    var ts := GroupTokens(g);
    match g {
      case Leaf(e) =>
        DepthLeaf(e, n);
        DepthLeaf(e, |ts|);
        assert ts[..|ts|] == ts;
      case Infix(l, op, r) => BalancedInfix(l, op, r, n);
      case Paren(x) => BalancedParen(x, n);
    }
  }

  lemma {:induction false} BalancedInfix(l: Group, op: V.BinOp, r: Group, n: nat)
    requires n <= |GroupTokens(Infix(l, op, r))|
    ensures Depth(GroupTokens(Infix(l, op, r))[..n]) >= 0 && Depth(GroupTokens(Infix(l, op, r))) == 0
    decreases Infix(l, op, r), 0
  {
    var a, b := GroupTokens(l), GroupTokens(r);
    var ts := a + [OpToken(op)] + b;
    assert Depth([OpToken(op)]) == 0 by {
      NoParens([OpToken(op)]);
    }
    Balanced(l, if n <= |a| then n else |a|);
    Balanced(r, if n <= |a| then 0 else n - |a| - 1);
    DepthAppend(a, [OpToken(op)]);
    DepthAppend(a + [OpToken(op)], b);
    if n <= |a| {
      assert ts[..n] == a[..n];
    } else {
      assert ts[..n] == a + [OpToken(op)] + b[..n - |a| - 1];
      DepthAppend(a + [OpToken(op)], b[..n - |a| - 1]);
    }
  }

  lemma {:induction false} BalancedParen(x: Group, n: nat)
    requires n <= |GroupTokens(Paren(x))|
    ensures Depth(GroupTokens(Paren(x))[..n]) >= 0 && Depth(GroupTokens(Paren(x))) == 0
    ensures 0 < n < |GroupTokens(Paren(x))| ==> Depth(GroupTokens(Paren(x))[..n]) >= 1
    decreases Paren(x), 0
  {
    var a := GroupTokens(x);
    var ts := [LeftParen] + a + [RightParen];
    assert Depth([LeftParen]) == 1 && Depth([RightParen]) == -1 by {
      assert [LeftParen][..0] == [] && [RightParen][..0] == [];
    }
    Balanced(x, if n == 0 then 0 else if n <= |a| then n - 1 else |a|);
    DepthAppend([LeftParen], a);
    DepthAppend([LeftParen] + a, [RightParen]);
    if n == 0 {
      assert ts[..n] == [];
    } else if n < |ts| {
      assert ts[..n] == [LeftParen] + a[..n - 1];
      assert n - 1 == |a| ==> a[..n - 1] == a;
      DepthAppend([LeftParen], a[..n - 1]);
    } else {
      assert ts[..n] == ts;
    }
  }

  /** The number of tokens other than parentheses. */
  function Solid(ts: seq<Token>): nat {
    if ts == [] then 0
    else Solid(ts[..|ts| - 1]) + if ts[|ts| - 1] == LeftParen || ts[|ts| - 1] == RightParen then 0 else 1
  }

  lemma {:induction false} SolidAppend(a: seq<Token>, b: seq<Token>)
    ensures Solid(a + b) == Solid(a) + Solid(b)
    decreases |b|
  {
    if b == [] {
      assert a + b == a;
    } else {
      SolidAppend(a, b[..|b| - 1]);
      assert (a + b)[..|a + b| - 1] == a + b[..|b| - 1];
    }
  }

  function Weight(e: A.Expr): nat {
    match e
    case BinaryOp(l, _, r) => Weight(l) + 1 + Weight(r)
    case _ => Solid(LeafTokens(e))
  }

  lemma {:induction false} SolidOfGroup(g: Group)
    requires Sound(g)
    ensures Solid(GroupTokens(g)) == Weight(Strip(g)) && GroupTokens(g) != []
  {
    hide LeafTokens, Solid;
    match g {
      case Leaf(e) => LeafIsNoOp(e);
      case Infix(l, op, r) =>
        SolidOfGroup(l);
        SolidOfGroup(r);
        SolidOne(OpToken(op));
        SolidAppend(GroupTokens(l), [OpToken(op)]);
        SolidAppend(GroupTokens(l) + [OpToken(op)], GroupTokens(r));
      case Paren(x) =>
        SolidOfGroup(x);
        SolidOne(LeftParen);
        SolidOne(RightParen);
        SolidAppend([LeftParen], GroupTokens(x));
        SolidAppend([LeftParen] + GroupTokens(x), [RightParen]);
    }
  }

  lemma SolidOne(t: Token)
    ensures Solid([t]) == if t == LeftParen || t == RightParen then 0 else 1
  {
    assert [t][..0] == [];
  }

  lemma LeafIsNoOp(e: A.Expr)
    requires LeafTokens(e) != []
    ensures !e.BinaryOp? && LeafTokens(e)[0] != LeftParen
  {
  }

  /** In two groupings of the same tokens into the same operator, the operator is the same token. */
  lemma SameSplit(a: seq<Token>, b: seq<Token>, t: Token, c: seq<Token>, d: seq<Token>)
    requires a + [t] + b == c + [t] + d && Solid(a) == Solid(c) && t != LeftParen && t != RightParen
    ensures a == c && b == d
  {
    var all := a + [t] + b;
    if |a| < |c| {
      Overlap(all, a, t, c);
    } else if |c| < |a| {
      Overlap(all, c, t, a);
    }
    assert a == all[..|a|] && c == all[..|c|];
    assert b == all[|a| + 1..] && d == all[|c| + 1..];
  }

  lemma Overlap(all: seq<Token>, short: seq<Token>, t: Token, long: seq<Token>)
    requires |short| < |long| <= |all| && short + [t] == all[..|short| + 1] && long == all[..|long|]
    requires t != LeftParen && t != RightParen
    ensures Solid(short) < Solid(long)
  {
    var rest := long[|short| + 1..];
    assert long == short + [t] + rest;
    SolidAppend(short, [t]);
    SolidAppend(short + [t], rest);
    assert [t][..0] == [];
  }

  lemma ParenIsNoInfix(x: Group, l: Group, op: V.BinOp, r: Group)
    requires Sound(l)
    ensures GroupTokens(Paren(x)) != GroupTokens(Infix(l, op, r))
  {
    hide Sound, Strip;
    var n := |GroupTokens(l)|;
    SolidOfGroup(l);
    Balanced(l, 0);
    assert GroupTokens(Infix(l, op, r))[..n] == GroupTokens(l);
    if n < |GroupTokens(Paren(x))| {
      BalancedParen(x, n);
    }
  }

  /** A token list has at most one grouping into a given tree. */
  lemma {:induction false} GroupingIsUnique(g: Group, h: Group)
    requires Sound(g) && Sound(h) && Strip(g) == Strip(h) && GroupTokens(g) == GroupTokens(h)
    ensures g == h
    decreases g, h
  {
    hide LeafTokens, Solid, Depth;
    match (g, h) {
      case (Leaf(e), Leaf(f)) =>
      case (Infix(a, op, b), Infix(c, _, d)) =>
        SolidOfGroup(a);
        SolidOfGroup(c);
        SameSplit(GroupTokens(a), GroupTokens(b), OpToken(op), GroupTokens(c), GroupTokens(d));
        GroupingIsUnique(a, c);
        GroupingIsUnique(b, d);
      case (Paren(x), Paren(y)) =>
        assert GroupTokens(x) == GroupTokens(g)[1..|GroupTokens(g)| - 1];
        assert GroupTokens(y) == GroupTokens(h)[1..|GroupTokens(h)| - 1];
        GroupingIsUnique(x, y);
      case (Paren(x), Infix(a, op, b)) => ParenIsNoInfix(x, a, op, b);
      case (Infix(a, op, b), Paren(x)) => ParenIsNoInfix(x, a, op, b);
      case (Leaf(e), _) => LeafIsNoOp(e);
      case (_, Leaf(e)) => LeafIsNoOp(e);
    }
  }

  // ---------- leaves that come back ----------

  /** What the lexer can produce: words that are names, strings without quotes, integers in range. */
  predicate PlainToken(t: Token) {
    match t
    case Word(name) => Name(name)
    case StringTok(s) => Unsplit(s)
    case IntTok(i) => 0 <= i < I64_LIMIT
    case _ => true
  }

  lemma {:induction false} WordChars(s: string)
    ensures forall i :: 0 <= i < WordLength(s) ==> IsWordChar(s[i])
  {
    if s != [] && IsWordChar(s[0]) {
      WordChars(s[1..]);
      forall i | 0 <= i < WordLength(s) ensures IsWordChar(s[i]) {
        assert i > 0 ==> s[i] == s[1..][i - 1];
      }
    }
  }

  lemma {:induction false} UnquotedChars(s: string)
    ensures Unsplit(s[..Unquoted(s)])
  {
    if s != [] && s[0] != '\'' {
      UnquotedChars(s[1..]);
      forall i | 0 <= i < Unquoted(s) ensures s[i] != '\'' {
        assert i > 0 ==> s[i] == s[1..][..Unquoted(s[1..])][i - 1];
      }
    }
  }

  lemma WordIsPlain(s: string)
    requires s != [] && IsWordChar(s[0]) && !IsDigit(s[0])
    ensures PlainToken(WordToken(s[..WordLength(s)]))
  {
    hide WordLength;
    WordChars(s);
    assert WordLength(s) > 0 by {
      FirstCounts(s);
    }
    var word := s[..WordLength(s)];
    KeywordOrSelf(word);
  }

  lemma FirstCounts(s: string)
    requires s != [] && IsWordChar(s[0])
    ensures WordLength(s) > 0
  {
  }

  lemma KeywordOrSelf(word: string)
    ensures WordToken(word).Word? ==> WordToken(word) == Word(word)
    ensures !WordToken(word).StringTok? && !WordToken(word).IntTok?
  {
  }

  lemma NumberIsPlain(s: string)
    ensures NumberToken(s).Ok? ==> PlainToken(NumberToken(s).value)
  {
  }

  lemma ScannedIsPlain(s: string)
    requires s != [] && !IsSpace(s[0]) && ScanToken(s).Ok?
    ensures PlainToken(ScanToken(s).value.token)
  {
    hide Name, Unsplit, NumberToken, WordToken, NumberLength, WordLength, Unquoted;
    if s[0] == '\'' {
      UnquotedChars(s[1..]);
    } else if IsDigit(s[0]) {
      NumberIsPlain(s[..NumberLength(s)]);
    } else if IsWordChar(s[0]) {
      WordIsPlain(s);
    }
  }

  lemma {:induction false} LexedIsPlain(s: string)
    requires Lex(s).Ok?
    ensures forall i :: 0 <= i < |Lex(s).value| ==> PlainToken(Lex(s).value[i])
    decreases |s|
  {
    hide ScanToken, PlainToken;
    EofIsPlain();
    if Scan(s).value.token != Eof {
      SpacesStop(s);
      ScannedIsPlain(s[Spaces(s)..]);
      LexedIsPlain(s[Scan(s).value.length..]);
    }
  }

  lemma EofIsPlain()
    ensures PlainToken(Eof)
  {
  }

  /** Every leaf of the tree could have been printed and read back. */
  predicate PlainTree(e: A.Expr) {
    match e
    case BinaryOp(l, _, r) => PlainTree(l) && PlainTree(r)
    case _ => forall i :: 0 <= i < |LeafTokens(e)| ==> PlainToken(LeafTokens(e)[i])
  }

  lemma {:induction false} PlainFromTokens(g: Group)
    requires Sound(g) && forall i :: 0 <= i < |GroupTokens(g)| ==> PlainToken(GroupTokens(g)[i])
    ensures PlainTree(Strip(g))
  {
    hide LeafTokens, PlainToken;
    var ts := GroupTokens(g);
    match g {
      case Leaf(e) => LeafIsNoOp(e);
      case Infix(l, op, r) =>
        forall i | 0 <= i < |GroupTokens(l)| ensures PlainToken(GroupTokens(l)[i]) {
          assert GroupTokens(l)[i] == ts[i];
        }
        forall i | 0 <= i < |GroupTokens(r)| ensures PlainToken(GroupTokens(r)[i]) {
          assert GroupTokens(r)[i] == ts[|GroupTokens(l)| + 1 + i];
        }
        PlainFromTokens(l);
        PlainFromTokens(r);
      case Paren(x) =>
        forall i | 0 <= i < |GroupTokens(x)| ensures PlainToken(GroupTokens(x)[i]) {
          assert GroupTokens(x)[i] == ts[1 + i];
        }
        PlainFromTokens(x);
    }
  }

  lemma LeafMeaning(e: SdkExpr)
    requires !e.Bin? && Built(e) && PlainTree(Meaning(e))
    ensures LexicalLeaves(e)
  {
    hide Name, AttrText;
    match e {
      case Var(name) => assert PlainToken(LeafTokens(Meaning(e))[0]);
      case Attr(base, attr) =>
        assert PlainToken(LeafTokens(Meaning(e))[0]) && PlainToken(LeafTokens(Meaning(e))[2]);
        AttrNames(base);
      case StrLit(s) => assert PlainToken(LeafTokens(Meaning(e))[0]);
      case IntLit(i) => assert PlainToken(LeafTokens(Meaning(e))[0]);
      case BoolLit(_) =>
      case NoneLit =>
    }
  }

  /** A chained attribute has a dot in its text, so it is no name. */
  lemma AttrNames(base: SdkExpr)
    requires Built(base) && (base.Var? || base.Attr?) && Name(AttrText(base))
    ensures base.Var? && AttrText(base) == base.name
  {
    if base.Attr? {
      DottedIsNoName(base);
    }
  }

  lemma DottedIsNoName(e: SdkExpr)
    requires Built(e) && e.Attr?
    ensures !Name(AttrText(e))
  {
    hide WordToken;
    assert AttrText(e)[|AttrText(e.base)|] == '.';
  }

  lemma {:induction false} PlainMeaning(e: SdkExpr)
    requires Built(e) && PlainTree(Meaning(e))
    ensures LexicalLeaves(e)
  {
    hide LeafTokens, PlainToken;
    if e.Bin? {
      PlainMeaning(e.left);
      PlainMeaning(e.right);
    } else {
      LeafMeaning(e);
    }
  }

  predicate HasNull(e: A.Expr) {
    match e
    case BinaryOp(l, _, r) => HasNull(l) || HasNull(r)
    case _ => e == A.Lit(A.LitNull)
  }

  lemma {:induction false} NullShows(g: Group)
    requires Sound(g) && HasNull(Strip(g))
    ensures KwNull in GroupTokens(g)
  {
    match g {
      case Leaf(e) => LeafIsNoOp(e);
      case Infix(l, _, r) => if HasNull(Strip(l)) { NullShows(l); } else { NullShows(r); }
      case Paren(x) => NullShows(x);
    }
  }

  lemma {:induction false} NoneIsNull(e: SdkExpr)
    ensures HasNull(Meaning(e)) <==> !NoneFree(e)
    ensures KwNull !in Tokens(e)
  {
    hide AttrText;
    if e.Bin? {
      NoneIsNull(e.left);
      NoneIsNull(e.right);
      assert OpToken(e.op) != KwNull;
    }
  }

  lemma {:induction false} MeaningIsSimple(e: SdkExpr)
    ensures Simple(Meaning(e))
  {
    if e.Bin? {
      MeaningIsSimple(e.left);
      MeaningIsSimple(e.right);
    }
  }

  // ---------- the grouping an expression prints ----------

  function Printed(e: SdkExpr): Group {
    if !e.Bin? then Leaf(Meaning(e))
    else
      var bare := Infix(Printed(e.left), e.op, Printed(e.right));
      if Logical(e.op) then Paren(bare) else bare
  }

  lemma {:induction false} PrintedGroup(e: SdkExpr)
    requires NoneFree(e)
    ensures Sound(Printed(e)) && Strip(Printed(e)) == Meaning(e)
    ensures LexicalLeaves(e) ==> GroupTokens(Printed(e)) == Tokens(e)
    ensures GroupStrength(Printed(e)) == Strength(e)
    ensures WellGrouped(Printed(e)) ==> RespectsPrecedence(e)
  {
    hide Name;
    if e.Bin? {
      PrintedGroup(e.left);
      PrintedGroup(e.right);
      var bare := Infix(Printed(e.left), e.op, Printed(e.right));
      assert WellGrouped(Printed(e)) ==> WellGrouped(bare);
      assert WellGrouped(bare) ==> WellGrouped(bare.left) && WellGrouped(bare.right);
    }
  }

  // ---------- the theorem ----------

  /** The whole printed text lexes, and parses to what the expression means. */
  ghost predicate RoundTrips(e: SdkExpr) {
    var ts := Lex(ToGql(e));
    ts.Ok? && ParseExpr(ts.value, 0) == Ok(Read(Meaning(e), |ts.value| - 1))
  }

  lemma EmptyText()
    ensures Lex("") == Ok([Eof]) && Breaks("") && Closes(Eof, 0)
  {
  }

  lemma GroupReadBack(e: SdkExpr) returns (g: Group)
    requires Built(e) && RoundTrips(e)
    ensures Sound(g) && WellGrouped(g) && Strip(g) == Meaning(e) && LexicalLeaves(e) && GroupTokens(g) == Tokens(e)
  {
    hide Lex, ToGql, Tokens, ParseExpr, Meaning, LexicalLeaves, Simple, Sound, Strip, WellGrouped, GroupTokens, PlainTree, PlainToken, Built;
    var ts := Lex(ToGql(e)).value;
    MeaningIsSimple(e);
    g := GroupExpr(ts, 0);
    LexedIsPlain(ToGql(e));
    assert GroupTokens(g) == ts[..|ts| - 1];
    PlainFromTokens(g);
    PlainMeaning(e);
    LexedTokens(e);
    assert Tokens(e) == ts[..|ts| - 1];
  }

  lemma LexedTokens(e: SdkExpr)
    requires LexicalLeaves(e)
    ensures Lex(ToGql(e)) == Ok(Tokens(e) + [Eof])
  {
    hide Lex, ToGql, Tokens, LexicalLeaves;
    EmptyText();
    LexPrinted(e, "");
    assert ToGql(e) + "" == ToGql(e);
  }

  lemma ReadBackIsFaithful(e: SdkExpr)
    requires Built(e) && RoundTrips(e)
    ensures Faithful(e)
  {
    hide RoundTrips, Tokens, Meaning, LexicalLeaves, NoneFree, RespectsPrecedence, Sound, Strip, WellGrouped, GroupTokens, HasNull, Printed;
    var g := GroupReadBack(e);
    NoneIsNull(e);
    if HasNull(Meaning(e)) {
      NullShows(g);
    }
    PrintedGroup(e);
    GroupingIsUnique(g, Printed(e));
  }

  /** An expression the SDK can build comes back from its printed text exactly when its leaves read
      back as themselves and its operators respect precedence without parentheses around them. */
  lemma RoundTripIsExact(e: SdkExpr)
    requires Built(e)
    ensures RoundTrips(e) <==> Faithful(e)
  {
    hide Lex, ToGql, Tokens, ParseExpr, Meaning, Faithful, Closes;
    if Faithful(e) {
      EmptyText();
      PrintedTextParses(e, "");
      assert ToGql(e) + "" == ToGql(e);
    }
    if RoundTrips(e) {
      ReadBackIsFaithful(e);
    }
  }
}
