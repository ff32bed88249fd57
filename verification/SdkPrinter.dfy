/** The SDK's expression objects and the query text they print. */
module SdkPrinter {
  import opened Prelude
  import opened Text
  import opened Lexer
  import V = Values
  import A = Ast

  datatype SdkExpr =
    | Var(name: string)
    | Attr(base: SdkExpr, attr: string)
    | StrLit(s: string)
    | IntLit(i: int)
    | BoolLit(b: bool)
    | NoneLit
    | Bin(left: SdkExpr, op: V.BinOp, right: SdkExpr)

  /** What the SDK lets a caller build: only variables and attributes have attributes. */
  predicate Built(e: SdkExpr) {
    match e
    case Attr(base, _) => (base.Var? || base.Attr?) && Built(base)
    case Bin(left, _, right) => Built(left) && Built(right)
    case _ => true
  }

  predicate Logical(op: V.BinOp) {
    op == V.And || op == V.Or
  }

  function OpText(op: V.BinOp): string {
    match op
    case Eq => "="
    case Ne => "!="
    case Lt => "<"
    case Le => "<="
    case Gt => ">"
    case Ge => ">="
    case And => "AND"
    case Or => "OR"
    case Add => "+"
    case Sub => "-"
    case Mul => "*"
    case Div => "/"
  }

  /** Chained attributes as they print: the names joined by dots, after the variable at the bottom. */
  function AttrText(e: SdkExpr): string {
    match e
    case Var(name) => name
    case Attr(base, attr) => if base.Var? || base.Attr? then AttrText(base) + "." + attr else attr
    case _ => ""
  }

  function IntText(i: int): string {
    if i < 0 then "-" + Decimal(-i) else Decimal(i)
  }

  /** Only AND and OR print parentheses. */
  function ToGql(e: SdkExpr): string {
    match e
    case Var(name) => name
    case Attr(_, _) => AttrText(e)
    case StrLit(s) => "'" + s + "'"
    case IntLit(i) => IntText(i)
    case BoolLit(b) => if b then "True" else "False"
    case NoneLit => "None"
    case Bin(left, op, right) =>
      var body := ToGql(left) + " " + OpText(op) + " " + ToGql(right);
      if Logical(op) then "(" + body + ")" else body
  }

  // ---------- flattening, as the printer does it ----------

  /** The attribute names from the outermost inwards, and the variable below them, if there is one. */
  function Names(e: SdkExpr): seq<string> {
    match e
    case Var(name) => [name]
    case Attr(base, attr) => [attr] + Names(base)
    case _ => []
  }

  function Reversed<T>(s: seq<T>): (r: seq<T>)
    ensures |r| == |s|
  {
    if s == [] then [] else Reversed(s[1..]) + [s[0]]
  }

  lemma {:induction false} JoinAppend(parts: seq<string>, last: string, sep: char)
    ensures Join(parts + [last], sep) == if parts == [] then last else Join(parts, sep) + [sep] + last
  {
    if |parts| > 1 {
      assert (parts + [last])[1..] == parts[1..] + [last];
      JoinAppend(parts[1..], last, sep);
    }
  }

  lemma {:induction false} ReversedNames(e: SdkExpr)
    requires e.Var? || e.Attr?
    ensures Join(Reversed(Names(e)), '.') == AttrText(e)
  {
    match e
    case Var(_) =>
    case Attr(base, attr) =>
      assert Names(e)[1..] == Names(base);
      JoinAppend(Reversed(Names(base)), attr, '.');
      if base.Var? || base.Attr? {
        ReversedNames(base);
      }
  }

  method Flatten(e: SdkExpr) returns (text: string)
    requires e.Attr?
    ensures text == AttrText(e)
  {
    var parts: seq<string> := [];
    var cur := e;
    while cur.Attr?
      invariant parts + Names(cur) == Names(e)
      decreases cur
    {
      parts := parts + [cur.attr];
      cur := cur.base;
    }
    if cur.Var? {
      parts := parts + [cur.name];
    }
    assert parts == Names(e);
    ReversedNames(e);
    text := Join(Reversed(parts), '.');
  }

  // ---------- what the text should mean ----------

  function Meaning(e: SdkExpr): A.Expr {
    match e
    case Var(name) => A.Ident(name)
    case Attr(base, attr) => A.Property(AttrText(base), attr)
    case StrLit(s) => A.Lit(A.LitStr(s))
    case IntLit(i) => A.Lit(A.LitInt(i))
    case BoolLit(b) => A.Lit(A.LitBool(b))
    case NoneLit => A.Lit(A.LitNull)
    case Bin(left, op, right) => A.BinaryOp(Meaning(left), op, Meaning(right))
  }

  function OpToken(op: V.BinOp): Token {
    match op
    case Eq => OpEq
    case Ne => OpNe
    case Lt => OpLt
    case Le => OpLe
    case Gt => OpGt
    case Ge => OpGe
    case And => KwAnd
    case Or => KwOr
    case Add => Plus
    case Sub => Minus
    case Mul => Star
    case Div => Slash
  }

  /** The tokens of the printed text. */
  function Tokens(e: SdkExpr): seq<Token> {
    match e
    case Var(name) => [Word(name)]
    case Attr(base, attr) => [Word(AttrText(base)), Dot, Word(attr)]
    case StrLit(s) => [StringTok(s)]
    case IntLit(i) => [IntTok(i)]
    case BoolLit(b) => [if b then KwTrue else KwFalse]
    case NoneLit => [Word("None")]
    case Bin(left, op, right) =>
      var body := Tokens(left) + [OpToken(op)] + Tokens(right);
      if Logical(op) then [LeftParen] + body + [RightParen] else body
  }

  // ---------- which expressions print faithfully ----------

  /** A name the lexer reads back as one identifier: a word that starts with no digit and is no
      keyword in any capitalisation. */
  predicate Name(s: string) {
    && s != [] && !IsDigit(s[0])
    && (forall i :: 0 <= i < |s| ==> IsWordChar(s[i]))
    && WordToken(s) == Word(s)
  }

  predicate Unsplit(s: string) {
    forall i :: 0 <= i < |s| ==> s[i] != '\''
  }

  /** Every leaf prints as the tokens expected of it. */
  predicate LexicalLeaves(e: SdkExpr) {
    match e
    case Var(name) => Name(name)
    case Attr(base, attr) => base.Var? && Name(base.name) && Name(attr)
    case StrLit(s) => Unsplit(s)
    case IntLit(i) => 0 <= i < I64_LIMIT
    case BoolLit(_) => true
    case NoneLit => true
    case Bin(left, _, right) => LexicalLeaves(left) && LexicalLeaves(right)
  }

  predicate NoneFree(e: SdkExpr) {
    match e
    case NoneLit => false
    case Bin(left, _, right) => NoneFree(left) && NoneFree(right)
    case _ => true
  }

  /** Every leaf reads back as itself; Python's None does not, as it prints an identifier. */
  predicate PlainLeaves(e: SdkExpr) {
    LexicalLeaves(e) && NoneFree(e)
  }

  /** Binding strength of the text an expression prints: 1 for a comparison, 2 for a sum, 3 for a
      product, 4 for leaves and for everything in parentheses. */
  function Strength(e: SdkExpr): nat {
    if !e.Bin? then 4
    else
      match e.op
      case Eq | Ne | Lt | Le | Gt | Ge => 1
      case Add | Sub => 2
      case Mul | Div => 3
      case And | Or => 4
  }

  /** Printed without parentheses, the operands still group as in the tree: comparisons hold no bare
      comparison, sums and products associate to the left, and only stronger operands stand bare. */
  predicate RespectsPrecedence(e: SdkExpr) {
    e.Bin? ==>
      && RespectsPrecedence(e.left) && RespectsPrecedence(e.right)
      && (Logical(e.op) || (Strength(e.left) >= (if Strength(e) == 1 then 2 else Strength(e)) && Strength(e.right) > Strength(e)))
  }
}
