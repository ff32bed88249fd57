/** Printing an SDK expression, lexing the text and parsing the tokens gives the expression back. */
module PrintParse {
  import opened Prelude
  import opened Text
  import opened Lexer
  import opened Grammar
  import opened SdkPrinter
  import V = Values
  import A = Ast

  // ---------- lexing the printed text ----------

  /** A text that ends a word or a number before it. */
  predicate Breaks(suffix: string) {
    suffix == [] || (!IsWordChar(suffix[0]) && suffix[0] != '.')
  }

  lemma PrefixedTwice(a: seq<Token>, b: seq<Token>, r: Result<seq<Token>>)
    ensures Prefixed(a, Prefixed(b, r)) == Prefixed(a + b, r)
  {
    if r.Ok? {
      assert a + (b + r.value) == a + b + r.value;
    }
  }

  lemma LexOne(s: string, token: Token, n: nat)
    requires Scan(s) == Ok(Scanned(token, n)) && token != Eof
    ensures n <= |s| && Lex(s) == Prefixed([token], Lex(s[n..]))
  {
    hide Scan;
    assert Scan(s).value.length <= |s|;
  }

  lemma ScanBlank(c: char, s: string)
    requires IsSpace(c)
    ensures Scan([c] + s) == if Scan(s).Ok? then Ok(Scanned(Scan(s).value.token, 1 + Scan(s).value.length)) else Scan(s)
  {
    hide ScanToken;
    var all, blanks := [c] + s, Spaces(s);
    assert all[1..] == s && Spaces(all) == 1 + blanks;
    assert all[1 + blanks..] == s[blanks..];
  }

  /** A blank in front of a text does not matter. */
  lemma LexAfter(c: char, s: string)
    requires IsSpace(c)
    ensures Lex([c] + s) == Lex(s)
  {
    hide Scan, IsSpace;
    ScanBlank(c, s);
    if Scan(s).Ok? {
      var n := Scan(s).value.length;
      assert ([c] + s)[1 + n..] == s[n..];
    }
  }

  lemma LexBlank(s: string)
    ensures Lex(" " + s) == Lex(s)
  {
    hide Lex;
    assert " " + s == [' '] + s;
    LexAfter(' ', s);
  }

  lemma {:induction false} WordRun(word: string, suffix: string)
    requires forall i :: 0 <= i < |word| ==> IsWordChar(word[i])
    requires suffix == [] || !IsWordChar(suffix[0])
    ensures WordLength(word + suffix) == |word|
  {
    if word == [] {
      assert word + suffix == suffix;
    } else {
      assert (word + suffix)[1..] == word[1..] + suffix;
      WordRun(word[1..], suffix);
    }
  }

  lemma ScansRun(s: string)
    requires s != [] && IsWordChar(s[0])
    ensures Scan(s) == ScanRun(s)
  {
    hide ScanRun;
    assert s[0..] == s;
  }

  lemma LexWord(word: string, suffix: string)
    requires word != [] && !IsDigit(word[0]) && forall i :: 0 <= i < |word| ==> IsWordChar(word[i])
    requires suffix == [] || !IsWordChar(suffix[0])
    ensures Lex(word + suffix) == Prefixed([WordToken(word)], Lex(suffix))
  {
    hide Lex, Scan, WordToken;
    var s := word + suffix;
    WordRun(word, suffix);
    ScansRun(s);
    assert s[..|word|] == word && s[|word|..] == suffix;
    WordTokenIsNoEnd(word);
    LexOne(s, WordToken(word), |word|);
  }

  lemma WordTokenIsNoEnd(word: string)
    ensures WordToken(word) != Eof
  {
  }

  lemma {:induction false} DigitRun(digits: string, suffix: string)
    requires AllDigits(digits) && Breaks(suffix)
    ensures NumberLength(digits + suffix) == |digits|
  {
    if digits == [] {
      assert digits + suffix == suffix;
    } else {
      assert (digits + suffix)[1..] == digits[1..] + suffix;
      DigitRun(digits[1..], suffix);
    }
  }

  lemma {:induction false} NoDot(digits: string)
    requires AllDigits(digits)
    ensures Split(digits, '.') == [digits]
  {
    if digits != [] {
      NoDot(digits[1..]);
      assert digits[0] != '.' && digits == [digits[0]] + digits[1..];
    }
  }

  lemma LexDecimal(i: nat, suffix: string)
    requires i < I64_LIMIT && Breaks(suffix)
    ensures Lex(Decimal(i) + suffix) == Prefixed([IntTok(i)], Lex(suffix))
  {
    hide Lex, Scan, Split, Decimal, DecimalValue, NumberLength;
    var digits := Decimal(i);
    var s := digits + suffix;
    DigitRun(digits, suffix);
    NoDot(digits);
    DecimalRoundTrip(i);
    ScansRun(s);
    assert s[..|digits|] == digits && s[|digits|..] == suffix;
    assert NumberToken(digits) == Ok(IntTok(i));
    LexOne(s, IntTok(i), |digits|);
  }

  lemma {:induction false} UnquotedRun(text: string, suffix: string)
    requires Unsplit(text)
    ensures Unquoted(text + "'" + suffix) == |text|
  {
    if text != [] {
      assert (text + "'" + suffix)[1..] == text[1..] + "'" + suffix;
      UnquotedRun(text[1..], suffix);
    }
  }

  lemma LexQuoted(text: string, suffix: string)
    requires Unsplit(text)
    ensures Lex("'" + text + "'" + suffix) == Prefixed([StringTok(text)], Lex(suffix))
  {
    hide Lex, Unquoted;
    var s := "'" + text + "'" + suffix;
    var tail := text + "'" + suffix;
    assert s[1..] == tail && s[0..] == s;
    UnquotedRun(text, suffix);
    assert tail[..|text|] == text;
    assert s[|text| + 2..] == suffix;
    LexOne(s, StringTok(text), |text| + 2);
  }

  lemma LexSymbol(symbol: string, token: Token, suffix: string)
    requires symbol != [] && !IsSpace(symbol[0]) && token != Eof
    requires ScanToken(symbol + suffix) == Ok(Scanned(token, |symbol|))
    ensures Lex(symbol + suffix) == Prefixed([token], Lex(suffix))
  {
    hide Lex, ScanToken;
    var s := symbol + suffix;
    assert s[0..] == s && s[|symbol|..] == suffix;
    LexOne(s, token, |symbol|);
  }

  lemma LexOperator(op: V.BinOp, suffix: string)
    ensures Lex(OpText(op) + " " + suffix) == Prefixed([OpToken(op)], Lex(suffix))
  {
    hide Lex;
    assert OpText(op) + " " + suffix == OpText(op) + (" " + suffix);
    LexBlank(suffix);
    if Logical(op) {
      OpWords(op);
      LexWord(OpText(op), " " + suffix);
    } else {
      ScanOperator(op, " " + suffix);
      LexSymbol(OpText(op), OpToken(op), " " + suffix);
    }
  }

  lemma OpWords(op: V.BinOp)
    requires Logical(op)
    ensures WordToken(OpText(op)) == OpToken(op)
    ensures forall i :: 0 <= i < |OpText(op)| ==> IsWordChar(OpText(op)[i]) && !IsDigit(OpText(op)[i])
  {
    assert Upper("AND") == "AND" && Upper("OR") == "OR";
  }

  lemma ScanOperator(op: V.BinOp, suffix: string)
    requires !Logical(op) && suffix != [] && suffix[0] == ' '
    ensures OpText(op) != [] && !IsSpace(OpText(op)[0])
    ensures ScanToken(OpText(op) + suffix) == Ok(Scanned(OpToken(op), |OpText(op)|))
  {
  }

  lemma BoolWords(b: bool)
    ensures WordToken(if b then "True" else "False") == if b then KwTrue else KwFalse
  {
    assert Upper("True") == "TRUE" && Upper("False") == "FALSE";
  }

  lemma NoneIsName()
    ensures Name("None")
  {
    assert Upper("None") == "NONE";
  }

  lemma {:induction false} LexPrinted(e: SdkExpr, suffix: string)
    requires LexicalLeaves(e) && Breaks(suffix)
    ensures Lex(ToGql(e) + suffix) == Prefixed(Tokens(e), Lex(suffix))
    decreases e, 1
  {
    hide Lex, Name, WordToken;
    match e
    case Var(name) => LexName(name, suffix);
    case Attr(base, attr) => LexAttr(base, attr, suffix);
    case StrLit(s) => LexQuoted(s, suffix);
    case IntLit(i) => LexDecimal(i, suffix);
    case BoolLit(b) =>
      BoolWords(b);
      BreaksWord(suffix);
      LexWord(if b then "True" else "False", suffix);
    case NoneLit =>
      NoneIsName();
      LexName("None", suffix);
    case Bin(left, op, right) =>
      if Logical(op) {
        LexGroup(left, op, right, suffix);
      } else {
        LexBody(left, op, right, suffix);
      }
  }

  lemma {:induction false} LexGroup(left: SdkExpr, op: V.BinOp, right: SdkExpr, suffix: string)
    requires LexicalLeaves(left) && LexicalLeaves(right) && Logical(op)
    ensures Lex(ToGql(Bin(left, op, right)) + suffix) == Prefixed(Tokens(Bin(left, op, right)), Lex(suffix))
    decreases Bin(left, op, right), 0, 1
  {
    hide Lex, LexicalLeaves, OpText, OpToken;
    LexBody(left, op, right, ")" + suffix);
    LexSymbol(")", RightParen, suffix);
    var body := ToGql(left) + " " + OpText(op) + " " + ToGql(right);
    LexSymbol("(", LeftParen, body + (")" + suffix));
    assert ToGql(Bin(left, op, right)) + suffix == "(" + (body + (")" + suffix));
    var inner := Tokens(left) + [OpToken(op)] + Tokens(right);
    PrefixedTwice(inner, [RightParen], Lex(suffix));
    PrefixedTwice([LeftParen], inner + [RightParen], Lex(suffix));
    assert [LeftParen] + (inner + [RightParen]) == Tokens(Bin(left, op, right));
  }

  lemma {:induction false} LexBody(left: SdkExpr, op: V.BinOp, right: SdkExpr, suffix: string)
    requires LexicalLeaves(left) && LexicalLeaves(right) && Breaks(suffix)
    ensures Lex(ToGql(left) + " " + OpText(op) + " " + ToGql(right) + suffix)
         == Prefixed(Tokens(left) + [OpToken(op)] + Tokens(right), Lex(suffix))
    decreases Bin(left, op, right), 0, 0
  {
    hide Lex, LexicalLeaves, ToGql, Tokens, OpText, OpToken;
    var l, o, r := ToGql(left), OpText(op), ToGql(right);
    LexPrinted(right, suffix);
    LexOperator(op, r + suffix);
    var fromOp := o + " " + (r + suffix);
    LexBlank(fromOp);
    LexPrinted(left, " " + fromOp);
    assert l + " " + o + " " + r + suffix == l + (" " + fromOp);
    PrefixedTwice([OpToken(op)], Tokens(right), Lex(suffix));
    PrefixedTwice(Tokens(left), [OpToken(op)] + Tokens(right), Lex(suffix));
    assert Tokens(left) + ([OpToken(op)] + Tokens(right)) == Tokens(left) + [OpToken(op)] + Tokens(right);
  }

  lemma BreaksWord(suffix: string)
    requires Breaks(suffix)
    ensures suffix == [] || !IsWordChar(suffix[0])
  {
  }

  lemma LexName(name: string, suffix: string)
    requires Name(name) && (suffix == [] || !IsWordChar(suffix[0]))
    ensures Lex(name + suffix) == Prefixed([Word(name)], Lex(suffix))
  {
    hide Lex, WordToken;
    LexWord(name, suffix);
  }

  lemma ScanDot(suffix: string)
    requires suffix != [] && suffix[0] != '.'
    ensures ScanToken("." + suffix) == Ok(Scanned(Dot, 1))
  {
  }

  lemma NameStarts(name: string, suffix: string)
    requires Name(name)
    ensures name + suffix != [] && (name + suffix)[0] != '.'
  {
    hide WordToken;
    assert IsWordChar(name[0]);
  }

  lemma LexDotName(attr: string, suffix: string)
    requires Name(attr) && Breaks(suffix)
    ensures Lex("." + (attr + suffix)) == Prefixed([Dot, Word(attr)], Lex(suffix))
  {
    hide Lex, Name, ScanToken;
    LexName(attr, suffix);
    NameStarts(attr, suffix);
    ScanDot(attr + suffix);
    LexSymbol(".", Dot, attr + suffix);
    PrefixedTwice([Dot], [Word(attr)], Lex(suffix));
    assert [Dot] + [Word(attr)] == [Dot, Word(attr)];
  }

  lemma LexAttr(base: SdkExpr, attr: string, suffix: string)
    requires base.Var? && Name(base.name) && Name(attr) && Breaks(suffix)
    ensures Lex(AttrText(Attr(base, attr)) + suffix) == Prefixed([Word(base.name), Dot, Word(attr)], Lex(suffix))
  {
    hide Lex, Name, ScanToken;
    LexDotName(attr, suffix);
    LexName(base.name, "." + (attr + suffix));
    assert AttrText(Attr(base, attr)) + suffix == base.name + ("." + (attr + suffix));
    PrefixedTwice([Word(base.name)], [Dot, Word(attr)], Lex(suffix));
    assert [Word(base.name)] + [Dot, Word(attr)] == [Word(base.name), Dot, Word(attr)];
  }

  // ---------- parsing the tokens ----------

  predicate Stands(ts: seq<Token>, pos: nat, tokens: seq<Token>) {
    pos + |tokens| < |ts| && ts[pos..pos + |tokens|] == tokens
  }

  /** A token that does not continue an expression of the given strength; 0 stands for a whole
      expression. */
  predicate Closes(t: Token, strength: nat) {
    && t != LeftParen && t != Dot
    && (strength <= 3 ==> MultiplicativeOp(t).None?)
    && (strength <= 2 ==> AdditiveOp(t).None?)
    && (strength <= 1 ==> ComparisonOp(t).None? && t != KwIs)
    && (strength <= 0 ==> t != KwAnd && t != KwOr)
  }

  predicate Faithful(e: SdkExpr) {
    PlainLeaves(e) && RespectsPrecedence(e)
  }

  lemma StandsParts(ts: seq<Token>, pos: nat, a: seq<Token>, t: Token, b: seq<Token>)
    requires Stands(ts, pos, a + [t] + b)
    ensures Stands(ts, pos, a) && ts[pos + |a|] == t && Stands(ts, pos + |a| + 1, b)
  {
    var all := ts[pos..pos + |a + [t] + b|];
    assert all[..|a|] == a && all[|a|] == t && all[|a| + 1..] == b;
  }

  lemma StandsGroup(ts: seq<Token>, pos: nat, body: seq<Token>)
    requires Stands(ts, pos, [LeftParen] + body + [RightParen])
    ensures ts[pos] == LeftParen && Stands(ts, pos + 1, body) && ts[pos + 1 + |body|] == RightParen
  {
    var all := ts[pos..pos + |body| + 2];
    assert all[0] == LeftParen && all[1..|body| + 1] == body && all[|body| + 1] == RightParen;
  }

  // ---------- one step of each parsing function ----------

  lemma ProductStart(ts: seq<Token>, pos: nat, left: Read<A.Expr>)
    requires Ended(ts) && pos < |ts| && ParsePrimary(ts, pos) == Ok(left)
    ensures ParseMultiplicative(ts, pos) == MulRest(ts, left.next, left.tree)
  {
    hide ParsePrimary, MulRest;
  }

  lemma ProductStep(ts: seq<Token>, pos: nat, left: A.Expr, right: Read<A.Expr>)
    requires Ended(ts) && pos < |ts| && MultiplicativeOp(ts[pos]).Some? && ParsePrimary(ts, pos + 1) == Ok(right)
    ensures MulRest(ts, pos, left) == MulRest(ts, right.next, A.BinaryOp(left, MultiplicativeOp(ts[pos]).value, right.tree))
  {
    hide ParsePrimary;
  }

  lemma ProductEnd(ts: seq<Token>, pos: nat, left: A.Expr)
    requires Ended(ts) && pos < |ts| && MultiplicativeOp(ts[pos]).None?
    ensures MulRest(ts, pos, left) == Ok(Read(left, pos))
  {
    hide ParsePrimary;
  }

  lemma SumStart(ts: seq<Token>, pos: nat, left: Read<A.Expr>)
    requires Ended(ts) && pos < |ts| && ParseMultiplicative(ts, pos) == Ok(left)
    ensures ParseAdditive(ts, pos) == AddRest(ts, left.next, left.tree)
  {
    hide ParseMultiplicative, AddRest;
  }

  lemma SumStep(ts: seq<Token>, pos: nat, left: A.Expr, right: Read<A.Expr>)
    requires Ended(ts) && pos < |ts| && AdditiveOp(ts[pos]).Some? && ParseMultiplicative(ts, pos + 1) == Ok(right)
    ensures AddRest(ts, pos, left) == AddRest(ts, right.next, A.BinaryOp(left, AdditiveOp(ts[pos]).value, right.tree))
  {
    hide ParseMultiplicative;
  }

  lemma SumEnd(ts: seq<Token>, pos: nat, left: A.Expr)
    requires Ended(ts) && pos < |ts| && AdditiveOp(ts[pos]).None?
    ensures AddRest(ts, pos, left) == Ok(Read(left, pos))
  {
    hide ParseMultiplicative;
  }

  lemma CompareStart(ts: seq<Token>, pos: nat, left: Read<A.Expr>)
    requires Ended(ts) && pos < |ts| && ParseAdditive(ts, pos) == Ok(left)
    ensures ParseComparison(ts, pos) == CompareRest(ts, left.next, left.tree)
  {
    hide ParseAdditive, CompareRest;
  }

  lemma CompareStep(ts: seq<Token>, pos: nat, left: A.Expr, right: Read<A.Expr>)
    requires Ended(ts) && pos < |ts| && ComparisonOp(ts[pos]).Some? && ParseAdditive(ts, pos + 1) == Ok(right)
    ensures CompareRest(ts, pos, left) == Ok(Read(A.BinaryOp(left, ComparisonOp(ts[pos]).value, right.tree), right.next))
  {
    hide ParseAdditive;
  }

  lemma CompareEnd(ts: seq<Token>, pos: nat, left: A.Expr)
    requires Ended(ts) && pos < |ts| && ComparisonOp(ts[pos]).None? && ts[pos] != KwIs
    ensures CompareRest(ts, pos, left) == Ok(Read(left, pos))
  {
    hide ParseAdditive;
  }

  lemma WholeExpr(ts: seq<Token>, pos: nat, e: Read<A.Expr>)
    requires Ended(ts) && pos < |ts| && ParseComparison(ts, pos) == Ok(e)
    requires e.next < |ts| && ts[e.next] != KwAnd && ts[e.next] != KwOr
    ensures ParseExpr(ts, pos) == Ok(e)
  {
    hide ParseComparison;
    assert AndRest(ts, e.next, e.tree) == Ok(e);
    assert ParseAnd(ts, pos) == Ok(e);
    assert OrRest(ts, e.next, e.tree) == Ok(e);
  }

  lemma Conjunction(ts: seq<Token>, pos: nat, l: Read<A.Expr>, r: Read<A.Expr>)
    requires Ended(ts) && pos < |ts| && ParseComparison(ts, pos) == Ok(l) && l.next + 1 < |ts| && ts[l.next] == KwAnd
    requires ParseComparison(ts, l.next + 1) == Ok(r) && r.next < |ts| && ts[r.next] == RightParen
    ensures ParseExpr(ts, pos) == Ok(Read(A.BinaryOp(l.tree, V.And, r.tree), r.next))
  {
    hide ParseComparison;
    var both := A.BinaryOp(l.tree, V.And, r.tree);
    assert AndRest(ts, r.next, both) == Ok(Read(both, r.next));
    assert AndRest(ts, l.next, l.tree) == AndRest(ts, r.next, both);
    assert ParseAnd(ts, pos) == Ok(Read(both, r.next));
    assert OrRest(ts, r.next, both) == Ok(Read(both, r.next));
  }

  lemma Disjunction(ts: seq<Token>, pos: nat, l: Read<A.Expr>, r: Read<A.Expr>)
    requires Ended(ts) && pos < |ts| && ParseComparison(ts, pos) == Ok(l) && l.next + 1 < |ts| && ts[l.next] == KwOr
    requires ParseComparison(ts, l.next + 1) == Ok(r) && r.next < |ts| && ts[r.next] == RightParen
    ensures ParseExpr(ts, pos) == Ok(Read(A.BinaryOp(l.tree, V.Or, r.tree), r.next))
  {
    hide ParseComparison;
    var both := A.BinaryOp(l.tree, V.Or, r.tree);
    assert AndRest(ts, l.next, l.tree) == Ok(l) && ParseAnd(ts, pos) == Ok(l);
    assert AndRest(ts, r.next, r.tree) == Ok(r) && ParseAnd(ts, l.next + 1) == Ok(r);
    assert OrRest(ts, r.next, both) == Ok(Read(both, r.next));
    assert OrRest(ts, l.next, l.tree) == OrRest(ts, r.next, both);
  }

  lemma Grouped(ts: seq<Token>, pos: nat, e: Read<A.Expr>)
    requires Ended(ts) && pos + 1 < |ts| && ts[pos] == LeftParen && ParseExpr(ts, pos + 1) == Ok(e)
    requires e.next < |ts| && ts[e.next] == RightParen
    ensures ParsePrimary(ts, pos) == Ok(Read(e.tree, e.next + 1))
  {
    hide ParseExpr;
  }

  lemma PlainWord(ts: seq<Token>, pos: nat)
    requires Ended(ts) && pos + 1 < |ts| && ts[pos].Word? && ts[pos + 1] != LeftParen && ts[pos + 1] != Dot
    ensures ParsePrimary(ts, pos) == Ok(Read(A.Ident(ts[pos].name), pos + 1))
  {
  }

  lemma DottedWord(ts: seq<Token>, pos: nat)
    requires Ended(ts) && pos + 2 < |ts| && ts[pos].Word? && ts[pos + 1] == Dot && ts[pos + 2].Word?
    ensures ParsePrimary(ts, pos) == Ok(Read(A.Property(ts[pos].name, ts[pos + 2].name), pos + 3))
  {
  }

  // ---------- the printed tokens parse to the tree ----------

  predicate IsLiteral(t: Token) {
    t.StringTok? || t.IntTok? || t == KwTrue || t == KwFalse
  }

  lemma OneLiteral(ts: seq<Token>, pos: nat)
    requires Ended(ts) && pos < |ts| && IsLiteral(ts[pos])
    ensures ParseLiteral(ts, pos).Ok? && ParseLiteral(ts, pos).value.next == pos + 1
  {
  }

  lemma LiteralToken(ts: seq<Token>, pos: nat)
    requires Ended(ts) && pos < |ts| && IsLiteral(ts[pos])
    ensures ParseLiteral(ts, pos).Ok?
    ensures ParsePrimary(ts, pos) == Ok(Read(A.Lit(ParseLiteral(ts, pos).value.tree), pos + 1))
  {
    hide ParseCall, ParseExpr, ParseQuery, ParseLiteral;
    OneLiteral(ts, pos);
  }

  lemma StandsAt(ts: seq<Token>, pos: nat, tokens: seq<Token>, i: nat)
    requires Stands(ts, pos, tokens) && i < |tokens|
    ensures pos + i + 1 < |ts| && ts[pos + i] == tokens[i]
  {
    assert ts[pos..pos + |tokens|][i] == ts[pos + i];
  }

  lemma ParseLeaf(ts: seq<Token>, pos: nat, e: SdkExpr)
    requires Ended(ts) && Stands(ts, pos, Tokens(e)) && PlainLeaves(e) && !e.Bin?
    requires Closes(ts[pos + |Tokens(e)|], 4)
    ensures ParsePrimary(ts, pos) == Ok(Read(Meaning(e), pos + |Tokens(e)|))
  {
    hide Name, Stands, ParsePrimary, MultiplicativeOp, AdditiveOp, ComparisonOp;
    StandsAt(ts, pos, Tokens(e), 0);
    match e {
      case Var(name) => PlainWord(ts, pos);
      case Attr(base, attr) =>
        StandsAt(ts, pos, Tokens(e), 1);
        StandsAt(ts, pos, Tokens(e), 2);
        DottedWord(ts, pos);
      case StrLit(_) => LiteralToken(ts, pos);
      case IntLit(_) => LiteralToken(ts, pos);
      case BoolLit(_) => LiteralToken(ts, pos);
    }
  }

  lemma BinParts(e: SdkExpr)
    requires e.Bin? && Faithful(e)
    ensures Faithful(e.left) && Faithful(e.right)
    ensures Meaning(e) == A.BinaryOp(Meaning(e.left), e.op, Meaning(e.right))
    ensures var body := Tokens(e.left) + [OpToken(e.op)] + Tokens(e.right);
            Tokens(e) == if Logical(e.op) then [LeftParen] + body + [RightParen] else body
  {
  }

  /** What precedence means for the operands, and that the operator token ends the left one. */
  lemma OperandStrengths(e: SdkExpr)
    requires e.Bin? && Faithful(e)
    ensures Strength(e) == 1 ==> Strength(e.left) >= 2 && Strength(e.right) >= 2 && ComparisonOp(OpToken(e.op)) == Some(e.op)
    ensures Strength(e) == 2 ==> Strength(e.left) >= 2 && Strength(e.right) >= 3 && AdditiveOp(OpToken(e.op)) == Some(e.op)
    ensures Strength(e) == 3 ==> Strength(e.left) >= 3 && Strength(e.right) == 4 && MultiplicativeOp(OpToken(e.op)) == Some(e.op)
    ensures Closes(OpToken(e.op), if Logical(e.op) then 1 else Strength(e) + 1)
    ensures Strength(e) == 4 <==> Logical(e.op)
  {
    hide PlainLeaves, LexicalLeaves, NoneFree;
    OpCloses(e.op);
  }

  lemma OpCloses(op: V.BinOp)
    ensures Closes(OpToken(op), if Logical(op) then 1 else Strength(Bin(NoneLit, op, NoneLit)) + 1)
  {
  }

  lemma AtLeast(e: SdkExpr)
    ensures 1 <= Strength(e) <= 4 && (Strength(e) < 4 ==> e.Bin? && !Logical(e.op))
  {
  }

  lemma ClosesMore(t: Token, strong: nat, weak: nat)
    requires Closes(t, weak) && weak <= strong
    ensures Closes(t, strong)
    ensures weak <= 3 ==> MultiplicativeOp(t).None?
    ensures weak <= 2 ==> AdditiveOp(t).None?
    ensures weak <= 1 ==> ComparisonOp(t).None? && t != KwIs
  {
  }

  lemma {:induction false} ParseGroup(ts: seq<Token>, pos: nat, e: SdkExpr)
    requires Ended(ts) && Stands(ts, pos, Tokens(e)) && Faithful(e) && e.Bin? && Logical(e.op)
    ensures ParsePrimary(ts, pos) == Ok(Read(Meaning(e), pos + |Tokens(e)|))
    decreases e, 0
  {
    hide Tokens, ParseComparison, ParseExpr, ParsePrimary, Faithful, Meaning, Stands;
    BinParts(e);
    var n, m := |Tokens(e.left)|, |Tokens(e.right)|;
    StandsGroup(ts, pos, Tokens(e.left) + [OpToken(e.op)] + Tokens(e.right));
    StandsParts(ts, pos + 1, Tokens(e.left), OpToken(e.op), Tokens(e.right));
    StandsInside(ts, pos, Tokens(e));
    ParseOperand(ts, pos + 1, e.left);
    ParseOperand(ts, pos + n + 2, e.right);
    var left, right := Read(Meaning(e.left), pos + n + 1), Read(Meaning(e.right), pos + n + m + 2);
    if e.op == V.And {
      Conjunction(ts, pos + 1, left, right);
    } else {
      Disjunction(ts, pos + 1, left, right);
    }
    Grouped(ts, pos, Read(Meaning(e), pos + n + m + 2));
  }

  lemma StandsInside(ts: seq<Token>, pos: nat, tokens: seq<Token>)
    requires Stands(ts, pos, tokens)
    ensures pos + |tokens| < |ts|
  {
  }

  lemma {:induction false} ParseStrong(ts: seq<Token>, pos: nat, e: SdkExpr)
    requires Ended(ts) && Stands(ts, pos, Tokens(e)) && Faithful(e) && Strength(e) == 4
    requires Closes(ts[pos + |Tokens(e)|], 4)
    ensures ParsePrimary(ts, pos) == Ok(Read(Meaning(e), pos + |Tokens(e)|))
    decreases e, 1
  {
    hide Tokens, ParsePrimary, PlainLeaves, Meaning, Stands;
    if e.Bin? {
      ParseGroup(ts, pos, e);
    } else {
      ParseLeaf(ts, pos, e);
    }
  }

  lemma {:induction false} ParseProduct(ts: seq<Token>, pos: nat, e: SdkExpr)
    requires Ended(ts) && Stands(ts, pos, Tokens(e)) && Faithful(e) && Strength(e) >= 3
    requires Closes(ts[pos + |Tokens(e)|], 4)
    ensures ParseMultiplicative(ts, pos) == MulRest(ts, pos + |Tokens(e)|, Meaning(e))
    decreases e, 2
  {
    hide Tokens, ParsePrimary, ParseMultiplicative, ParseAdditive, ParseComparison, MulRest, AddRest, CompareRest, Faithful, Meaning, Stands,
         Strength, Closes, OpToken, Ended, MultiplicativeOp, AdditiveOp, ComparisonOp;
    StandsInside(ts, pos, Tokens(e));
    AtLeast(e);
    if Strength(e) == 4 {
      ParseStrong(ts, pos, e);
      ProductStart(ts, pos, Read(Meaning(e), pos + |Tokens(e)|));
    } else {
      BinParts(e);
      OperandStrengths(e);
      var next := pos + |Tokens(e.left)|;
      StandsParts(ts, pos, Tokens(e.left), OpToken(e.op), Tokens(e.right));
      ParseProduct(ts, pos, e.left);
      ParseStrong(ts, next + 1, e.right);
      ProductStep(ts, next, Meaning(e.left), Read(Meaning(e.right), next + 1 + |Tokens(e.right)|));
    }
  }

  lemma {:induction false} WholeProduct(ts: seq<Token>, pos: nat, e: SdkExpr)
    requires Ended(ts) && Stands(ts, pos, Tokens(e)) && Faithful(e) && Strength(e) >= 3
    requires Closes(ts[pos + |Tokens(e)|], 3)
    ensures ParseMultiplicative(ts, pos) == Ok(Read(Meaning(e), pos + |Tokens(e)|))
    decreases e, 3
  {
    hide Tokens, ParseMultiplicative, MulRest, Faithful, Meaning, Stands, Strength, Closes, Ended;
    StandsInside(ts, pos, Tokens(e));
    ClosesMore(ts[pos + |Tokens(e)|], 4, 3);
    ParseProduct(ts, pos, e);
    ProductEnd(ts, pos + |Tokens(e)|, Meaning(e));
  }

  lemma {:induction false} ParseSum(ts: seq<Token>, pos: nat, e: SdkExpr)
    requires Ended(ts) && Stands(ts, pos, Tokens(e)) && Faithful(e) && Strength(e) >= 2
    requires Closes(ts[pos + |Tokens(e)|], 3)
    ensures ParseAdditive(ts, pos) == AddRest(ts, pos + |Tokens(e)|, Meaning(e))
    decreases e, 4
  {
    hide Tokens, ParsePrimary, ParseMultiplicative, ParseAdditive, ParseComparison, MulRest, AddRest, CompareRest, Faithful, Meaning, Stands,
         Strength, Closes, OpToken, Ended, MultiplicativeOp, AdditiveOp, ComparisonOp;
    StandsInside(ts, pos, Tokens(e));
    AtLeast(e);
    ClosesMore(ts[pos + |Tokens(e)|], 4, 3);
    if Strength(e) >= 3 {
      WholeProduct(ts, pos, e);
      SumStart(ts, pos, Read(Meaning(e), pos + |Tokens(e)|));
    } else {
      BinParts(e);
      OperandStrengths(e);
      var next := pos + |Tokens(e.left)|;
      StandsParts(ts, pos, Tokens(e.left), OpToken(e.op), Tokens(e.right));
      ParseSum(ts, pos, e.left);
      ClosesMore(OpToken(e.op), 3, 3);
      WholeProduct(ts, next + 1, e.right);
      SumStep(ts, next, Meaning(e.left), Read(Meaning(e.right), next + 1 + |Tokens(e.right)|));
    }
  }

  lemma {:induction false} ParseOperand(ts: seq<Token>, pos: nat, e: SdkExpr)
    requires Ended(ts) && Stands(ts, pos, Tokens(e)) && Faithful(e)
    requires Closes(ts[pos + |Tokens(e)|], 1)
    ensures ParseComparison(ts, pos) == Ok(Read(Meaning(e), pos + |Tokens(e)|))
    decreases e, 5
  {
    hide Tokens, ParsePrimary, ParseMultiplicative, ParseAdditive, ParseComparison, MulRest, AddRest, CompareRest, Faithful, Meaning, Stands,
         Strength, Closes, OpToken, Ended, MultiplicativeOp, AdditiveOp, ComparisonOp;
    StandsInside(ts, pos, Tokens(e));
    AtLeast(e);
    ClosesMore(ts[pos + |Tokens(e)|], 3, 1);
    if Strength(e) >= 2 {
      ParseSum(ts, pos, e);
      SumEnd(ts, pos + |Tokens(e)|, Meaning(e));
      CompareStart(ts, pos, Read(Meaning(e), pos + |Tokens(e)|));
      CompareEnd(ts, pos + |Tokens(e)|, Meaning(e));
    } else {
      BinParts(e);
      OperandStrengths(e);
      var next := pos + |Tokens(e.left)|;
      StandsParts(ts, pos, Tokens(e.left), OpToken(e.op), Tokens(e.right));
      ClosesMore(OpToken(e.op), 3, 2);
      ParseSum(ts, pos, e.left);
      SumEnd(ts, next, Meaning(e.left));
      CompareStart(ts, pos, Read(Meaning(e.left), next));
      ParseSum(ts, next + 1, e.right);
      SumEnd(ts, next + 1 + |Tokens(e.right)|, Meaning(e.right));
      CompareStep(ts, next, Meaning(e.left), Read(Meaning(e.right), next + 1 + |Tokens(e.right)|));
    }
  }

  /** The printed text of a faithful expression, with any text behind it that starts no longer word and
      continues no expression, parses to that expression and leaves exactly the rest. */
  lemma PrintedTextParses(e: SdkExpr, suffix: string)
    requires Faithful(e) && Breaks(suffix)
    requires Lex(suffix).Ok? && Closes(Lex(suffix).value[0], 0)
    ensures Lex(ToGql(e) + suffix) == Ok(Tokens(e) + Lex(suffix).value)
    ensures ParseExpr(Tokens(e) + Lex(suffix).value, 0) == Ok(Read(Meaning(e), |Tokens(e)|))
  {
    hide Lex, ToGql, Tokens, ParseExpr, ParseComparison, Meaning, LexicalLeaves, RespectsPrecedence;
    LexPrinted(e, suffix);
    var ts := Tokens(e) + Lex(suffix).value;
    assert ts[0..|Tokens(e)|] == Tokens(e);
    ParseOperand(ts, 0, e);
    WholeExpr(ts, 0, Read(Meaning(e), |Tokens(e)|));
  }
}
