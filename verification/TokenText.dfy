/** Tokens as text: a list of tokens written with blanks behind them is read back by the lexer. */
module TokenText {
  import opened Prelude
  import opened Text
  import opened Lexer
  import opened Grammar
  import opened SdkPrinter
  import opened PrintParse
  import opened QueryPrinter

  function KeywordText(t: Token): string {
    match t
    case KwMatch => "MATCH"
    case KwCreate => "CREATE"
    case KwSet => "SET"
    case KwDelete => "DELETE"
    case KwWhere => "WHERE"
    case KwWith => "WITH"
    case KwAs => "AS"
    case KwReturn => "RETURN"
    case KwOrder => "ORDER"
    case KwBy => "BY"
    case KwAsc => "ASC"
    case KwDesc => "DESC"
    case KwLimit => "LIMIT"
    case KwAnd => "AND"
    case KwOr => "OR"
    case KwNot => "NOT"
    case KwNull => "NULL"
    case KwTrue => "TRUE"
    case KwFalse => "FALSE"
    case KwIs => "IS"
    case KwExists => "EXISTS"
    case _ => ""
  }

  function SymbolText(t: Token): string {
    match t
    case LeftParen => "("
    case RightParen => ")"
    case LeftBrace => "{"
    case RightBrace => "}"
    case LeftBracket => "["
    case RightBracket => "]"
    case Colon => ":"
    case Comma => ","
    case Dot => "."
    case Dollar => "$"
    case Arrow => "->"
    case LeftArrow => "<-"
    case Star => "*"
    case DotDot => ".."
    case Pipe => "|"
    case OpEq => "="
    case OpNe => "!="
    case OpLt => "<"
    case OpLe => "<="
    case OpGt => ">"
    case OpGe => ">="
    case Plus => "+"
    case Minus => "-"
    case Slash => "/"
    case _ => ""
  }

  /** A token that has a text. */
  ghost predicate Spellable(t: Token) {
    match t
    case Word(name) => Name(name)
    case StringTok(s) => Unsplit(s)
    case IntTok(i) => 0 <= i < I64_LIMIT
    case FloatTok(r) => WritableFloat(r)
    case Eof => false
    case _ => true
  }

  ghost function Spelling(t: Token): string
    requires Spellable(t)
  {
    match t
    case Word(name) => name
    case StringTok(s) => "'" + s + "'"
    case IntTok(i) => Decimal(i)
    case FloatTok(r) => var whole, places :| FloatText(r, whole, places); Decimal(whole) + "." + places
    case _ => KeywordText(t) + SymbolText(t)
  }

  ghost predicate AllSpellable(ts: seq<Token>) {
    forall i :: 0 <= i < |ts| ==> Spellable(ts[i])
  }

  /** Every token with a blank behind it. */
  ghost function Spell(ts: seq<Token>): string
    requires AllSpellable(ts)
  {
    if ts == [] then [] else Spelling(ts[0]) + " " + Spell(ts[1..])
  }

  // ---------- words and symbols ----------

  predicate Upright(s: string) {
    s != [] && forall i :: 0 <= i < |s| ==> 'A' <= s[i] <= 'Z'
  }

  lemma UprightIsUpper(s: string)
    requires Upright(s)
    ensures Upper(s) == s && IsWord(s)
  {
  }

  predicate IsWord(s: string) {
    s != [] && !IsDigit(s[0]) && forall i :: 0 <= i < |s| ==> IsWordChar(s[i])
  }

  lemma KeywordIsUpright(t: Token)
    requires KeywordText(t) != ""
    ensures Upright(KeywordText(t)) && SymbolText(t) == "" && !t.Word?
  {
  }

  lemma KeywordIsRead(t: Token)
    requires KeywordText(t) != ""
    ensures WordToken(KeywordText(t)) == t
  {
    hide KeywordText, Upper;
    KeywordIsUpright(t);
    UprightIsUpper(KeywordText(t));
    if ClauseKeyword(t) {
      ClauseKeywordIsRead(t);
    } else {
      OtherKeywordIsRead(t);
    }
  }

  predicate ClauseKeyword(t: Token) {
    t in {KwMatch, KwCreate, KwSet, KwDelete, KwWhere, KwWith, KwAs, KwReturn, KwOrder, KwBy}
  }

  lemma ClauseKeywordIsRead(t: Token)
    requires ClauseKeyword(t) && Upper(KeywordText(t)) == KeywordText(t)
    ensures WordToken(KeywordText(t)) == t
  {
    hide Upper;
  }

  lemma OtherKeywordIsRead(t: Token)
    requires !ClauseKeyword(t) && KeywordText(t) != "" && Upper(KeywordText(t)) == KeywordText(t)
    ensures WordToken(KeywordText(t)) == t
  {
    hide Upper;
  }

  /** The letters of a keyword, each large or small. */
  predicate AnyCase(word: string, keyword: string) {
    |word| == |keyword| && forall i :: 0 <= i < |word| ==> word[i] == keyword[i] || (Small(word[i]) && word[i] as int - 'a' as int == keyword[i] as int - 'A' as int)
  }

  predicate Small(c: char) {
    'a' <= c <= 'z'
  }

  /** Keywords are read in any capitalisation. */
  lemma AnyCaseIsRead(t: Token, word: string)
    requires KeywordText(t) != "" && AnyCase(word, KeywordText(t))
    ensures WordToken(word) == t
  {
    hide KeywordText;
    var keyword := KeywordText(t);
    KeywordIsUpright(t);
    UprightIsUpper(keyword);
    forall i | 0 <= i < |word| ensures Upper(word)[i] == keyword[i] {
      assert 'A' <= keyword[i] <= 'Z';
    }
    assert Upper(word) == keyword;
    KeywordIsRead(t);
    SameWord(word, keyword);
  }

  lemma SameWord(word: string, keyword: string)
    requires Upper(word) == Upper(keyword) && !WordToken(keyword).Word?
    ensures WordToken(word) == WordToken(keyword)
  {
    hide Upper;
  }

  lemma WordIsKeyword(word: string)
    ensures WordToken(word) == Word(word) || KeywordText(WordToken(word)) == Upper(word) != ""
  {
    hide Upper;
  }

  lemma UpperIsAnyCase(word: string)
    ensures (forall i :: 0 <= i < |word| ==> Letter(Upper(word)[i])) ==> AnyCase(word, Upper(word))
  {
  }

  predicate Letter(c: char) {
    'a' <= c <= 'z' || 'A' <= c <= 'Z'
  }

  ghost predicate IsKeyword(s: string) {
    exists t: Token :: KeywordText(t) != "" && AnyCase(s, KeywordText(t))
  }

  /** Names are what one expects: letters, digits and underscores, no digit first, and no keyword in any
      capitalisation. */
  lemma NamesAre(s: string)
    ensures Name(s) <==>
      && s != [] && !('0' <= s[0] <= '9') && (forall i :: 0 <= i < |s| ==> Letter(s[i]) || '0' <= s[i] <= '9' || s[i] == '_')
      && !IsKeyword(s)
  {
    hide KeywordText, WordToken, Upper;
    if t: Token :| KeywordText(t) != "" && AnyCase(s, KeywordText(t)) {
      AnyCaseIsRead(t, s);
      KeywordIsUpright(t);
    }
    WordIsKeyword(s);
    UpperIsAnyCase(s);
    if WordToken(s) != Word(s) {
      KeywordIsUpright(WordToken(s));
    }
  }

  /** Blanks in front of a token do not matter: spaces, tabs and line breaks alike. */
  lemma BlanksAreSkipped(c: char, s: string)
    requires c == ' ' || c == '\t' || c == '\n' || c == '\r'
    ensures Lex([c] + s) == Lex(s)
  {
    hide Lex;
    LexAfter(c, s);
  }

  lemma SymbolIsRead(t: Token, suffix: string)
    requires SymbolText(t) != "" && suffix != [] && suffix[0] == ' '
    ensures !IsSpace(SymbolText(t)[0]) && t != Eof
    ensures ScanToken(SymbolText(t) + suffix) == Ok(Scanned(t, |SymbolText(t)|))
  {
    hide ScanString, ScanRun;
  }

  lemma HasText(t: Token)
    requires Spellable(t) && !t.Word? && !t.StringTok? && !t.IntTok? && !t.FloatTok?
    ensures (KeywordText(t) == "") != (SymbolText(t) == "")
  {
    hide Unsplit, WritableFloat, Name;
  }

  // ---------- floats ----------

  lemma {:induction false} DigitsThen(digits: string, tail: string)
    requires AllDigits(digits)
    ensures NumberLength(digits + tail) == |digits| + NumberLength(tail)
  {
    if digits == [] {
      assert digits + tail == tail;
    } else {
      assert (digits + tail)[1..] == digits[1..] + tail;
      DigitsThen(digits[1..], tail);
    }
  }

  lemma {:induction false} SplitDot(digits: string, places: string)
    requires AllDigits(digits) && AllDigits(places)
    ensures Split(digits + "." + places, '.') == [digits, places]
  {
    var s := digits + "." + places;
    if digits == [] {
      NoDot(places);
      assert s[1..] == places;
    } else {
      assert s[1..] == digits[1..] + "." + places;
      SplitDot(digits[1..], places);
      assert digits == [digits[0]] + digits[1..];
    }
  }

  lemma FloatRun(digits: string, places: string, suffix: string)
    requires AllDigits(digits) && AllDigits(places) && places != [] && Breaks(suffix)
    ensures NumberLength(digits + "." + places + suffix) == |digits + "." + places|
  {
    var tail := "." + places + suffix;
    DigitsThen(digits, tail);
    assert digits + "." + places + suffix == digits + tail;
    assert tail[1..] == places + suffix && tail[1] == places[0];
    DigitRun(places, suffix);
  }

  lemma LexFloat(r: real, whole: nat, places: string, suffix: string)
    requires FloatText(r, whole, places) && Breaks(suffix)
    ensures Lex(Decimal(whole) + "." + places + suffix) == Prefixed([FloatTok(r)], Lex(suffix))
  {
    hide Lex, Scan, Split, Decimal, DecimalValue, NumberLength;
    var digits := Decimal(whole);
    var num := digits + "." + places;
    FloatRun(digits, places, suffix);
    SplitDot(digits, places);
    DecimalRoundTrip(whole);
    var s := num + suffix;
    assert digits + "." + places + suffix == s;
    ScansRun(s);
    assert s[..|num|] == num && s[|num|..] == suffix && s[0] == digits[0];
    assert NumberToken(num) == Ok(FloatTok(r));
    LexOne(s, FloatTok(r), |num|);
  }

  // ---------- all tokens ----------

  lemma LexSpelling(t: Token, rest: string)
    requires Spellable(t)
    ensures Lex(Spelling(t) + " " + rest) == Prefixed([t], Lex(rest))
  {
    hide Lex, Scan, Name, Unsplit, WordToken, KeywordText, SymbolText, FloatText, Decimal, ScanToken;
    var suffix := " " + rest;
    LexBlank(rest);
    assert Spelling(t) + " " + rest == Spelling(t) + suffix;
    match t
    case Word(name) => LexName(name, suffix);
    case StringTok(s) => LexQuoted(s, suffix);
    case IntTok(i) => LexDecimal(i, suffix);
    case FloatTok(r) =>
      var whole, places :| FloatText(r, whole, places) && Spelling(t) == Decimal(whole) + "." + places;
      LexFloat(r, whole, places, suffix);
    case _ => LexPlain(t, suffix);
  }

  /** Keywords and symbols. */
  lemma LexPlain(t: Token, suffix: string)
    requires Spellable(t) && !t.Word? && !t.StringTok? && !t.IntTok? && !t.FloatTok? && suffix != [] && suffix[0] == ' '
    ensures Lex(KeywordText(t) + SymbolText(t) + suffix) == Prefixed([t], Lex(suffix))
  {
    hide Lex, Spellable, KeywordText, SymbolText, ScanToken;
    HasText(t);
    var k, s := KeywordText(t), SymbolText(t);
    if k != "" {
      LexKeyword(t, suffix);
      assert k + s + suffix == k + suffix;
    } else {
      SymbolIsRead(t, suffix);
      LexSymbol(s, t, suffix);
      assert k + s + suffix == s + suffix;
    }
  }

  lemma LexKeyword(t: Token, suffix: string)
    requires KeywordText(t) != "" && suffix != [] && suffix[0] == ' '
    ensures SymbolText(t) == "" && Lex(KeywordText(t) + suffix) == Prefixed([t], Lex(suffix))
  {
    hide Lex, WordToken, KeywordText, SymbolText;
    KeywordIsUpright(t);
    UprightIsUpper(KeywordText(t));
    KeywordIsRead(t);
    LexWord(KeywordText(t), suffix);
  }

  lemma EmptyText()
    ensures Lex("") == Ok([Eof])
  {
  }

  /** Written with blanks behind them, tokens are read back. */
  lemma {:induction false} LexSpelled(ts: seq<Token>)
    requires AllSpellable(ts)
    ensures Lex(Spell(ts)) == Ok(ts + [Eof])
  {
    hide Lex, Spelling, Spellable;
    if ts == [] {
      EmptyText();
      assert ts + [Eof] == [Eof];
    } else {
      LexSpelled(ts[1..]);
      LexSpelling(ts[0], Spell(ts[1..]));
      assert [ts[0]] + (ts[1..] + [Eof]) == ts + [Eof];
    }
  }
}
