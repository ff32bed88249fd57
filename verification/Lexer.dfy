/** The lexer: from characters to tokens. `Scan` and `Lex` say what the text means; the class reads it
    character by character. */
module Lexer {
  import opened Prelude
  import opened Text

  datatype Token =
    | KwMatch | KwCreate | KwSet | KwDelete | KwWhere | KwWith | KwAs | KwReturn | KwOrder | KwBy
    | KwAsc | KwDesc | KwLimit | KwAnd | KwOr | KwNot | KwNull | KwTrue | KwFalse | KwIs | KwExists
    | LeftParen | RightParen | LeftBrace | RightBrace | LeftBracket | RightBracket
    | Colon | Comma | Dot | Dollar | Arrow | LeftArrow | Star | DotDot | Pipe
    | OpEq | OpNe | OpLt | OpLe | OpGt | OpGe | Plus | Minus | Slash
    | Word(name: string)
    | StringTok(s: string)
    | IntTok(i: int)
    | FloatTok(r: real)
    | Eof

  /** A token and the number of characters it takes, leading blanks included. */
  datatype Scanned = Scanned(token: Token, length: nat)

  const I64_LIMIT := 0x8000_0000_0000_0000

  // ---------- runs of characters ----------

  function Spaces(s: string): (n: nat)
    ensures n <= |s|
  {
    if s != [] && IsSpace(s[0]) then 1 + Spaces(s[1..]) else 0
  }

  function WordLength(s: string): (n: nat)
    ensures n <= |s|
  {
    if s != [] && IsWordChar(s[0]) then 1 + WordLength(s[1..]) else 0
  }

  /** A run of digits and of dots that are followed by a digit. */
  function NumberLength(s: string): (n: nat)
    ensures n <= |s|
  {
    if s != [] && (IsDigit(s[0]) || (s[0] == '.' && 1 < |s| && IsDigit(s[1]))) then 1 + NumberLength(s[1..]) else 0
  }

  /** The number of characters before the first quote; all of them when there is none. */
  function Unquoted(s: string): (n: nat)
    ensures n <= |s|
    ensures n < |s| ==> s[n] == '\''
  {
    if s != [] && s[0] != '\'' then 1 + Unquoted(s[1..]) else 0
  }

  // ---------- what a run means ----------

  predicate AllDigits(s: string) {
    forall i :: 0 <= i < |s| ==> IsDigit(s[i])
  }

  /** Digits with at most one dot; a second dot is an invalid float. */
  function NumberToken(s: string): Result<Token> {
    var parts := Split(s, '.');
    if |parts| == 1 then
      if s != [] && AllDigits(s) && DecimalValue(s) < I64_LIMIT then Ok(IntTok(DecimalValue(s))) else Err(InvalidArgument("invalid int"))
    else if |parts| == 2 && AllDigits(parts[0]) && AllDigits(parts[1]) then
      Ok(FloatTok(DecimalValue(parts[0]) as real + DecimalValue(parts[1]) as real / Pow10(|parts[1]|) as real))
    else Err(InvalidArgument("invalid float"))
  }

  function WordToken(word: string): Token {
    match Upper(word)
    case "MATCH" => KwMatch
    case "CREATE" => KwCreate
    case "SET" => KwSet
    case "DELETE" => KwDelete
    case "WHERE" => KwWhere
    case "WITH" => KwWith
    case "AS" => KwAs
    case "RETURN" => KwReturn
    case "ORDER" => KwOrder
    case "BY" => KwBy
    case "ASC" => KwAsc
    case "DESC" => KwDesc
    case "LIMIT" => KwLimit
    case "AND" => KwAnd
    case "OR" => KwOr
    case "NOT" => KwNot
    case "NULL" => KwNull
    case "TRUE" => KwTrue
    case "FALSE" => KwFalse
    case "IS" => KwIs
    case "EXISTS" => KwExists
    case _ => Word(word)
  }

  predicate Second(s: string, c: char) {
    1 < |s| && s[1] == c
  }

  /** The token at the head of a text that starts with no blank. */
  function ScanToken(s: string): (r: Result<Scanned>)
    requires s != [] && !IsSpace(s[0])
    ensures r.Ok? ==> 0 < r.value.length <= |s| && r.value.token != Eof
  {
    match s[0]
    case '(' => Ok(Scanned(LeftParen, 1))
    case ')' => Ok(Scanned(RightParen, 1))
    case '{' => Ok(Scanned(LeftBrace, 1))
    case '}' => Ok(Scanned(RightBrace, 1))
    case '[' => Ok(Scanned(LeftBracket, 1))
    case ']' => Ok(Scanned(RightBracket, 1))
    case ':' => Ok(Scanned(Colon, 1))
    case ',' => Ok(Scanned(Comma, 1))
    case '.' => Ok(if Second(s, '.') then Scanned(DotDot, 2) else Scanned(Dot, 1))
    case '*' => Ok(Scanned(Star, 1))
    case '$' => Ok(Scanned(Dollar, 1))
    case '+' => Ok(Scanned(Plus, 1))
    case '/' => Ok(Scanned(Slash, 1))
    case '|' => Ok(Scanned(Pipe, 1))
    case '\'' => ScanString(s)
    case '<' => Ok(if Second(s, '-') then Scanned(LeftArrow, 2) else if Second(s, '=') then Scanned(OpLe, 2) else Scanned(OpLt, 1))
    case '-' => Ok(if Second(s, '>') then Scanned(Arrow, 2) else Scanned(Minus, 1))
    case '>' => Ok(if Second(s, '=') then Scanned(OpGe, 2) else Scanned(OpGt, 1))
    case '=' => Ok(Scanned(OpEq, 1))
    case '!' => if Second(s, '=') then Ok(Scanned(OpNe, 2)) else Err(InvalidArgument("unexpected !"))
    case _ => ScanRun(s)
  }

  function ScanString(s: string): (r: Result<Scanned>)
    requires s != []
    ensures r.Ok? ==> 0 < r.value.length <= |s| && r.value.token != Eof
  {
    var n := Unquoted(s[1..]);
    if n < |s[1..]| then Ok(Scanned(StringTok(s[1..][..n]), n + 2)) else Err(InvalidArgument("unterminated string"))
  }

  /** The characters of a string read so far: its quote is at start - 1 and nothing up to pos closes it. */
  ghost predicate InString(input: string, start: nat, pos: nat, s: string) {
    && 1 <= start <= pos <= |input| && s == input[start..pos]
    && Unquoted(input[start - 1..][1..]) == |s| + Unquoted(input[pos..])
  }

  lemma StringBegins(input: string, start: nat)
    requires 1 <= start <= |input|
    ensures InString(input, start, start, "")
  {
    assert input[start - 1..][1..] == input[start..];
  }

  lemma InStringStep(input: string, start: nat, pos: nat, s: string)
    requires InString(input, start, pos, s) && pos < |input| && input[pos] != '\''
    ensures InString(input, start, pos + 1, s + [input[pos]])
  {
    assert input[pos..][1..] == input[pos + 1..];
  }

  lemma InStringEnds(input: string, start: nat, pos: nat, s: string)
    requires InString(input, start, pos, s) && (pos < |input| ==> input[pos] == '\'')
    ensures ScanString(input[start - 1..]) ==
      if pos < |input| then Ok(Scanned(StringTok(s), pos - start + 2)) else Err(InvalidArgument("unterminated string"))
    ensures pos < |input| ==> input[start - 1..][pos - start + 2..] == input[pos + 1..]
  {
    var text := input[start - 1..][1..];
    assert text == input[start..];
    assert text[..|s|] == s;
  }

  function ScanRun(s: string): (r: Result<Scanned>)
    requires s != []
    ensures r.Ok? ==> 0 < r.value.length <= |s| && r.value.token != Eof
  {
    if IsDigit(s[0]) then
      var token :- NumberToken(s[..NumberLength(s)]);
      Ok(Scanned(token, NumberLength(s)))
    else if IsWordChar(s[0]) then Ok(Scanned(WordToken(s[..WordLength(s)]), WordLength(s)))
    else Err(InvalidArgument("unexpected char"))
  }

  /** The next token. Before the end of the text it takes at least one character; `Eof` is returned
      only when nothing but blanks is left. */
  function Scan(s: string): (r: Result<Scanned>)
    ensures r.Ok? ==> r.value.length <= |s|
    ensures r.Ok? && r.value.token != Eof ==> 0 < r.value.length
    ensures r.Ok? && r.value.token == Eof ==> r.value.length == |s|
  {
    var blanks := Spaces(s);
    SpacesStop(s);
    if s[blanks..] == [] then Ok(Scanned(Eof, blanks))
    else
      var found :- ScanToken(s[blanks..]);
      Ok(Scanned(found.token, blanks + found.length))
  }

  lemma {:induction false} SpacesStop(s: string)
    ensures Spaces(s) < |s| ==> !IsSpace(s[Spaces(s)])
    ensures forall i :: 0 <= i < Spaces(s) ==> IsSpace(s[i])
  {
    if s != [] && IsSpace(s[0]) {
      SpacesStop(s[1..]);
    }
  }

  /** All tokens of a text, ending with the only `Eof`. */
  function Lex(s: string): (r: Result<seq<Token>>)
    ensures r.Ok? ==> r.value != [] && forall i :: 0 <= i < |r.value| ==> (r.value[i] == Eof <==> i == |r.value| - 1)
    decreases |s|
  {
    var next :- Scan(s);
    if next.token == Eof then Ok([Eof])
    else
      var rest :- Lex(s[next.length..]);
      Ok([next.token] + rest)
  }

  // ---------- the lexer object ----------

  class Lexer {
    const input: string
    var pos: nat

    constructor (input: string)
      ensures this.input == input && pos == 0
    {
      this.input := input;
      pos := 0;
    }

    ghost predicate Valid()
      reads this
    {
      pos <= |input|
    }

    /** The text not read yet. */
    ghost function Rest(): string
      requires Valid()
      reads this
    {
      input[pos..]
    }

    function Peek(): (c: Option<char>)
      requires Valid()
      reads this
      ensures c == if Rest() == [] then None else Some(Rest()[0])
    {
      if pos < |input| then Some(input[pos]) else None
    }

    method Advance() returns (c: Option<char>)
      requires Valid()
      modifies this
      ensures Valid() && c == old(Peek())
      ensures Rest() == if c.None? then [] else old(Rest())[1..]
    {
      c := Peek();
      if c.Some? {
        pos := pos + 1;
      }
    }

    method SkipWhitespace()
      requires Valid()
      modifies this
      ensures Valid() && Rest() == old(Rest())[Spaces(old(Rest()))..]
    {
      ghost var start := pos;
      while pos < |input| && IsSpace(input[pos])
        invariant start <= pos <= |input|
        invariant Spaces(input[start..]) == (pos - start) + Spaces(input[pos..])
      {
        assert input[pos..][1..] == input[pos + 1..];
        pos := pos + 1;
      }
    }

    method ReadIdent() returns (s: string)
      requires Valid()
      modifies this
      ensures var n := WordLength(old(Rest())); Valid() && s == old(Rest())[..n] && Rest() == old(Rest())[n..]
    {
      s := "";
      ghost var start := pos;
      while pos < |input| && IsWordChar(input[pos])
        invariant start <= pos <= |input| && s == input[start..pos]
        invariant WordLength(input[start..]) == (pos - start) + WordLength(input[pos..])
      {
        assert input[pos..][1..] == input[pos + 1..];
        s := s + [input[pos]];
        pos := pos + 1;
      }
    }

    /** Reads a quoted string; the opening quote is next. */
    method ReadString() returns (r: Result<string>)
      requires Valid() && Rest() != []
      modifies this
      ensures Valid()
      ensures ScanString(old(Rest())).Ok? ==>
        r.Ok? && ScanString(old(Rest())).value.token == StringTok(r.value) && Rest() == old(Rest())[ScanString(old(Rest())).value.length..]
      ensures ScanString(old(Rest())).Err? ==> r == Err(ScanString(old(Rest())).error)
    {
      hide InString, ScanString;
      ghost var start := pos + 1;
      pos := pos + 1;
      var s := "";
      StringBegins(input, start);
      while pos < |input|
        invariant start <= pos <= |input| && InString(input, start, pos, s)
      {
        var c := input[pos];
        pos := pos + 1;
        if c == '\'' {
          InStringEnds(input, start, pos - 1, s);
          return Ok(s);
        }
        InStringStep(input, start, pos - 1, s);
        s := s + [c];
      }
      InStringEnds(input, start, pos, s);
      return Err(InvalidArgument("unterminated string"));
    }

    method ReadNumber() returns (r: Result<Token>)
      requires Valid()
      modifies this
      ensures var n := NumberLength(old(Rest())); Valid() && r == NumberToken(old(Rest())[..n]) && Rest() == old(Rest())[n..]
    {
      var num := "";
      ghost var start := pos;
      while pos < |input| && (IsDigit(input[pos]) || (input[pos] == '.' && pos + 1 < |input| && IsDigit(input[pos + 1])))
        invariant start <= pos <= |input| && num == input[start..pos]
        invariant NumberLength(input[start..]) == (pos - start) + NumberLength(input[pos..])
      {
        assert input[pos..][1..] == input[pos + 1..];
        assert pos + 1 < |input| ==> input[pos..][1] == input[pos + 1];
        num := num + [input[pos]];
        pos := pos + 1;
      }
      assert pos + 1 < |input| ==> input[pos..][1] == input[pos + 1];
      assert num == input[start..][..pos - start];
      r := NumberToken(num);
    }

    /** Reads the next token; on success exactly its characters are gone. */
    method NextToken() returns (r: Result<Token>)
      requires Valid()
      modifies this
      ensures Valid()
      ensures Scan(old(Rest())).Ok? ==> r == Ok(Scan(old(Rest())).value.token) && Rest() == old(Rest())[Scan(old(Rest())).value.length..]
      ensures Scan(old(Rest())).Err? ==> r == Err(Scan(old(Rest())).error)
    {
      SpacesStop(Rest());
      SkipWhitespace();
      var next := Peek();
      if next.None? {
        return Ok(Eof);
      }
      r := ReadToken();
    }

    /** Reads a token that starts right here. */
    method ReadToken() returns (r: Result<Token>)
      requires Valid() && Rest() != [] && !IsSpace(Rest()[0])
      modifies this
      ensures Valid()
      ensures ScanToken(old(Rest())).Ok? ==> r == Ok(ScanToken(old(Rest())).value.token) && Rest() == old(Rest())[ScanToken(old(Rest())).value.length..]
      ensures ScanToken(old(Rest())).Err? ==> r == Err(ScanToken(old(Rest())).error)
    {
      hide WordToken, NumberToken, ScanString, Unquoted, WordLength, NumberLength;
      match input[pos] {
        case '(' => r := Single(LeftParen);
        case ')' => r := Single(RightParen);
        case '{' => r := Single(LeftBrace);
        case '}' => r := Single(RightBrace);
        case '[' => r := Single(LeftBracket);
        case ']' => r := Single(RightBracket);
        case ':' => r := Single(Colon);
        case ',' => r := Single(Comma);
        case '.' => r := Double('.', DotDot, Ok(Dot));
        case '*' => r := Single(Star);
        case '$' => r := Single(Dollar);
        case '+' => r := Single(Plus);
        case '/' => r := Single(Slash);
        case '|' => r := Single(Pipe);
        case '\'' =>
          var text := ReadString();
          r := if text.Ok? then Ok(StringTok(text.value)) else Err(text.error);
        case '<' =>
          if pos + 1 < |input| && input[pos + 1] == '-' {
            r := Double('-', LeftArrow, Ok(OpLt));
          } else {
            r := Double('=', OpLe, Ok(OpLt));
          }
        case '-' => r := Double('>', Arrow, Ok(Minus));
        case '>' => r := Double('=', OpGe, Ok(OpGt));
        case '=' => r := Single(OpEq);
        case '!' => r := Double('=', OpNe, Err(InvalidArgument("unexpected !")));
        case c =>
          if IsDigit(c) {
            r := ReadNumber();
          } else if IsWordChar(c) {
            var word := ReadIdent();
            r := Ok(WordToken(word));
          } else {
            r := Err(InvalidArgument("unexpected char"));
          }
      }
    }

    method Single(token: Token) returns (r: Result<Token>)
      requires Valid() && Rest() != []
      modifies this
      ensures Valid() && r == Ok(token) && Rest() == old(Rest())[1..]
    {
      pos := pos + 1;
      r := Ok(token);
    }

    /** Consumes one character, and a second one when it is `c`. */
    method Double(c: char, token: Token, otherwise: Result<Token>) returns (r: Result<Token>)
      requires Valid() && Rest() != []
      modifies this
      ensures Valid()
      ensures Second(old(Rest()), c) ==> r == Ok(token) && Rest() == old(Rest())[2..]
      ensures !Second(old(Rest()), c) ==> r == otherwise && Rest() == old(Rest())[1..]
    {
      pos := pos + 1;
      if pos < |input| && input[pos] == c {
        pos := pos + 1;
        r := Ok(token);
      } else {
        r := otherwise;
      }
    }
  }

  function Prefixed(tokens: seq<Token>, rest: Result<seq<Token>>): Result<seq<Token>> {
    match rest
    case Ok(ts) => Ok(tokens + ts)
    case Err(e) => Err(e)
  }

  /** One step of `Lex`. */
  lemma LexStep(s: string, tokens: seq<Token>)
    ensures Scan(s).Err? ==> Prefixed(tokens, Lex(s)) == Err(Scan(s).error)
    ensures Scan(s).Ok? ==> (
      Prefixed(tokens, Lex(s)) ==
      if Scan(s).value.token == Eof then Ok(tokens + [Eof])
      else Prefixed(tokens + [Scan(s).value.token], Lex(s[Scan(s).value.length..])))
  {
    hide Scan;
    if Scan(s).Ok? && Scan(s).value.token != Eof && Lex(s[Scan(s).value.length..]).Ok? {
      var rest := Lex(s[Scan(s).value.length..]).value;
      assert tokens + ([Scan(s).value.token] + rest) == tokens + [Scan(s).value.token] + rest;
    }
  }

  /** Reads a whole text into tokens. */
  method Tokenize(input: string) returns (r: Result<seq<Token>>)
    ensures r == Lex(input)
  {
    hide Scan, Lex;
    var lexer := new Lexer(input);
    var tokens: seq<Token> := [];
    assert lexer.Rest() == input;
    assert Lex(input).Ok? ==> [] + Lex(input).value == Lex(input).value;
    while true
      invariant lexer.Valid() && fresh(lexer)
      invariant Lex(input) == Prefixed(tokens, Lex(lexer.Rest()))
      decreases |lexer.Rest()|
    {
      LexStep(lexer.Rest(), tokens);
      var token := lexer.NextToken();
      if token.Err? {
        return Err(token.error);
      }
      tokens := tokens + [token.value];
      if token.value == Eof {
        return Ok(tokens);
      }
    }
    assert false;
  }
}
