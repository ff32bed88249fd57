/** What the parser does to edge patterns that is easy to miss: alternatives travel as one string and
    come apart again, a left arrow needs its node right after the bracket, and a lone node after a
    chain in CREATE is lost. */
module EdgeTypes {
  import opened Prelude
  import opened Text
  import opened Lexer
  import opened Grammar
  import opened SdkPrinter
  import S = Semantics
  import A = Ast

  predicate Names(types: seq<string>) {
    forall i :: 0 <= i < |types| ==> Name(types[i])
  }

  predicate BarFree(s: string) {
    forall i :: 0 <= i < |s| ==> s[i] != '|'
  }

  lemma {:induction false} SplitFirst(first: string, rest: string)
    requires BarFree(first)
    ensures Split(first + ['|'] + rest, '|') == [first] + Split(rest, '|')
  {
    if first == [] {
      assert [] + ['|'] + rest == ['|'] + rest;
    } else {
      SplitFirst(first[1..], rest);
      assert (first + ['|'] + rest)[1..] == first[1..] + ['|'] + rest;
      assert first == [first[0]] + first[1..];
    }
  }

  lemma {:induction false} SplitWhole(s: string)
    requires BarFree(s)
    ensures Split(s, '|') == [s]
  {
    if s != [] {
      SplitWhole(s[1..]);
      assert s == [s[0]] + s[1..];
    }
  }

  lemma NameIsBarFree(s: string)
    requires Name(s)
    ensures BarFree(s) && s != [] && !IsSpace(s[0]) && !IsSpace(s[|s| - 1]) && Trim(s) == s
  {
    hide WordToken;
    assert IsWordChar(s[0]) && IsWordChar(s[|s| - 1]);
  }

  /** The alternatives of an edge type reach the executor as they were written. */
  lemma {:induction false} UnionRoundTrip(types: seq<string>)
    requires types != [] && Names(types)
    ensures Split(Join(types, '|'), '|') == types
    ensures TrimAll(types) == types && NonEmpty(types) == types
  {
    hide Name, Trim, Split, Join, TrimAll, NonEmpty, BarFree;
    NameIsBarFree(types[0]);
    assert types == [types[0]] + types[1..];
    JoinStep(types);
    ListStep(types);
    if |types| == 1 {
      SplitWhole(types[0]);
    } else {
      UnionRoundTrip(types[1..]);
      SplitFirst(types[0], Join(types[1..], '|'));
    }
  }

  lemma JoinStep(types: seq<string>)
    requires types != []
    ensures Join(types, '|') == if |types| == 1 then types[0] else types[0] + ['|'] + Join(types[1..], '|')
  {
  }

  lemma ListStep(types: seq<string>)
    requires types != [] && types[0] != [] && Trim(types[0]) == types[0]
    ensures TrimAll(types) == [types[0]] + TrimAll(types[1..]) && NonEmpty(types) == [types[0]] + NonEmpty(types[1..])
    ensures TrimAll([]) == [] && NonEmpty([]) == []
  {
    hide Trim;
  }

  lemma UnionReachesExecutor(types: seq<string>)
    requires types != [] && Names(types)
    ensures S.HopTypes(Some(Join(types, '|'))) == types && S.PathTypes(Some(Join(types, '|'))) == types
  {
    hide Join, Split, TrimAll, NonEmpty;
    UnionRoundTrip(types);
  }

  ghost predicate IsAlternative(text: string, name: string) {
    exists piece :: piece in Split(text, '|') && Trim(piece) == name
  }

  lemma {:induction false} TrimmedAre(parts: seq<string>, name: string)
    ensures name in TrimAll(parts) <==> exists piece :: piece in parts && Trim(piece) == name
  {
    hide Trim;
    if parts != [] {
      TrimmedAre(parts[1..], name);
      assert parts == [parts[0]] + parts[1..];
    }
  }

  lemma {:induction false} NonEmptyAre(parts: seq<string>, name: string)
    ensures name in NonEmpty(parts) <==> name in parts && name != ""
  {
    if parts != [] {
      NonEmptyAre(parts[1..], name);
      assert parts == [parts[0]] + parts[1..];
    }
  }

  /** A blank alternative is a type of its own for one hop, and none for a walk. */
  lemma AlternativesAre(text: string, name: string)
    ensures name in S.HopTypes(Some(text)) <==> IsAlternative(text, name)
    ensures name in S.PathTypes(Some(text)) <==> IsAlternative(text, name) && name != ""
  {
    hide Trim, Split, TrimAll, NonEmpty;
    TrimmedAre(Split(text, '|'), name);
    NonEmptyAre(TrimAll(Split(text, '|')), name);
  }

  /** After `<-[...]` nothing closes the edge: a dash there, as in the usual notation, is an error. */
  lemma LeftEdgeTakesNoDash(ts: seq<Token>, pos: nat, from: A.NodePattern)
    requires Ended(ts) && pos < |ts| && ts[pos] == LeftArrow
    requires ParseEdgeDetail(ts, pos + 1).Ok? && ts[ParseEdgeDetail(ts, pos + 1).value.next] == Minus
    ensures ParseEdgePattern(ts, pos, from).Err?
  {
    hide ParseEdgeDetail;
  }

  function WithLone(before: seq<A.Pattern>, node: A.NodePattern): seq<A.Pattern> {
    if before == [] || !before[|before| - 1].EdgePat? then before + [A.NodePat(node)] else before
  }

  /** In CREATE a lone node is kept exactly when it does not stand behind a chain. */
  lemma LoneNodeInCreate(ts: seq<Token>, pos: nat, before: seq<A.Pattern>)
    requires Ended(ts) && pos < |ts| && ParseNodePattern(ts, pos).Ok?
    requires var end := ts[ParseNodePattern(ts, pos).value.next]; end != Minus && end != LeftArrow && end != Comma
    ensures ParseCreatePatterns(ts, pos, before) == Ok(Read(WithLone(before, ParseNodePattern(ts, pos).value.tree), ParseNodePattern(ts, pos).value.next))
  {
    hide ParseNodePattern;
    var first := ParseNodePattern(ts, pos).value;
    assert ParseEdges(ts, first.next, first.tree, before) == Ok(Read((first.tree, before), first.next));
  }

  lemma AbsentClauses(ts: seq<Token>, pos: nat)
    requires Ended(ts) && pos < |ts|
    ensures ts[pos] != KwCreate ==> ParseCreate(ts, pos) == Ok(Read(None, pos))
    ensures ts[pos] != KwWith ==> ParseWith(ts, pos) == Ok(Read(None, pos))
    ensures ts[pos] != KwReturn ==> ParseReturn(ts, pos) == Ok(Read(None, pos))
    ensures ts[pos] != KwOrder ==> ParseOrderBy(ts, pos) == Ok(Read(None, pos))
    ensures ts[pos] != KwLimit ==> ParseLimit(ts, pos) == Ok(Read(None, pos))
  {
    hide ParseExpr;
  }

  lemma MatchIsRead(ts: seq<Token>, pos: nat)
    requires Ended(ts) && pos < |ts| && ts[pos] == KwMatch && ParseMatch(ts, pos).Ok?
    ensures ParseMatch(ts, pos).value.tree.Some?
  {
    hide ParseMatchPatterns;
  }

  /** CREATE is read right behind MATCH only: behind a WHERE clause it and everything after it is dropped
      without an error. */
  lemma LateCreateIsDropped(ts: seq<Token>, pos: nat)
    requires Ended(ts) && pos < |ts| && ts[pos] == KwMatch && ParseMatch(ts, pos).Ok?
    requires var at := ParseMatch(ts, pos).value.next;
             ts[at] == KwWhere && ParseWhere(ts, at).Ok? && ts[ParseWhere(ts, at).value.next] == KwCreate
    ensures var matched := ParseMatch(ts, pos).value;
            var filter := ParseWhere(ts, matched.next).value;
            ParseQuery(ts, pos) == Ok(Read(A.Query(matched.tree, None, None, filter.tree, None, None, None), filter.next))
  {
    hide ParseExpr, ParseMatch, ParseCreate, ParseWith, ParseReturn, ParseOrderBy, ParseLimit;
    var at := ParseMatch(ts, pos).value.next;
    AbsentClauses(ts, at);
    AbsentClauses(ts, ParseWhere(ts, at).value.next);
    MatchIsRead(ts, pos);
  }
}
