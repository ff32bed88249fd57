/** The tokens of node and edge patterns parse to these patterns. */
module PatternReading {
  import opened Prelude
  import opened Text
  import opened Lexer
  import opened Grammar
  import opened SdkPrinter
  import opened PrintParse
  import opened EdgeTypes
  import opened QueryPrinter
  import A = Ast

  lemma StandsSplit(ts: seq<Token>, pos: nat, a: seq<Token>, b: seq<Token>)
    requires Stands(ts, pos, a + b)
    ensures Stands(ts, pos, a) && Stands(ts, pos + |a|, b)
  {
    var all := ts[pos..pos + |a + b|];
    assert all[..|a|] == a && all[|a|..] == b;
  }

  /** What stands at the beginning of what stands. */
  lemma StandsHead(ts: seq<Token>, pos: nat, tokens: seq<Token>)
    requires Stands(ts, pos, tokens) && tokens != []
    ensures pos < |ts| && ts[pos] == tokens[0] && Stands(ts, pos + 1, tokens[1..])
  {
    assert tokens == [tokens[0]] + tokens[1..];
    StandsSplit(ts, pos, [tokens[0]], tokens[1..]);
    StandsAt(ts, pos, tokens, 0);
  }

  // ---------- properties ----------

  lemma LiteralReads(ts: seq<Token>, pos: nat, lit: A.Literal)
    requires Ended(ts) && pos < |ts| && ts[pos] == TokenOf(lit)
    ensures ParseLiteral(ts, pos) == Ok(Read(lit, pos + 1))
  {
  }

  lemma {:induction false} InsertNew(props: A.Properties, key: string, value: A.Literal)
    requires forall i :: 0 <= i < |props| ==> props[i].0 != key
    ensures Insert(props, key, value) == props + [(key, value)]
  {
    if props != [] {
      InsertNew(props[1..], key, value);
    }
  }

  ghost predicate FreshKeys(props: A.Properties) {
    forall i, j :: 0 <= i < j < |props| ==> props[i].0 != props[j].0
  }

  /** One pair, up to the token behind its value. */
  lemma PairReads(ts: seq<Token>, pos: nat, before: A.Properties, p: (string, A.Literal))
    requires Ended(ts) && Stands(ts, pos, PairTokens(p))
    ensures ParseProperties(ts, pos, before) ==
      if ts[pos + 3] == Comma then ParseProperties(ts, pos + 4, Insert(before, p.0, p.1)) else Ok(Read(Insert(before, p.0, p.1), pos + 3))
  {
    hide ParseLiteral, Insert;
    var tokens := PairTokens(p);
    StandsAt(ts, pos, tokens, 0);
    StandsAt(ts, pos, tokens, 1);
    StandsAt(ts, pos, tokens, 2);
    LiteralReads(ts, pos + 2, p.1);
  }

  lemma FreshKey(before: A.Properties, p: (string, A.Literal))
    requires FreshKeys(before + [p])
    ensures forall i :: 0 <= i < |before| ==> before[i].0 != p.0
  {
    var all := before + [p];
    forall i | 0 <= i < |before| ensures before[i].0 != p.0 {
      assert all[i] == before[i] && all[|before|] == p;
    }
  }

  lemma FreshFront(before: A.Properties, props: A.Properties)
    requires props != [] && FreshKeys(before + props)
    ensures FreshKeys(before + [props[0]]) && FreshKeys(before + [props[0]] + props[1..])
  {
    var all := before + props;
    assert before + [props[0]] + props[1..] == all;
    assert before + [props[0]] == all[..|before| + 1];
  }

  /** The pairs inserted one after the other. */
  function Inserted(before: A.Properties, props: A.Properties): A.Properties
    decreases |props|
  {
    if props == [] then before else Inserted(Insert(before, props[0].0, props[0].1), props[1..])
  }

  lemma {:induction false} InsertedFresh(before: A.Properties, props: A.Properties)
    requires FreshKeys(before + props)
    ensures Inserted(before, props) == before + props
    decreases |props|
  {
    hide Insert, FreshKeys;
    if props == [] {
      assert before + props == before;
    } else {
      FreshFront(before, props);
      FreshKey(before, props[0]);
      InsertNew(before, props[0].0, props[0].1);
      assert [props[0]] == [(props[0].0, props[0].1)];
      InsertedFresh(before + [props[0]], props[1..]);
      assert before + [props[0]] + props[1..] == before + props;
    }
  }

  predicate HasKey(props: A.Properties, key: string) {
    exists p :: p in props && p.0 == key
  }

  /** The pair is the last one with its key. */
  predicate LastPair(props: A.Properties, p: (string, A.Literal))
    decreases |props|
  {
    props != [] && if HasKey(props[1..], p.0) then LastPair(props[1..], p) else p == props[0]
  }

  lemma FreshCons(p: (string, A.Literal), rest: A.Properties)
    ensures FreshKeys([p] + rest) <==> FreshKeys(rest) && !HasKey(rest, p.0)
  {
    var all := [p] + rest;
    if FreshKeys(all) {
      forall i, j | 0 <= i < j < |rest| ensures rest[i].0 != rest[j].0 {
        assert all[i + 1] == rest[i] && all[j + 1] == rest[j];
      }
      forall q | q in rest ensures q.0 != p.0 {
        var j :| 0 <= j < |rest| && rest[j] == q;
        assert all[0] == p && all[j + 1] == q;
      }
    }
  }

  lemma {:induction false} InsertPairs(props: A.Properties, key: string, value: A.Literal)
    requires FreshKeys(props)
    ensures FreshKeys(Insert(props, key, value))
    ensures forall p :: p in Insert(props, key, value) <==> p == (key, value) || (p in props && p.0 != key)
  {
    hide FreshKeys;
    if props == [] {
      FreshCons((key, value), []);
      NoKeys();
      assert [(key, value)] + [] == [(key, value)];
    } else {
      var rest := props[1..];
      assert props == [props[0]] + rest;
      FreshCons(props[0], rest);
      if props[0].0 == key {
        FreshCons((key, value), rest);
      } else {
        InsertPairs(rest, key, value);
        FreshCons(props[0], Insert(rest, key, value));
      }
    }
  }

  lemma NoKeys()
    ensures FreshKeys([])
  {
  }

  lemma {:induction false} InsertedPairs(before: A.Properties, props: A.Properties)
    requires FreshKeys(before)
    ensures FreshKeys(Inserted(before, props))
    ensures forall p :: p in Inserted(before, props) <==> if HasKey(props, p.0) then LastPair(props, p) else p in before
    decreases |props|
  {
    hide FreshKeys, Insert;
    if props != [] {
      var first := props[0];
      assert props == [first] + props[1..];
      assert forall key :: HasKey(props, key) <==> first.0 == key || HasKey(props[1..], key);
      InsertPairs(before, first.0, first.1);
      InsertedPairs(Insert(before, first.0, first.1), props[1..]);
    }
  }

  lemma NoMoreProperties(ts: seq<Token>, pos: nat, before: A.Properties)
    requires Ended(ts) && pos < |ts| && ts[pos] == RightBrace
    ensures ParseProperties(ts, pos, before) == Ok(Read(before, pos))
  {
  }

  function PairTokens(p: (string, A.Literal)): (r: seq<Token>)
    ensures |r| == 3
  {
    [Word(p.0), Colon, TokenOf(p.1)]
  }

  lemma PropTokensAre(props: A.Properties, y: Style)
    ensures props == [] ==> PropTokens(props, y) == []
    ensures |props| == 1 ==> PropTokens(props, y) == PairTokens(props[0]) + if y.trailing then [Comma] else []
    ensures |props| > 1 ==> PropTokens(props, y) == PairTokens(props[0]) + ([Comma] + PropTokens(props[1..], y))
  {
  }

  lemma {:induction false} PropsRead(ts: seq<Token>, pos: nat, before: A.Properties, props: A.Properties, y: Style)
    requires Ended(ts) && Stands(ts, pos, PropTokens(props, y)) && ts[pos + |PropTokens(props, y)|] == RightBrace
    ensures ParseProperties(ts, pos, before) == Ok(Read(Inserted(before, props), pos + |PropTokens(props, y)|))
    decreases |props|
  {
    hide ParseProperties, Stands, PairTokens, PropTokens, Ended, Insert;
    PropTokensAre(props, y);
    StandsInside(ts, pos, PropTokens(props, y));
    if props == [] {
      NoMoreProperties(ts, pos, before);
    } else if |props| > 1 {
      var more := PropTokens(props[1..], y);
      StandsSplit(ts, pos, PairTokens(props[0]), [Comma] + more);
      PairReads(ts, pos, before, props[0]);
      StandsSplit(ts, pos + 3, [Comma], more);
      StandsAt(ts, pos + 3, [Comma], 0);
      PropsRead(ts, pos + 4, Insert(before, props[0].0, props[0].1), props[1..], y);
    } else {
      LastPairReads(ts, pos, before, props[0], y);
      assert props[1..] == [];
    }
  }

  lemma LastPairReads(ts: seq<Token>, pos: nat, before: A.Properties, p: (string, A.Literal), y: Style)
    requires Ended(ts) && Stands(ts, pos, PairTokens(p) + if y.trailing then [Comma] else [])
    requires ts[pos + if y.trailing then 4 else 3] == RightBrace
    ensures ParseProperties(ts, pos, before) == Ok(Read(Insert(before, p.0, p.1), pos + if y.trailing then 4 else 3))
  {
    hide ParseProperties, Stands, PairTokens, Ended, Insert;
    var comma := if y.trailing then [Comma] else [];
    StandsInside(ts, pos, PairTokens(p) + comma);
    StandsSplit(ts, pos, PairTokens(p), comma);
    PairReads(ts, pos, before, p);
    if y.trailing {
      StandsAt(ts, pos + 3, [Comma], 0);
      NoMoreProperties(ts, pos + 4, Insert(before, p.0, p.1));
    }
  }

  lemma BracedSteps(ts: seq<Token>, pos: nat, p: Read<A.Properties>)
    requires Ended(ts) && pos + 1 < |ts| && ts[pos] == LeftBrace && ParseProperties(ts, pos + 1, []) == Ok(p)
    requires p.next + 1 < |ts| && ts[p.next] == RightBrace
    ensures ParseBraced(ts, pos) == Ok(Read(p.tree, p.next + 1))
  {
    hide ParseProperties;
  }

  lemma NoBraces(ts: seq<Token>, pos: nat)
    requires Ended(ts) && pos < |ts| && ts[pos] != LeftBrace
    ensures ParseBraced(ts, pos) == Ok(Read([], pos))
  {
  }

  lemma BracesRead(ts: seq<Token>, pos: nat, props: A.Properties, y: Style)
    requires Ended(ts) && Stands(ts, pos, Braced(props, y)) && ts[pos + |Braced(props, y)|] != LeftBrace
    ensures ParseBraced(ts, pos) == Ok(Read(Inserted([], props), pos + |Braced(props, y)|))
    ensures props != [] ==> ts[pos] == LeftBrace
  {
    hide Stands, Ended, ParseBraced, ParseProperties, PropTokens;
    StandsInside(ts, pos, Braced(props, y));
    if props == [] {
      NoBraces(ts, pos);
    } else {
      var inner := PropTokens(props, y);
      StandsSplit(ts, pos, [LeftBrace] + inner, [RightBrace]);
      StandsSplit(ts, pos, [LeftBrace], inner);
      StandsAt(ts, pos, [LeftBrace], 0);
      StandsAt(ts, pos + |[LeftBrace] + inner|, [RightBrace], 0);
      PropsRead(ts, pos + 1, [], props, y);
      BracedSteps(ts, pos, Read(Inserted([], props), pos + 1 + |inner|));
    }
  }

  lemma BracedReads(ts: seq<Token>, pos: nat, props: A.Properties, y: Style)
    requires Ended(ts) && Stands(ts, pos, Braced(props, y)) && ts[pos + |Braced(props, y)|] != LeftBrace && FreshKeys(props)
    ensures ParseBraced(ts, pos) == Ok(Read(props, pos + |Braced(props, y)|))
    ensures props != [] ==> ts[pos] == LeftBrace
  {
    hide Stands, Ended, ParseBraced, FreshKeys, Braced;
    BracesRead(ts, pos, props, y);
    assert [] + props == props;
    InsertedFresh([], props);
  }

  /** A property list may repeat keys: what is read has every key once, with the value that was written last. */
  lemma LastValueIsRead(ts: seq<Token>, pos: nat, props: A.Properties, y: Style) returns (read: A.Properties)
    requires Ended(ts) && Stands(ts, pos, Braced(props, y)) && ts[pos + |Braced(props, y)|] != LeftBrace
    ensures ParseBraced(ts, pos) == Ok(Read(read, pos + |Braced(props, y)|))
    ensures FreshKeys(read) && forall p :: p in read <==> LastPair(props, p)
  {
    hide Stands, Ended, ParseBraced, FreshKeys, Braced;
    BracesRead(ts, pos, props, y);
    NoKeys();
    InsertedPairs([], props);
    read := Inserted([], props);
    forall p: (string, A.Literal) | !HasKey(props, p.0) ensures !LastPair(props, p) {
      LastHasKey(props, p);
    }
  }

  lemma {:induction false} LastHasKey(props: A.Properties, p: (string, A.Literal))
    ensures LastPair(props, p) ==> HasKey(props, p.0)
    decreases |props|
  {
    if props != [] {
      assert props == [props[0]] + props[1..];
      LastHasKey(props[1..], p);
      if HasKey(props[1..], p.0) {
        var q :| q in props[1..] && q.0 == p.0;
        assert q in props;
      }
    }
  }

  // ---------- nodes ----------

  lemma VarReads(ts: seq<Token>, pos: nat, v: Option<string>)
    requires Ended(ts) && Stands(ts, pos, VarTokens(v)) && (v.None? ==> !ts[pos].Word?)
    ensures OptionalWord(ts, pos) == Read(v, pos + |VarTokens(v)|)
    ensures v.Some? ==> ts[pos].Word?
  {
    if v.Some? {
      StandsAt(ts, pos, VarTokens(v), 0);
    }
  }

  lemma LabelsRead(ts: seq<Token>, pos: nat, labels: seq<string>)
    requires Ended(ts) && Stands(ts, pos, LabelTokens(labels)) && |labels| <= 1 && (labels == [] ==> ts[pos] != Colon)
    ensures ParseLabels(ts, pos) == Read(labels, pos + |LabelTokens(labels)|)
    ensures labels != [] ==> ts[pos] == Colon
  {
    if labels != [] {
      StandsAt(ts, pos, LabelTokens(labels), 0);
      StandsAt(ts, pos, LabelTokens(labels), 1);
      assert labels == [labels[0]];
    }
  }

  lemma WritableFresh(props: A.Properties)
    requires WritableProps(props)
    ensures FreshKeys(props)
  {
  }

  lemma NodeParts(ts: seq<Token>, pos: nat, a: seq<Token>, b: seq<Token>, c: seq<Token>)
    requires Stands(ts, pos, [LeftParen] + a + b + c + [RightParen])
    ensures ts[pos] == LeftParen && Stands(ts, pos + 1, a) && Stands(ts, pos + 1 + |a|, b) && Stands(ts, pos + 1 + |a| + |b|, c)
    ensures ts[pos + 1 + |a| + |b| + |c|] == RightParen
  {
    StandsSplit(ts, pos, [LeftParen] + a + b + c, [RightParen]);
    StandsSplit(ts, pos, [LeftParen] + a + b, c);
    StandsSplit(ts, pos, [LeftParen] + a, b);
    StandsSplit(ts, pos, [LeftParen], a);
    StandsAt(ts, pos, [LeftParen], 0);
    StandsAt(ts, pos + |[LeftParen] + a + b + c|, [RightParen], 0);
  }

  lemma NodeSteps(ts: seq<Token>, pos: nat, v: Read<Option<string>>, l: Read<seq<string>>, p: Read<A.Properties>)
    requires Ended(ts) && pos + 1 < |ts| && ts[pos] == LeftParen && OptionalWord(ts, pos + 1) == v
    requires v.next < |ts| && ParseLabels(ts, v.next) == l && l.next < |ts| && ParseBraced(ts, l.next) == Ok(p)
    requires p.next + 1 < |ts| && ts[p.next] == RightParen
    ensures ParseNodePattern(ts, pos) == Ok(Read(A.NodePattern(v.tree, l.tree, p.tree), p.next + 1))
  {
    hide ParseBraced, ParseLabels, OptionalWord;
  }

  lemma NodeReads(ts: seq<Token>, pos: nat, p: A.NodePattern, y: Style)
    requires Ended(ts) && Stands(ts, pos, NodeTokens(p, y)) && WritableNode(p)
    ensures ParseNodePattern(ts, pos) == Ok(Read(p, pos + |NodeTokens(p, y)|))
    ensures ts[pos] == LeftParen
  {
    hide Stands, Ended, ParseNodePattern, ParseBraced, ParseLabels, OptionalWord, VarTokens, LabelTokens, Braced, WritableProps, FreshKeys, Name;
    var a, b, c := VarTokens(p.variable), LabelTokens(p.labels), Braced(p.properties, y);
    StandsInside(ts, pos, NodeTokens(p, y));
    NodeParts(ts, pos, a, b, c);
    WritableFresh(p.properties);
    BracedReads(ts, pos + 1 + |a| + |b|, p.properties, y);
    NothingBraced(p, y);
    LabelsRead(ts, pos + 1 + |a|, p.labels);
    VarReads(ts, pos + 1, p.variable);
    var p1 := pos + 1 + |a|;
    var p2 := p1 + |b|;
    NodeSteps(ts, pos, Read(p.variable, p1), Read(p.labels, p2), Read(p.properties, p2 + |c|));
  }

  lemma NothingBraced(p: A.NodePattern, y: Style)
    ensures p.properties == [] ==> Braced(p.properties, y) == []
    ensures p.labels == [] ==> LabelTokens(p.labels) == []
    ensures p.variable == None ==> VarTokens(p.variable) == []
  {
  }

  // ---------- edges ----------

  /** A token that ends a depth range or stands in its place. */
  predicate EndsDepth(t: Token) {
    t != Star && !t.IntTok? && t != DotDot
  }

  lemma DepthReads(ts: seq<Token>, pos: nat, depth: Option<A.DepthRange>)
    requires Ended(ts) && Stands(ts, pos, DepthTokens(depth)) && WritableDepth(depth) && EndsDepth(ts[pos + |DepthTokens(depth)|])
    ensures ParseDepth(ts, pos) == Ok(Read(depth, pos + |DepthTokens(depth)|))
    ensures depth.Some? ==> ts[pos] == Star
  {
    hide Stands, DepthTokens;
    var tokens := DepthTokens(depth);
    StandsInside(ts, pos, tokens);
    DepthForms(depth);
    if |tokens| > 0 {
      StandsAt(ts, pos, tokens, 0);
    }
    if |tokens| > 1 {
      StandsAt(ts, pos, tokens, 1);
    }
    if |tokens| > 2 {
      StandsAt(ts, pos, tokens, 2);
    }
    if |tokens| > 3 {
      StandsAt(ts, pos, tokens, 3);
    }
  }

  /** The five ways to write a depth range, and none. */
  lemma DepthForms(depth: Option<A.DepthRange>)
    ensures var t := DepthTokens(depth);
      match depth
      case None => t == []
      case Some(DepthRange(min, max)) =>
        || (t == [Star] && min == 1 && max == U32_MAX)
        || (t == [Star, IntTok(min)] && min == max)
        || (t == [Star, IntTok(min), DotDot] && max == U32_MAX)
        || (t == [Star, DotDot, IntTok(max)] && min == 0)
        || t == [Star, IntTok(min), DotDot, IntTok(max)]
  {
  }

  lemma OneMoreType(ts: seq<Token>, pos: nat, before: seq<string>)
    requires Ended(ts) && pos < |ts|
    ensures ts[pos] != Pipe ==> ParseMoreTypes(ts, pos, before) == Ok(Read(before, pos))
    ensures ts[pos] == Pipe && pos + 1 < |ts| && ts[pos + 1].Word? && pos + 2 < |ts| ==>
      ParseMoreTypes(ts, pos, before) == ParseMoreTypes(ts, pos + 2, before + [ts[pos + 1].name])
  {
  }

  lemma {:induction false} TypesRead(ts: seq<Token>, pos: nat, before: seq<string>, types: seq<string>)
    requires Ended(ts) && Stands(ts, pos, BarTokens(types)) && ts[pos + |BarTokens(types)|] != Pipe
    ensures ParseMoreTypes(ts, pos, before) == Ok(Read(before + types, pos + |BarTokens(types)|))
    decreases |types|
  {
    hide Stands, ParseMoreTypes, Ended;
    StandsInside(ts, pos, BarTokens(types));
    OneMoreType(ts, pos, before);
    if types == [] {
      assert before + types == before;
    } else {
      var one := [Pipe, Word(types[0])];
      StandsSplit(ts, pos, one, BarTokens(types[1..]));
      StandsAt(ts, pos, one, 0);
      StandsAt(ts, pos, one, 1);
      TypesRead(ts, pos + 2, before + [types[0]], types[1..]);
      assert before + [types[0]] + types[1..] == before + types;
    }
  }

  lemma {:induction false} JoinSplit(s: string)
    ensures Join(Split(s, '|'), '|') == s
  {
    if s != [] {
      JoinSplit(s[1..]);
      var rest := Split(s[1..], '|');
      if s[0] == '|' {
        assert Split(s, '|') == [[]] + rest && (Split(s, '|'))[1..] == rest;
        assert Join(Split(s, '|'), '|') == [] + ['|'] + Join(rest, '|');
      } else {
        var all := Split(s, '|');
        assert all == [[s[0]] + rest[0]] + rest[1..] && all[1..] == rest[1..];
      }
      assert s == [s[0]] + s[1..];
    }
  }

  lemma TypeSteps(ts: seq<Token>, pos: nat, types: Read<seq<string>>)
    requires Ended(ts) && pos + 2 < |ts| && ts[pos] == Colon && ts[pos + 1].Word?
    requires ParseMoreTypes(ts, pos + 2, [ts[pos + 1].name]) == Ok(types)
    ensures ParseEdgeType(ts, pos) == Ok(Read(Some(Join(types.tree, '|')), types.next))
  {
    hide ParseMoreTypes, Join;
  }

  lemma NoType(ts: seq<Token>, pos: nat)
    requires Ended(ts) && pos < |ts| && ts[pos] != Colon
    ensures ParseEdgeType(ts, pos) == Ok(Read(None, pos))
  {
  }

  lemma TypeReads(ts: seq<Token>, pos: nat, edgeType: Option<string>)
    requires Ended(ts) && Stands(ts, pos, TypeTokens(edgeType))
    requires ts[pos + |TypeTokens(edgeType)|] != Pipe && (edgeType.None? ==> ts[pos] != Colon)
    ensures ParseEdgeType(ts, pos) == Ok(Read(edgeType, pos + |TypeTokens(edgeType)|))
    ensures edgeType.Some? ==> ts[pos] == Colon
  {
    hide Stands, Ended, ParseEdgeType, ParseMoreTypes, Split, Join, BarTokens;
    StandsInside(ts, pos, TypeTokens(edgeType));
    if edgeType.None? {
      NoType(ts, pos);
    } else {
      var types := Split(edgeType.value, '|');
      var one, more := [Colon, Word(types[0])], BarTokens(types[1..]);
      StandsSplit(ts, pos, one, more);
      StandsAt(ts, pos, one, 0);
      StandsAt(ts, pos, one, 1);
      TypesRead(ts, pos + 2, [types[0]], types[1..]);
      assert [types[0]] + types[1..] == types;
      JoinSplit(edgeType.value);
      TypeSteps(ts, pos, Read(types, pos + 2 + |more|));
    }
  }

  predicate NoBox(e: A.EdgePattern, y: Style) {
    !y.boxed && e.variable.None? && e.edgeType.None? && e.properties == [] && e.depth.None?
  }

  lemma BoxParts(ts: seq<Token>, pos: nat, a: seq<Token>, b: seq<Token>, c: seq<Token>, d: seq<Token>, o: seq<Token>)
    requires Stands(ts, pos, [LeftBracket] + a + b + c + d + [RightBracket] + o)
    ensures ts[pos] == LeftBracket && Stands(ts, pos + 1, a) && Stands(ts, pos + 1 + |a|, b) && Stands(ts, pos + 1 + |a| + |b|, c)
    ensures Stands(ts, pos + 1 + |a| + |b| + |c|, d) && ts[pos + 1 + |a| + |b| + |c| + |d|] == RightBracket
    ensures Stands(ts, pos + 2 + |a| + |b| + |c| + |d|, o)
  {
    StandsSplit(ts, pos, [LeftBracket] + a + b + c + d + [RightBracket], o);
    StandsSplit(ts, pos, [LeftBracket] + a + b + c + d, [RightBracket]);
    StandsAt(ts, pos + |[LeftBracket] + a + b + c + d|, [RightBracket], 0);
    StandsSplit(ts, pos, [LeftBracket] + a + b + c, d);
    StandsSplit(ts, pos, [LeftBracket] + a + b, c);
    StandsSplit(ts, pos, [LeftBracket] + a, b);
    StandsSplit(ts, pos, [LeftBracket], a);
    StandsAt(ts, pos, [LeftBracket], 0);
  }

  lemma BoxSteps(ts: seq<Token>, pos: nat, v: Read<Option<string>>, t: Read<Option<string>>, i: Read<Option<A.DepthRange>>,
                 p: Read<A.Properties>, o: Read<Option<A.DepthRange>>)
    requires Ended(ts) && pos + 1 < |ts| && ts[pos] == LeftBracket && OptionalWord(ts, pos + 1) == v && v.next < |ts|
    requires ParseEdgeType(ts, v.next) == Ok(t) && t.next < |ts| && ParseDepth(ts, t.next) == Ok(i) && i.next < |ts|
    requires ParseBraced(ts, i.next) == Ok(p) && p.next + 1 < |ts| && ts[p.next] == RightBracket && ParseDepth(ts, p.next + 1) == Ok(o)
    requires i.tree.None? || o.tree.None?
    ensures ParseEdgeDetail(ts, pos) == Ok(Read(EdgeDetail(v.tree, t.tree, p.tree, if i.tree.Some? then i.tree else o.tree), o.next))
  {
    hide ParseEdgeType, ParseDepth, ParseBraced, OptionalWord;
  }

  lemma NothingInside(e: A.EdgePattern, y: Style)
    ensures e.properties == [] ==> Braced(e.properties, y) == []
    ensures e.properties != [] ==> Braced(e.properties, y) != [] && Braced(e.properties, y)[0] == LeftBrace
    ensures e.depth == None ==> DepthTokens(e.depth) == []
    ensures e.depth != None ==> DepthTokens(e.depth) != [] && DepthTokens(e.depth)[0] == Star
    ensures e.edgeType == None ==> TypeTokens(e.edgeType) == []
    ensures e.edgeType != None ==> TypeTokens(e.edgeType) != [] && TypeTokens(e.edgeType)[0] == Colon
    ensures e.variable == None ==> VarTokens(e.variable) == []
  {
  }

  /** The first token of the parts from here on. */
  lemma FirstOf(ts: seq<Token>, pos: nat, part: seq<Token>)
    requires Stands(ts, pos, part)
    ensures part != [] ==> ts[pos] == part[0]
  {
    if part != [] {
      StandsAt(ts, pos, part, 0);
    }
  }

  /** Where the parts of a bracket begin. */
  datatype Box = Box(variable: nat, edgeType: nat, depth: nat, properties: nat, close: nat)

  lemma InsideReads(ts: seq<Token>, at: Box, e: A.EdgePattern, y: Style, inside: Option<A.DepthRange>, c: seq<Token>)
    requires Ended(ts) && WritableEdge(e) && at.close < |ts| && ts[at.close] == RightBracket
    requires Stands(ts, at.variable, VarTokens(e.variable)) && at.edgeType == at.variable + |VarTokens(e.variable)|
    requires Stands(ts, at.edgeType, TypeTokens(e.edgeType)) && at.depth == at.edgeType + |TypeTokens(e.edgeType)|
    requires Stands(ts, at.depth, c) && at.properties == at.depth + |c|
    requires Stands(ts, at.properties, Braced(e.properties, y)) && at.close == at.properties + |Braced(e.properties, y)|
    requires if inside.None? then c == [] else c == DepthTokens(inside) && inside == e.depth
    ensures OptionalWord(ts, at.variable) == Read(e.variable, at.edgeType) && ParseEdgeType(ts, at.edgeType) == Ok(Read(e.edgeType, at.depth))
    ensures ParseDepth(ts, at.depth) == Ok(Read(inside, at.properties)) && ParseBraced(ts, at.properties) == Ok(Read(e.properties, at.close))
  {
    hide Stands, Ended, ParseBraced, ParseDepth, ParseEdgeType, OptionalWord, VarTokens, TypeTokens, DepthTokens, Braced, WritableProps, FreshKeys, Name,
         WritableNode, WritableType, WritableDepth;
    NothingInside(e, y);
    WritableFresh(e.properties);
    FirstOf(ts, at.properties, Braced(e.properties, y));
    FirstOf(ts, at.depth, c);
    FirstOf(ts, at.edgeType, TypeTokens(e.edgeType));
    BracedReads(ts, at.properties, e.properties, y);
    DepthHere(ts, at.depth, inside, c, e.depth);
    TypeReads(ts, at.edgeType, e.edgeType);
    VarReads(ts, at.variable, e.variable);
  }

  function InsideDepth(e: A.EdgePattern, y: Style): Option<A.DepthRange> {
    if y.outside then None else e.depth
  }

  function OutsideDepth(e: A.EdgePattern, y: Style): Option<A.DepthRange> {
    if y.outside then e.depth else None
  }

  lemma BoxIs(e: A.EdgePattern, y: Style)
    requires !NoBox(e, y)
    ensures var a, b, c, d, o := VarTokens(e.variable), TypeTokens(e.edgeType), DepthTokens(InsideDepth(e, y)), Braced(e.properties, y), DepthTokens(OutsideDepth(e, y));
            && BoxTokens(e, y) == [LeftBracket] + a + b + c + d + [RightBracket] + o
            && |BoxTokens(e, y)| == 2 + |a| + |b| + |c| + |d| + |o|
  {
    hide VarTokens, TypeTokens, Braced;
    NoDepth();
  }

  lemma BoxReads(ts: seq<Token>, pos: nat, e: A.EdgePattern, y: Style)
    requires Ended(ts) && Stands(ts, pos, BoxTokens(e, y)) && WritableEdge(e)
    requires EndsDepth(ts[pos + |BoxTokens(e, y)|]) && ts[pos + |BoxTokens(e, y)|] != LeftBracket
    ensures ParseEdgeDetail(ts, pos) == Ok(Read(EdgeDetail(e.variable, e.edgeType, e.properties, e.depth), pos + |BoxTokens(e, y)|))
  {
    hide Stands, Ended, ParseBraced, ParseDepth, ParseEdgeType, OptionalWord, VarTokens, TypeTokens, DepthTokens, Braced, ParseEdgeDetail, EndsDepth, BoxTokens, WritableType, WritableProps, WritableNode, WritableDepth, Name;
    if NoBox(e, y) {
      NoBoxIs(e, y);
      StandsInside(ts, pos, BoxTokens(e, y));
      NoBoxReads(ts, pos, e, y);
    } else {
      BoxIs(e, y);
      NoDepth();
      var a, b, d := VarTokens(e.variable), TypeTokens(e.edgeType), Braced(e.properties, y);
      var inside, outside := InsideDepth(e, y), OutsideDepth(e, y);
      var c, o := DepthTokens(inside), DepthTokens(outside);
      BoxParts(ts, pos, a, b, c, d, o);
      var at := Box(pos + 1, pos + 1 + |a|, pos + 1 + |a| + |b|, pos + 1 + |a| + |b| + |c|, pos + 1 + |a| + |b| + |c| + |d|);
      StandsInside(ts, at.close + 1, o);
      InsideReads(ts, at, e, y, inside, c);
      DepthHere(ts, at.close + 1, outside, o, e.depth);
      BoxSteps(ts, pos, Read(e.variable, at.edgeType), Read(e.edgeType, at.depth), Read(inside, at.properties), Read(e.properties, at.close),
               Read(outside, at.close + 1 + |o|));
    }
  }

  lemma NoDepth()
    ensures DepthTokens(None) == []
  {
  }

  lemma NoBoxIs(e: A.EdgePattern, y: Style)
    requires NoBox(e, y)
    ensures BoxTokens(e, y) == []
  {
  }

  lemma NoBoxReads(ts: seq<Token>, pos: nat, e: A.EdgePattern, y: Style)
    requires Ended(ts) && pos < |ts| && NoBox(e, y) && ts[pos] != LeftBracket
    ensures ParseEdgeDetail(ts, pos) == Ok(Read(EdgeDetail(e.variable, e.edgeType, e.properties, e.depth), pos))
  {
  }

  lemma DepthHere(ts: seq<Token>, pos: nat, depth: Option<A.DepthRange>, tokens: seq<Token>, whole: Option<A.DepthRange>)
    requires Ended(ts) && Stands(ts, pos, tokens) && EndsDepth(ts[pos + |tokens|]) && WritableDepth(whole)
    requires if depth.None? then tokens == [] else tokens == DepthTokens(depth) && depth == whole
    ensures ParseDepth(ts, pos) == Ok(Read(depth, pos + |tokens|))
  {
    hide Stands, ParseDepth;
    assert DepthTokens(None) == [];
    DepthReads(ts, pos, depth);
  }

  lemma ArrowReads(ts: seq<Token>, pos: nat, dir: A.Direction)
    requires Ended(ts) && Stands(ts, pos, ArrowTokens(dir)) && ts[pos + |ArrowTokens(dir)|] == LeftParen
    ensures CloseEdge(ts, pos, dir == A.Left) == Read(dir, pos + |ArrowTokens(dir)|)
    ensures EndsDepth(ts[pos]) && ts[pos] != LeftBracket
  {
    if dir != A.Left {
      StandsAt(ts, pos, ArrowTokens(dir), 0);
    }
  }

  lemma EdgeSteps(ts: seq<Token>, pos: nat, from: A.NodePattern, d: Read<EdgeDetail>, dir: Read<A.Direction>, to: Read<A.NodePattern>)
    requires Ended(ts) && pos + 1 < |ts| && (ts[pos] == Minus || ts[pos] == LeftArrow) && ParseEdgeDetail(ts, pos + 1) == Ok(d) && d.next < |ts|
    requires CloseEdge(ts, d.next, ts[pos] == LeftArrow) == dir && dir.next < |ts| && ParseNodePattern(ts, dir.next) == Ok(to)
    ensures ParseEdgePattern(ts, pos, from) ==
      Ok(Read(A.EdgePattern(d.tree.variable, d.tree.edgeType, dir.tree, d.tree.properties, from, to.tree, d.tree.depth), to.next))
  {
    hide ParseEdgeDetail, CloseEdge, ParseNodePattern;
  }

  lemma EdgeParts(ts: seq<Token>, pos: nat, open: Token, box: seq<Token>, arrow: seq<Token>, node: seq<Token>)
    requires Stands(ts, pos, [open] + box + arrow + node)
    ensures ts[pos] == open && Stands(ts, pos + 1, box) && Stands(ts, pos + 1 + |box|, arrow) && Stands(ts, pos + 1 + |box| + |arrow|, node)
  {
    StandsSplit(ts, pos, [open] + box + arrow, node);
    StandsSplit(ts, pos, [open] + box, arrow);
    StandsSplit(ts, pos, [open], box);
    StandsAt(ts, pos, [open], 0);
  }

  /** The tokens of an edge parse to it: its direction, variable, types, properties, depth range and end. */
  lemma EdgeReads(ts: seq<Token>, pos: nat, e: A.EdgePattern, y: Style)
    requires Ended(ts) && Stands(ts, pos, EdgeTokens(e, y)) && WritableEdge(e)
    ensures ts[pos] == (if e.direction == A.Left then LeftArrow else Minus)
    ensures ParseEdgePattern(ts, pos, e.fromNode) == Ok(Read(e, pos + |EdgeTokens(e, y)|))
  {
    hide Stands, Ended, ParseEdgeDetail, ParseNodePattern, CloseEdge, ParseEdgePattern, NodeTokens, BoxTokens, ArrowTokens, WritableNode, WritableProps, WritableType, Name,
         EndsDepth;
    StandsInside(ts, pos, EdgeTokens(e, y));
    var open := if e.direction == A.Left then LeftArrow else Minus;
    var box, arrow, node := BoxTokens(e, y), ArrowTokens(e.direction), NodeTokens(e.toNode, y);
    EdgeParts(ts, pos, open, box, arrow, node);
    var p1 := pos + 1 + |box|;
    var p2 := p1 + |arrow|;
    NodeReads(ts, p2, e.toNode, y);
    ArrowReads(ts, p1, e.direction);
    BoxReads(ts, pos + 1, e, y);
    EdgeSteps(ts, pos, e.fromNode, Read(EdgeDetail(e.variable, e.edgeType, e.properties, e.depth), p1), Read(e.direction, p2), Read(e.toNode, p2 + |node|));
  }
}
