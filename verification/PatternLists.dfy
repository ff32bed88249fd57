/** The tokens of MATCH and CREATE pattern lists parse to these lists. */
module PatternLists {
  import opened Prelude
  import opened Lexer
  import opened Grammar
  import opened PrintParse
  import opened QueryPrinter
  import opened PatternReading
  import A = Ast

  /** A token that continues no pattern list. */
  predicate EndsPatterns(t: Token) {
    t != Minus && t != LeftArrow && t != Comma
  }

  // ---------- MATCH ----------

  /** Reading on from a node: its edges, then further chains. */
  function Resume(ts: seq<Token>, pos: nat, from: A.NodePattern, before: seq<A.Pattern>): Result<Read<seq<A.Pattern>>>
    requires Ended(ts) && pos < |ts|
  {
    var chain :- ParseEdges(ts, pos, from, before);
    MatchRest(ts, Read(chain.tree.1, chain.next))
  }

  lemma ResumeEnds(ts: seq<Token>, pos: nat, from: A.NodePattern, before: seq<A.Pattern>)
    requires Ended(ts) && pos < |ts| && EndsPatterns(ts[pos])
    ensures Resume(ts, pos, from, before) == Ok(Read(before, pos))
  {
    hide ParseEdgePattern, ParseMatchPatterns;
  }

  lemma ResumeEdge(ts: seq<Token>, pos: nat, from: A.NodePattern, before: seq<A.Pattern>, e: Read<A.EdgePattern>)
    requires Ended(ts) && pos < |ts| && (ts[pos] == Minus || ts[pos] == LeftArrow) && ParseEdgePattern(ts, pos, from) == Ok(e)
    ensures Resume(ts, pos, from, before) == Resume(ts, e.next, e.tree.toNode, before + [A.EdgePat(e.tree)])
  {
    hide ParseEdgePattern, MatchRest;
  }

  lemma NoEdges(ts: seq<Token>, pos: nat, from: A.NodePattern, before: seq<A.Pattern>)
    requires Ended(ts) && pos < |ts| && ts[pos] != Minus && ts[pos] != LeftArrow
    ensures ParseEdges(ts, pos, from, before) == Ok(Read((from, before), pos))
  {
    hide ParseEdgePattern;
  }

  lemma MatchStarts(ts: seq<Token>, pos: nat, before: seq<A.Pattern>, n: Read<A.NodePattern>)
    requires Ended(ts) && pos < |ts| && ParseNodePattern(ts, pos) == Ok(n)
    ensures ParseMatchPatterns(ts, pos, before) == Resume(ts, n.next, n.tree, before + [A.NodePat(n.tree)])
  {
    hide ParseNodePattern, ParseEdges, MatchRest;
  }

  lemma ResumeNode(ts: seq<Token>, pos: nat, from: A.NodePattern, before: seq<A.Pattern>, n: Read<A.NodePattern>)
    requires Ended(ts) && pos + 1 < |ts| && ts[pos] == Comma && ParseNodePattern(ts, pos + 1) == Ok(n)
    ensures Resume(ts, pos, from, before) == Resume(ts, n.next, n.tree, before + [A.NodePat(n.tree)])
  {
    hide ParseNodePattern, ParseEdges, ParseMatchPatterns;
    NoEdges(ts, pos, from, before);
    MatchStarts(ts, pos + 1, before, n);
  }

  function OneMatch(p: A.Pattern, first: bool, y: Style): seq<Token> {
    match p
    case NodePat(n) => (if first then [] else [Comma]) + NodeTokens(n, y)
    case EdgePat(e) => EdgeTokens(e, y)
  }

  lemma MatchTokensAre(ps: seq<A.Pattern>, first: bool, y: Style)
    ensures MatchTokens(ps, first, y) == if ps == [] then [] else OneMatch(ps[0], first, y) + MatchTokens(ps[1..], false, y)
  {
    hide NodeTokens, EdgeTokens;
  }

  lemma EdgeFirst(ts: seq<Token>, pos: nat, before: seq<A.Pattern>, e: A.EdgePattern, rest: seq<Token>, y: Style)
    requires Ended(ts) && Stands(ts, pos, EdgeTokens(e, y) + rest) && WritableEdge(e)
    ensures var next := pos + |EdgeTokens(e, y)|;
      Stands(ts, next, rest) && next < |ts| && Resume(ts, pos, e.fromNode, before) == Resume(ts, next, e.toNode, before + [A.EdgePat(e)])
  {
    hide Ended, Stands, Resume, EdgeTokens, WritableEdge, ParseEdgePattern;
    StandsInside(ts, pos, EdgeTokens(e, y) + rest);
    StandsSplit(ts, pos, EdgeTokens(e, y), rest);
    EdgeReads(ts, pos, e, y);
    ResumeEdge(ts, pos, e.fromNode, before, Read(e, pos + |EdgeTokens(e, y)|));
  }

  lemma NodeFirst(ts: seq<Token>, pos: nat, from: A.NodePattern, before: seq<A.Pattern>, n: A.NodePattern, rest: seq<Token>, y: Style)
    requires Ended(ts) && Stands(ts, pos, [Comma] + NodeTokens(n, y) + rest) && WritableNode(n)
    ensures var next := pos + 1 + |NodeTokens(n, y)|;
      Stands(ts, next, rest) && next < |ts| && Resume(ts, pos, from, before) == Resume(ts, next, n, before + [A.NodePat(n)])
  {
    hide Ended, Stands, Resume, NodeTokens, WritableNode, ParseNodePattern;
    StandsInside(ts, pos, [Comma] + NodeTokens(n, y) + rest);
    StandsSplit(ts, pos, [Comma] + NodeTokens(n, y), rest);
    StandsSplit(ts, pos, [Comma], NodeTokens(n, y));
    StandsAt(ts, pos, [Comma], 0);
    NodeReads(ts, pos + 1, n, y);
    ResumeNode(ts, pos, from, before, Read(n, pos + 1 + |NodeTokens(n, y)|));
  }

  lemma {:induction false} RestReads(ts: seq<Token>, pos: nat, from: A.NodePattern, before: seq<A.Pattern>, ps: seq<A.Pattern>, y: Style)
    requires Ended(ts) && Stands(ts, pos, MatchTokens(ps, false, y)) && WritableRest(from, ps) && EndsPatterns(ts[pos + |MatchTokens(ps, false, y)|])
    ensures Resume(ts, pos, from, before) == Ok(Read(before + ps, pos + |MatchTokens(ps, false, y)|))
    decreases |ps|
  {
    hide Ended, Stands, Resume, MatchTokens, NodeTokens, EdgeTokens, WritableNode, WritableEdge, EndsPatterns, ParseEdgePattern, ParseNodePattern;
    StandsInside(ts, pos, MatchTokens(ps, false, y));
    MatchTokensAre(ps, false, y);
    if ps == [] {
      ResumeEnds(ts, pos, from, before);
      assert before + ps == before;
    } else {
      var rest := MatchTokens(ps[1..], false, y);
      assert before + [ps[0]] + ps[1..] == before + ps;
      match ps[0]
      case EdgePat(e) =>
        EdgeFirst(ts, pos, before, e, rest, y);
        RestReads(ts, pos + |EdgeTokens(e, y)|, e.toNode, before + [ps[0]], ps[1..], y);
      case NodePat(n) =>
        NodeFirst(ts, pos, from, before, n, rest, y);
        RestReads(ts, pos + 1 + |NodeTokens(n, y)|, n, before + [ps[0]], ps[1..], y);
    }
  }

  lemma MatchListReads(ts: seq<Token>, pos: nat, ps: seq<A.Pattern>, y: Style)
    requires Ended(ts) && Stands(ts, pos, MatchTokens(ps, true, y)) && WritableMatch(ps) && EndsPatterns(ts[pos + |MatchTokens(ps, true, y)|])
    ensures ParseMatchPatterns(ts, pos, []) == Ok(Read(ps, pos + |MatchTokens(ps, true, y)|))
  {
    hide Ended, Stands, Resume, MatchTokens, NodeTokens, EndsPatterns, ParseMatchPatterns, ParseNodePattern, WritableNode, WritableRest;
    StandsInside(ts, pos, MatchTokens(ps, true, y));
    MatchTokensAre(ps, true, y);
    var n, rest := ps[0].node, MatchTokens(ps[1..], false, y);
    assert [] + NodeTokens(n, y) == NodeTokens(n, y);
    StandsSplit(ts, pos, NodeTokens(n, y), rest);
    NodeReads(ts, pos, n, y);
    MatchStarts(ts, pos, [], Read(n, pos + |NodeTokens(n, y)|));
    RestReads(ts, pos + |NodeTokens(n, y)|, n, [A.NodePat(n)], ps[1..], y);
    assert [] + [A.NodePat(n)] == [A.NodePat(n)] && [A.NodePat(n)] + ps[1..] == ps;
  }

  // ---------- CREATE ----------

  predicate EndsInEdge(ps: seq<A.Pattern>) {
    ps != [] && ps[|ps| - 1].EdgePat?
  }

  lemma CreateNodeStarts(ts: seq<Token>, pos: nat, before: seq<A.Pattern>, n: Read<A.NodePattern>)
    requires Ended(ts) && pos < |ts| && ParseNodePattern(ts, pos) == Ok(n) && ts[n.next] != Minus && ts[n.next] != LeftArrow && !EndsInEdge(before)
    ensures ParseCreatePatterns(ts, pos, before) == CreateRest(ts, Read(before + [A.NodePat(n.tree)], n.next))
  {
    hide ParseNodePattern, ParseEdges, CreateRest;
    NoEdges(ts, n.next, n.tree, before);
  }

  lemma OneEdge(ts: seq<Token>, pos: nat, from: A.NodePattern, before: seq<A.Pattern>, e: Read<A.EdgePattern>)
    requires Ended(ts) && pos < |ts| && (ts[pos] == Minus || ts[pos] == LeftArrow) && ParseEdgePattern(ts, pos, from) == Ok(e)
    requires ts[e.next] != Minus && ts[e.next] != LeftArrow
    ensures ParseEdges(ts, pos, from, before) == Ok(Read((e.tree.toNode, before + [A.EdgePat(e.tree)]), e.next))
  {
    hide ParseEdgePattern;
    NoEdges(ts, e.next, e.tree.toNode, before + [A.EdgePat(e.tree)]);
  }

  lemma CreateEdgeStarts(ts: seq<Token>, pos: nat, before: seq<A.Pattern>, n: Read<A.NodePattern>, e: Read<A.EdgePattern>)
    requires Ended(ts) && pos < |ts| && ParseNodePattern(ts, pos) == Ok(n) && (ts[n.next] == Minus || ts[n.next] == LeftArrow)
    requires ParseEdgePattern(ts, n.next, n.tree) == Ok(e) && ts[e.next] != Minus && ts[e.next] != LeftArrow
    ensures ParseCreatePatterns(ts, pos, before) == CreateRest(ts, Read(before + [A.EdgePat(e.tree)], e.next))
  {
    hide ParseNodePattern, ParseEdges, ParseEdgePattern, CreateRest;
    OneEdge(ts, n.next, n.tree, before, e);
  }

  lemma CreateGoesOn(ts: seq<Token>, pos: nat, before: seq<A.Pattern>)
    requires Ended(ts) && pos < |ts|
    ensures ts[pos] != Comma ==> CreateRest(ts, Read(before, pos)) == Ok(Read(before, pos))
    ensures ts[pos] == Comma && pos + 1 < |ts| ==> CreateRest(ts, Read(before, pos)) == ParseCreatePatterns(ts, pos + 1, before)
  {
    hide ParseCreatePatterns;
  }

  function OneCreate(p: A.Pattern, y: Style): seq<Token> {
    match p
    case NodePat(n) => NodeTokens(n, y)
    case EdgePat(e) => NodeTokens(e.fromNode, y) + EdgeTokens(e, y)
  }

  lemma CreateTokensAre(ps: seq<A.Pattern>, y: Style)
    requires ps != []
    ensures |ps| == 1 ==> CreateTokens(ps, y) == OneCreate(ps[0], y)
    ensures |ps| > 1 ==> CreateTokens(ps, y) == OneCreate(ps[0], y) + ([Comma] + CreateTokens(ps[1..], y))
  {
    hide NodeTokens, EdgeTokens;
    if |ps| == 1 {
      assert CreateTokens(ps[1..], y) == [];
    }
  }

  ghost predicate WritablePattern(p: A.Pattern) {
    if p.NodePat? then WritableNode(p.node) else WritableEdge(p.edge)
  }

  lemma OneCreateReads(ts: seq<Token>, pos: nat, before: seq<A.Pattern>, p: A.Pattern, y: Style)
    requires Ended(ts) && Stands(ts, pos, OneCreate(p, y)) && WritablePattern(p) && (p.NodePat? ==> !EndsInEdge(before))
    requires ts[pos + |OneCreate(p, y)|] != Minus && ts[pos + |OneCreate(p, y)|] != LeftArrow
    ensures ParseCreatePatterns(ts, pos, before) == CreateRest(ts, Read(before + [p], pos + |OneCreate(p, y)|))
  {
    hide Ended, Stands, NodeTokens, EdgeTokens, WritableNode, WritableEdge, ParseEdgePattern, ParseNodePattern, ParseCreatePatterns, CreateRest, EndsInEdge;
    StandsInside(ts, pos, OneCreate(p, y));
    match p
    case NodePat(n) =>
      NodeReads(ts, pos, n, y);
      CreateNodeStarts(ts, pos, before, Read(n, pos + |NodeTokens(n, y)|));
    case EdgePat(e) =>
      WritableFrom(e);
      StandsSplit(ts, pos, NodeTokens(e.fromNode, y), EdgeTokens(e, y));
      NodeReads(ts, pos, e.fromNode, y);
      var next := pos + |NodeTokens(e.fromNode, y)|;
      EdgeReads(ts, next, e, y);
      CreateEdgeStarts(ts, pos, before, Read(e.fromNode, next), Read(e, next + |EdgeTokens(e, y)|));
  }

  lemma WritableFrom(e: A.EdgePattern)
    requires WritableEdge(e)
    ensures WritableNode(e.fromNode)
  {
    hide WritableNode, WritableProps, WritableType;
  }

  /** What stands before and what is to come. */
  ghost predicate CreatesOn(before: seq<A.Pattern>, ps: seq<A.Pattern>) {
    && ps != []
    && (forall i :: 0 <= i < |ps| ==> WritablePattern(ps[i]))
    && (ps[0].NodePat? ==> !EndsInEdge(before))
    && (forall i :: 0 < i < |ps| && ps[i].NodePat? ==> ps[i - 1].NodePat?)
  }

  lemma CreatesNext(before: seq<A.Pattern>, ps: seq<A.Pattern>)
    requires CreatesOn(before, ps) && |ps| > 1
    ensures CreatesOn(before + [ps[0]], ps[1..])
  {
    hide WritablePattern;
    var rest := ps[1..];
    assert rest[0] == ps[1];
    forall i | 0 < i < |rest| && rest[i].NodePat? ensures rest[i - 1].NodePat? {
      assert rest[i] == ps[i + 1] && rest[i - 1] == ps[i];
    }
    forall i | 0 <= i < |rest| ensures WritablePattern(rest[i]) {
      assert rest[i] == ps[i + 1];
    }
  }

  lemma {:induction false} CreateReads(ts: seq<Token>, pos: nat, before: seq<A.Pattern>, ps: seq<A.Pattern>, y: Style)
    requires Ended(ts) && CreatesOn(before, ps) && Stands(ts, pos, CreateTokens(ps, y)) && EndsPatterns(ts[pos + |CreateTokens(ps, y)|])
    ensures ParseCreatePatterns(ts, pos, before) == Ok(Read(before + ps, pos + |CreateTokens(ps, y)|))
    decreases |ps|
  {
    hide Ended, Stands, OneCreate, CreateTokens, WritablePattern, ParseCreatePatterns, CreateRest, EndsInEdge;
    StandsInside(ts, pos, CreateTokens(ps, y));
    CreateTokensAre(ps, y);
    var one := OneCreate(ps[0], y);
    var next := pos + |one|;
    if |ps| == 1 {
      OneCreateReads(ts, pos, before, ps[0], y);
      CreateGoesOn(ts, next, before + [ps[0]]);
      assert before + [ps[0]] == before + ps;
    } else {
      var rest := CreateTokens(ps[1..], y);
      StandsSplit(ts, pos, one, [Comma] + rest);
      StandsSplit(ts, next, [Comma], rest);
      StandsAt(ts, next, [Comma], 0);
      OneCreateReads(ts, pos, before, ps[0], y);
      CreateGoesOn(ts, next, before + [ps[0]]);
      CreatesNext(before, ps);
      CreateReads(ts, next + 1, before + [ps[0]], ps[1..], y);
      assert before + [ps[0]] + ps[1..] == before + ps;
    }
  }

  lemma CreateListReads(ts: seq<Token>, pos: nat, ps: seq<A.Pattern>, y: Style)
    requires Ended(ts) && WritableCreate(ps) && Stands(ts, pos, CreateTokens(ps, y)) && EndsPatterns(ts[pos + |CreateTokens(ps, y)|])
    ensures ParseCreatePatterns(ts, pos, []) == Ok(Read(ps, pos + |CreateTokens(ps, y)|))
  {
    hide Ended, Stands, CreateTokens, WritableNode, WritableEdge, ParseCreatePatterns;
    CreateReads(ts, pos, [], ps, y);
    assert [] + ps == ps;
  }
}
