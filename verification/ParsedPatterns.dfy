/** The patterns that parsing a MATCH clause produces are chains laid out as the query theorems expect. */
module ParsedPatterns {
  import opened Prelude
  import opened Lexer
  import opened Grammar
  import opened Chains
  import opened Ast

  /** A first node and edges, each starting where the one before it ends. */
  datatype Path = Path(first: NodePattern, edges: seq<EdgePattern>)

  function EndOf(first: NodePattern, edges: seq<EdgePattern>): NodePattern {
    if edges == [] then first else edges[|edges| - 1].toNode
  }

  predicate Linked(p: Path) {
    forall i :: 0 <= i < |p.edges| ==> p.edges[i].fromNode == EndOf(p.first, p.edges[..i])
  }

  function EdgePatterns(edges: seq<EdgePattern>): (r: seq<Pattern>)
    ensures |r| == |edges| && forall i :: 0 <= i < |edges| ==> r[i] == EdgePat(edges[i])
  {
    if edges == [] then [] else EdgePatterns(edges[..|edges| - 1]) + [EdgePat(edges[|edges| - 1])]
  }

  /** The pattern list of some paths, one behind the other. */
  function Patterns(paths: seq<Path>): seq<Pattern> {
    if paths == [] then []
    else
      var p := paths[|paths| - 1];
      Patterns(paths[..|paths| - 1]) + [NodePat(p.first)] + EdgePatterns(p.edges)
  }

  ghost predicate AllLinked(paths: seq<Path>) {
    forall i :: 0 <= i < |paths| ==> Linked(paths[i])
  }

  lemma LinkOne(first: NodePattern, edges: seq<EdgePattern>, e: EdgePattern)
    requires Linked(Path(first, edges)) && e.fromNode == EndOf(first, edges)
    ensures Linked(Path(first, edges + [e])) && EndOf(first, edges + [e]) == e.toNode
    ensures EdgePatterns(edges + [e]) == EdgePatterns(edges) + [EdgePat(e)]
  {
    var all := edges + [e];
    forall i | 0 <= i < |all| ensures all[i].fromNode == EndOf(first, all[..i]) {
      assert all[..i] == edges[..i];
      assert i == |edges| ==> edges[..i] == edges;
    }
  }

  /** The edges read behind a node continue its path. */
  lemma {:induction false} ParsedEdges(ts: seq<Token>, pos: nat, first: NodePattern, before: seq<EdgePattern>, patterns: seq<Pattern>)
    returns (edges: seq<EdgePattern>)
    requires Ended(ts) && pos < |ts| && Linked(Path(first, before))
    requires ParseEdges(ts, pos, EndOf(first, before), patterns + EdgePatterns(before)).Ok?
    ensures Linked(Path(first, edges))
    ensures ParseEdges(ts, pos, EndOf(first, before), patterns + EdgePatterns(before)).value.tree.1 == patterns + EdgePatterns(edges)
    decreases |ts| - pos
  {
    hide ParseEdgePattern, Linked, EndOf;
    if ts[pos] != Minus && ts[pos] != LeftArrow {
      edges := before;
    } else {
      var e := ParseEdgePattern(ts, pos, EndOf(first, before)).value;
      LinkOne(first, before, e.tree);
      assert patterns + EdgePatterns(before) + [EdgePat(e.tree)] == patterns + EdgePatterns(before + [e.tree]);
      edges := ParsedEdges(ts, e.next, first, before + [e.tree], patterns);
    }
  }

  lemma MorePaths(paths: seq<Path>, p: Path)
    requires AllLinked(paths) && Linked(p)
    ensures AllLinked(paths + [p]) && Patterns(paths + [p]) == Patterns(paths) + [NodePat(p.first)] + EdgePatterns(p.edges)
  {
    hide Linked;
    assert (paths + [p])[..|paths|] == paths;
  }

  lemma ParsedChain(ts: seq<Token>, pos: nat, paths: seq<Path>) returns (p: Path)
    requires Ended(ts) && pos < |ts| && ParseChain(ts, pos, Patterns(paths)).Ok? && AllLinked(paths)
    ensures Linked(p) && ParseChain(ts, pos, Patterns(paths)).value.tree == Patterns(paths + [p])
    ensures AllLinked(paths + [p])
  {
    hide ParseNodePattern, ParseEdges, Patterns, AllLinked;
    var first := ParseNodePattern(ts, pos).value;
    var start := Patterns(paths) + [NodePat(first.tree)];
    assert start + EdgePatterns([]) == start;
    var edges := ParsedEdges(ts, first.next, first.tree, [], start);
    p := Path(first.tree, edges);
    MorePaths(paths, p);
  }

  /** Whatever a MATCH clause is parsed into is a list of linked paths. */
  lemma {:induction false} ParsedPaths(ts: seq<Token>, pos: nat, before: seq<Path>) returns (paths: seq<Path>)
    requires Ended(ts) && pos < |ts| && AllLinked(before) && ParseMatchPatterns(ts, pos, Patterns(before)).Ok?
    ensures AllLinked(paths) && |paths| > |before| && before <= paths
    ensures ParseMatchPatterns(ts, pos, Patterns(before)).value.tree == Patterns(paths)
    decreases |ts| - pos
  {
    hide ParseChain, Patterns, AllLinked;
    var chain := ParseChain(ts, pos, Patterns(before)).value;
    var p := ParsedChain(ts, pos, before);
    paths := before + [p];
    if ts[chain.next] == Comma {
      paths := ParsedPaths(ts, chain.next + 1, before + [p]);
    }
  }

  // ---------- chains ----------

  function Lone(paths: seq<Path>): (r: seq<NodePattern>)
    ensures |r| == |paths| && forall i :: 0 <= i < |paths| ==> r[i] == paths[i].first
  {
    if paths == [] then [] else Lone(paths[..|paths| - 1]) + [paths[|paths| - 1].first]
  }

  function LoneNodes(paths: seq<Path>): (r: seq<Pattern>)
    ensures |r| == |paths| && forall i :: 0 <= i < |paths| ==> r[i] == NodePat(paths[i].first)
  {
    if paths == [] then [] else LoneNodes(paths[..|paths| - 1]) + [NodePat(paths[|paths| - 1].first)]
  }

  lemma NoPatterns()
    ensures Patterns([]) == []
  {
  }

  lemma {:induction false} LonePatterns(head: Path, others: seq<Path>)
    requires forall i :: 0 <= i < |others| ==> others[i].edges == []
    ensures Patterns([head] + others) == [NodePat(head.first)] + EdgePatterns(head.edges) + LoneNodes(others)
    decreases |others|
  {
    var all := [head] + others;
    if others == [] {
      assert all == [head] && [head][..0] == [];
      assert Patterns([head][..0]) == [];
    } else {
      var n := |others| - 1;
      LonePatterns(head, others[..n]);
      assert all[..|all| - 1] == [head] + others[..n];
    }
  }

  /** A parsed MATCH whose paths behind the first are lone nodes is a chain with standalone nodes, every
      edge starting at the node before it. */
  lemma ParsedMatchIsChain(ts: seq<Token>, pos: nat) returns (paths: seq<Path>)
    requires Ended(ts) && pos < |ts| && ParseMatchPatterns(ts, pos, []).Ok?
    ensures paths != [] && AllLinked(paths) && ParseMatchPatterns(ts, pos, []).value.tree == Patterns(paths)
    ensures (forall i :: 1 <= i < |paths| ==> paths[i].edges == []) ==>
      var ch := Chain(paths[0].first, paths[0].edges, Lone(paths[1..]));
      LaidOut(Patterns(paths), ch) && forall i :: 0 <= i < |ch.edges| ==> ch.edges[i].fromNode == NodeOf(ch, i)
  {
    hide ParseMatchPatterns, Patterns, Linked, LaidOut, EdgePatterns;
    var none: seq<Path> := [];
    NoPatterns();
    NoneLinked();
    paths := ParsedPaths(ts, pos, none);
    if forall i :: 1 <= i < |paths| ==> paths[i].edges == [] {
      var ch := Chain(paths[0].first, paths[0].edges, Lone(paths[1..]));
      assert paths == [paths[0]] + paths[1..];
      assert forall i :: 0 <= i < |paths[1..]| ==> paths[1..][i] == paths[i + 1];
      LonePatterns(paths[0], paths[1..]);
      ChainIsLaidOut(Patterns(paths), paths[0], paths[1..]);
      FirstIsLinked(ch, paths[0]);
      assert Linked(paths[0]);
    }
  }

  lemma NoneLinked()
    ensures AllLinked([])
  {
  }

  lemma ChainIsLaidOut(ps: seq<Pattern>, head: Path, others: seq<Path>)
    requires ps == [NodePat(head.first)] + EdgePatterns(head.edges) + LoneNodes(others)
    ensures LaidOut(ps, Chain(head.first, head.edges, Lone(others)))
  {
  }

  lemma FirstIsLinked(ch: Chain, p: Path)
    requires ch.first == p.first && ch.edges == p.edges
    ensures Linked(p) ==> forall i :: 0 <= i < |ch.edges| ==> ch.edges[i].fromNode == NodeOf(ch, i)
  {
    forall i | 0 <= i < |p.edges| ensures EndOf(p.first, p.edges[..i]) == NodeOf(ch, i) {
    }
  }
}
