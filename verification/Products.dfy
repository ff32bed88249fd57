/** Standalone node patterns multiply the matches, and the whole plan of a chain yields its matches. */
module Products {
  import opened Prelude
  import opened Values
  import opened Ast
  import opened GraphStore
  import opened Planner
  import opened Semantics
  import opened Chains
  import opened Bindings
  import opened Matching
  import opened Expansions
  import opened MatchTheorem

  // ---------- rows extend the outer row ----------

  ghost predicate Agrees(t: Tuple, parent: Tuple) {
    forall key :: key in parent ==> key in t && t[key] == parent[key]
  }

  /** `extra` changes nothing that `parent` says. */
  ghost predicate Harmless(extra: Tuple, parent: Tuple) {
    forall key :: key in extra && key in parent ==> extra[key] == parent[key]
  }

  lemma NodeEntriesHarmless(parent: Tuple, v: string, n: Node)
    requires Dotless(v) && (Unbound(parent, v) || Held(parent, v, n))
    ensures Harmless(NodeEntries(v, n), parent)
  {
    forall key | key in DotProps(v, n.properties) && key in parent
      ensures DotProps(v, n.properties)[key] == parent[key] && key != v
    {
      var k :| k in n.properties && key == PropKey(v, k);
      PropKeyIsNoName(v, k, v);
    }
  }

  lemma DotPropsApart(parent: Tuple, v: string, props: map<string, Value>)
    requires Unbound(parent, v)
    ensures forall key :: key in DotProps(v, props) ==> key !in parent
  {
    forall key | key in DotProps(v, props)
      ensures key !in parent
    {
      var k :| k in props && key == PropKey(v, k);
    }
  }

  lemma EdgeEntriesHarmless(parent: Tuple, v: string, e: Edge)
    requires Unbound(parent, v)
    ensures Harmless(EdgeEntries(v, e), parent)
  {
    hide DotProps, PropKey;
    DotPropsApart(parent, v, e.properties);
    assert PropKey(v, "edge_type") !in parent;
  }

  lemma AgreesAfter(t: Tuple, extra: Tuple, parent: Tuple)
    requires Agrees(t, parent) && Harmless(extra, parent)
    ensures Agrees(t + extra, parent)
  {
  }

  lemma TakeStepAgrees(ch: Chain, parent: Tuple, g: Graph, k: nat, t: Tuple, s: Step)
    requires AllDotless(ch) && ParentOk(ch, parent, g) && k < |ch.edges| && Agrees(t, parent)
    ensures Agrees(TakeStep(ch, g, k, t, s), parent)
  {
    hide NodeEntries, EdgeEntries, Agrees, Harmless;
    var v := NodeVar(ch, k + 1);
    NodeEntriesHarmless(parent, v, NodeIn(g, s.node));
    AgreesAfter(t, NodeEntries(v, NodeIn(g, s.node)), parent);
    var r := ch.edges[k].variable;
    if s.Along? && r.Some? {
      EdgeEntriesHarmless(parent, r.value, EdgeIn(g, s.edge));
      AgreesAfter(BindNode(t, v, NodeIn(g, s.node)), EdgeEntries(r.value, EdgeIn(g, s.edge)), parent);
    }
  }

  lemma {:induction false} StepsRowAgrees(ch: Chain, parent: Tuple, g: Graph, start: NodeId, steps: seq<Step>)
    requires AllDotless(ch) && ParentOk(ch, parent, g) && |steps| <= |ch.edges|
    requires Candidate(g, parent, NodeVar(ch, 0), ch.first.labels, start)
    ensures Agrees(StepsRow(ch, parent, g, start, steps), parent)
    decreases |steps|
  {
    hide TakeStep, NodeEntries, Agrees, Harmless;
    if steps == [] {
      NodeEntriesHarmless(parent, NodeVar(ch, 0), NodeIn(g, start));
      assert Agrees(parent, parent) by { AgreesSelf(parent); }
      AgreesAfter(parent, NodeEntries(NodeVar(ch, 0), NodeIn(g, start)), parent);
    } else {
      StepsRowAgrees(ch, parent, g, start, steps[..|steps| - 1]);
      TakeStepAgrees(ch, parent, g, |steps| - 1, StepsRow(ch, parent, g, start, steps[..|steps| - 1]), steps[|steps| - 1]);
      StepsRowLast(ch, parent, g, start, steps);
    }
  }

  lemma AgreesSelf(t: Tuple)
    ensures Agrees(t, t)
  {
  }

  lemma {:induction false} OthersRowAgrees(ch: Chain, parent: Tuple, g: Graph, t: Tuple, others: seq<NodeId>)
    requires AllDotless(ch) && ParentOk(ch, parent, g) && |others| <= |ch.others| && Agrees(t, parent)
    ensures Agrees(OthersRow(ch, g, t, others), parent)
    decreases |others|
  {
    hide NodeEntries, Agrees, Harmless, OtherVar;
    if others != [] {
      var n := |others| - 1;
      OthersRowAgrees(ch, parent, g, t, others[..n]);
      NodeEntriesHarmless(parent, OtherVar(ch, n), NodeIn(g, others[n]));
      AgreesAfter(OthersRow(ch, g, t, others[..n]), NodeEntries(OtherVar(ch, n), NodeIn(g, others[n])), parent);
    }
  }

  lemma RowAgrees(ch: Chain, parent: Tuple, g: Graph, m: Match)
    requires WellNamed(ch) && ParentOk(ch, parent, g) && IsMatch(ch, parent, g, m)
    ensures Agrees(MatchRow(ch, parent, g, m), parent)
  {
    StepsRowAgrees(ch, parent, g, m.start, m.steps);
    OthersRowAgrees(ch, parent, g, StepsRow(ch, parent, g, m.start, m.steps), m.others);
  }

  // ---------- one standalone node ----------

  /** The `j`-th standalone node as a chain of its own. */
  function Alone(ch: Chain, j: nat): Chain
    requires j < |ch.others|
  {
    Chain(ch.others[j], [], [])
  }

  lemma AloneIsOk(ch: Chain, parent: Tuple, g: Graph, j: nat)
    requires WellShaped(ch) && WellNamed(ch) && ParentOk(ch, parent, g) && j < |ch.others|
    ensures WellNamed(Alone(ch, j)) && ParentOk(Alone(ch, j), parent, g)
    ensures NodeVar(Alone(ch, j), 0) == OtherVar(ch, j) && StartPlan(Alone(ch, j)) == OtherPlan(ch, j)
  {
    assert ch.others[j].variable.Some?;
    assert Unbound(parent, OtherVar(ch, j));
    assert NodeVar(Alone(ch, j), 0) == OtherVar(ch, j);
  }

  /** A match of a single node pattern. */
  predicate Single(n: Match) {
    n.steps == [] && n.others == [] && |n.copies| == 1
  }

  function WithOther(m: Match, n: Match): Match {
    m.(others := m.others + [n.start], copies := m.copies + n.copies)
  }

  /** The match with `j + 1` standalone nodes splits into one with `j` and the last node alone. */
  predicate Splits(x: Match, j: nat) {
    |x.others| == j + 1 && |x.copies| == j + 2
  }

  function FrontOf(x: Match, j: nat): Match
    requires Splits(x, j)
  {
    x.(others := x.others[..j], copies := x.copies[..j + 1])
  }

  function LastOf(x: Match, j: nat): (n: Match)
    requires Splits(x, j)
    ensures Single(n)
  {
    Match(x.others[j], [], [], [x.copies[j + 1]])
  }

  lemma SplitJoins(x: Match, m: Match, n: Match, j: nat)
    requires Single(n) && |m.others| == j && |m.copies| == j + 1
    ensures x == WithOther(m, n) <==> Splits(x, j) && FrontOf(x, j) == m && LastOf(x, j) == n
  {
    if Splits(x, j) {
      assert x.others == x.others[..j] + [x.others[j]];
      assert x.copies == x.copies[..j + 1] + [x.copies[j + 1]];
    }
    var y := WithOther(m, n);
    assert Splits(y, j) && FrontOf(y, j) == m && LastOf(y, j) == n;
  }

  /** Node `id`, in one of its occurrences, may stand for the `j`-th standalone pattern. */
  ghost predicate OtherOk(ch: Chain, g: Graph, j: nat, id: NodeId, copy: nat)
    requires j < |ch.others|
  {
    && id in g.nodes && Carries(g.nodes[id], ch.others[j].labels) && PropertiesHold(g.nodes[id], ch.others[j].properties)
    && copy < Times(NodeIn(g, id), ch.others[j].labels)
  }

  lemma AloneMatches(ch: Chain, parent: Tuple, g: Graph, j: nat, m: Match)
    requires WellShaped(ch) && ParentOk(ch, parent, g) && j < |ch.others|
    ensures PartMatch(Alone(ch, j), parent, g, 0, 0, m) <==> Single(m) && OtherOk(ch, g, j, m.start, m.copies[0])
  {
    hide PropertiesHold;
    assert ch.others[j].variable.Some?;
    assert Unbound(parent, OtherVar(ch, j));
    assert NodeVar(Alone(ch, j), 0) == OtherVar(ch, j);
  }

  lemma MergedRow(t: Tuple, parent: Tuple, v: string, n: Node)
    requires Agrees(t, parent)
    ensures t + BindNode(parent, v, n) == BindNode(t, v, n)
  {
    hide NodeEntries;
    var extra := NodeEntries(v, n);
    assert t + parent == t;
    assert t + (parent + extra) == (t + parent) + extra;
  }

  function PairWith(m: Match, ns: seq<Match>): (r: seq<Match>)
    ensures |r| == |ns|
  {
    seq(|ns|, i requires 0 <= i < |ns| => WithOther(m, ns[i]))
  }

  lemma PairedRow(ch: Chain, parent: Tuple, g: Graph, j: nat, m: Match, n: Match)
    requires WellShaped(ch) && WellNamed(ch) && ParentOk(ch, parent, g) && j < |ch.others|
    requires IsMatch(ch, parent, g, m) && |m.others| == j && Single(n)
    ensures MatchRow(ch, parent, g, m) + MatchRow(Alone(ch, j), parent, g, n) == MatchRow(ch, parent, g, WithOther(m, n))
  {
    hide BindNode, StepsOk, OthersOk, CopiesOk, Candidate, WellNamed, ParentOk, PropertiesHold, StepsRow, NodeIn;
    RowAgrees(ch, parent, g, m);
    AloneIsOk(ch, parent, g, j);
    var t := StepsRow(ch, parent, g, m.start, m.steps);
    AloneRow(ch, parent, g, j, n);
    MergedRow(MatchRow(ch, parent, g, m), parent, OtherVar(ch, j), NodeIn(g, n.start));
    assert (m.others + [n.start])[..j] == m.others;
  }

  lemma AloneRow(ch: Chain, parent: Tuple, g: Graph, j: nat, n: Match)
    requires j < |ch.others| && ch.others[j].variable.Some? && Single(n)
    ensures MatchRow(Alone(ch, j), parent, g, n) == BindNode(parent, OtherVar(ch, j), NodeIn(g, n.start))
  {
    hide BindNode;
    assert NodeVar(Alone(ch, j), 0) == OtherVar(ch, j);
  }

  lemma PairsAre(m: Match, ns: seq<Match>, j: nat, x: Match)
    requires |m.others| == j && |m.copies| == j + 1 && forall n :: n in ns ==> Single(n)
    ensures x in PairWith(m, ns) <==> Splits(x, j) && FrontOf(x, j) == m && LastOf(x, j) in ns
  {
    hide FrontOf, LastOf, WithOther, Single, Splits;
    if x in PairWith(m, ns) {
      var i :| 0 <= i < |ns| && x == WithOther(m, ns[i]);
      assert ns[i] in ns;
      SplitJoins(x, m, ns[i], j);
    }
    if Splits(x, j) && FrontOf(x, j) == m && LastOf(x, j) in ns {
      var i :| 0 <= i < |ns| && ns[i] == LastOf(x, j);
      SplitJoins(x, m, ns[i], j);
      assert PairWith(m, ns)[i] == x;
    }
  }

  lemma PairsDistinct(m: Match, ns: seq<Match>, j: nat)
    requires |m.others| == j && |m.copies| == j + 1
    requires Distinct(ns) && forall n :: n in ns ==> Single(n)
    ensures Distinct(PairWith(m, ns))
  {
    hide FrontOf, LastOf, WithOther, Single, Splits;
    var r := PairWith(m, ns);
    forall a, b | 0 <= a < b < |r|
      ensures r[a] != r[b]
    {
      assert ns[a] in ns && ns[b] in ns;
      SplitJoins(r[a], m, ns[a], j);
      SplitJoins(r[b], m, ns[b], j);
    }
  }

  lemma OneRowPairs(ch: Chain, parent: Tuple, c: Ctx, j: nat, m: Match, rs: seq<Tuple>, ns: seq<Match>)
    requires WellShaped(ch) && WellNamed(ch) && ParentOk(ch, parent, c.g) && j < |ch.others|
    requires IsMatch(ch, parent, c.g, m) && |m.others| == j && |m.copies| == j + 1
    requires RowsFor(Alone(ch, j), parent, c.g, rs, ns) && forall n :: n in ns ==> Single(n)
    ensures RowsFor(ch, parent, c.g, MergeWith(MatchRow(ch, parent, c.g, m), rs), PairWith(m, ns))
  {
    hide MatchRow, WellShaped, WellNamed, ParentOk, IsMatch;
    PairsDistinct(m, ns, j);
    forall i | 0 <= i < |ns|
      ensures MatchRow(ch, parent, c.g, m) + rs[i] == MatchRow(ch, parent, c.g, PairWith(m, ns)[i])
    {
      assert ns[i] in ns;
      PairedRow(ch, parent, c.g, j, m, ns[i]);
    }
  }

  /** `x` pairs one of `ms` with one of `ns`. */
  ghost predicate Paired(j: nat, ms: seq<Match>, ns: seq<Match>, x: Match) {
    Splits(x, j) && FrontOf(x, j) in ms && LastOf(x, j) in ns
  }

  lemma PairsOfLast(j: nat, ms: seq<Match>, ns: seq<Match>, x: Match)
    requires ms != [] && |ms[|ms| - 1].others| == j && |ms[|ms| - 1].copies| == j + 1 && forall n :: n in ns ==> Single(n)
    ensures Paired(j, ms, ns, x) <==> Paired(j, ms[..|ms| - 1], ns, x) || x in PairWith(ms[|ms| - 1], ns)
  {
    hide FrontOf, LastOf, WithOther, Single;
    var front, m := ms[..|ms| - 1], ms[|ms| - 1];
    assert ms == front + [m];
    PairsAre(m, ns, j, x);
  }

  lemma {:induction false} ProductMatches(ch: Chain, parent: Tuple, c: Ctx, j: nat, ls: seq<Tuple>, ms: seq<Match>, rs: seq<Tuple>, ns: seq<Match>)
    returns (out: seq<Match>)
    requires WellShaped(ch) && WellNamed(ch) && ParentOk(ch, parent, c.g) && j < |ch.others|
    requires RowsFor(ch, parent, c.g, ls, ms) && forall m :: m in ms ==> IsMatch(ch, parent, c.g, m) && |m.others| == j && |m.copies| == j + 1
    requires RowsFor(Alone(ch, j), parent, c.g, rs, ns) && forall n :: n in ns ==> Single(n)
    ensures RowsFor(ch, parent, c.g, Product(ls, rs), out)
    ensures forall x :: x in out <==> Paired(j, ms, ns, x)
    decreases |ls|
  {
    hide MatchRow, WellShaped, WellNamed, ParentOk, IsMatch, MergeWith, Alone, FrontOf, LastOf, Single;
    if ls == [] {
      out := [];
    } else {
      var n := |ls| - 1;
      var m := ms[n];
      LastApart(ms);
      assert m in ms;
      assert RowsFor(ch, parent, c.g, ls[..n], ms[..n]);
      var front := ProductMatches(ch, parent, c, j, ls[..n], ms[..n], rs, ns);
      OneRowPairs(ch, parent, c, j, m, rs, ns);
      forall x
        ensures Paired(j, ms, ns, x) <==> x in front || x in PairWith(m, ns)
        ensures x in front ==> x !in PairWith(m, ns)
      {
        PairsOfLast(j, ms, ns, x);
        PairsAre(m, ns, j, x);
      }
      RowsForAppend(ch, parent, c.g, Product(ls[..n], rs), front, MergeWith(ls[n], rs), PairWith(m, ns));
      out := front + PairWith(m, ns);
    }
  }
}
