/** Queries cannot tell a store from its reloaded twin: MATCH answers are the same up to order, whatever
    the order of the index lists and of the scan. */
module TwinQueries {
  import opened Prelude
  import opened Values
  import opened Ast
  import opened GraphStore
  import opened Traversal
  import opened Distances
  import opened Planner
  import opened Semantics
  import opened Chains
  import opened Bindings
  import opened Matching
  import opened MatchTheorem
  import opened Compilation
  import opened Reload

  ghost predicate SameContents(g: Graph, h: Graph) {
    g.nodes == h.nodes && g.edges == h.edges
  }

  lemma {:induction false} ReachesToo(g: Graph, h: Graph, types: seq<string>, dir: Direction, u: NodeId, v: NodeId, k: nat)
    requires SameContents(g, h) && Reaches(Net(g, types, dir), u, v, k)
    ensures Reaches(Net(h, types, dir), u, v, k)
    decreases k
  {
    hide Linked;
    if k > 0 {
      var w :| Reaches(Net(g, types, dir), u, w, k - 1) && Linked(Net(g, types, dir), w, v);
      ReachesToo(g, h, types, dir, u, w, k - 1);
      LinkedAlike(g, h, types, dir, w, v);
    }
  }

  lemma ReachesAlike(g: Graph, h: Graph, types: seq<string>, dir: Direction, u: NodeId, v: NodeId, k: nat)
    requires SameContents(g, h)
    ensures Reaches(Net(g, types, dir), u, v, k) <==> Reaches(Net(h, types, dir), u, v, k)
  {
    hide Reaches;
    if Reaches(Net(g, types, dir), u, v, k) {
      ReachesToo(g, h, types, dir, u, v, k);
    }
    if Reaches(Net(h, types, dir), u, v, k) {
      ReachesToo(h, g, types, dir, u, v, k);
    }
  }

  lemma LinkedAlike(g: Graph, h: Graph, types: seq<string>, dir: Direction, u: NodeId, v: NodeId)
    requires SameContents(g, h)
    ensures Linked(Net(g, types, dir), u, v) <==> Linked(Net(h, types, dir), u, v)
  {
    assert forall id, forward :: Leads(Net(g, types, dir), id, forward, u, v) <==> Leads(Net(h, types, dir), id, forward, u, v);
  }

  lemma BandAlike(g: Graph, h: Graph, types: seq<string>, dir: Direction, goal: Goal, v: NodeId, d: nat)
    requires SameContents(g, h)
    ensures Band(Net(g, types, dir), goal, v, d) <==> Band(Net(h, types, dir), goal, v, d)
  {
    hide Reaches;
    forall k: nat ensures Reaches(Net(g, types, dir), goal.start, v, k) <==> Reaches(Net(h, types, dir), goal.start, v, k) {
      ReachesAlike(g, h, types, dir, goal.start, v, k);
    }
  }

  lemma StepAlike(g: Graph, h: Graph, e: EdgePattern, from: NodeId, s: Step)
    requires SameContents(g, h)
    ensures StepOk(g, e, from, s) <==> StepOk(h, e, from, s)
  {
    hide Band;
    if e.depth.Some? {
      var goal := Goal(from, e.depth.value.min, e.depth.value.max);
      forall d ensures Band(Net(g, PathTypes(e.edgeType), e.direction), goal, s.node, d)
                   <==> Band(Net(h, PathTypes(e.edgeType), e.direction), goal, s.node, d)
      {
        BandAlike(g, h, PathTypes(e.edgeType), e.direction, goal, s.node, d);
      }
    }
  }

  lemma MatchAlike(ch: Chain, parent: Tuple, g: Graph, h: Graph, m: Match)
    requires SameContents(g, h)
    ensures FullMatch(ch, parent, g, m) <==> FullMatch(ch, parent, h, m)
  {
    hide StepOk, PropertiesHold;
    if |m.steps| <= |ch.edges| {
      forall i | 0 <= i < |m.steps|
        ensures StepOk(g, ch.edges[i], At(m, i), m.steps[i]) <==> StepOk(h, ch.edges[i], At(m, i), m.steps[i])
      {
        StepAlike(g, h, ch.edges[i], At(m, i), m.steps[i]);
      }
    }
  }

  lemma {:induction false} StepsRowAlike(ch: Chain, parent: Tuple, g: Graph, h: Graph, start: NodeId, steps: seq<Step>)
    requires SameContents(g, h) && |steps| <= |ch.edges|
    ensures StepsRow(ch, parent, g, start, steps) == StepsRow(ch, parent, h, start, steps)
    decreases |steps|
  {
    hide BindNode, BindEdge;
    if steps != [] {
      StepsRowAlike(ch, parent, g, h, start, steps[..|steps| - 1]);
    }
  }

  lemma {:induction false} OthersRowAlike(ch: Chain, g: Graph, h: Graph, t: Tuple, others: seq<NodeId>)
    requires SameContents(g, h) && |others| <= |ch.others|
    ensures OthersRow(ch, g, t, others) == OthersRow(ch, h, t, others)
    decreases |others|
  {
    hide BindNode;
    if others != [] {
      OthersRowAlike(ch, g, h, t, others[..|others| - 1]);
    }
  }

  lemma RowAlike(ch: Chain, parent: Tuple, g: Graph, h: Graph, m: Match)
    requires SameContents(g, h)
    ensures MatchRow(ch, parent, g, m) == MatchRow(ch, parent, h, m)
  {
    hide StepsRow, OthersRow;
    if Fits(ch, m) {
      StepsRowAlike(ch, parent, g, h, m.start, m.steps);
      OthersRowAlike(ch, g, h, StepsRow(ch, parent, g, m.start, m.steps), m.others);
    }
  }

  // ---------- permutations ----------

  lemma SameSetSameBag<T(!new)>(a: seq<T>, b: seq<T>)
    requires Distinct(a) && Distinct(b) && forall x :: x in a <==> x in b
    ensures multiset(a) == multiset(b)
  {
    DistinctCounts(a);
    DistinctCounts(b);
    forall x ensures multiset(a)[x] == multiset(b)[x] {
      MultisetIn(a, x);
      MultisetIn(b, x);
    }
  }

  function RowsOfMatches(ch: Chain, parent: Tuple, g: Graph, ms: seq<Match>): (r: seq<Tuple>)
    ensures |r| == |ms|
  {
    if ms == [] then [] else RowsOfMatches(ch, parent, g, ms[..|ms| - 1]) + [MatchRow(ch, parent, g, ms[|ms| - 1])]
  }

  lemma {:induction false} RowsAt(ch: Chain, parent: Tuple, g: Graph, ms: seq<Match>, rows: seq<Tuple>)
    requires |rows| == |ms| && forall i :: 0 <= i < |ms| ==> rows[i] == MatchRow(ch, parent, g, ms[i])
    ensures rows == RowsOfMatches(ch, parent, g, ms)
    decreases |ms|
  {
    hide MatchRow;
    if ms != [] {
      RowsAt(ch, parent, g, ms[..|ms| - 1], rows[..|ms| - 1]);
    }
  }

  lemma LastRow(ch: Chain, parent: Tuple, g: Graph, front: seq<Match>, m: Match)
    ensures multiset(RowsOfMatches(ch, parent, g, front + [m])) == multiset(RowsOfMatches(ch, parent, g, front)) + multiset{MatchRow(ch, parent, g, m)}
  {
    hide MatchRow;
    assert (front + [m])[..|front|] == front;
  }

  lemma {:induction false} RemoveRow(ch: Chain, parent: Tuple, g: Graph, ms: seq<Match>, i: nat)
    requires i < |ms|
    ensures multiset(RowsOfMatches(ch, parent, g, ms))
         == multiset(RowsOfMatches(ch, parent, g, ms[..i] + ms[i + 1..])) + multiset{MatchRow(ch, parent, g, ms[i])}
    decreases |ms|
  {
    hide MatchRow, RowsOfMatches;
    var n := |ms| - 1;
    assert ms == ms[..n] + [ms[n]];
    LastRow(ch, parent, g, ms[..n], ms[n]);
    if i == n {
      assert ms[..i] + ms[i + 1..] == ms[..n];
    } else {
      RemoveRow(ch, parent, g, ms[..n], i);
      var rest := ms[..n][..i] + ms[..n][i + 1..];
      assert ms[..i] + ms[i + 1..] == rest + [ms[n]];
      LastRow(ch, parent, g, rest, ms[n]);
    }
  }

  /** Permuted matches give permuted rows. */
  lemma {:induction false} PermutedRows(ch: Chain, parent: Tuple, g: Graph, a: seq<Match>, b: seq<Match>)
    requires multiset(a) == multiset(b)
    ensures multiset(RowsOfMatches(ch, parent, g, a)) == multiset(RowsOfMatches(ch, parent, g, b))
    decreases |a|
  {
    hide MatchRow;
    if a == [] {
      assert |multiset(b)| == 0;
    } else {
      var n := |a| - 1;
      assert a == a[..n] + [a[n]];
      assert a[n] in multiset(b);
      var i :| 0 <= i < |b| && b[i] == a[n];
      var rest := b[..i] + b[i + 1..];
      assert b == b[..i] + [b[i]] + b[i + 1..];
      assert multiset(a[..n]) == multiset(a) - multiset{a[n]};
      assert multiset(rest) == multiset(b) - multiset{b[i]};
      PermutedRows(ch, parent, g, a[..n], rest);
      RemoveRow(ch, parent, g, b, i);
    }
  }

  // ---------- the theorem ----------

  /** A chain MATCH over a store and over a twin of it, each scanned in any order, answers with the same
      rows, each as often. */
  lemma TwinsAnswerAlike(ps: seq<Pattern>, ch: Chain, parent: Tuple, c: Ctx, d: Ctx)
    requires LaidOut(ps, ch) && WellShaped(ch) && WellNamed(ch)
    requires StoreOk(c) && StoreOk(d) && Twins(c.g, d.g) && ParentOk(ch, parent, c.g)
    ensures PlanMatch(ps).Ok? && Rows(PlanMatch(ps).value, parent, c).Ok? && Rows(PlanMatch(ps).value, parent, d).Ok?
    ensures multiset(Rows(PlanMatch(ps).value, parent, c).value) == multiset(Rows(PlanMatch(ps).value, parent, d).value)
  {
    hide LaidOut, WellShaped, NodesApart, EdgesApart, OthersApart, AllDotless, StoreOk, PlanMatch, Rows, FullMatch, MatchRow, WellFormed;
    assert ParentOk(ch, parent, d.g);
    var ms := MatchRowsAreMatches(ps, ch, parent, c);
    var ns := MatchRowsAreMatches(ps, ch, parent, d);
    var rows, rows' := Rows(PlanMatch(ps).value, parent, c).value, Rows(PlanMatch(ps).value, parent, d).value;
    forall m ensures m in ms <==> m in ns {
      MatchAlike(ch, parent, c.g, d.g, m);
    }
    SameSetSameBag(ms, ns);
    RowsAt(ch, parent, c.g, ms, rows);
    forall i | 0 <= i < |ns| ensures rows'[i] == MatchRow(ch, parent, c.g, ns[i]) {
      RowAlike(ch, parent, c.g, d.g, ns[i]);
    }
    RowsAt(ch, parent, c.g, ns, rows');
    PermutedRows(ch, parent, c.g, ms, ns);
  }
}
