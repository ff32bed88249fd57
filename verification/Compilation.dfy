/** The main theorem on MATCH: planning then executing a chain pattern yields its matches. */
module Compilation {
  import opened StableSort
  import Ordering
  import opened Prelude
  import opened Values
  import opened Ast
  import opened GraphStore
  import opened Planner
  import opened Semantics
  import opened Chains
  import opened Bindings
  import opened Matching
  import opened Expansions
  import opened MatchTheorem
  import opened Products

  // ---------- products of standalone nodes ----------

  lemma OthersOkExtends(ch: Chain, g: Graph, m: Match, j: nat)
    requires Splits(m, j) && j < |ch.others|
    ensures OthersOk(ch, g, m) <==>
      OthersOk(ch, g, FrontOf(m, j)) && m.others[j] in g.nodes && Carries(g.nodes[m.others[j]], ch.others[j].labels)
      && PropertiesHold(g.nodes[m.others[j]], ch.others[j].properties)
  {
    hide PropertiesHold, Carries;
    var p := FrontOf(m, j);
    assert forall i :: 0 <= i < j ==> p.others[i] == m.others[i];
  }

  lemma CopiesOkExtends(ch: Chain, parent: Tuple, g: Graph, m: Match, j: nat)
    requires Splits(m, j) && j < |ch.others|
    ensures CopiesOk(ch, parent, g, m) <==>
      CopiesOk(ch, parent, g, FrontOf(m, j)) && m.copies[j + 1] < Times(NodeIn(g, m.others[j]), ch.others[j].labels)
  {
    hide Times, Repeats;
    var p := FrontOf(m, j);
    assert forall i :: 0 <= i < j ==> p.others[i] == m.others[i] && p.copies[i + 1] == m.copies[i + 1];
    assert p.copies[0] == m.copies[0];
  }

  lemma NextOther(ch: Chain, parent: Tuple, g: Graph, j: nat, m: Match)
    requires j < |ch.others|
    ensures PartMatch(ch, parent, g, |ch.edges|, j + 1, m) <==>
      Splits(m, j) && PartMatch(ch, parent, g, |ch.edges|, j, FrontOf(m, j)) && OtherOk(ch, g, j, m.others[j], m.copies[j + 1])
  {
    hide StepOk, PropertiesHold, OthersOk, Candidate, CopiesOk;
    if |m.others| == j + 1 {
      CopiesLength(ch, parent, g, m);
    }
    if Splits(m, j) && |m.steps| == |ch.edges| {
      OthersOkExtends(ch, g, m, j);
      CopiesOkExtends(ch, parent, g, m, j);
      SameSteps(ch, g, m, FrontOf(m, j));
    }
  }

  lemma CopiesLength(ch: Chain, parent: Tuple, g: Graph, m: Match)
    requires |m.others| <= |ch.others|
    ensures CopiesOk(ch, parent, g, m) ==> |m.copies| == 1 + |m.others|
  {
  }

  lemma SameSteps(ch: Chain, g: Graph, m: Match, p: Match)
    requires m.start == p.start && m.steps == p.steps && |m.steps| <= |ch.edges|
    ensures StepsOk(ch, g, m) == StepsOk(ch, g, p)
  {
    hide StepOk, PropertiesHold;
    forall i | 0 <= i <= |m.steps| ensures At(m, i) == At(p, i) {}
  }

  lemma PairedMembers(ch: Chain, parent: Tuple, g: Graph, j: nat, ms: seq<Match>, ns: seq<Match>, x: Match)
    requires WellShaped(ch) && ParentOk(ch, parent, g) && j < |ch.others|
    requires forall m :: m in ms <==> PartMatch(ch, parent, g, |ch.edges|, j, m)
    requires forall n :: n in ns <==> PartMatch(Alone(ch, j), parent, g, 0, 0, n)
    ensures Paired(j, ms, ns, x) <==> PartMatch(ch, parent, g, |ch.edges|, j + 1, x)
  {
    hide PartMatch, OtherOk, WellShaped, ParentOk, Alone;
    NextOther(ch, parent, g, j, x);
    if Splits(x, j) {
      var p, n := FrontOf(x, j), LastOf(x, j);
      assert p in ms <==> PartMatch(ch, parent, g, |ch.edges|, j, p);
      AloneMatches(ch, parent, g, j, n);
      assert n in ns <==> PartMatch(Alone(ch, j), parent, g, 0, 0, n);
    }
  }

  lemma CartesianRows(left: PlanNode, right: PlanNode, parent: Tuple, c: Ctx, ls: seq<Tuple>, rs: seq<Tuple>)
    requires Rows(left, parent, c) == Ok(ls) && Rows(right, parent, c) == Ok(rs)
    ensures Rows(CartesianProduct(left, right), parent, c) == Ok(Product(ls, rs))
  {
    hide Product, PlanDepth, Eval, FilterRows, ProjectRows, KeyedRows, ExpandRows, ScanRows, ScanByLabel, NodesOf, Ordering.RowsOf, StableSort.Sort, Descending;
    var r := Rows(CartesianProduct(left, right), parent, c);
  }

  lemma AloneShape(ch: Chain, parent: Tuple, g: Graph, j: nat, ns: seq<Match>)
    requires j < |ch.others|
    requires forall n :: n in ns <==> PartMatch(Alone(ch, j), parent, g, 0, 0, n)
    ensures forall n :: n in ns ==> Single(n)
  {
    hide StepsOk, OthersOk, Candidate, PropertiesHold, Repeats;
  }

  lemma {:induction false} ProductRows(ch: Chain, parent: Tuple, c: Ctx, j: nat) returns (rows: seq<Tuple>, ms: seq<Match>)
    requires StoreOk(c) && WellShaped(ch) && WellNamed(ch) && ParentOk(ch, parent, c.g) && j <= |ch.others|
    ensures Rows(ProductPlan(ch, j), parent, c) == Ok(rows) && Lists(ch, parent, c.g, |ch.edges|, j, rows, ms)
    decreases j
  {
    hide RowsFor, PartMatch, WellShaped, WellNamed, ParentOk, StoreOk, ChainPlan, StartPlan, OtherPlan, Alone, Product, Rows, WithOther;
    if j == 0 {
      rows, ms := ChainRows(ch, parent, c, |ch.edges|);
    } else {
      var ls, lms := ProductRows(ch, parent, c, j - 1);
      AloneIsOk(ch, parent, c.g, j - 1);
      var rs, ns := StartRows(Alone(ch, j - 1), parent, c);
      AloneShape(ch, parent, c.g, j - 1, ns);
      forall m | m in lms ensures IsMatch(ch, parent, c.g, m) && |m.others| == j - 1 && |m.copies| == j {
        PartIsMatch(ch, parent, c.g, |ch.edges|, j - 1, m);
      }
      ms := ProductMatches(ch, parent, c, j - 1, ls, lms, rs, ns);
      rows := Product(ls, rs);
      CartesianRows(ProductPlan(ch, j - 1), OtherPlan(ch, j - 1), parent, c, ls, rs);
      forall x ensures x in ms <==> PartMatch(ch, parent, c.g, |ch.edges|, j, x) {
        PairedMembers(ch, parent, c.g, j - 1, lms, ns, x);
      }
    }
  }

  lemma PartIsMatch(ch: Chain, parent: Tuple, g: Graph, k: nat, j: nat, m: Match)
    requires PartMatch(ch, parent, g, k, j, m)
    ensures IsMatch(ch, parent, g, m) && |m.others| == j && |m.copies| == j + 1
  {
  }

  // ---------- the filter over all inline properties ----------

  lemma {:induction false} OthersFrame(ch: Chain, g: Graph, t: Tuple, others: seq<NodeId>, w: string, n: Node)
    requires AllDotless(ch) && |others| <= |ch.others| && Dotless(w) && Bound(t, w, n)
    requires forall i :: 0 <= i < |others| ==> OtherVar(ch, i) != w
    ensures Bound(OthersRow(ch, g, t, others), w, n)
    decreases |others|
  {
    hide Bound, BindNode, OtherVar;
    if others != [] {
      var k := |others| - 1;
      OthersFrame(ch, g, t, others[..k], w, n);
      BindNodeFrame(OthersRow(ch, g, t, others[..k]), OtherVar(ch, k), NodeIn(g, others[k]), w);
      SameForBound(OthersRow(ch, g, t, others[..k]), OthersRow(ch, g, t, others), w, n);
    }
  }

  lemma {:induction false} OthersLeaveUnbound(ch: Chain, g: Graph, t: Tuple, others: seq<NodeId>, w: string)
    requires AllDotless(ch) && |others| <= |ch.others| && Dotless(w) && Unbound(t, w)
    requires forall i :: 0 <= i < |others| ==> OtherVar(ch, i) != w
    ensures Unbound(OthersRow(ch, g, t, others), w)
    decreases |others|
  {
    hide Unbound, BindNode, OtherVar;
    if others != [] {
      var k := |others| - 1;
      OthersLeaveUnbound(ch, g, t, others[..k], w);
      BindNodeFrame(OthersRow(ch, g, t, others[..k]), OtherVar(ch, k), NodeIn(g, others[k]), w);
      SameForBound(OthersRow(ch, g, t, others[..k]), OthersRow(ch, g, t, others), w, NodeIn(g, others[k]));
    }
  }

  /** The row holds the `j`-th standalone node. */
  lemma {:induction false} OtherIsBound(ch: Chain, g: Graph, t: Tuple, others: seq<NodeId>, j: nat)
    requires AllDotless(ch) && OthersApart(ch) && j < |others| <= |ch.others|
    requires forall i :: 0 <= i < |ch.others| ==> Unbound(t, OtherVar(ch, i))
    ensures Bound(OthersRow(ch, g, t, others), OtherVar(ch, j), NodeIn(g, others[j]))
    decreases |others|
  {
    hide Bound, Unbound, BindNode, OtherVar;
    var k := |others| - 1;
    var before := OthersRow(ch, g, t, others[..k]);
    if j == k {
      assert forall i :: 0 <= i < k ==> OtherVar(ch, i) != OtherVar(ch, k);
      OthersLeaveUnbound(ch, g, t, others[..k], OtherVar(ch, k));
      BindNodeBinds(before, OtherVar(ch, k), NodeIn(g, others[k]));
    } else {
      OtherIsBound(ch, g, t, others[..k], j);
      assert OtherVar(ch, j) != OtherVar(ch, k);
      BindNodeFrame(before, OtherVar(ch, k), NodeIn(g, others[k]), OtherVar(ch, j));
      SameForBound(before, OthersRow(ch, g, t, others), OtherVar(ch, j), NodeIn(g, others[j]));
    }
  }

  lemma FirstInRow(ch: Chain, parent: Tuple, g: Graph, m: Match)
    requires WellNamed(ch) && ParentOk(ch, parent, g) && IsMatch(ch, parent, g, m)
    ensures Bound(MatchRow(ch, parent, g, m), NodeVar(ch, 0), NodeIn(g, m.start))
  {
    hide Bound, StepsRow, StepsOk, OthersOk, Candidate, NodeVar, ParentOk, PropertiesHold;
    StepsRowBinds(ch, parent, g, m.start, m.steps, 0);
    OthersFrame(ch, g, StepsRow(ch, parent, g, m.start, m.steps), m.others, NodeVar(ch, 0), NodeIn(g, m.start));
  }

  lemma OtherInRow(ch: Chain, parent: Tuple, g: Graph, m: Match, j: nat)
    requires WellNamed(ch) && ParentOk(ch, parent, g) && IsMatch(ch, parent, g, m) && j < |m.others|
    ensures Bound(MatchRow(ch, parent, g, m), OtherVar(ch, j), NodeIn(g, m.others[j]))
  {
    hide Bound, Unbound, StepsRow, StepsOk, OthersOk, Candidate, NodeVar, OtherVar, PropertiesHold;
    var t := StepsRow(ch, parent, g, m.start, m.steps);
    forall i | 0 <= i < |ch.others| ensures Unbound(t, OtherVar(ch, i)) {
      assert forall k :: 0 <= k <= |ch.edges| ==> OtherVar(ch, i) != NodeVar(ch, k);
      StepsLeaveUnbound(ch, parent, g, m.start, m.steps, OtherVar(ch, i));
    }
    OtherIsBound(ch, g, t, m.others, j);
  }

  /** The rows of full matches pass the predicate over all inline properties of node patterns. */
  lemma {:induction false} GlobalPasses(ps: seq<Pattern>, ch: Chain, parent: Tuple, c: Ctx, m: Match, i: nat)
    requires LaidOut(ps, ch) && WellShaped(ch) && WellNamed(ch) && ParentOk(ch, parent, c.g) && i <= |ps|
    requires PartMatch(ch, parent, c.g, |ch.edges|, |ch.others|, m)
    ensures Passes(GlobalPredicate(ps, i), MatchRow(ch, parent, c.g, m), c)
    decreases i
  {
    hide LaidOut, WellShaped, WellNamed, ParentOk, PartMatch, GlobalPredicate, MatchRow, Passes;
    if i == 0 {
      GlobalStart(ps, MatchRow(ch, parent, c.g, m), c);
    } else {
      GlobalPasses(ps, ch, parent, c, m, i - 1);
      GlobalStep(ps, ch, parent, c, m, i - 1);
    }
  }

  lemma GlobalStart(ps: seq<Pattern>, t: Tuple, c: Ctx)
    ensures Passes(GlobalPredicate(ps, 0), t, c)
  {
  }

  lemma GlobalStep(ps: seq<Pattern>, ch: Chain, parent: Tuple, c: Ctx, m: Match, i: nat)
    requires LaidOut(ps, ch) && WellShaped(ch) && WellNamed(ch) && ParentOk(ch, parent, c.g) && i < |ps|
    requires PartMatch(ch, parent, c.g, |ch.edges|, |ch.others|, m)
    requires Passes(GlobalPredicate(ps, i), MatchRow(ch, parent, c.g, m), c)
    ensures Passes(GlobalPredicate(ps, i + 1), MatchRow(ch, parent, c.g, m), c)
  {
    hide Bound, MatchRow, WellNamed, ParentOk, PropertiesHold, Passes, ConjoinProperties, StepsOk, Candidate;
    var t, e := MatchRow(ch, parent, c.g, m), GlobalPredicate(ps, i);
    if i == 0 {
      assert NodeOf(ch, 0).variable.Some?;
      FirstInRow(ch, parent, c.g, m);
      ConjoinMeans(e, t, NodeVar(ch, 0), NodeIn(c.g, m.start), ch.first.properties, c);
      CandidateStored(ch, parent, c.g, m);
    } else if |ch.edges| < i {
      var j := i - |ch.edges| - 1;
      assert ch.others[j].variable.Some?;
      OtherInRow(ch, parent, c.g, m, j);
      ConjoinMeans(e, t, OtherVar(ch, j), NodeIn(c.g, m.others[j]), ch.others[j].properties, c);
    }
  }

  lemma CandidateStored(ch: Chain, parent: Tuple, g: Graph, m: Match)
    requires IsMatch(ch, parent, g, m)
    ensures NodeIn(g, m.start) == g.nodes[m.start] && PropertiesHold(NodeIn(g, m.start), ch.first.properties)
  {
  }

  // ---------- the theorem ----------

  /** `m` matches the whole pattern. */
  ghost predicate FullMatch(ch: Chain, parent: Tuple, g: Graph, m: Match) {
    PartMatch(ch, parent, g, |ch.edges|, |ch.others|, m)
  }

  /** `rows` are the rows of `ms`, and `ms` lists every match of the pattern exactly once. A match that finds
      its start or a standalone node by a label the node lists twice is two matches. */
  ghost predicate Represents(ch: Chain, parent: Tuple, g: Graph, rows: seq<Tuple>, ms: seq<Match>) {
    && |rows| == |ms| && Distinct(ms)
    && (forall i :: 0 <= i < |ms| ==> rows[i] == MatchRow(ch, parent, g, ms[i]))
    && (forall m :: m in ms <==> FullMatch(ch, parent, g, m))
  }

  lemma GlobalRows(ps: seq<Pattern>, ch: Chain, parent: Tuple, c: Ctx, p: PlanNode, rows: seq<Tuple>, ms: seq<Match>)
    requires LaidOut(ps, ch) && WellShaped(ch) && WellNamed(ch) && ParentOk(ch, parent, c.g)
    requires Rows(p, parent, c) == Ok(rows) && Lists(ch, parent, c.g, |ch.edges|, |ch.others|, rows, ms)
    ensures Rows(FilterBy(p, GlobalPredicate(ps, |ps|)), parent, c) == Ok(rows)
  {
    hide MatchRow, WellShaped, WellNamed, ParentOk, PartMatch, GlobalPredicate, LaidOut, Rows, Eval, FilterRows;
    var e := GlobalPredicate(ps, |ps|);
    if e.Some? {
      forall i | 0 <= i < |rows|
        ensures IsTrue(Eval(e.value, rows[i], c))
      {
        assert ms[i] in ms;
        GlobalPasses(ps, ch, parent, c, ms[i], |ps|);
      }
      FilterAll(rows, e.value, c);
      FilterUnfolds(p, e.value, parent, c, rows);
    }
  }

  /** Planning and executing a chain pattern over any well-formed store, under any outer row that does
      not already speak of its variables (except possibly the first), yields exactly one row per match:
      no match is missing, none is repeated, and every row carries that match's bindings. How many matches
      differ only in the occurrences of labels is said in `Occurrences`. */
  lemma MatchRowsAreMatches(ps: seq<Pattern>, ch: Chain, parent: Tuple, c: Ctx) returns (ms: seq<Match>)
    requires LaidOut(ps, ch) && WellShaped(ch) && WellNamed(ch)
    requires StoreOk(c) && ParentOk(ch, parent, c.g)
    ensures PlanMatch(ps).Ok?
    ensures var rows := Rows(PlanMatch(ps).value, parent, c); rows.Ok? && Represents(ch, parent, c.g, rows.value, ms)
  {
    hide MatchRow, WellShaped, NodesApart, EdgesApart, OthersApart, AllDotless, ParentOk, PartMatch, GlobalPredicate, LaidOut, ProductPlan, PlanMatch, Rows;
    PlanOfChain(ps, ch);
    var rows;
    rows, ms := ProductRows(ch, parent, c, |ch.others|);
    GlobalRows(ps, ch, parent, c, ProductPlan(ch, |ch.others|), rows, ms);
  }
}
