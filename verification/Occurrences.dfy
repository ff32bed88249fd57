/** How often a match occurs in the answer: a scan by label lists a node once for every time the node lists
    the label, so stores with repeated labels answer with repeated rows. */
module Occurrences {
  import opened Prelude
  import opened Values
  import opened Ast
  import opened GraphStore
  import opened Semantics
  import opened Chains
  import opened Planner
  import opened Bindings
  import opened Matching
  import opened MatchTheorem
  import opened Compilation
  import opened TwinQueries

  // ---------- counting vectors ----------

  /** Vectors of the length of `bounds` that stay below it everywhere. */
  predicate Below(v: seq<nat>, bounds: seq<nat>) {
    |v| == |bounds| && forall i :: 0 <= i < |v| ==> v[i] < bounds[i]
  }

  function ProductOf(bounds: seq<nat>): nat {
    if bounds == [] then 1 else ProductOf(bounds[..|bounds| - 1]) * bounds[|bounds| - 1]
  }

  function AppendEach(vs: seq<seq<nat>>, k: nat): (r: seq<seq<nat>>)
    ensures |r| == |vs| && forall i :: 0 <= i < |vs| ==> r[i] == vs[i] + [k]
  {
    seq(|vs|, i requires 0 <= i < |vs| => vs[i] + [k])
  }

  function Cross(vs: seq<seq<nat>>, n: nat): seq<seq<nat>> {
    if n == 0 then [] else Cross(vs, n - 1) + AppendEach(vs, n - 1)
  }

  /** All vectors below `bounds`. */
  function Vectors(bounds: seq<nat>): seq<seq<nat>> {
    if bounds == [] then [[]] else Cross(Vectors(bounds[..|bounds| - 1]), bounds[|bounds| - 1])
  }

  ghost predicate Ends(vs: seq<seq<nat>>, v: seq<nat>, n: nat) {
    v != [] && v[|v| - 1] < n && v[..|v| - 1] in vs
  }

  lemma AppendEachDistinct(vs: seq<seq<nat>>, k: nat)
    requires Distinct(vs)
    ensures Distinct(AppendEach(vs, k))
  {
    var r := AppendEach(vs, k);
    forall i, j | 0 <= i < j < |r| ensures r[i] != r[j] {
      assert r[i][..|r[i]| - 1] == vs[i] && r[j][..|r[j]| - 1] == vs[j];
    }
  }

  lemma AppendEachIs(vs: seq<seq<nat>>, k: nat, v: seq<nat>)
    ensures v in AppendEach(vs, k) <==> v != [] && v[|v| - 1] == k && v[..|v| - 1] in vs
  {
    var r := AppendEach(vs, k);
    if v in r {
      var i :| 0 <= i < |r| && r[i] == v;
      assert v[..|v| - 1] == vs[i];
    }
    if v != [] && v[|v| - 1] == k && v[..|v| - 1] in vs {
      var i :| 0 <= i < |vs| && vs[i] == v[..|v| - 1];
      assert v == vs[i] + [k];
      assert r[i] == v;
    }
  }

  lemma {:induction false} CrossSize(vs: seq<seq<nat>>, n: nat)
    ensures |Cross(vs, n)| == |vs| * n
    decreases n
  {
    if n > 0 {
      CrossSize(vs, n - 1);
      assert |vs| * n == |vs| * (n - 1) + |vs|;
    }
  }

  lemma {:induction false} CrossMember(vs: seq<seq<nat>>, n: nat, v: seq<nat>)
    ensures v in Cross(vs, n) <==> Ends(vs, v, n)
    decreases n
  {
    hide AppendEach;
    if n > 0 {
      CrossMember(vs, n - 1, v);
      AppendEachIs(vs, n - 1, v);
    }
  }

  lemma {:induction false} CrossDistinct(vs: seq<seq<nat>>, n: nat)
    requires Distinct(vs)
    ensures Distinct(Cross(vs, n))
    decreases n
  {
    hide Distinct, AppendEach;
    if n == 0 {
      NoneDistinct();
    } else {
      var before, next := Cross(vs, n - 1), AppendEach(vs, n - 1);
      CrossDistinct(vs, n - 1);
      AppendEachDistinct(vs, n - 1);
      forall v | v in before ensures v !in next {
        CrossMember(vs, n - 1, v);
        AppendEachIs(vs, n - 1, v);
      }
      DistinctAppend(before, next);
    }
  }

  lemma NoneDistinct()
    ensures Distinct<seq<nat>>([])
  {
  }

  lemma BelowLast(v: seq<nat>, bounds: seq<nat>)
    requires bounds != []
    ensures var n := |bounds| - 1; Below(v, bounds) <==> v != [] && v[|v| - 1] < bounds[n] && Below(v[..|v| - 1], bounds[..n])
  {
  }

  lemma {:induction false} VectorsAre(bounds: seq<nat>)
    ensures Distinct(Vectors(bounds)) && |Vectors(bounds)| == ProductOf(bounds)
    ensures forall v :: v in Vectors(bounds) <==> Below(v, bounds)
  {
    hide Cross, Below;
    if bounds == [] {
      EmptyBelow();
    } else {
      var n := |bounds| - 1;
      VectorsAre(bounds[..n]);
      CrossDistinct(Vectors(bounds[..n]), bounds[n]);
      CrossSize(Vectors(bounds[..n]), bounds[n]);
      forall v ensures v in Vectors(bounds) <==> Below(v, bounds) {
        CrossMember(Vectors(bounds[..n]), bounds[n], v);
        BelowLast(v, bounds);
      }
    }
  }

  lemma EmptyBelow()
    ensures forall v :: Below(v, []) <==> v == []
  {
  }

  // ---------- the occurrences of a match ----------

  /** The match without regard to which occurrences in scans it came from. */
  function Plain(m: Match): Match {
    m.(copies := [])
  }

  /** For the start and every standalone node, how often its scan lists it. */
  function Multiplicities(ch: Chain, parent: Tuple, g: Graph, m: Match): seq<nat>
    requires |m.others| <= |ch.others|
  {
    [Repeats(parent, NodeVar(ch, 0), NodeIn(g, m.start), ch.first.labels)]
    + seq(|m.others|, j requires 0 <= j < |m.others| => Times(NodeIn(g, m.others[j]), ch.others[j].labels))
  }

  /** The occurrence vectors of those matches in the list that are `p` otherwise. */
  function CopiesIn(ms: seq<Match>, p: Match): seq<seq<nat>> {
    if ms == [] then []
    else
      var last := ms[|ms| - 1];
      CopiesIn(ms[..|ms| - 1], p) + if Plain(last) == Plain(p) then [last.copies] else []
  }

  lemma {:induction false} CopiesInAre(ms: seq<Match>, p: Match)
    requires Distinct(ms)
    ensures Distinct(CopiesIn(ms, p))
    ensures forall v :: v in CopiesIn(ms, p) <==> p.(copies := v) in ms
    decreases |ms|
  {
    if ms != [] {
      var front, last := ms[..|ms| - 1], ms[|ms| - 1];
      CopiesInAre(front, p);
      assert ms == front + [last];
      assert last !in front;
      if Plain(last) == Plain(p) {
        assert p.(copies := last.copies) == last;
        DistinctAppend(CopiesIn(front, p), [last.copies]);
      }
      forall v ensures v in CopiesIn(ms, p) <==> p.(copies := v) in ms {
        assert p.(copies := v) == last <==> Plain(last) == Plain(p) && v == last.copies;
      }
    }
  }

  lemma CopiesBelow(ch: Chain, parent: Tuple, g: Graph, p: Match, v: seq<nat>)
    requires |p.others| <= |ch.others|
    ensures CopiesOk(ch, parent, g, p.(copies := v)) <==> Below(v, Multiplicities(ch, parent, g, p))
  {
    hide Repeats, Times;
    var b := Multiplicities(ch, parent, g, p);
    if |v| == |b| {
      assert forall j :: 0 <= j < |p.others| ==> b[j + 1] == Times(NodeIn(g, p.others[j]), ch.others[j].labels);
      if CopiesOk(ch, parent, g, p.(copies := v)) {
        forall i | 0 <= i < |v| ensures v[i] < b[i] {
          if i > 0 {
            assert v[(i - 1) + 1] < Times(NodeIn(g, p.others[i - 1]), ch.others[i - 1].labels);
          }
        }
      }
    }
  }

  lemma OtherCopies(ch: Chain, parent: Tuple, g: Graph, m: Match, v: seq<nat>)
    requires FullMatch(ch, parent, g, m)
    ensures FullMatch(ch, parent, g, m.(copies := v)) <==> CopiesOk(ch, parent, g, m.(copies := v))
  {
    hide StepOk, PropertiesHold, Candidate, CopiesOk, Carries;
    var f := m.(copies := v);
    forall i | 0 <= i <= |m.steps| ensures At(f, i) == At(m, i) {}
  }

  /** Every match of the pattern, told apart by its nodes and steps alone, stands behind as many rows as the
      product of the numbers of times its start and its standalone nodes list their labels. */
  lemma RowOccurrences(ch: Chain, parent: Tuple, g: Graph, rows: seq<Tuple>, ms: seq<Match>, m: Match)
    requires Represents(ch, parent, g, rows, ms) && FullMatch(ch, parent, g, m)
    ensures |m.others| <= |ch.others|
    ensures |CopiesIn(ms, m)| == ProductOf(Multiplicities(ch, parent, g, m))
  {
    hide FullMatch, MatchRow, CopiesOk, Below;
    FullSize(ch, parent, g, m);
    var b := Multiplicities(ch, parent, g, m);
    CopiesInAre(ms, m);
    VectorsAre(b);
    forall v ensures v in CopiesIn(ms, m) <==> v in Vectors(b) {
      OtherCopies(ch, parent, g, m, v);
      CopiesBelow(ch, parent, g, m, v);
      assert m.(copies := v) in ms <==> FullMatch(ch, parent, g, m.(copies := v));
    }
    SameSetSameBag(CopiesIn(ms, m), Vectors(b));
    assert |CopiesIn(ms, m)| == |multiset(CopiesIn(ms, m))| == |multiset(Vectors(b))|;
  }

  lemma FullSize(ch: Chain, parent: Tuple, g: Graph, m: Match)
    requires FullMatch(ch, parent, g, m)
    ensures |m.others| <= |ch.others|
  {
  }

  ghost predicate LabelsDistinct(g: Graph) {
    forall id :: id in g.nodes ==> Distinct(g.nodes[id].labels)
  }

  lemma ListedOnce(n: Node, labels: seq<string>)
    requires Distinct(n.labels)
    ensures Times(n, labels) <= 1
  {
    DistinctCounts(n.labels);
  }

  /** In particular, while no node lists a label twice, no match occurs twice. */
  lemma OccursOnce(ch: Chain, parent: Tuple, g: Graph, m: Match)
    requires LabelsDistinct(g) && FullMatch(ch, parent, g, m)
    ensures m.copies == seq(1 + |m.others|, _ => 0)
  {
    hide StepsOk, PropertiesHold;
    ListedOnce(NodeIn(g, m.start), ch.first.labels);
    assert m.copies[0] == 0;
    forall i | 0 <= i < |m.copies| ensures m.copies[i] == 0 {
      if i > 0 {
        assert m.copies[(i - 1) + 1] < Times(NodeIn(g, m.others[i - 1]), ch.others[i - 1].labels);
        ListedOnce(NodeIn(g, m.others[i - 1]), ch.others[i - 1].labels);
      }
    }
  }
}
