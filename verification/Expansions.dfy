/** Expanding rows over edges extends matches by exactly the steps the edge pattern allows. */
module Expansions {
  import opened Prelude
  import opened Values
  import opened Ast
  import opened GraphStore
  import opened Traversal
  import opened Distances
  import opened Planner
  import opened Semantics
  import opened Chains
  import opened Bindings
  import opened Matching

  // ---------- hops and steps side by side ----------

  function StepOver(h: Hop, forward: bool): Step {
    Along(h.edge.id, forward, h.node.id)
  }

  function StepsOver(hops: seq<Hop>, forward: bool): (r: seq<Step>)
    ensures |r| == |hops|
  {
    seq(|hops|, i requires 0 <= i < |hops| => StepOver(hops[i], forward))
  }

  /** The steps behind `HopsFrom`, hop by hop. */
  function StepsFrom(g: Graph, n: NodeId, dir: Direction): seq<Step> {
    match dir
    case Right => StepsOver(Neighbours(g, n, None), true)
    case Left => StepsOver(NeighboursIncoming(g, n, None), false)
    case Both => StepsOver(Neighbours(g, n, None), true) + StepsOver(NeighboursIncoming(g, n, None), false)
  }

  /** Step `s` follows hop `h`. */
  ghost predicate Follows(g: Graph, s: Step, h: Hop) {
    s.Along? && s.edge in g.edges && h.edge == g.edges[s.edge] && s.node in g.nodes && h.node == g.nodes[s.node]
  }

  ghost predicate SideBySide(g: Graph, steps: seq<Step>, hops: seq<Hop>) {
    |steps| == |hops| && forall i :: 0 <= i < |steps| ==> Follows(g, steps[i], hops[i])
  }

  lemma {:induction false} HopsDistinct(ids: seq<EdgeId>, g: Graph, forward: bool)
    requires DenseIds(g) && Distinct(ids)
    ensures Distinct(HopsOf(ids, g, None, forward))
    decreases |ids|
  {
    if ids != [] {
      var front, id := ids[..|ids| - 1], ids[|ids| - 1];
      HopsDistinct(front, g, forward);
      if id in g.edges && FarEnd(g.edges[id], forward) in g.nodes {
        var h := Hop(g.edges[id], g.nodes[FarEnd(g.edges[id], forward)]);
        HopsExact(front, g, forward, h);
        assert id !in front;
        DistinctAppend(HopsOf(front, g, None, forward), [h]);
      }
    }
  }

  lemma IndexDistinct(idx: Index<NodeId, EdgeId>, edges: map<EdgeId, Edge>, forward: bool, n: NodeId)
    requires AdjacencyAgrees(idx, edges, forward)
    ensures Distinct(Look(idx, n))
  {
    forall id ensures multiset(Look(idx, n))[id] <= 1 {
      assert multiset(Look(idx, n))[id] == if id in edges && NearEnd(edges[id], forward) == n then 1 else 0;
    }
    DistinctCounts(Look(idx, n));
  }

  function IndexedHopsOf(g: Graph, n: NodeId, forward: bool): seq<Hop> {
    if forward then Neighbours(g, n, None) else NeighboursIncoming(g, n, None)
  }

  /** The hops of one sense correspond to the steps of that sense along existing edges at `n`. */
  lemma OneSense(g: Graph, n: NodeId, forward: bool)
    requires WellFormed(g)
    ensures var hops := IndexedHopsOf(g, n, forward); var steps := StepsOver(hops, forward);
      && SideBySide(g, steps, hops) && Distinct(steps)
      && (forall s :: s in steps ==> s.Along? && s.forward == forward && Leads(Net(g, [], Both), s.edge, forward, n, s.node))
      && (forall id, v :: Leads(Net(g, [], Both), id, forward, n, v) ==> Along(id, forward, v) in steps)
  {
    var hops, steps := IndexedHopsOf(g, n, forward), StepsOver(IndexedHopsOf(g, n, forward), forward);
    var idx := if forward then g.outgoing else g.incoming;
    IndexDistinct(idx, g.edges, forward, n);
    HopsDistinct(Look(idx, n), g, forward);
    forall i | 0 <= i < |hops|
      ensures IsHop(g, n, forward, hops[i])
    {
      assert hops[i] in hops;
      IndexedHops(g, n, forward, hops[i]);
    }
    forall id, v | Leads(Net(g, [], Both), id, forward, n, v)
      ensures Along(id, forward, v) in steps
    {
      var h := Hop(g.edges[id], g.nodes[v]);
      assert IsHop(g, n, forward, h);
      IndexedHops(g, n, forward, h);
      var i :| 0 <= i < |hops| && hops[i] == h;
      assert steps[i] == Along(id, forward, v);
    }
  }

  lemma SideBySideAppend(g: Graph, s1: seq<Step>, h1: seq<Hop>, s2: seq<Step>, h2: seq<Hop>)
    requires SideBySide(g, s1, h1) && SideBySide(g, s2, h2)
    ensures SideBySide(g, s1 + s2, h1 + h2)
  {
  }

  /** `s` leads from `n` along an edge, whatever its type, in a sense `dir` allows. */
  ghost predicate Departs(g: Graph, n: NodeId, dir: Direction, s: Step) {
    s.Along? && Leads(Net(g, [], dir), s.edge, s.forward, n, s.node)
  }

  lemma AllSenses(g: Graph, n: NodeId, dir: Direction)
    requires WellFormed(g)
    ensures SideBySide(g, StepsFrom(g, n, dir), HopsFrom(g, n, dir))
    ensures Distinct(StepsFrom(g, n, dir))
    ensures forall s :: s in StepsFrom(g, n, dir) <==> Departs(g, n, dir, s)
  {
    OneSense(g, n, true);
    OneSense(g, n, false);
    var out, back := StepsOver(IndexedHopsOf(g, n, true), true), StepsOver(IndexedHopsOf(g, n, false), false);
    if dir == Both {
      SideBySideAppend(g, out, IndexedHopsOf(g, n, true), back, IndexedHopsOf(g, n, false));
      DistinctAppend(out, back);
    }
    forall s
      ensures s in StepsFrom(g, n, dir) <==> Departs(g, n, dir, s)
    {
      if s.Along? {
        assert Leads(Net(g, [], dir), s.edge, s.forward, n, s.node) <==>
               DirectionAllowed(dir, s.forward) && Leads(Net(g, [], Both), s.edge, s.forward, n, s.node);
      }
    }
  }

  predicate HasType(g: Graph, s: Step, types: seq<string>) {
    s.Along? && s.edge in g.edges && g.edges[s.edge].edgeType in types
  }

  lemma {:induction false} FilterSteps(g: Graph, steps: seq<Step>, hops: seq<Hop>, types: seq<string>) returns (kept: seq<Step>)
    requires SideBySide(g, steps, hops) && Distinct(steps)
    ensures SideBySide(g, kept, OfTypes(hops, types)) && Distinct(kept)
    ensures forall s :: s in kept <==> s in steps && HasType(g, s, types)
    decreases |hops|
  {
    if hops == [] {
      kept := [];
    } else {
      var n := |hops| - 1;
      var front := FilterSteps(g, steps[..n], hops[..n], types);
      var last := steps[n];
      assert Follows(g, last, hops[n]);
      assert HasType(g, last, types) <==> hops[n].edge.edgeType in types;
      LastApart(steps);
      kept := if HasType(g, last, types) then front + [last] else front;
    }
  }

  lemma LastApart<T(!new)>(s: seq<T>)
    requires Distinct(s) && s != []
    ensures s[|s| - 1] !in s[..|s| - 1]
    ensures forall x :: x in s <==> x in s[..|s| - 1] || x == s[|s| - 1]
  {
    assert s == s[..|s| - 1] + [s[|s| - 1]];
  }

  /** The successors of `n` correspond one to one to the one-hop steps the edge pattern allows. */
  lemma SuccessorSteps(g: Graph, n: NodeId, e: EdgePattern) returns (steps: seq<Step>)
    requires WellFormed(g) && e.depth.None?
    ensures SideBySide(g, steps, Successors(g, n, HopTypes(e.edgeType), e.direction)) && Distinct(steps)
    ensures forall s :: s in steps <==> StepOk(g, e, n, s)
  {
    var types := HopTypes(e.edgeType);
    AllSenses(g, n, e.direction);
    steps := StepsFrom(g, n, e.direction);
    if types != [] {
      steps := FilterSteps(g, steps, HopsFrom(g, n, e.direction), types);
    }
    forall s
      ensures s in steps <==> StepOk(g, e, n, s)
    {
      if s.Along? {
        assert Leads(Net(g, types, e.direction), s.edge, s.forward, n, s.node) <==>
               Departs(g, n, e.direction, s) && TypeAllowed(types, g.edges[s.edge].edgeType);
      }
    }
  }

  // ---------- expanding one row ----------

  lemma {:induction false} ExpandHopsRows(t: Tuple, hops: seq<Hop>, edgeVar: Option<string>, toVar: string)
    requires toVar !in t
    ensures var rows := ExpandHops(t, hops, edgeVar, toVar);
      |rows| == |hops| && forall i :: 0 <= i < |rows| ==> rows[i] == BindEdge(BindNode(t, toVar, hops[i].node), edgeVar, hops[i].edge)
    decreases |hops|
  {
    hide BindNode, BindEdge;
    if hops != [] {
      ExpandHopsRows(t, hops[..|hops| - 1], edgeVar, toVar);
    }
  }

  ghost predicate IdsDistinct(nodes: seq<Node>) {
    forall i, j :: 0 <= i < j < |nodes| ==> nodes[i].id != nodes[j].id
  }

  lemma {:induction false} ExpandPathsRows(t: Tuple, from: NodeId, reached: seq<Node>, toVar: string)
    requires toVar !in t && IdsDistinct(reached)
    requires forall i :: 0 <= i < |reached| ==> reached[i].id != from
    ensures var rows := ExpandPaths(t, from, reached, toVar);
      |rows| == |reached| && forall i :: 0 <= i < |rows| ==> rows[i] == BindNode(t, toVar, reached[i])
    decreases |reached|
  {
    hide BindNode;
    if reached != [] {
      var front := reached[..|reached| - 1];
      ExpandPathsRows(t, from, front, toVar);
    }
  }

  function ExpansionOf(ch: Chain, k: nat): Expansion
    requires k < |ch.edges|
  {
    var e := ch.edges[k];
    Expansion(NodeVar(ch, k), e.variable, NodeVar(ch, k + 1), e.edgeType, e.direction, e.depth)
  }

  /** The rows of one expanded row are the rows of the allowed steps. */
  ghost predicate StepRows(ch: Chain, g: Graph, k: nat, t: Tuple, from: NodeId, rows: seq<Tuple>, steps: seq<Step>)
    requires k < |ch.edges|
  {
    && |rows| == |steps| && Distinct(steps)
    && (forall i :: 0 <= i < |steps| ==> rows[i] == TakeStep(ch, g, k, t, steps[i]))
    && (forall s :: s in steps <==> StepOk(g, ch.edges[k], from, s))
  }

  lemma ExpandOneHop(ch: Chain, g: Graph, k: nat, t: Tuple, from: NodeId) returns (steps: seq<Step>)
    requires WellFormed(g) && k < |ch.edges| && ch.edges[k].depth.None? && NodeVar(ch, k + 1) !in t
    ensures var e := ch.edges[k];
      StepRows(ch, g, k, t, from,
        ExpandHops(t, Successors(g, from, HopTypes(e.edgeType), e.direction), e.variable, NodeVar(ch, k + 1)), steps)
  {
    hide BindNode, BindEdge, StepOk, Successors, HopTypes, NodeVar;
    var e := ch.edges[k];
    var hops := Successors(g, from, HopTypes(e.edgeType), e.direction);
    steps := SuccessorSteps(g, from, e);
    ExpandHopsRows(t, hops, e.variable, NodeVar(ch, k + 1));
    forall i | 0 <= i < |steps|
      ensures BindEdge(BindNode(t, NodeVar(ch, k + 1), hops[i].node), e.variable, hops[i].edge) == TakeStep(ch, g, k, t, steps[i])
    {
      assert Follows(g, steps[i], hops[i]);
    }
  }

  lemma BandIsAway(net: Net, goal: Goal, v: NodeId, d: nat)
    requires Band(net, goal, v, d)
    ensures v != goal.start
  {
    if v == goal.start {
      assert Reaches(net, goal.start, v, 0);
    }
  }

  function Jumps(nodes: seq<Node>): (r: seq<Step>)
    ensures |r| == |nodes|
  {
    seq(|nodes|, i requires 0 <= i < |nodes| => Jump(nodes[i].id))
  }

  /** The nodes a traversal found correspond one to one to the jumps the edge pattern allows. */
  lemma JumpsAreSteps(g: Graph, from: NodeId, e: EdgePattern, found: seq<Node>)
    requires e.depth.Some? && DenseIds(g)
    requires Exact(Net(g, PathTypes(e.edgeType), e.direction), Goal(from, e.depth.value.min, e.depth.value.max), found)
    ensures IdsDistinct(found) && Distinct(Jumps(found))
    ensures forall i :: 0 <= i < |found| ==> found[i].id != from && found[i] == NodeIn(g, found[i].id)
    ensures forall s :: s in Jumps(found) <==> StepOk(g, e, from, s)
  {
    var net, goal := Net(g, PathTypes(e.edgeType), e.direction), Goal(from, e.depth.value.min, e.depth.value.max);
    forall i | 0 <= i < |found|
      ensures found[i].id != from && found[i].id in g.nodes && found[i] == g.nodes[found[i].id] && StepOk(g, e, from, Jump(found[i].id))
    {
      assert found[i] in found;
      var d :| Band(net, goal, found[i].id, d);
      BandIsAway(net, goal, found[i].id, d);
    }
    forall s | StepOk(g, e, from, s)
      ensures s in Jumps(found)
    {
      var d :| Band(net, goal, s.node, d);
      assert g.nodes[s.node] in found;
      var i :| 0 <= i < |found| && found[i] == g.nodes[s.node];
      assert Jumps(found)[i] == Jump(found[i].id);
      assert s == Jump(s.node);
    }
  }

  lemma NodeInId(g: Graph, id: NodeId)
    requires DenseIds(g)
    ensures NodeIn(g, id).id == id
  {
  }

  lemma ExpandPath(ch: Chain, g: Graph, k: nat, t: Tuple, from: NodeId) returns (steps: seq<Step>)
    requires WellFormed(g) && k < |ch.edges| && ch.edges[k].depth.Some? && NodeVar(ch, k + 1) !in t
    ensures var e := ch.edges[k];
      StepRows(ch, g, k, t, from,
        ExpandPaths(t, from, Traverse(g, PathTypes(e.edgeType), e.direction, Goal(from, e.depth.value.min, e.depth.value.max)),
                    NodeVar(ch, k + 1)), steps)
  {
    hide BindNode, BindEdge, StepOk, Traverse, PathTypes, NodeVar;
    var e := ch.edges[k];
    var goal := Goal(from, e.depth.value.min, e.depth.value.max);
    var found := Traverse(g, PathTypes(e.edgeType), e.direction, goal);
    TraverseIsExact(Net(g, PathTypes(e.edgeType), e.direction), goal);
    JumpsAreSteps(g, from, e, found);
    steps := Jumps(found);
    ExpandPathsRows(t, from, found, NodeVar(ch, k + 1));
  }

  /** A full row of a match of the first edges and of no standalone node. */
  ghost predicate ChainMatch(ch: Chain, parent: Tuple, g: Graph, k: nat, m: Match) {
    IsMatch(ch, parent, g, m) && |m.steps| == k && m.others == []
  }

  lemma RowBeforeStep(ch: Chain, parent: Tuple, g: Graph, k: nat, m: Match)
    requires WellFormed(g) && WellNamed(ch) && ParentOk(ch, parent, g)
    requires ChainMatch(ch, parent, g, k, m) && k < |ch.edges|
    ensures var t := MatchRow(ch, parent, g, m);
      NodeVar(ch, k) in t && t[NodeVar(ch, k)] == NodeRef(At(m, k)) && NodeVar(ch, k + 1) !in t
  {
    hide StepsRow, StepsOk, OthersOk, NodeVar, NodesApart, EdgesApart, OthersApart, AllDotless;
    assert MatchRow(ch, parent, g, m) == StepsRow(ch, parent, g, m.start, m.steps);
    StepsRowBinds(ch, parent, g, m.start, m.steps, k);
    NodeInId(g, At(m, k));
    NextIsUnbound(ch, parent, g, m.start, m.steps);
  }

  lemma ExpandRowIsExact(ch: Chain, parent: Tuple, g: Graph, k: nat, m: Match) returns (steps: seq<Step>)
    requires WellFormed(g) && WellNamed(ch) && ParentOk(ch, parent, g)
    requires ChainMatch(ch, parent, g, k, m) && k < |ch.edges|
    ensures StepRows(ch, g, k, MatchRow(ch, parent, g, m), At(m, k),
              ExpandRow(MatchRow(ch, parent, g, m), ExpansionOf(ch, k), g), steps)
  {
    hide StepRows, MatchRow, NodeVar, ParentOk, WellNamed, WellFormed, IsMatch;
    RowBeforeStep(ch, parent, g, k, m);
    if ch.edges[k].depth.None? {
      steps := ExpandOneHop(ch, g, k, MatchRow(ch, parent, g, m), At(m, k));
    } else {
      steps := ExpandPath(ch, g, k, MatchRow(ch, parent, g, m), At(m, k));
    }
  }

  // ---------- expanding all rows ----------

  function Extended(m: Match, s: Step): Match {
    m.(steps := m.steps + [s])
  }

  function ExtendAll(m: Match, steps: seq<Step>): (r: seq<Match>)
    ensures |r| == |steps|
  {
    seq(|steps|, i requires 0 <= i < |steps| => Extended(m, steps[i]))
  }

  lemma ExtendedRow(ch: Chain, parent: Tuple, g: Graph, m: Match, s: Step)
    requires |m.steps| < |ch.edges| && m.others == []
    ensures MatchRow(ch, parent, g, Extended(m, s)) == TakeStep(ch, g, |m.steps|, MatchRow(ch, parent, g, m), s)
  {
    hide TakeStep;
    StepsRowLast(ch, parent, g, m.start, m.steps + [s]);
    assert (m.steps + [s])[..|m.steps|] == m.steps;
  }

  lemma ExtendAllIs(m: Match, steps: seq<Step>, x: Match)
    ensures x in ExtendAll(m, steps) <==>
      |x.steps| == |m.steps| + 1 && x.steps[|m.steps|] in steps && x == Extended(m, x.steps[|m.steps|])
  {
    if |x.steps| == |m.steps| + 1 && x.steps[|m.steps|] in steps && x == Extended(m, x.steps[|m.steps|]) {
      var i :| 0 <= i < |steps| && steps[i] == x.steps[|m.steps|];
      assert ExtendAll(m, steps)[i] == x;
    }
  }

  lemma ExtendAllDistinct(m: Match, steps: seq<Step>)
    requires Distinct(steps)
    ensures Distinct(ExtendAll(m, steps))
  {
    var r := ExtendAll(m, steps);
    forall i, j | 0 <= i < j < |r|
      ensures r[i] != r[j]
    {
      assert r[i].steps[|m.steps|] == steps[i] && r[j].steps[|m.steps|] == steps[j];
    }
  }

  lemma OneRowExpands(ch: Chain, parent: Tuple, g: Graph, k: nat, m: Match, rows: seq<Tuple>, steps: seq<Step>)
    requires k < |ch.edges| && |m.steps| == k && m.others == []
    requires StepRows(ch, g, k, MatchRow(ch, parent, g, m), At(m, k), rows, steps)
    ensures RowsFor(ch, parent, g, rows, ExtendAll(m, steps))
  {
    hide TakeStep, MatchRow, StepOk;
    ExtendAllDistinct(m, steps);
    forall i | 0 <= i < |steps|
      ensures rows[i] == MatchRow(ch, parent, g, ExtendAll(m, steps)[i])
    {
      ExtendedRow(ch, parent, g, m, steps[i]);
    }
  }

  lemma RowsForAppend(ch: Chain, parent: Tuple, g: Graph, r1: seq<Tuple>, m1: seq<Match>, r2: seq<Tuple>, m2: seq<Match>)
    requires RowsFor(ch, parent, g, r1, m1) && RowsFor(ch, parent, g, r2, m2)
    requires forall m :: m in m1 ==> m !in m2
    ensures RowsFor(ch, parent, g, r1 + r2, m1 + m2)
  {
    hide MatchRow;
    DistinctAppend(m1, m2);
  }

  /** `x` is one of `ms` extended by an allowed step. */
  ghost predicate Extends(ch: Chain, g: Graph, k: nat, ms: seq<Match>, x: Match)
    requires k < |ch.edges|
  {
    |x.steps| == k + 1 && x.(steps := x.steps[..k]) in ms && StepOk(g, ch.edges[k], At(x, k), x.steps[k])
  }

  lemma ExtensionsOfLast(ch: Chain, g: Graph, k: nat, ms: seq<Match>, steps: seq<Step>, x: Match)
    requires k < |ch.edges| && ms != [] && |ms[|ms| - 1].steps| == k
    requires forall s :: s in steps <==> StepOk(g, ch.edges[k], At(ms[|ms| - 1], k), s)
    ensures Extends(ch, g, k, ms, x) <==> Extends(ch, g, k, ms[..|ms| - 1], x) || x in ExtendAll(ms[|ms| - 1], steps)
  {
    hide StepOk;
    var front, m := ms[..|ms| - 1], ms[|ms| - 1];
    assert ms == front + [m];
    ExtendAllIs(m, steps, x);
    if |x.steps| == k + 1 {
      var p := x.(steps := x.steps[..k]);
      assert x.steps == x.steps[..k] + [x.steps[k]];
      assert p == m <==> x == Extended(m, x.steps[k]);
      assert p == m ==> At(x, k) == At(m, k);
    }
  }

  lemma {:induction false} ExpandMatches(ch: Chain, parent: Tuple, g: Graph, k: nat, rows: seq<Tuple>, ms: seq<Match>)
    returns (out: seq<Match>)
    requires WellFormed(g) && WellNamed(ch) && ParentOk(ch, parent, g) && k < |ch.edges|
    requires RowsFor(ch, parent, g, rows, ms)
    requires forall m :: m in ms ==> ChainMatch(ch, parent, g, k, m)
    ensures RowsFor(ch, parent, g, ExpandRows(rows, ExpansionOf(ch, k), g), out)
    ensures forall x :: x in out <==> Extends(ch, g, k, ms, x)
    decreases |rows|
  {
    hide MatchRow, WellFormed, WellNamed, ParentOk, ExpandRow, IsMatch, StepOk, ExpansionOf;
    if rows == [] {
      out := [];
    } else {
      var n := |rows| - 1;
      var m := ms[n];
      LastApart(ms);
      assert m in ms;
      assert RowsFor(ch, parent, g, rows[..n], ms[..n]);
      var front := ExpandMatches(ch, parent, g, k, rows[..n], ms[..n]);
      var steps := ExpandRowIsExact(ch, parent, g, k, m);
      OneRowExpands(ch, parent, g, k, m, ExpandRow(rows[n], ExpansionOf(ch, k), g), steps);
      forall x
        ensures Extends(ch, g, k, ms, x) <==> x in front || x in ExtendAll(m, steps)
        ensures x in front ==> x !in ExtendAll(m, steps)
      {
        ExtensionsOfLast(ch, g, k, ms, steps, x);
        ExtendAllIs(m, steps, x);
        assert x in ExtendAll(m, steps) ==> Extended(m, x.steps[k]).steps[..k] == m.steps;
      }
      RowsForAppend(ch, parent, g, ExpandRows(rows[..n], ExpansionOf(ch, k), g), front,
                    ExpandRow(rows[n], ExpansionOf(ch, k), g), ExtendAll(m, steps));
      out := front + ExtendAll(m, steps);
    }
  }
}
