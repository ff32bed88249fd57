/** What a pattern says against what MATCH returns. Rows too many: the planner drops the labels of middle nodes,
    the labels and properties of the node a chain ends in, and all edge properties. Rows too few: the search
    over a depth range reports a node at its shortest distance only, and never its origin. */
module Intended {
  import opened Prelude
  import opened Values
  import opened Ast
  import opened GraphStore
  import opened Traversal
  import opened Distances
  import opened Planner
  import opened Semantics
  import opened Chains
  import opened Bindings
  import opened Matching
  import opened MatchTheorem
  import Expansions
  import opened Products
  import opened Compilation
  import opened PathStores
  import opened FullSense
  import opened RowContents
  import opened LoopStores

  /** At most one label, however often it is written. */
  predicate SingleLabel(labels: seq<string>) {
    forall i :: 0 <= i < |labels| ==> labels[i] == labels[0]
  }

  /** A pattern all of which is compiled: at most one label on the first and the standalone nodes, none on
      the nodes behind an edge, no properties on the last of those, none on edges. */
  predicate Compiled(ch: Chain) {
    && SingleLabel(ch.first.labels)
    && (forall i :: 0 <= i < |ch.edges| ==> ch.edges[i].toNode.labels == [] && ch.edges[i].properties == [])
    && (ch.edges != [] ==> ch.edges[|ch.edges| - 1].toNode.properties == [])
    && (forall j :: 0 <= j < |ch.others| ==> SingleLabel(ch.others[j].labels))
  }

  lemma OneLabel(n: Node, labels: seq<string>)
    requires SingleLabel(labels)
    ensures Carries(n, labels) <==> HasLabels(n, labels)
  {
  }

  lemma NodeOfMatch(ch: Chain, parent: Tuple, g: Graph, m: Match, i: nat)
    requires WellShaped(ch) && Compiled(ch) && FullMatch(ch, parent, g, m) && i <= |ch.edges|
    ensures NodeMeets(g, At(m, i), NodeOf(ch, i))
  {
    hide StepOk, PropertyHolds, OthersOk;
    NodeStored(ch, parent, g, m, i);
    if i < |ch.edges| {
      assert ch.edges[i].fromNode == NodeOf(ch, i);
      assert PropertiesHold(NodeIn(g, At(m, i)), ch.edges[i].fromNode.properties);
    }
    OneLabel(NodeIn(g, m.start), ch.first.labels);
  }

  lemma EdgeOfMatch(g: Graph, e: EdgePattern, u: NodeId, s: Step)
    requires e.properties == [] && StepOk(g, e, u, s)
    ensures StepMeets(g, e, u, s)
  {
    hide Leads, Reaches, PathTypes, HopTypes;
    if e.depth.Some? {
      assert Having(g, e.properties).edges == g.edges;
      var net := Net(g, PathTypes(e.edgeType), e.direction);
      assert HavingNet(g, e) == net;
      var d :| Band(net, Goal(u, e.depth.value.min, e.depth.value.max), s.node, d);
      assert Reaches(net, u, s.node, d);
    }
  }

  lemma OtherOfMatch(ch: Chain, parent: Tuple, g: Graph, m: Match, j: nat)
    requires Compiled(ch) && FullMatch(ch, parent, g, m) && j < |ch.others|
    ensures NodeMeets(g, m.others[j], ch.others[j])
  {
    hide StepsOk, PropertyHolds, Candidate;
    OneLabel(NodeIn(g, m.others[j]), ch.others[j].labels);
  }

  /** What is found of a compiled pattern is a match in the full sense. */
  lemma CompiledIsIntended(ch: Chain, parent: Tuple, g: Graph, m: Match)
    requires WellShaped(ch) && Compiled(ch) && FullMatch(ch, parent, g, m)
    ensures IsIntended(ch, parent, g, m)
  {
    hide FullMatch, NodeMeets, StepMeets, StepOk, WellShaped, CopiesOk;
    FullParts(ch, parent, g, m);
    forall i | 0 <= i <= |m.steps| ensures NodeMeets(g, At(m, i), NodeOf(ch, i)) {
      NodeOfMatch(ch, parent, g, m, i);
    }
    forall i | 0 <= i < |m.steps| ensures StepMeets(g, ch.edges[i], At(m, i), m.steps[i]) {
      StepOfMatch(ch, parent, g, m, i);
      EdgeOfMatch(g, ch.edges[i], At(m, i), m.steps[i]);
    }
    forall j | 0 <= j < |m.others| ensures NodeMeets(g, m.others[j], ch.others[j]) {
      OtherOfMatch(ch, parent, g, m, j);
    }
  }

  lemma StepOfMatch(ch: Chain, parent: Tuple, g: Graph, m: Match, i: nat)
    requires FullMatch(ch, parent, g, m) && i < |ch.edges|
    ensures StepOk(g, ch.edges[i], At(m, i), m.steps[i])
  {
    hide StepOk, PropertiesHold, OthersOk, Candidate;
  }

  lemma FullParts(ch: Chain, parent: Tuple, g: Graph, m: Match)
    requires FullMatch(ch, parent, g, m)
    ensures |m.steps| == |ch.edges| && |m.others| == |ch.others| && CopiesOk(ch, parent, g, m)
    ensures NodeVar(ch, 0) in parent ==> parent[NodeVar(ch, 0)] == NodeRef(m.start)
  {
    hide StepsOk, PropertiesHold, OthersOk, CopiesOk, Carries;
  }

  // ---------- variable-length edges that miss matches ----------

  /** The pattern can be met in the full sense with a variable-length edge that the search cannot answer: one
      that returns to its origin, or one with a range behind 1 whose end is nearer. */
  ghost predicate Misses(ch: Chain) {
    exists glue :: Joinable(ch, glue) && Evasive(ch, glue)
  }

  lemma MissedIsEvasive(ch: Chain, parent: Tuple, g: Graph, m: Match)
    requires WellShaped(ch) && IsIntended(ch, parent, g, m) && !FullMatch(ch, parent, g, m)
    ensures Joinable(ch, GlueOf(ch, m)) && Evasive(ch, GlueOf(ch, m))
  {
    hide FullMatch, WellShaped, NodeMeets, StepMeets, CopiesOk, Reaches, Joinable, PathTypes;
    FoundExactlyWhen(ch, parent, g, m);
    IntendedIsJoinable(ch, parent, g, m);
    var i :| 0 <= i < |m.steps| && ch.edges[i].depth.Some? && !Visible(g, ch.edges[i], At(m, i), m.steps[i].node);
    if At(m, i) != At(m, i + 1) && ch.edges[i].depth.value.min == 1 {
      NoStepNoMove(Net(g, PathTypes(ch.edges[i].edgeType), ch.edges[i].direction), At(m, i), At(m, i + 1));
    }
    assert i in GlueOf(ch, m) || ch.edges[i].depth.value.min >= 2;
  }

  lemma LoopIsMissed(ch: Chain, glue: Glue)
    requires WellShaped(ch) && Joinable(ch, glue) && Evasive(ch, glue)
    ensures IsIntended(ch, map[], LoopStore(ch, glue), LoopMatch(ch, glue))
    ensures !FullMatch(ch, map[], LoopStore(ch, glue), LoopMatch(ch, glue))
  {
    hide FullMatch, IsIntended, WellShaped, LoopStore, Joinable, Visible, Spot;
    LoopIsIntended(ch, glue);
    FoundExactlyWhen(ch, map[], LoopStore(ch, glue), LoopMatch(ch, glue));
    var i: nat :| i < |ch.edges| && ch.edges[i].depth.Some? && (i in glue || ch.edges[i].depth.value.min >= 2);
    LoopHides(ch, glue, i);
    LoopMatchAt(ch, glue, i);
    assert !Visible(LoopStore(ch, glue), ch.edges[i], At(LoopMatch(ch, glue), i), LoopMatch(ch, glue).steps[i].node);
  }

  /** Every match in the full sense is found, on every store. */
  ghost predicate AlwaysFound(ch: Chain) {
    forall c: Ctx, m :: StoreOk(c) && IsIntended(ch, map[], c.g, m) ==> FullMatch(ch, map[], c.g, m)
  }

  /** No match in the full sense is missing, on any store, exactly when the pattern cannot be met with an edge
      that the search cannot answer. */
  lemma FoundExactly(ch: Chain)
    requires WellShaped(ch)
    ensures AlwaysFound(ch) <==> !Misses(ch)
  {
    hide FullMatch, IsIntended, Joinable, Evasive, WellShaped, StoreOk, LoopStore, GlueOf;
    if glue :| Joinable(ch, glue) && Evasive(ch, glue) {
      LoopStoreIsOk(ch, glue);
      LoopIsMissed(ch, glue);
      assert StoreOk(LoopCtx(ch, glue)) && LoopCtx(ch, glue).g == LoopStore(ch, glue);
    } else {
      forall c: Ctx, m | StoreOk(c) && IsIntended(ch, map[], c.g, m) ensures FullMatch(ch, map[], c.g, m) {
        NotMissed(ch, map[], c.g, m);
      }
    }
  }

  lemma NotMissed(ch: Chain, parent: Tuple, g: Graph, m: Match)
    requires WellShaped(ch) && !Misses(ch) && IsIntended(ch, parent, g, m)
    ensures FullMatch(ch, parent, g, m)
  {
    hide FullMatch, IsIntended, Joinable, Evasive, WellShaped, GlueOf;
    if !FullMatch(ch, parent, g, m) {
      IntendedSizes(ch, parent, g, m);
      MissedIsEvasive(ch, parent, g, m);
    }
  }

  lemma IntendedSizes(ch: Chain, parent: Tuple, g: Graph, m: Match)
    requires IsIntended(ch, parent, g, m)
    ensures |m.steps| == |ch.edges| && |m.others| == |ch.others|
  {
  }

  // ---------- edges that do not return ----------

  /** No variable-length edge of the match returns to its origin. */
  ghost predicate Departs(ch: Chain, m: Match) {
    forall i :: 0 <= i < |m.steps| && i < |ch.edges| && ch.edges[i].depth.Some? ==> At(m, i) != m.steps[i].node
  }

  ghost predicate FarRange(ch: Chain) {
    exists i: nat :: i < |ch.edges| && ch.edges[i].depth.Some? && ch.edges[i].depth.value.min >= 2
  }

  ghost predicate AlwaysFoundApart(ch: Chain) {
    forall c: Ctx, m :: StoreOk(c) && IsIntended(ch, map[], c.g, m) && Departs(ch, m) ==> FullMatch(ch, map[], c.g, m)
  }

  /** Matches none of whose variable-length edges returns to its origin are all found, on every store, exactly
      when no range starts behind 1, or the pattern cannot be met like that at all. */
  lemma FoundApartExactly(ch: Chain)
    requires WellShaped(ch)
    ensures AlwaysFoundApart(ch) <==> !FarRange(ch) || !Joinable(ch, {})
  {
    hide FullMatch, IsIntended, Joinable, WellShaped, StoreOk, LoopStore, Spot;
    if FarRange(ch) && Joinable(ch, {}) {
      assert Evasive(ch, {});
      LoopStoreIsOk(ch, {});
      LoopIsMissed(ch, {});
      LoopDeparts(ch);
      assert StoreOk(LoopCtx(ch, {})) && LoopCtx(ch, {}).g == LoopStore(ch, {});
    } else {
      forall c: Ctx, m | StoreOk(c) && IsIntended(ch, map[], c.g, m) && Departs(ch, m) ensures FullMatch(ch, map[], c.g, m) {
        if !FullMatch(ch, map[], c.g, m) {
          IntendedSizes(ch, map[], c.g, m);
          MissedIsEvasive(ch, map[], c.g, m);
          NoGlue(ch, m);
        }
      }
    }
  }

  lemma NoGlue(ch: Chain, m: Match)
    requires |m.steps| == |ch.edges| && Departs(ch, m)
    ensures GlueOf(ch, m) == {}
  {
    forall i | i in GlueOf(ch, m) ensures At(m, i) != m.steps[i].node {
    }
  }

  lemma LoopDeparts(ch: Chain)
    ensures Departs(ch, LoopMatch(ch, {}))
  {
    hide Spot;
    var m := LoopMatch(ch, {});
    forall i | 0 <= i < |ch.edges| && ch.edges[i].depth.Some? ensures At(m, i) != m.steps[i].node {
      LoopMatchAt(ch, {}, i);
      GluedSpots(ch, {}, i);
    }
  }

  // ---------- patterns without properties ----------

  predicate Plain(ch: Chain) {
    && ch.first.properties == []
    && (forall i :: 0 <= i < |ch.edges| ==> ch.edges[i].properties == [] && ch.edges[i].toNode.properties == [])
    && (forall j :: 0 <= j < |ch.others| ==> ch.others[j].properties == [])
  }

  function Ranged(ch: Chain): set<nat> {
    set i: nat | i < |ch.edges| && ch.edges[i].depth.Some?
  }

  lemma {:induction false} PlainJoined(ch: Chain, glue: Glue, i: nat)
    requires Plain(ch) && i <= |ch.edges|
    ensures Joined(ch, glue, i) == []
  {
    if i > 0 {
      PlainJoined(ch, glue, i - 1);
    }
  }

  /** A pattern without properties misses matches exactly when it has a variable-length edge at all and no
      empty range: the edge can return to its origin. */
  lemma PlainMisses(ch: Chain)
    requires Plain(ch)
    ensures Misses(ch) <==>
      Ranged(ch) != {} && forall i :: i in Ranged(ch) ==> ch.edges[i].depth.value.min <= ch.edges[i].depth.value.max
  {
    hide Joined;
    forall glue, i | 0 <= i <= |ch.edges| ensures Joined(ch, glue, i) == [] {
      PlainJoined(ch, glue, i);
    }
    if Ranged(ch) != {} && forall i :: i in Ranged(ch) ==> ch.edges[i].depth.value.min <= ch.edges[i].depth.value.max {
      var i :| i in Ranged(ch);
      assert Joinable(ch, Ranged(ch));
      assert Evasive(ch, Ranged(ch));
    }
    if glue :| Joinable(ch, glue) && Evasive(ch, glue) {
      var i: nat :| i < |ch.edges| && ch.edges[i].depth.Some? && (i in glue || ch.edges[i].depth.value.min >= 2);
      assert i in Ranged(ch);
      forall k | k in Ranged(ch) ensures ch.edges[k].depth.value.min <= ch.edges[k].depth.value.max {
        assert Walkable(ch.edges[k], k in glue);
      }
    }
  }

  // ---------- rows ----------

  /** Executing the plan of a pattern that is all compiled and misses nothing yields one row per match in the
      full sense, no more and no fewer. */
  lemma IntendedRows(ps: seq<Pattern>, ch: Chain, parent: Tuple, c: Ctx) returns (ms: seq<Match>)
    requires LaidOut(ps, ch) && WellShaped(ch) && WellNamed(ch) && Compiled(ch) && !Misses(ch)
    requires StoreOk(c) && ParentOk(ch, parent, c.g)
    ensures PlanMatch(ps).Ok? && Rows(PlanMatch(ps).value, parent, c).Ok?
    ensures |Rows(PlanMatch(ps).value, parent, c).value| == |ms| && Distinct(ms)
    ensures forall i :: 0 <= i < |ms| ==> Rows(PlanMatch(ps).value, parent, c).value[i] == MatchRow(ch, parent, c.g, ms[i])
    ensures forall m :: m in ms <==> IsIntended(ch, parent, c.g, m)
  {
    hide LaidOut, WellShaped, WellNamed, Compiled, StoreOk, ParentOk, PlanMatch, Rows, FullMatch, IsIntended, MatchRow, Misses;
    ms := MatchRowsAreMatches(ps, ch, parent, c);
    forall m ensures m in ms <==> IsIntended(ch, parent, c.g, m) {
      if FullMatch(ch, parent, c.g, m) {
        CompiledIsIntended(ch, parent, c.g, m);
      }
      if IsIntended(ch, parent, c.g, m) {
        NotMissed(ch, parent, c.g, m);
      }
    }
  }

  /** Two matches with the same row go through the same nodes. */
  lemma SameRowSameNode(ch: Chain, g: Graph, m: Match, n: Match, i: nat)
    requires WellNamed(ch) && DenseIds(g) && i <= |ch.edges|
    requires |m.steps| == |ch.edges| && |m.others| == |ch.others| && |n.steps| == |ch.edges| && |n.others| == |ch.others|
    requires Candidate(g, map[], NodeVar(ch, 0), ch.first.labels, m.start) && Candidate(g, map[], NodeVar(ch, 0), ch.first.labels, n.start)
    requires MatchRow(ch, map[], g, m) == MatchRow(ch, map[], g, n)
    ensures At(m, i) == At(n, i)
  {
    hide MatchRow, Candidate, NodeVar, WellNamed;
    EmptyParentOk(ch, g);
    NodeInRow(ch, map[], g, m, i);
    NodeInRow(ch, map[], g, n, i);
    Expansions.NodeInId(g, At(m, i));
    Expansions.NodeInId(g, At(n, i));
  }

  lemma FoundIsCandidate(ch: Chain, g: Graph, m: Match)
    requires FullMatch(ch, map[], g, m)
    ensures Candidate(g, map[], NodeVar(ch, 0), ch.first.labels, m.start) && |m.steps| == |ch.edges| && |m.others| == |ch.others|
  {
    hide StepsOk, PropertiesHold, OthersOk, CopiesOk, Carries;
  }

  /** A jump that the search cannot answer is in no match that is found. */
  lemma HiddenStep(ch: Chain, g: Graph, n: Match, i: nat, v: NodeId)
    requires FullMatch(ch, map[], g, n) && i < |ch.edges| == |n.steps| && ch.edges[i].depth.Some? && At(n, i + 1) == v
    ensures Visible(g, ch.edges[i], At(n, i), v)
  {
    hide Reaches, PathTypes, FullMatch;
    StepOfMatch(ch, map[], g, n, i);
    var e := ch.edges[i];
    var d :| Band(Net(g, PathTypes(e.edgeType), e.direction), Goal(At(n, i), e.depth.value.min, e.depth.value.max), v, d);
    NoStepNoMove(Net(g, PathTypes(e.edgeType), e.direction), At(n, i), v);
  }

  /** For a pattern that misses matches, executing its plan on its loop store does not return the row of a match
      in the full sense. */
  lemma MissingRow(ps: seq<Pattern>, ch: Chain, glue: Glue) returns (rows: seq<Tuple>)
    requires LaidOut(ps, ch) && WellShaped(ch) && WellNamed(ch) && Joinable(ch, glue) && Evasive(ch, glue)
    ensures StoreOk(LoopCtx(ch, glue)) && PlanMatch(ps).Ok? && Rows(PlanMatch(ps).value, map[], LoopCtx(ch, glue)) == Ok(rows)
    ensures IsIntended(ch, map[], LoopStore(ch, glue), LoopMatch(ch, glue))
    ensures MatchRow(ch, map[], LoopStore(ch, glue), LoopMatch(ch, glue)) !in rows
  {
    hide LaidOut, WellShaped, WellNamed, PlanMatch, Rows, FullMatch, IsIntended, MatchRow, LoopStore, Joinable, ParentOk, Visible, Spot, Candidate, StoreOk;
    var g, m := LoopStore(ch, glue), LoopMatch(ch, glue);
    LoopStoreIsOk(ch, glue);
    LoopIsIntended(ch, glue);
    EmptyParentOk(ch, g);
    var ms := MatchRowsAreMatches(ps, ch, map[], LoopCtx(ch, glue));
    rows := Rows(PlanMatch(ps).value, map[], LoopCtx(ch, glue)).value;
    var i: nat :| i < |ch.edges| && ch.edges[i].depth.Some? && (i in glue || ch.edges[i].depth.value.min >= 2);
    LoopHides(ch, glue, i);
    StartIsCandidate(ch, map[], g, m);
    StoreIsDense(LoopCtx(ch, glue));
    forall k | 0 <= k < |rows| ensures rows[k] != MatchRow(ch, map[], g, m) {
      assert ms[k] in ms;
      FoundIsCandidate(ch, g, ms[k]);
      if rows[k] == MatchRow(ch, map[], g, m) {
        RowIsHidden(ch, glue, ms[k], i);
      }
    }
  }

  lemma StoreIsDense(c: Ctx)
    requires StoreOk(c)
    ensures DenseIds(c.g)
  {
  }

  lemma RowIsHidden(ch: Chain, glue: Glue, n: Match, i: nat)
    requires WellNamed(ch) && DenseIds(LoopStore(ch, glue)) && i < |ch.edges| && ch.edges[i].depth.Some?
    requires FullMatch(ch, map[], LoopStore(ch, glue), n)
    requires Candidate(LoopStore(ch, glue), map[], NodeVar(ch, 0), ch.first.labels, LoopMatch(ch, glue).start)
    requires MatchRow(ch, map[], LoopStore(ch, glue), n) == MatchRow(ch, map[], LoopStore(ch, glue), LoopMatch(ch, glue))
    ensures Visible(LoopStore(ch, glue), ch.edges[i], Spot(ch, glue, i), Spot(ch, glue, i + 1))
  {
    hide WellNamed, FullMatch, MatchRow, LoopStore, Visible, Spot, Candidate, DenseIds;
    var g, m := LoopStore(ch, glue), LoopMatch(ch, glue);
    FoundIsCandidate(ch, g, n);
    SameRowSameNode(ch, g, n, m, i);
    SameRowSameNode(ch, g, n, m, i + 1);
    LoopMatchAt(ch, glue, i);
    LoopMatchAt(ch, glue, i + 1);
    HiddenStep(ch, g, n, i, Spot(ch, glue, i + 1));
  }

  /** `(a)-[*min..max]->(b)`. */
  function Far(min: nat, max: nat): Chain {
    var a, b := NodePattern(Some("a"), [], []), NodePattern(Some("b"), [], []);
    Chain(a, [EdgePattern(None, None, Right, [], a, b, Some(DepthRange(min, max)))], [])
  }

  /** Nodes 1, 2 and 3 with edges from 1 to 2, from 1 to 3 and from 3 to 2. */
  function Shortcut(edgeType: string): Graph {
    Wired([Blank, Blank, Blank], [EdgeData(1, 2, edgeType, map[]), EdgeData(1, 3, edgeType, map[]), EdgeData(3, 2, edgeType, map[])])
  }

  lemma ShortcutWalks(edgeType: string)
    ensures var net := HavingNet(Shortcut(edgeType), Far(2, 3).edges[0]); Reaches(net, 1, 2, 1) && Reaches(net, 1, 2, 2)
  {
    hide WellFormed, Shortcut, PathTypes;
    var g, e := Shortcut(edgeType), Far(2, 3).edges[0];
    var net := HavingNet(g, e);
    ShortcutShape(edgeType);
    NoTypes(e);
    assert Having(g, []).edges == g.edges;
    NoStepNoMove(net, 1, 1);
    OneFurther(net, 1, 1, 2, 0, 1);
    OneFurther(net, 1, 1, 3, 0, 2);
    OneFurther(net, 1, 3, 2, 1, 3);
  }

  lemma NoTypes(e: EdgePattern)
    requires e.edgeType.None?
    ensures PathTypes(e.edgeType) == []
  {
  }

  lemma ShortcutIntended(edgeType: string)
    ensures IsIntended(Far(2, 3), map[], Shortcut(edgeType), Match(1, [Jump(2)], [], [0]))
  {
    hide WellFormed, Shortcut, HavingNet, Reaches;
    var ch, g, m := Far(2, 3), Shortcut(edgeType), Match(1, [Jump(2)], [], [0]);
    ShortcutShape(edgeType);
    ShortcutWalks(edgeType);
    assert StepMeets(g, ch.edges[0], 1, Jump(2));
    assert At(m, 0) == 1 && At(m, 1) == 2;
  }

  /** In particular `(a)-[*2..3]->(b)` does not lead from 1 to 2 there, although the walk over 3 has two edges:
      the direct edge hides it. */
  lemma ShortcutHides(edgeType: string)
    ensures var g, m := Shortcut(edgeType), Match(1, [Jump(2)], [], [0]);
            WellFormed(g) && IsIntended(Far(2, 3), map[], g, m) && !FullMatch(Far(2, 3), map[], g, m)
  {
    hide WellFormed, Shortcut, FullMatch, IsIntended, HavingNet, Reaches, PathTypes;
    var ch, g, m := Far(2, 3), Shortcut(edgeType), Match(1, [Jump(2)], [], [0]);
    ShortcutShape(edgeType);
    ShortcutIntended(edgeType);
    ShortcutWalks(edgeType);
    WalksWithout(g, ch.edges[0], 1, 2, 1);
    FoundExactlyWhen(ch, map[], g, m);
    assert At(m, 0) == 1 && !Visible(g, ch.edges[0], At(m, 0), m.steps[0].node);
  }

  lemma OneFurther(net: Net, u: NodeId, w: NodeId, v: NodeId, k: nat, id: EdgeId)
    requires Reaches(net, u, w, k) && Leads(net, id, true, w, v)
    ensures Reaches(net, u, v, k + 1)
  {
    hide Leads;
    assert Linked(net, w, v);
  }

  lemma ShortcutShape(edgeType: string)
    ensures var g := Shortcut(edgeType);
            && WellFormed(g)
            && g.nodes == map[1 := Node(1, [], map[]), 2 := Node(2, [], map[]), 3 := Node(3, [], map[])]
            && g.edges == map[1 := Edge(1, 1, 2, edgeType, map[]), 2 := Edge(2, 1, 3, edgeType, map[]), 3 := Edge(3, 3, 2, edgeType, map[])]
  {
    hide WellFormed, Wired;
    WiredShape([Blank, Blank, Blank], [EdgeData(1, 2, edgeType, map[]), EdgeData(1, 3, edgeType, map[]), EdgeData(3, 2, edgeType, map[])]);
  }

  // ---------- patterns that are not compiled ----------

  lemma BlankMeets(n: Node, p: NodePattern)
    requires n.labels == [] && n.properties == map[]
    ensures Meets(n, p) ==> p.labels == [] && p.properties == []
  {
    if p.properties != [] {
      assert !PropertyHolds(n, p.properties[0]);
    }
    UnlabelledMeets(n, p);
  }

  lemma OneLabelMeets(labels: seq<string>, n: Node)
    requires n.labels == OneLabelOf(labels) && HasLabels(n, labels)
    ensures SingleLabel(labels)
  {
  }

  lemma UnlabelledMeets(n: Node, p: NodePattern)
    requires n.labels == []
    ensures Meets(n, p) ==> p.labels == []
  {
    hide PropertiesHold;
    if p.labels != [] {
      assert p.labels[0] !in n.labels;
    }
  }

  /** On the path store no edge has any property, so an edge pattern with one is met by no edge and by no
      walk. */
  lemma PathEdgeMeets(ch: Chain, i: nat)
    requires i < |ch.edges|
    ensures StepMeets(PathStore(ch), ch.edges[i], Place(ch, i), StepAt(ch, i)) ==> ch.edges[i].properties == []
  {
    hide PathStore, Place, Reaches, HopTypes, PathTypes, Leads;
    var g, e := PathStore(ch), ch.edges[i];
    if e.properties != [] {
      if e.depth.None? {
        PathHop(ch, i);
        assert !PropertyHolds(Node(0, [], EdgeIn(g, Place(ch, i)).properties), e.properties[0]);
      } else {
        NothingHas(ch, e.properties);
        PlaceGrows(ch, i);
        var u, v := Place(ch, i), Place(ch, i + 1);
        forall k: nat ensures !Reaches(HavingNet(g, e), u, v, k) {
          NoEdgesNoWalk(HavingNet(g, e), u, v, k);
        }
      }
    }
  }

  lemma PathHop(ch: Chain, i: nat)
    requires i < |ch.edges|
    ensures EdgeIn(PathStore(ch), Place(ch, i)).properties == map[]
  {
    hide PathStore, Place;
    PlaceGrows(ch, i);
    PathStoreEdges(ch, i, Place(ch, i));
  }

  lemma NothingHas(ch: Chain, props: Properties)
    requires props != []
    ensures Having(PathStore(ch), props).edges == map[]
  {
    hide PathStore;
    var g := PathStore(ch);
    forall id | id in g.edges ensures !EdgeHas(g.edges[id], props) {
      PathStoreJoins(ch, id);
      assert !PropertyHolds(Node(0, [], g.edges[id].properties), props[0]);
    }
  }

  lemma NoEdgesNoWalk(net: Net, u: NodeId, v: NodeId, k: nat)
    requires net.g.edges == map[]
    ensures Reaches(net, u, v, k) ==> u == v
  {
  }

  /** When the path is a match in the full sense, all of the pattern is compiled: one part of the pattern
      after the other is missing on the path as soon as it is not compiled. */
  lemma PathIsIntended(ch: Chain)
    requires IsIntended(ch, map[], PathStore(ch), PathMatch(ch))
    ensures Compiled(ch)
  {
    hide PathStore, IsIntended, Place;
    FirstIsIntended(ch);
    forall i | 0 <= i < |ch.edges|
      ensures ch.edges[i].toNode.labels == [] && ch.edges[i].properties == []
      ensures i == |ch.edges| - 1 ==> ch.edges[i].toNode.properties == []
    {
      EdgeIsIntended(ch, i);
      LaterIsIntended(ch, i + 1);
    }
    forall j | 0 <= j < |ch.others| ensures SingleLabel(ch.others[j].labels) {
      LoneIsIntended(ch, j);
    }
  }

  lemma FirstIsIntended(ch: Chain)
    requires IsIntended(ch, map[], PathStore(ch), PathMatch(ch))
    ensures SingleLabel(ch.first.labels)
  {
    hide PathStore, StepMeets, PropertiesHold, HasLabels, SingleLabel, OneLabelOf, CopiesOk;
    PathStoreNodes(ch);
    PathMatchAt(ch, 0);
    assert HasNode(PathStore(ch), Place(ch, 0), Data(ch, 0));
    assert NodeMeets(PathStore(ch), At(PathMatch(ch), 0), NodeOf(ch, 0));
    OneLabelMeets(ch.first.labels, NodeIn(PathStore(ch), Place(ch, 0)));
  }

  lemma EdgeIsIntended(ch: Chain, i: nat)
    requires i < |ch.edges| && IsIntended(ch, map[], PathStore(ch), PathMatch(ch))
    ensures ch.edges[i].properties == []
  {
    hide PathStore, StepMeets, Meets, StepAt, Place, CopiesOk;
    PathMatchAt(ch, i);
    PathEdgeMeets(ch, i);
  }

  lemma LaterIsIntended(ch: Chain, i: nat)
    requires 0 < i <= |ch.edges| && IsIntended(ch, map[], PathStore(ch), PathMatch(ch))
    ensures NodeOf(ch, i).labels == [] && (i == |ch.edges| ==> NodeOf(ch, i).properties == [])
  {
    hide PathStore, StepMeets, Meets, LiteralProps, Place, CopiesOk;
    PathStoreNodes(ch);
    PathMatchAt(ch, i);
    var n := NodeIn(PathStore(ch), Place(ch, i));
    assert HasNode(PathStore(ch), Place(ch, i), Data(ch, i));
    assert NodeMeets(PathStore(ch), At(PathMatch(ch), i), NodeOf(ch, i));
    UnlabelledMeets(n, NodeOf(ch, i));
    if i == |ch.edges| {
      BlankMeets(n, NodeOf(ch, i));
    }
  }

  lemma LoneIsIntended(ch: Chain, j: nat)
    requires j < |ch.others| && IsIntended(ch, map[], PathStore(ch), PathMatch(ch))
    ensures SingleLabel(ch.others[j].labels)
  {
    hide PathStore, StepMeets, PropertiesHold, HasLabels, SingleLabel, OneLabelOf, LonePlace, LiteralProps, CopiesOk;
    PathStoreNodes(ch);
    assert HasNode(PathStore(ch), LonePlace(ch, j), LoneData(ch.others[j]));
    assert NodeMeets(PathStore(ch), PathMatch(ch).others[j], ch.others[j]);
    OneLabelMeets(ch.others[j].labels, NodeIn(PathStore(ch), LonePlace(ch, j)));
  }

  /** Every match of what is compiled is a match in the full sense, on every store. */
  ghost predicate AlwaysIntended(ch: Chain) {
    forall c: Ctx, m :: StoreOk(c) && FullMatch(ch, map[], c.g, m) ==> IsIntended(ch, map[], c.g, m)
  }

  /** No match that is found fails the full sense, on any store, exactly when all of the pattern is compiled, or
      nothing can match even the compiled part. */
  lemma IntendedOnlyExactly(ch: Chain)
    requires WellShaped(ch)
    ensures AlwaysIntended(ch) <==> Compiled(ch) || !Meetable(ch)
  {
    hide FullMatch, IsIntended, Compiled, Meetable, WellShaped, StoreOk, PathStore;
    MeetableExactly(ch);
    if Compiled(ch) {
      forall c: Ctx, m | StoreOk(c) && FullMatch(ch, map[], c.g, m) ensures IsIntended(ch, map[], c.g, m) {
        CompiledIsIntended(ch, map[], c.g, m);
      }
    } else if Meetable(ch) {
      PathStoreIsOk(ch);
      PathIsMatch(ch);
      assert StoreOk(PathCtx(ch)) && FullMatch(ch, map[], PathCtx(ch).g, PathMatch(ch));
      if IsIntended(ch, map[], PathStore(ch), PathMatch(ch)) {
        PathIsIntended(ch);
      }
    }
  }

  /** MATCH over a chain finds exactly the matches in the full sense, on every store, exactly when all of the
      pattern is compiled, or nothing can match even the compiled part, and the pattern misses nothing. */
  lemma IntendedExactly(ch: Chain)
    requires WellShaped(ch)
    ensures (forall c: Ctx, m :: StoreOk(c) ==> (FullMatch(ch, map[], c.g, m) <==> IsIntended(ch, map[], c.g, m)))
      <==> (Compiled(ch) || !Meetable(ch)) && !Misses(ch)
  {
    hide FullMatch, IsIntended, Compiled, Meetable, WellShaped, StoreOk, Misses;
    IntendedOnlyExactly(ch);
    FoundExactly(ch);
  }

  /** For a pattern that is not all compiled, executing its plan on its path store returns the row of a match
      that some node or edge does not meet its pattern in. */
  lemma UncompiledRow(ps: seq<Pattern>, ch: Chain) returns (rows: seq<Tuple>)
    requires LaidOut(ps, ch) && WellShaped(ch) && WellNamed(ch) && Meetable(ch) && !Compiled(ch)
    ensures StoreOk(PathCtx(ch)) && PlanMatch(ps).Ok? && Rows(PlanMatch(ps).value, map[], PathCtx(ch)) == Ok(rows)
    ensures !IsIntended(ch, map[], PathStore(ch), PathMatch(ch))
    ensures MatchRow(ch, map[], PathStore(ch), PathMatch(ch)) in rows
  {
    hide LaidOut, WellShaped, WellNamed, Compiled, StoreOk, ParentOk, PlanMatch, Rows, FullMatch, IsIntended, MatchRow, PathStore, Meetable;
    PathStoreIsOk(ch);
    PathIsMatch(ch);
    if IsIntended(ch, map[], PathStore(ch), PathMatch(ch)) {
      PathIsIntended(ch);
    }
    EmptyParentOk(ch, PathStore(ch));
    var ms := MatchRowsAreMatches(ps, ch, map[], PathCtx(ch));
    rows := Rows(PlanMatch(ps).value, map[], PathCtx(ch)).value;
    assert PathMatch(ch) in ms;
    var i :| 0 <= i < |ms| && ms[i] == PathMatch(ch);
    assert rows[i] == MatchRow(ch, map[], PathStore(ch), PathMatch(ch));
  }

  /** `(a)-[]->(b:L)`, or with a property on `b`. */
  function OneHop(labels: seq<string>, props: Properties): Chain {
    var a, b := NodePattern(Some("a"), [], []), NodePattern(Some("b"), labels, props);
    Chain(a, [EdgePattern(None, None, Right, [], a, b, None)], [])
  }

  /** In particular the one-hop pattern matches an edge whatever label or property it asks of the far node,
      although that node has none. */
  lemma LastNodeIsUnchecked(labels: seq<string>, props: Properties)
    requires labels != [] || props != []
    ensures var ch := OneHop(labels, props);
            FullMatch(ch, map[], PathStore(ch), PathMatch(ch)) && !IsIntended(ch, map[], PathStore(ch), PathMatch(ch))
  {
    hide PathStore, FullMatch, IsIntended;
    var ch := OneHop(labels, props);
    assert Meetable(ch) && !Compiled(ch);
    PathIsMatch(ch);
    if IsIntended(ch, map[], PathStore(ch), PathMatch(ch)) {
      PathIsIntended(ch);
    }
  }

  // ---------- repeated labels ----------

  /** Scanning by a label yields every node once exactly when no node lists that label twice. */
  lemma ScanRepeatsLabels(g: Graph, lbl: string)
    requires WellFormed(g)
    ensures Distinct(Look(g.labelIndex, lbl)) <==> forall id :: id in g.nodes ==> multiset(g.nodes[id].labels)[lbl] <= 1
  {
    var ids: seq<NodeId> := Look(g.labelIndex, lbl);
    DistinctCounts(ids);
    forall id
      ensures multiset(Look(g.labelIndex, lbl))[id] == if id in g.nodes then multiset(g.nodes[id].labels)[lbl] else 0
    {
    }
  }
}
