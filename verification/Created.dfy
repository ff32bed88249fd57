/** What CREATE stores: which node and which edge every pattern of a row becomes. */
module Created {
  import opened Prelude
  import opened Values
  import opened Ast
  import opened GraphStore
  import opened Creation

  /** Ids of the first node and the first edge that a row creates. */
  datatype Firsts = Firsts(node: NodeId, edge: EdgeId)

  /** The id that node pattern `i`, or edge pattern `i`, gets: patterns of its sort are numbered in order. */
  function NodeIdAt(ps: seq<Pattern>, i: nat, f: Firsts): NodeId
    requires i <= |ps|
  {
    f.node + NodePatterns(ps, i)
  }

  function EdgeIdAt(ps: seq<Pattern>, i: nat, f: Firsts): EdgeId
    requires i <= |ps|
  {
    f.edge + EdgePatterns(ps, i)
  }

  predicate SameLiteral(lit: Literal, v: Value) {
    match lit
    case LitStr(s) => v.Str? && v.s == s
    case LitInt(i) => v.Int? && v.i == i
    case LitFloat(r) => v.Float? && v.r == r
    case LitBool(b) => v.Bool? && v.b == b
    case LitNull => v.Null?
  }

  predicate LastOfKey(props: Properties, j: nat) {
    j < |props| && forall l :: j < l < |props| ==> props[l].0 != props[j].0
  }

  /** The stored properties are those of the pattern, the last value of each key. */
  ghost predicate HasProps(m: map<string, Value>, props: Properties) {
    && (forall k :: k in m ==> exists j: nat :: LastOfKey(props, j) && props[j].0 == k)
    && (forall j: nat :: LastOfKey(props, j) ==> props[j].0 in m && SameLiteral(props[j].1, m[props[j].0]))
  }

  predicate NodeNamed(p: Pattern, v: string) {
    p.NodePat? && p.node.variable == Some(v)
  }

  predicate EdgeNamed(p: Pattern, v: string) {
    p.EdgePat? && p.edge.variable == Some(v)
  }

  /** Before pattern `n`, variable `v` names a node that the same row creates: that of the last node pattern with
      this variable. */
  ghost predicate NamesNew(ps: seq<Pattern>, n: nat, v: string, id: NodeId, f: Firsts)
    requires n <= |ps|
  {
    exists j: nat :: NamesAt(ps, n, v, j) && id == NodeIdAt(ps, j, f)
  }

  ghost predicate NamesAt(ps: seq<Pattern>, n: nat, v: string, j: nat)
    requires n <= |ps|
  {
    j < n && NodeNamed(ps[j], v) && forall l :: j < l < n ==> !NodeNamed(ps[l], v)
  }

  /** Before pattern `n`, variable `v` names node `id`: one that the row creates, or else one that it had. */
  ghost predicate Names(ps: seq<Pattern>, n: nat, parent: Tuple, v: Option<string>, id: NodeId, f: Firsts)
    requires n <= |ps|
  {
    v.Some? && (NamesNew(ps, n, v.value, id, f)
                || ((forall l :: 0 <= l < n ==> !NodeNamed(ps[l], v.value)) && v.value in parent && parent[v.value] == NodeRef(id)))
  }

  /** Node pattern `i` is a new node of the store, with its labels and properties. */
  ghost predicate NodeMade(ps: seq<Pattern>, i: nat, f: Firsts, g: Graph, h: Graph)
    requires i < |ps| && ps[i].NodePat?
  {
    var id := NodeIdAt(ps, i, f);
    && id !in g.nodes && id in h.nodes && h.nodes[id].id == id
    && h.nodes[id].labels == ps[i].node.labels && HasProps(h.nodes[id].properties, ps[i].node.properties)
  }

  /** Edge pattern `i` is a new edge of the store: from the node that its first variable names there to the one
      that its second names, with its type and properties. */
  ghost predicate EdgeMade(ps: seq<Pattern>, i: nat, parent: Tuple, f: Firsts, g: Graph, h: Graph)
    requires i < |ps| && ps[i].EdgePat?
  {
    var id, e := EdgeIdAt(ps, i, f), ps[i].edge;
    && id !in g.edges && id in h.edges && h.edges[id].id == id
    && Names(ps, i, parent, e.fromNode.variable, h.edges[id].source, f)
    && Names(ps, i, parent, e.toNode.variable, h.edges[id].target, f)
    && e.edgeType == Some(h.edges[id].edgeType) && HasProps(h.edges[id].properties, e.properties)
  }

  /** Pattern `j` is the last of the first `n` that puts something under `w`. */
  ghost predicate PutBy(ps: seq<Pattern>, n: nat, w: string, j: nat)
    requires n <= |ps|
  {
    j < n && (NodeNamed(ps[j], w) || EdgeNamed(ps[j], w)) && forall l :: j < l < n ==> !NodeNamed(ps[l], w) && !EdgeNamed(ps[l], w)
  }

  /** The row holds under each variable the node or the number of the edge that its last pattern became, and is
      otherwise as it was. */
  ghost predicate RowMade(ps: seq<Pattern>, n: nat, parent: Tuple, f: Firsts, row: Tuple)
    requires n <= |ps|
  {
    && (forall w, j: nat :: PutBy(ps, n, w, j) ==>
          w in row && row[w] == if ps[j].NodePat? then NodeRef(NodeIdAt(ps, j, f)) else Int(EdgeIdAt(ps, j, f)))
    && (forall w :: (forall j: nat :: !PutBy(ps, n, w, j)) ==> (w in row <==> w in parent) && (w in row ==> row[w] == parent[w]))
  }

  /** The first `n` patterns of a row have all become what they describe. */
  ghost predicate Made(ps: seq<Pattern>, n: nat, parent: Tuple, f: Firsts, g: Graph, h: Graph)
    requires n <= |ps|
  {
    && (forall i :: 0 <= i < n && ps[i].NodePat? ==> NodeMade(ps, i, f, g, h))
    && (forall i :: 0 <= i < n && ps[i].EdgePat? ==> EdgeMade(ps, i, parent, f, g, h))
  }

  // ---------- properties ----------

  lemma LiteralIs(lit: Literal)
    ensures SameLiteral(lit, LiteralValue(lit))
  {
  }

  lemma {:induction false} LiteralPropsAre(props: Properties)
    ensures HasProps(LiteralProps(props), props)
  {
    if props != [] {
      var n := |props| - 1;
      var front, m := props[..n], LiteralProps(props[..n]);
      LiteralPropsAre(front);
      LiteralIs(props[n].1);
      assert LastOfKey(props, n);
      forall j: nat ensures LastOfKey(props, j) <==> j == n || (LastOfKey(front, j) && props[j].0 != props[n].0) {
        assert j < n ==> front[j] == props[j];
      }
      forall k | k in LiteralProps(props) ensures exists j: nat :: LastOfKey(props, j) && props[j].0 == k {
        if k != props[n].0 {
          var j: nat :| LastOfKey(front, j) && front[j].0 == k;
          assert LastOfKey(props, j);
        }
      }
    }
  }

  // ---------- scopes ----------

  /** The nodes created so far, by variable. */
  ghost predicate ScopeIs(ps: seq<Pattern>, n: nat, f: Firsts, created: map<string, NodeId>)
    requires n <= |ps|
  {
    && (forall v :: v in created ==> NamesNew(ps, n, v, created[v], f))
    && (forall v, l :: 0 <= l < n && NodeNamed(ps[l], v) ==> v in created)
  }

  lemma ScopeGrows(ps: seq<Pattern>, n: nat, f: Firsts, created: map<string, NodeId>)
    requires n < |ps| && ScopeIs(ps, n, f, created)
    ensures var p := ps[n];
            ScopeIs(ps, n + 1, f, if p.NodePat? && p.node.variable.Some? then created[p.node.variable.value := NodeIdAt(ps, n, f)] else created)
  {
    hide NodeIdAt;
    var p, m := ps[n], n + 1;
    var after := if p.NodePat? && p.node.variable.Some? then created[p.node.variable.value := NodeIdAt(ps, n, f)] else created;
    forall v | v in after ensures NamesNew(ps, m, v, after[v], f) {
      if NodeNamed(p, v) {
        assert NamesAt(ps, m, v, n);
      } else {
        var j: nat :| NamesAt(ps, n, v, j) && created[v] == NodeIdAt(ps, j, f);
        assert NamesAt(ps, m, v, j);
      }
    }
  }

  lemma ResolvedIsNamed(ps: seq<Pattern>, n: nat, parent: Tuple, p: NodePattern, f: Firsts, created: map<string, NodeId>)
    requires n <= |ps| && ScopeIs(ps, n, f, created) && Resolve(p, created, parent).Some?
    ensures Names(ps, n, parent, p.variable, Resolve(p, created, parent).value, f)
  {
    hide NamesNew, NodeNamed;
  }

  lemma RowGrows(ps: seq<Pattern>, n: nat, parent: Tuple, f: Firsts, row: Tuple, v: Option<string>, x: Value)
    requires n < |ps| && RowMade(ps, n, parent, f, row)
    requires v == if ps[n].NodePat? then ps[n].node.variable else ps[n].edge.variable
    requires x == if ps[n].NodePat? then NodeRef(NodeIdAt(ps, n, f)) else Int(EdgeIdAt(ps, n, f))
    ensures RowMade(ps, n + 1, parent, f, if v.Some? then row[v.value := x] else row)
  {
    hide NodeIdAt, EdgeIdAt;
    var m, after := n + 1, if v.Some? then row[v.value := x] else row;
    forall w, j: nat ensures PutBy(ps, m, w, j) <==> (j == n && v == Some(w)) || (PutBy(ps, n, w, j) && v != Some(w)) {
    }
    forall w | forall j: nat :: !PutBy(ps, m, w, j) ensures (w in after <==> w in parent) && (w in after ==> after[w] == parent[w]) {
      assert !PutBy(ps, m, w, n);
      forall j: nat ensures !PutBy(ps, n, w, j) {
        assert !PutBy(ps, m, w, j);
      }
    }
  }

  // ---------- one row ----------

  /** Where the first `n` patterns of a row have led. */
  ghost predicate Reached(ps: seq<Pattern>, n: nat, parent: Tuple, g: Graph, h: Graph, s: Scope)
    requires n <= |ps|
  {
    var f := Firsts(g.nextNode, g.nextEdge);
    && Made(ps, n, parent, f, g, h) && ScopeIs(ps, n, f, s.created) && RowMade(ps, n, parent, f, s.row)
    && h.nextNode == NodeIdAt(ps, n, f) && h.nextEdge == EdgeIdAt(ps, n, f)
  }

  lemma NothingReached(ps: seq<Pattern>, parent: Tuple, g: Graph)
    ensures Reached(ps, 0, parent, g, g, Scope(map[], parent))
  {
  }

  lemma MadeIsKept(ps: seq<Pattern>, n: nat, parent: Tuple, f: Firsts, g: Graph, h: Graph, k: Graph)
    requires n <= |ps| && Made(ps, n, parent, f, g, h) && Kept(h, k)
    ensures Made(ps, n, parent, f, g, k)
  {
    hide NodeIdAt, EdgeIdAt, Names, HasProps;
    forall i | 0 <= i < n && ps[i].NodePat? ensures NodeMade(ps, i, f, g, k) {
      assert NodeMade(ps, i, f, g, h);
    }
    forall i | 0 <= i < n && ps[i].EdgePat? ensures EdgeMade(ps, i, parent, f, g, k) {
      assert EdgeMade(ps, i, parent, f, g, h);
    }
  }

  lemma IdsGrow(ps: seq<Pattern>, n: nat, f: Firsts)
    requires n < |ps|
    ensures NodeIdAt(ps, n + 1, f) == NodeIdAt(ps, n, f) + if ps[n].NodePat? then 1 else 0
    ensures EdgeIdAt(ps, n + 1, f) == EdgeIdAt(ps, n, f) + if ps[n].EdgePat? then 1 else 0
  {
  }

  lemma NodeIsMade(ps: seq<Pattern>, n: nat, parent: Tuple, g: Graph, h: Graph, s: Scope)
    requires n < |ps| && ps[n].NodePat? && DenseIds(g) && Reached(ps, n, parent, g, h, s) && g.nextNode <= h.nextNode
    ensures var o := CreateNode(ps[n].node, h, s); NodeMade(ps, n, Firsts(g.nextNode, g.nextEdge), g, o.g)
  {
    hide Made, ScopeIs, RowMade, HasProps, PushAll, LiteralProps;
    LiteralPropsAre(ps[n].node.properties);
  }

  lemma EdgeIsMade(ps: seq<Pattern>, n: nat, parent: Tuple, g: Graph, h: Graph, s: Scope)
    requires n < |ps| && ps[n].EdgePat? && DenseIds(g) && Reached(ps, n, parent, g, h, s) && g.nextEdge <= h.nextEdge
    requires CreateEdge(ps[n].edge, parent, h, s).result.Ok?
    ensures EdgeMade(ps, n, parent, Firsts(g.nextNode, g.nextEdge), g, CreateEdge(ps[n].edge, parent, h, s).g)
  {
    hide Made, RowMade, HasProps, Push, LiteralProps, ScopeIs, Names, Resolve;
    var f, e := Firsts(g.nextNode, g.nextEdge), ps[n].edge;
    LiteralPropsAre(e.properties);
    ResolvedIsNamed(ps, n, parent, e.fromNode, f, s.created);
    ResolvedIsNamed(ps, n, parent, e.toNode, f, s.created);
  }

  lemma ReachedStep(ps: seq<Pattern>, n: nat, parent: Tuple, g: Graph, h: Graph, s: Scope)
    requires n < |ps| && WellFormed(g) && WellFormed(h) && Reached(ps, n, parent, g, h, s)
    requires CreatePattern(ps[n], parent, h, s).result.Ok?
    ensures var o := CreatePattern(ps[n], parent, h, s); Reached(ps, n + 1, parent, g, o.g, o.result.value)
  {
    hide Made, NodeMade, EdgeMade, ScopeIs, RowMade, HasProps, Names, LiteralProps, Kept, LabelsAgree, AdjacencyAgrees, NodeIdAt, EdgeIdAt, PushAll, Push, Resolve;
    var f, o := Firsts(g.nextNode, g.nextEdge), CreatePattern(ps[n], parent, h, s);
    CreatePatternGrows(ps[n], parent, h, s);
    MadeIsKept(ps, n, parent, f, g, h, o.g);
    IdsGrow(ps, n, f);
    ScopeGrows(ps, n, f, s.created);
    FirstsAreLeast(ps, n, f);
    match ps[n]
    case NodePat(p) =>
      NodeIsMade(ps, n, parent, g, h, s);
      MadeMore(ps, n, parent, f, g, o.g);
      RowGrows(ps, n, parent, f, s.row, p.variable, NodeRef(h.nextNode));
    case EdgePat(e) =>
      EdgeIsMade(ps, n, parent, g, h, s);
      MadeMore(ps, n, parent, f, g, o.g);
      RowGrows(ps, n, parent, f, s.row, e.variable, Int(h.nextEdge));
  }

  lemma FirstsAreLeast(ps: seq<Pattern>, n: nat, f: Firsts)
    requires n <= |ps|
    ensures f.node <= NodeIdAt(ps, n, f) && f.edge <= EdgeIdAt(ps, n, f)
  {
  }

  lemma MadeMore(ps: seq<Pattern>, n: nat, parent: Tuple, f: Firsts, g: Graph, h: Graph)
    requires n < |ps| && Made(ps, n, parent, f, g, h)
    requires if ps[n].NodePat? then NodeMade(ps, n, f, g, h) else EdgeMade(ps, n, parent, f, g, h)
    ensures Made(ps, n + 1, parent, f, g, h)
  {
    hide NodeMade, EdgeMade;
  }

  lemma {:induction false} PrefixReaches(ps: seq<Pattern>, n: nat, parent: Tuple, g: Graph)
    requires n <= |ps| && WellFormed(g) && CreatePrefix(ps, n, parent, g).result.Ok?
    ensures var o := CreatePrefix(ps, n, parent, g); WellFormed(o.g) && Kept(g, o.g) && Reached(ps, n, parent, g, o.g, o.result.value)
    decreases n
  {
    hide Reached, WellFormed, CreatePattern, Kept;
    if n == 0 {
      NothingReached(ps, parent, g);
      GrownSelf(g);
    } else {
      PrefixReaches(ps, n - 1, parent, g);
      var o := CreatePrefix(ps, n - 1, parent, g);
      var _ := CreatePrefixGrows(ps, n, parent, g);
      ReachedStep(ps, n - 1, parent, g, o.g, o.result.value);
    }
  }

  /** When CREATE succeeds on a row, every node pattern and every edge pattern is a new node or edge as described,
      the row holds them under their variables, and nothing else is new. */
  ghost predicate RowCreates(ps: seq<Pattern>, parent: Tuple, f: Firsts, g: Graph, h: Graph, row: Tuple) {
    Made(ps, |ps|, parent, f, g, h) && RowMade(ps, |ps|, parent, f, row)
  }

  lemma CreateRowMakes(ps: seq<Pattern>, parent: Tuple, g: Graph)
    requires WellFormed(g) && CreateRow(ps, parent, g).result.Ok?
    ensures var o := CreateRow(ps, parent, g);
            && RowCreates(ps, parent, Firsts(g.nextNode, g.nextEdge), g, o.g, o.result.value)
            && WellFormed(o.g) && Kept(g, o.g)
            && o.g.nextNode == g.nextNode + NodePatterns(ps, |ps|) && o.g.nextEdge == g.nextEdge + EdgePatterns(ps, |ps|)
  {
    hide WellFormed, Made, RowMade, ScopeIs, Kept;
    PrefixReaches(ps, |ps|, parent, g);
  }

  // ---------- all rows ----------

  /** Row `r` begins behind what the rows before it create. */
  function FirstsOf(ps: seq<Pattern>, g: Graph, r: nat): Firsts {
    Firsts(g.nextNode + r * NodePatterns(ps, |ps|), g.nextEdge + r * EdgePatterns(ps, |ps|))
  }

  /** Every row of `rows` creates its patterns, one row behind the other, and nothing else is new. */
  ghost predicate RowsCreate(ps: seq<Pattern>, rows: seq<Tuple>, g: Graph, h: Graph, out: seq<Tuple>) {
    && |out| == |rows|
    && (forall r :: 0 <= r < |rows| ==> RowCreates(ps, rows[r], FirstsOf(ps, g, r), g, h, out[r]))
    && h.nextNode == FirstsOf(ps, g, |rows|).node && h.nextEdge == FirstsOf(ps, g, |rows|).edge
  }

  /** What is new after a later store is new after an earlier one. */
  lemma MadeFrom(ps: seq<Pattern>, parent: Tuple, f: Firsts, g: Graph, h: Graph, k: Graph, row: Tuple)
    requires Kept(g, h) && RowCreates(ps, parent, f, h, k, row)
    ensures RowCreates(ps, parent, f, g, k, row)
  {
    hide NodeIdAt, EdgeIdAt, Names, HasProps, RowMade;
    forall i | 0 <= i < |ps| && ps[i].NodePat? ensures NodeMade(ps, i, f, g, k) {
      assert NodeMade(ps, i, f, h, k);
    }
    forall i | 0 <= i < |ps| && ps[i].EdgePat? ensures EdgeMade(ps, i, parent, f, g, k) {
      assert EdgeMade(ps, i, parent, f, h, k);
    }
  }

  lemma MadeStays(ps: seq<Pattern>, parent: Tuple, f: Firsts, g: Graph, h: Graph, k: Graph, row: Tuple)
    requires Kept(h, k) && RowCreates(ps, parent, f, g, h, row)
    ensures RowCreates(ps, parent, f, g, k, row)
  {
    hide Made, RowMade, Kept;
    MadeIsKept(ps, |ps|, parent, f, g, h, k);
  }

  lemma {:induction false} CreateRowsMake(ps: seq<Pattern>, rows: seq<Tuple>, g: Graph)
    requires WellFormed(g) && CreateRows(ps, rows, g).result.Ok?
    ensures var o := CreateRows(ps, rows, g); RowsCreate(ps, rows, g, o.g, o.result.value) && WellFormed(o.g) && Kept(g, o.g)
    decreases |rows|
  {
    hide WellFormed, Kept, RowCreates, CreateRow, NodePatterns, EdgePatterns;
    if rows == [] {
      GrownSelf(g);
    } else {
      var n := |rows| - 1;
      var o := CreateRows(ps, rows[..n], g);
      CreateRowsMake(ps, rows[..n], g);
      CreateRowMakes(ps, rows[n], o.g);
      var last := CreateRow(ps, rows[n], o.g);
      MadeFrom(ps, rows[n], FirstsOf(ps, g, n), g, o.g, last.g, last.result.value);
      OneMore(n, NodePatterns(ps, |ps|));
      OneMore(n, EdgePatterns(ps, |ps|));
      KeptTransitive(g, o.g, last.g);
      forall r | 0 <= r < n ensures RowCreates(ps, rows[r], FirstsOf(ps, g, r), g, last.g, o.result.value[r]) {
        assert rows[..n][r] == rows[r];
        MadeStays(ps, rows[r], FirstsOf(ps, g, r), g, o.g, last.g, o.result.value[r]);
      }
    }
  }

  lemma KeptTransitive(g: Graph, h: Graph, k: Graph)
    requires Kept(g, h) && Kept(h, k)
    ensures Kept(g, k)
  {
  }
}
