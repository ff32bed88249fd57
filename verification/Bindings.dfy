/** How variables and their properties live side by side in one row: bindings of different dotless
    variables do not disturb each other, and inline property predicates read the bound node. */
module Bindings {
  import opened Prelude
  import opened Values
  import opened Ast
  import opened GraphStore
  import opened Planner
  import opened Semantics
  import opened Chains
  import opened Text

  /** Row `t` holds node `n` under `v`, with exactly its properties. */
  ghost predicate Bound(t: Tuple, v: string, n: Node) {
    && v in t && t[v] == NodeRef(n.id)
    && (forall k :: k in n.properties ==> PropKey(v, k) in t && t[PropKey(v, k)] == n.properties[k])
    && (forall k :: PropKey(v, k) in t ==> k in n.properties)
  }

  /** Row `t` holds node `n` under `v`, with some of its properties, or none as behind a WITH that passes on the
      node alone. */
  ghost predicate Held(t: Tuple, v: string, n: Node) {
    && v in t && t[v] == NodeRef(n.id)
    && (forall k :: PropKey(v, k) in t ==> k in n.properties && t[PropKey(v, k)] == n.properties[k])
  }

  ghost predicate Unbound(t: Tuple, v: string) {
    v !in t && forall k :: PropKey(v, k) !in t
  }

  lemma KeysApart(v: string, k: string, w: string, l: string)
    requires Dotless(v) && Dotless(w) && PropKey(v, k) == PropKey(w, l)
    ensures v == w && k == l
  {
    var key := PropKey(v, k);
    assert key[|v|] == '.' && key[|w|] == '.';
    assert key[..|v|] == v && key[..|w|] == w;
    assert forall i :: 0 <= i < |v| ==> key[i] == v[i] && v[i] in v;
    assert forall i :: 0 <= i < |w| ==> key[i] == w[i] && w[i] in w;
    assert |v| == |w|;
    assert key[|v| + 1..] == k && key[|w| + 1..] == l;
  }

  lemma PropKeyHasDot(v: string, k: string)
    ensures '.' in PropKey(v, k)
  {
    assert PropKey(v, k)[|v|] == '.';
  }

  lemma PropKeyIsNoName(v: string, k: string, w: string)
    requires Dotless(w)
    ensures PropKey(v, k) != w
  {
    PropKeyHasDot(v, k);
  }

  /** `extra` says nothing about `w` or its properties. */
  ghost predicate Silent(extra: Tuple, w: string) {
    w !in extra && forall k :: PropKey(w, k) !in extra
  }

  lemma DotPropsSilent(v: string, props: map<string, Value>, w: string)
    requires Dotless(v) && Dotless(w) && v != w
    ensures Silent(DotProps(v, props), w)
  {
    forall l | l in props
      ensures PropKey(v, l) != w
    {
      PropKeyIsNoName(v, l, w);
    }
    forall k | PropKey(w, k) in DotProps(v, props)
      ensures false
    {
      var l :| l in props && PropKey(w, k) == PropKey(v, l);
      KeysApart(w, k, v, l);
    }
  }

  lemma NodeEntriesSilent(v: string, n: Node, w: string)
    requires Dotless(v) && Dotless(w) && v != w
    ensures Silent(NodeEntries(v, n), w)
  {
    DotPropsSilent(v, n.properties, w);
    forall k ensures PropKey(w, k) != v {
      PropKeyIsNoName(w, k, v);
    }
  }

  lemma EdgeEntriesSilent(v: string, e: Edge, w: string)
    requires Dotless(v) && Dotless(w) && v != w
    ensures Silent(EdgeEntries(v, e), w)
  {
    DotPropsSilent(v, e.properties, w);
    PropKeyIsNoName(v, "edge_type", w);
    forall k ensures PropKey(w, k) != v && PropKey(w, k) != PropKey(v, "edge_type") {
      PropKeyIsNoName(w, k, v);
      if PropKey(w, k) == PropKey(v, "edge_type") {
        KeysApart(w, k, v, "edge_type");
      }
    }
  }

  /** What `t'` says about `w` is what `t` says. */
  ghost predicate SameFor(t: Tuple, t': Tuple, w: string) {
    && (w in t' <==> w in t) && (w in t ==> t'[w] == t[w])
    && (forall k :: PropKey(w, k) in t' <==> PropKey(w, k) in t)
    && (forall k :: PropKey(w, k) in t ==> t'[PropKey(w, k)] == t[PropKey(w, k)])
  }

  lemma SilentFrame(t: Tuple, extra: Tuple, w: string)
    requires Silent(extra, w)
    ensures SameFor(t, t + extra, w)
  {
  }

  lemma BindNodeFrame(t: Tuple, v: string, n: Node, w: string)
    requires Dotless(v) && Dotless(w) && v != w
    ensures SameFor(t, BindNode(t, v, n), w)
  {
    NodeEntriesSilent(v, n, w);
    SilentFrame(t, NodeEntries(v, n), w);
  }

  lemma BindEdgeFrame(t: Tuple, v: Option<string>, e: Edge, w: string)
    requires Dotless(w) && v != Some(w) && (v.Some? ==> Dotless(v.value))
    ensures SameFor(t, BindEdge(t, v, e), w)
  {
    if v.Some? {
      EdgeEntriesSilent(v.value, e, w);
      SilentFrame(t, EdgeEntries(v.value, e), w);
    }
  }

  lemma SameForBound(t: Tuple, t': Tuple, w: string, n: Node)
    requires SameFor(t, t', w)
    ensures Bound(t, w, n) ==> Bound(t', w, n)
    ensures Unbound(t, w) ==> Unbound(t', w)
  {
  }

  lemma BindNodeBinds(t: Tuple, v: string, n: Node)
    requires Dotless(v) && (Unbound(t, v) || Held(t, v, n))
    ensures Bound(BindNode(t, v, n), v, n)
  {
    forall k ensures PropKey(v, k) != v {
      PropKeyIsNoName(v, k, v);
    }
    forall k | PropKey(v, k) in DotProps(v, n.properties)
      ensures k in n.properties
    {
      var l :| l in n.properties && PropKey(v, k) == PropKey(v, l);
      KeysApart(v, k, v, l);
    }
    assert v !in DotProps(v, n.properties) by {
      forall k | k in n.properties ensures PropKey(v, k) != v {}
    }
  }

  // ---------- inline properties ----------

  /** Property `p` of a node pattern holds of `n`: the node has the key and the engine's equality says
      true. A null literal therefore never matches. */
  predicate PropertyHolds(n: Node, p: (string, Literal)) {
    p.0 in n.properties && IsTrue(EvalBinaryOp(n.properties[p.0], BinOp.Eq, LiteralValue(p.1)))
  }

  ghost predicate PropertiesHold(n: Node, props: Properties) {
    forall i :: 0 <= i < |props| ==> PropertyHolds(n, props[i])
  }

  lemma PropertyEqualsMeans(t: Tuple, v: string, n: Node, p: (string, Literal), c: Ctx)
    requires Bound(t, v, n)
    ensures IsTrue(Eval(PropertyEquals(v, p), t, c)) <==> PropertyHolds(n, p)
    ensures Eval(PropertyEquals(v, p), t, c).Ok? ==> Eval(PropertyEquals(v, p), t, c).value.Bool?
  {
    var key := PropKey(v, p.0);
    assert key in t <==> p.0 in n.properties;
    assert Eval(Property(v, p.0), t, c) == if key in t then Ok(t[key]) else Err(InvalidArgument("property not found"));
    assert Eval(Lit(p.1), t, c) == Ok(LiteralValue(p.1));
  }

  lemma AndMeans(t: Tuple, l: Expr, r: Expr, c: Ctx)
    ensures IsTrue(Eval(BinaryOp(l, BinOp.And, r), t, c)) <==> IsTrue(Eval(l, t, c)) && IsTrue(Eval(r, t, c))
  {
    var x, y := Eval(l, t, c), Eval(r, t, c);
    if x.Ok? && y.Ok? {
      assert Eval(BinaryOp(l, BinOp.And, r), t, c) == EvalBinaryOp(x.value, BinOp.And, y.value);
    }
  }

  lemma {:induction false} PropertyPredicateMeans(t: Tuple, v: string, n: Node, props: Properties, c: Ctx)
    requires Bound(t, v, n) && props != []
    ensures IsTrue(Eval(PropertyPredicate(v, props), t, c)) <==> PropertiesHold(n, props)
  {
    var front, last := props[..|props| - 1], props[|props| - 1];
    assert props == front + [last];
    PropertyEqualsMeans(t, v, n, last, c);
    if front != [] {
      PropertyPredicateMeans(t, v, n, front, c);
      AndMeans(t, PropertyPredicate(v, front), PropertyEquals(v, last), c);
      assert PropertiesHold(n, props) <==> PropertiesHold(n, front) && PropertyHolds(n, last);
    }
  }

  /** An absent predicate is always true. */
  ghost predicate Passes(e: Option<Expr>, t: Tuple, c: Ctx) {
    e.Some? ==> IsTrue(Eval(e.value, t, c))
  }

  lemma ConjoinMeans(e: Option<Expr>, t: Tuple, v: string, n: Node, props: Properties, c: Ctx)
    requires Bound(t, v, n)
    ensures Passes(ConjoinProperties(e, v, props), t, c) <==> Passes(e, t, c) && PropertiesHold(n, props)
  {
    if props != [] {
      PropertyPredicateMeans(t, v, n, props, c);
      if e.Some? {
        AndMeans(t, e.value, PropertyPredicate(v, props), c);
      }
    }
  }

  lemma EndpointsDifferMeans(t: Tuple, u: string, v: string, m: Node, n: Node, c: Ctx)
    requires Bound(t, u, m) && Bound(t, v, n)
    ensures IsTrue(Eval(EndpointsDiffer(u, v), t, c)) <==> m.id != n.id
  {
    assert Upper("ID") == "ID";
    assert Eval([Ident(u)][0], t, c) == Ok(NodeRef(m.id));
    assert Eval([Ident(v)][0], t, c) == Ok(NodeRef(n.id));
    assert Eval(FunctionCall("ID", [Ident(u)]), t, c) == Ok(Int(m.id));
    assert Eval(FunctionCall("ID", [Ident(v)]), t, c) == Ok(Int(n.id));
  }
}
