/** Stable sorting by a comparison that ranks the elements consistently; the result does not depend
    on the sorting algorithm. */
module StableSort {

  /** `x` goes after every element that does not rank above it. */
  function Insert<T>(x: T, s: seq<T>, le: (T, T) -> bool): seq<T> {
    if s == [] then [x]
    else if le(s[0], x) then [s[0]] + Insert(x, s[1..], le)
    else [x] + s
  }

  /** Elements are inserted one by one, each after its equals. */
  function Sort<T>(s: seq<T>, le: (T, T) -> bool): (r: seq<T>)
    ensures |r| == |s|
  {
    if s == [] then []
    else
      InsertSize(s[|s| - 1], Sort(s[..|s| - 1], le), le);
      Insert(s[|s| - 1], Sort(s[..|s| - 1], le), le)
  }

  lemma {:induction false} InsertSize<T>(x: T, s: seq<T>, le: (T, T) -> bool)
    ensures |Insert(x, s, le)| == |s| + 1
  {
    if s != [] {
      InsertSize(x, s[1..], le);
    }
  }

  /** `le` is a total preorder on `dom`. */
  ghost predicate PreorderOn<T(!new)>(le: (T, T) -> bool, dom: set<T>) {
    && (forall a, b :: a in dom && b in dom ==> le(a, b) || le(b, a))
    && (forall a, b, c :: a in dom && b in dom && c in dom && le(a, b) && le(b, c) ==> le(a, c))
  }

  ghost predicate Among<T>(s: seq<T>, dom: set<T>) {
    forall i :: 0 <= i < |s| ==> s[i] in dom
  }

  ghost predicate Sorted<T>(s: seq<T>, le: (T, T) -> bool) {
    forall i, j :: 0 <= i < j < |s| ==> le(s[i], s[j])
  }

  /** The elements that rank level with `k`, in order. */
  function Ties<T>(s: seq<T>, k: T, le: (T, T) -> bool): seq<T> {
    if s == [] then []
    else (if le(s[0], k) && le(k, s[0]) then [s[0]] else []) + Ties(s[1..], k, le)
  }

  // ---------- the sort is a sorted permutation ----------

  lemma {:induction false} InsertAdds<T>(x: T, s: seq<T>, le: (T, T) -> bool)
    ensures multiset(Insert(x, s, le)) == multiset(s) + multiset{x}
  {
    if s != [] {
      assert s == [s[0]] + s[1..];
      InsertAdds(x, s[1..], le);
    }
  }

  lemma {:induction false} SortPermutes<T>(s: seq<T>, le: (T, T) -> bool)
    ensures multiset(Sort(s, le)) == multiset(s)
  {
    if s != [] {
      assert s == s[..|s| - 1] + [s[|s| - 1]];
      SortPermutes(s[..|s| - 1], le);
      InsertAdds(s[|s| - 1], Sort(s[..|s| - 1], le), le);
    }
  }

  lemma SameElements<T(!new)>(s: seq<T>, r: seq<T>, dom: set<T>)
    requires multiset(s) == multiset(r) && Among(s, dom)
    ensures Among(r, dom)
  {
    forall i | 0 <= i < |r| ensures r[i] in dom {
      assert r[i] in multiset(s);
    }
  }

  lemma {:induction false} InsertSorts<T(!new)>(x: T, s: seq<T>, le: (T, T) -> bool, dom: set<T>)
    requires PreorderOn(le, dom) && Among(s, dom) && x in dom && Sorted(s, le)
    ensures Sorted(Insert(x, s, le), le)
    ensures forall y :: y in Insert(x, s, le) <==> y == x || y in s
  {
    if s != [] {
      InsertSorts(x, s[1..], le, dom);
      assert s == [s[0]] + s[1..];
      assert s[0] in dom;
      if le(s[0], x) {
        forall y | y in Insert(x, s[1..], le)
          ensures le(s[0], y)
        {
          if y != x {
            var j :| 0 <= j < |s[1..]| && s[1..][j] == y;
            assert y == s[j + 1];
          }
        }
      } else {
        forall j | 0 <= j < |s| ensures le(x, s[j]) {
          assert s[j] in dom;
        }
      }
    }
  }

  lemma {:induction false} SortSorts<T(!new)>(s: seq<T>, le: (T, T) -> bool, dom: set<T>)
    requires PreorderOn(le, dom) && Among(s, dom)
    ensures Sorted(Sort(s, le), le)
  {
    if s != [] {
      var front := s[..|s| - 1];
      SortSorts(front, le, dom);
      SortPermutes(front, le);
      SameElements(front, Sort(front, le), dom);
      InsertSorts(s[|s| - 1], Sort(front, le), le, dom);
    }
  }

  // ---------- the sort is stable ----------

  lemma {:induction false} TiesAppend<T>(a: seq<T>, b: seq<T>, k: T, le: (T, T) -> bool)
    ensures Ties(a + b, k, le) == Ties(a, k, le) + Ties(b, k, le)
  {
    if a == [] {
      assert a + b == b;
    } else {
      assert (a + b)[1..] == a[1..] + b;
      TiesAppend(a[1..], b, k, le);
    }
  }

  /** Nothing in `s` ties with `k` if everything in `s` ranks above something that does. */
  lemma {:induction false} NoTies<T(!new)>(x: T, s: seq<T>, k: T, le: (T, T) -> bool, dom: set<T>)
    requires PreorderOn(le, dom) && Among(s, dom) && x in dom && k in dom
    requires le(k, x) && forall i :: 0 <= i < |s| ==> !le(s[i], x)
    ensures Ties(s, k, le) == []
  {
    if s != [] {
      assert s[0] in dom;
      NoTies(x, s[1..], k, le, dom);
    }
  }

  lemma {:induction false} InsertIsStable<T(!new)>(x: T, s: seq<T>, k: T, le: (T, T) -> bool, dom: set<T>)
    requires PreorderOn(le, dom) && Among(s, dom) && x in dom && k in dom && Sorted(s, le)
    ensures Ties(Insert(x, s, le), k, le) == Ties(s, k, le) + Ties([x], k, le)
  {
    if s != [] {
      assert s[0] in dom;
      if le(s[0], x) {
        InsertIsStable(x, s[1..], k, le, dom);
      } else {
        TiesAppend([x], s, k, le);
        if le(k, x) {
          forall i | 0 <= i < |s| ensures !le(s[i], x) {
            assert s[i] in dom;
          }
          NoTies(x, s, k, le, dom);
        }
      }
    }
  }

  lemma {:induction false} SortIsStable<T(!new)>(s: seq<T>, k: T, le: (T, T) -> bool, dom: set<T>)
    requires PreorderOn(le, dom) && Among(s, dom) && k in dom
    ensures Ties(Sort(s, le), k, le) == Ties(s, k, le)
  {
    if s != [] {
      var front, last := s[..|s| - 1], s[|s| - 1];
      assert s == front + [last];
      SortIsStable(front, k, le, dom);
      SortSorts(front, le, dom);
      SortPermutes(front, le);
      SameElements(front, Sort(front, le), dom);
      InsertIsStable(last, Sort(front, le), k, le, dom);
      TiesAppend(front, [last], k, le);
    }
  }

  // ---------- and unique ----------

  lemma SameFirst<T(!new)>(s: seq<T>, r: seq<T>, le: (T, T) -> bool, dom: set<T>)
    requires PreorderOn(le, dom) && Among(s, dom) && Among(r, dom) && Sorted(s, le) && Sorted(r, le)
    requires s != [] && r != [] && multiset(s) == multiset(r) && Ties(s, s[0], le) == Ties(r, s[0], le)
    ensures s[0] == r[0]
  {
    assert s[0] in dom && r[0] in dom;
    assert s[0] in multiset(r) && r[0] in multiset(s);
    FirstIsLeast(s, r[0], le, dom);
    FirstIsLeast(r, s[0], le, dom);
    assert Ties(s, s[0], le)[0] == s[0] && Ties(r, s[0], le)[0] == r[0];
  }

  lemma TiesOfTail<T>(s: seq<T>, r: seq<T>, k: T, le: (T, T) -> bool)
    requires s != [] && r != [] && s[0] == r[0] && Ties(s, k, le) == Ties(r, k, le)
    ensures Ties(s[1..], k, le) == Ties(r[1..], k, le)
  {
    var skip := if le(s[0], k) && le(k, s[0]) then 1 else 0;
    assert Ties(s[1..], k, le) == Ties(s, k, le)[skip..];
    assert Ties(r[1..], k, le) == Ties(r, k, le)[skip..];
  }

  lemma TailElements<T>(s: seq<T>, r: seq<T>)
    requires s != [] && r != [] && s[0] == r[0] && multiset(s) == multiset(r)
    ensures multiset(s[1..]) == multiset(r[1..])
  {
    assert s == [s[0]] + s[1..] && r == [r[0]] + r[1..];
    assert multiset(s[1..]) == multiset(s) - multiset{s[0]} && multiset(r[1..]) == multiset(r) - multiset{r[0]};
  }

  /** Two sorted arrangements of the same elements with the same ties are the same sequence: any stable
      sorting algorithm gives the same result. */
  lemma {:induction false} StableSortIsUnique<T(!new)>(s: seq<T>, r: seq<T>, le: (T, T) -> bool, dom: set<T>)
    requires PreorderOn(le, dom) && Among(s, dom) && Among(r, dom)
    requires Sorted(s, le) && Sorted(r, le) && multiset(s) == multiset(r)
    requires forall k :: k in dom ==> Ties(s, k, le) == Ties(r, k, le)
    ensures s == r
    decreases |s|
  {
    hide Ties, PreorderOn;
    assert |s| == |multiset(s)| == |multiset(r)| == |r|;
    if s != [] {
      assert s[0] in dom;
      SameFirst(s, r, le, dom);
      forall k | k in dom ensures Ties(s[1..], k, le) == Ties(r[1..], k, le) {
        TiesOfTail(s, r, k, le);
      }
      TailElements(s, r);
      StableSortIsUnique(s[1..], r[1..], le, dom);
      assert s == [s[0]] + s[1..] && r == [r[0]] + r[1..];
    }
  }

  lemma FirstIsLeast<T(!new)>(s: seq<T>, y: T, le: (T, T) -> bool, dom: set<T>)
    requires PreorderOn(le, dom) && Among(s, dom) && Sorted(s, le) && y in s
    ensures le(s[0], y)
  {
    var i :| 0 <= i < |s| && s[i] == y;
    assert s[0] in dom;
  }

  /** `r` is `s` sorted stably. */
  ghost predicate StablySorted<T(!new)>(s: seq<T>, r: seq<T>, le: (T, T) -> bool) {
    && multiset(r) == multiset(s)
    && Sorted(r, le)
    && forall k :: k in s ==> Ties(r, k, le) == Ties(s, k, le)
  }

  function Elements<T(!new)>(s: seq<T>): (r: set<T>)
    ensures Among(s, r) && forall x :: x in r <==> x in s
  {
    set x | x in s
  }

  /** `Sort` sorts stably, and nothing else does. */
  lemma SortIsTheStableSort<T(!new)>(s: seq<T>, r: seq<T>, le: (T, T) -> bool)
    requires PreorderOn(le, Elements(s))
    ensures StablySorted(s, r, le) <==> r == Sort(s, le)
  {
    var dom := Elements(s);
    SortPermutes(s, le);
    SortSorts(s, le, dom);
    forall k | k in s ensures Ties(Sort(s, le), k, le) == Ties(s, k, le) {
      SortIsStable(s, k, le, dom);
    }
    if StablySorted(s, r, le) {
      SameElements(s, r, dom);
      SameElements(s, Sort(s, le), dom);
      StableSortIsUnique(r, Sort(s, le), le, dom);
    }
  }
}
