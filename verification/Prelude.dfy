/** Shared building blocks: optional values, results with the engine's error kinds, and a few
    facts about sequences and multisets that several components use. */
module Prelude {

  datatype Option<+T> = None | Some(value: T)

  /** The error kinds of `EngineError` that the modelled code can return. */
  datatype EngineError =
    | InvalidArgument(reason: string)
    | StorageIo(reason: string)

  datatype Result<+T> = Ok(value: T) | Err(error: EngineError) {
    predicate IsFailure() {
      Err?
    }

    function PropagateFailure<U>(): Result<U>
      requires Err?
    {
      Err(error)
    }

    function Extract(): T
      requires Ok?
    {
      value
    }
  }

  function Max(a: nat, b: nat): nat {
    if a < b then b else a
  }

  ghost predicate Distinct<T>(s: seq<T>) {
    forall i, j :: 0 <= i < j < |s| ==> s[i] != s[j]
  }

  /** `s` lists every element of `keys` once, in some order. */
  ghost predicate Enumerates<T(!new)>(s: seq<T>, keys: set<T>) {
    && Distinct(s)
    && forall x :: x in s <==> x in keys
  }

  lemma DistinctAppend<T(!new)>(a: seq<T>, b: seq<T>)
    requires Distinct(a) && Distinct(b)
    requires forall x :: x in a ==> x !in b
    ensures Distinct(a + b)
  {
    var s := a + b;
    forall i, j | 0 <= i < j < |s|
      ensures s[i] != s[j]
    {
      if i < |a| <= j {
        assert s[i] in a && s[j] in b;
      }
    }
  }

  lemma {:induction false} DistinctCounts<T(!new)>(s: seq<T>)
    ensures Distinct(s) <==> forall x :: multiset(s)[x] <= 1
  {
    if s != [] {
      var front, last := s[..|s| - 1], s[|s| - 1];
      assert s == front + [last];
      DistinctCounts(front);
      if Distinct(s) {
        assert Distinct(front);
        assert last !in front;
      }
      if forall x :: multiset(s)[x] <= 1 {
        assert multiset(s)[last] == multiset(front)[last] + 1;
        assert forall x :: multiset(front)[x] <= multiset(s)[x];
        assert last !in front;
      }
    }
  }

  lemma MultisetIn<T>(s: seq<T>, x: T)
    ensures x in s <==> multiset(s)[x] > 0
  {
  }

  lemma SameMembers<T(!new)>(a: seq<T>, b: seq<T>)
    requires multiset(a) == multiset(b)
    ensures forall x :: x in a <==> x in b
  {
    forall x ensures x in a <==> x in b {
      MultisetIn(a, x);
      MultisetIn(b, x);
    }
  }
}
