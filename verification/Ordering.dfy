/** ORDER BY: the comparator on evaluated sort keys, and when it ranks rows consistently. */
module Ordering {
  import opened Prelude
  import opened Values
  import opened StableSort

  /** A row with the values of its sort keys; a key that fails to evaluate is `None`. */
  datatype Keyed = Keyed(row: Tuple, keys: seq<Option<Value>>)

  /** -1, 0 or 1. */
  function CompareReals(a: real, b: real): int {
    if a < b then -1 else if a > b then 1 else 0
  }

  /** Lexicographic order on character codes. */
  function CompareStrings(a: string, b: string): int {
    if a == [] then (if b == [] then 0 else -1)
    else if b == [] then 1
    else if a[0] < b[0] then -1
    else if a[0] > b[0] then 1
    else CompareStrings(a[1..], b[1..])
  }

  /** Values of different kinds, and missing values, compare as equal. */
  function CompareKeys(a: Option<Value>, b: Option<Value>): int {
    match (a, b)
    case (Some(Int(x)), Some(Int(y))) => CompareReals(x as real, y as real)
    case (Some(Float(x)), Some(Float(y))) => CompareReals(x, y)
    case (Some(Str(x)), Some(Str(y))) => CompareStrings(x, y)
    case _ => 0
  }

  /** The first unequal key decides; descending keys count backwards. */
  function Compare(a: seq<Option<Value>>, b: seq<Option<Value>>, descending: seq<bool>): int
    requires |a| == |b| == |descending|
  {
    if a == [] then 0
    else
      var c := CompareKeys(a[0], b[0]);
      if c != 0 then (if descending[0] then -c else c)
      else Compare(a[1..], b[1..], descending[1..])
  }

  predicate Widths(rows: seq<Keyed>, n: nat) {
    forall i :: 0 <= i < |rows| ==> |rows[i].keys| == n
  }

  /** `a` does not rank above `b`. */
  predicate Le(a: Keyed, b: Keyed, descending: seq<bool>) {
    |a.keys| == |b.keys| == |descending| && Compare(a.keys, b.keys, descending) <= 0
  }

  function ByKeys(descending: seq<bool>): (Keyed, Keyed) -> bool {
    (a: Keyed, b: Keyed) => Le(a, b, descending)
  }

  function RowsOf(rows: seq<Keyed>): (r: seq<Tuple>)
    ensures |r| == |rows|
  {
    seq(|rows|, i requires 0 <= i < |rows| => rows[i].row)
  }

  // ---------- the comparator ----------

  lemma {:induction false} StringsAntisymmetric(a: string, b: string)
    ensures CompareStrings(a, b) == -CompareStrings(b, a)
  {
    if a != [] && b != [] && a[0] == b[0] {
      StringsAntisymmetric(a[1..], b[1..]);
    }
  }

  lemma {:induction false} StringsTransitive(a: string, b: string, c: string)
    requires CompareStrings(a, b) <= 0 && CompareStrings(b, c) <= 0
    ensures CompareStrings(a, c) <= 0
    ensures CompareStrings(a, b) < 0 || CompareStrings(b, c) < 0 ==> CompareStrings(a, c) < 0
  {
    if a != [] && b != [] && c != [] && a[0] == b[0] == c[0] {
      StringsTransitive(a[1..], b[1..], c[1..]);
    }
  }

  lemma KeysAntisymmetric(a: Option<Value>, b: Option<Value>)
    ensures CompareKeys(a, b) == -CompareKeys(b, a)
  {
    if a.Some? && b.Some? && a.value.Str? && b.value.Str? {
      StringsAntisymmetric(a.value.s, b.value.s);
    }
  }

  lemma {:induction false} CompareAntisymmetric(a: seq<Option<Value>>, b: seq<Option<Value>>, descending: seq<bool>)
    requires |a| == |b| == |descending|
    ensures Compare(a, b, descending) == -Compare(b, a, descending)
  {
    if a != [] {
      KeysAntisymmetric(a[0], b[0]);
      CompareAntisymmetric(a[1..], b[1..], descending[1..]);
    }
  }

  datatype Kind = Ints | Floats | Strings | Unordered

  /** The kind of a key: values of one ordered kind are compared, all others count as equal. */
  function KindOf(v: Option<Value>): Kind {
    match v
    case Some(Int(_)) => Ints
    case Some(Float(_)) => Floats
    case Some(Str(_)) => Strings
    case _ => Unordered
  }

  lemma KeysTransitive(a: Option<Value>, b: Option<Value>, c: Option<Value>)
    requires KindOf(a) == KindOf(b) == KindOf(c)
    requires CompareKeys(a, b) <= 0 && CompareKeys(b, c) <= 0
    ensures CompareKeys(a, c) <= 0
    ensures CompareKeys(a, b) < 0 || CompareKeys(b, c) < 0 ==> CompareKeys(a, c) < 0
  {
    if KindOf(a) == Strings {
      StringsTransitive(a.value.s, b.value.s, c.value.s);
    }
  }

  /** The comparator ranks every three of the keys consistently. */
  ghost predicate TransitiveOn(keys: set<Option<Value>>) {
    forall a, b, c :: a in keys && b in keys && c in keys && CompareKeys(a, b) <= 0 && CompareKeys(b, c) <= 0
      ==> CompareKeys(a, c) <= 0
  }

  /** No two keys of one kind differ while a key of another kind is present. */
  ghost predicate Unmixed(keys: set<Option<Value>>) {
    forall a, b, c :: a in keys && b in keys && c in keys && CompareKeys(a, b) < 0 ==> KindOf(c) == KindOf(a)
  }

  /** Exactly when one key column can be sorted: the comparator is transitive on its values if and only
      if two values of one ordered kind never differ beside a value of another kind. */
  lemma ColumnIsSortable(keys: set<Option<Value>>)
    ensures TransitiveOn(keys) <==> Unmixed(keys)
  {
    if TransitiveOn(keys) {
      forall a, b, c | a in keys && b in keys && c in keys && CompareKeys(a, b) < 0
        ensures KindOf(c) == KindOf(a)
      {
        KeysAntisymmetric(a, b);
        assert KindOf(c) != KindOf(a) ==> CompareKeys(b, c) == 0 && CompareKeys(c, a) == 0;
      }
    }
    if Unmixed(keys) {
      forall a, b, c | a in keys && b in keys && c in keys && CompareKeys(a, b) <= 0 && CompareKeys(b, c) <= 0
        ensures CompareKeys(a, c) <= 0
      {
        KeysAntisymmetric(a, c);
        if KindOf(a) == KindOf(b) == KindOf(c) {
          KeysTransitive(a, b, c);
        } else {
          assert CompareKeys(c, a) < 0 ==> KindOf(b) == KindOf(c);
        }
      }
    }
  }

  lemma UnmixedTransitive(a: Option<Value>, b: Option<Value>, c: Option<Value>)
    requires Unmixed({a, b, c}) && CompareKeys(a, b) <= 0 && CompareKeys(b, c) <= 0
    ensures CompareKeys(a, c) <= 0
    ensures CompareKeys(a, b) < 0 || CompareKeys(b, c) < 0 ==> CompareKeys(a, c) < 0
  {
    ColumnIsSortable({a, b, c});
    KeysAntisymmetric(a, c);
    if KindOf(a) == KindOf(b) == KindOf(c) {
      KeysTransitive(a, b, c);
    }
  }

  /** The values of one key column over three rows. */
  ghost predicate UnmixedThree(a: seq<Option<Value>>, b: seq<Option<Value>>, c: seq<Option<Value>>)
    requires |a| == |b| == |c|
  {
    forall i :: 0 <= i < |a| ==> Unmixed({a[i], b[i], c[i]})
  }

  /** Within rows whose key columns are each sortable, the lexicographic comparator is transitive. */
  lemma {:induction false} CompareTransitive(a: seq<Option<Value>>, b: seq<Option<Value>>, c: seq<Option<Value>>, descending: seq<bool>)
    requires |a| == |b| == |c| == |descending| && UnmixedThree(a, b, c)
    requires Compare(a, b, descending) <= 0 && Compare(b, c, descending) <= 0
    ensures Compare(a, c, descending) <= 0
  {
    hide Unmixed;
    if a != [] {
      var x, y := CompareKeys(a[0], b[0]), CompareKeys(b[0], c[0]);
      assert Unmixed({a[0], b[0], c[0]});
      assert {c[0], b[0], a[0]} == {a[0], b[0], c[0]};
      KeysAntisymmetric(a[0], b[0]);
      KeysAntisymmetric(b[0], c[0]);
      KeysAntisymmetric(a[0], c[0]);
      if x <= 0 && y <= 0 {
        UnmixedTransitive(a[0], b[0], c[0]);
      }
      if x >= 0 && y >= 0 {
        UnmixedTransitive(c[0], b[0], a[0]);
      }
      if x == 0 && y == 0 {
        CompareTransitive(a[1..], b[1..], c[1..], descending[1..]);
      }
    }
  }

  // ---------- ranking rows ----------

  /** The values of one key column. */
  function Column(rows: set<Keyed>, i: nat): set<Option<Value>>
    requires forall a :: a in rows ==> i < |a.keys|
  {
    set a | a in rows :: a.keys[i]
  }

  ghost predicate Wide(rows: set<Keyed>, n: nat) {
    forall a :: a in rows ==> |a.keys| == n
  }

  ghost predicate ColumnsUnmixed(rows: set<Keyed>, n: nat)
    requires Wide(rows, n)
  {
    forall i :: 0 <= i < n ==> Unmixed(Column(rows, i))
  }

  lemma ThreeOfRows(rows: set<Keyed>, n: nat, a: Keyed, b: Keyed, c: Keyed)
    requires Wide(rows, n) && ColumnsUnmixed(rows, n) && a in rows && b in rows && c in rows
    ensures UnmixedThree(a.keys, b.keys, c.keys)
  {
    hide Unmixed, CompareKeys, KindOf;
    forall i | 0 <= i < n ensures Unmixed({a.keys[i], b.keys[i], c.keys[i]}) {
      UnmixedPart(Column(rows, i), {a.keys[i], b.keys[i], c.keys[i]});
    }
  }

  lemma UnmixedPart(keys: set<Option<Value>>, part: set<Option<Value>>)
    requires part <= keys && Unmixed(keys)
    ensures Unmixed(part)
  {
    hide CompareKeys, KindOf;
  }

  /** Rows whose key columns are each sortable are ranked consistently. */
  lemma ColumnsAreRankable(rows: set<Keyed>, descending: seq<bool>)
    requires Wide(rows, |descending|) && ColumnsUnmixed(rows, |descending|)
    ensures PreorderOn(ByKeys(descending), rows)
  {
    hide Compare, ColumnsUnmixed;
    var le := ByKeys(descending);
    forall a, b | a in rows && b in rows
      ensures le(a, b) || le(b, a)
    {
      CompareAntisymmetric(a.keys, b.keys, descending);
    }
    forall a, b, c | a in rows && b in rows && c in rows && le(a, b) && le(b, c)
      ensures le(a, c)
    {
      ThreeOfRows(rows, |descending|, a, b, c);
      CompareTransitive(a.keys, b.keys, c.keys, descending);
    }
  }

  lemma CompareOne(a: Keyed, b: Keyed, descending: bool)
    requires |a.keys| == 1 && |b.keys| == 1
    ensures Le(a, b, [descending]) <==> (if descending then CompareKeys(b.keys[0], a.keys[0]) else CompareKeys(a.keys[0], b.keys[0])) <= 0
  {
    hide CompareKeys;
    KeysAntisymmetric(a.keys[0], b.keys[0]);
    assert Compare(a.keys[1..], b.keys[1..], [descending][1..]) == 0;
  }

  /** Rows with one sort key are ranked consistently exactly when its column is sortable: two values of one
      ordered kind never differ beside a value of another kind or a missing one. */
  lemma OneKeyIsRankable(rows: set<Keyed>, descending: bool)
    requires Wide(rows, 1)
    ensures PreorderOn(ByKeys([descending]), rows) <==> Unmixed(Column(rows, 0))
  {
    hide Compare, CompareKeys, Unmixed, Le;
    var le, keys := ByKeys([descending]), Column(rows, 0);
    ColumnIsSortable(keys);
    if Unmixed(keys) {
      ColumnsAreRankable(rows, [descending]);
    }
    if PreorderOn(le, rows) {
      forall a, b, c | a in keys && b in keys && c in keys && CompareKeys(a, b) <= 0 && CompareKeys(b, c) <= 0
        ensures CompareKeys(a, c) <= 0
      {
        var x :| x in rows && x.keys[0] == a;
        var y :| y in rows && y.keys[0] == b;
        var z :| z in rows && z.keys[0] == c;
        if descending {
          CompareOne(z, y, true);
          CompareOne(y, x, true);
          CompareOne(z, x, true);
          assert le(z, y) && le(y, x) && le(z, x);
        } else {
          CompareOne(x, y, false);
          CompareOne(y, z, false);
          CompareOne(x, z, false);
          assert le(x, y) && le(y, z) && le(x, z);
        }
      }
    }
  }

  predicate SameKinds(a: seq<Option<Value>>, b: seq<Option<Value>>) {
    |a| == |b| && forall i :: 0 <= i < |a| ==> KindOf(a[i]) == KindOf(b[i])
  }

  /** In particular rows whose key columns are each of one kind are ranked consistently. */
  lemma SingleKindIsRankable(rows: set<Keyed>, descending: seq<bool>)
    requires forall a :: a in rows ==> |a.keys| == |descending|
    requires forall a, b :: a in rows && b in rows ==> SameKinds(a.keys, b.keys)
    ensures PreorderOn(ByKeys(descending), rows)
  {
    hide CompareKeys, KindOf, PreorderOn, Le;
    forall i | 0 <= i < |descending| ensures Unmixed(Column(rows, i)) {
      forall x, z | x in Column(rows, i) && z in Column(rows, i) ensures KindOf(z) == KindOf(x) {
        var a :| a in rows && a.keys[i] == x;
        var c :| c in rows && c.keys[i] == z;
        assert SameKinds(a.keys, c.keys);
      }
    }
    ColumnsAreRankable(rows, descending);
  }
}
