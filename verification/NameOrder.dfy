/** File names with numbers in them: how they are written and read back, and how the order of the
    names compares with the order of the numbers. */
module NameOrder {
  import opened Prelude
  import opened Text
  import opened StableSort

  /** Byte order of names: a proper prefix comes first. */
  predicate Before(a: string, b: string) {
    b != [] && (a == [] || a[0] < b[0] || (a[0] == b[0] && Before(a[1..], b[1..])))
  }

  predicate AtMost(a: string, b: string) {
    !Before(b, a)
  }

  lemma {:induction false} BeforeIsTotal(a: string, b: string)
    ensures Before(a, b) <==> a != b && !Before(b, a)
    decreases a
  {
    if a != [] && b != [] && a[0] == b[0] {
      BeforeIsTotal(a[1..], b[1..]);
      assert a == [a[0]] + a[1..] && b == [b[0]] + b[1..];
    }
  }

  lemma {:induction false} BeforeIsTransitive(a: string, b: string, c: string)
    requires Before(a, b) && Before(b, c)
    ensures Before(a, c)
    decreases a
  {
    if a != [] && a[0] == b[0] && b[0] == c[0] {
      BeforeIsTransitive(a[1..], b[1..], c[1..]);
    }
  }

  lemma {:induction false} SharedPrefix(p: string, a: string, b: string)
    ensures Before(p + a, p + b) <==> Before(a, b)
  {
    if p == [] {
      assert p + a == a && p + b == b;
    } else {
      SharedPrefix(p[1..], a, b);
      assert (p + a)[1..] == p[1..] + a && (p + b)[1..] == p[1..] + b;
    }
  }

  /** Names of equal length that differ are ordered by themselves, whatever follows. */
  lemma {:induction false} EqualLengths(a: string, b: string, x: string, y: string)
    requires |a| == |b| && Before(a, b)
    ensures Before(a + x, b + y)
  {
    assert (a + x)[1..] == a[1..] + x && (b + y)[1..] == b[1..] + y by {
      assert a != [];
    }
    if a[0] == b[0] {
      EqualLengths(a[1..], b[1..], x, y);
    }
  }

  // ---------- decimal numerals ----------

  lemma {:induction false} LongerIsLarger(a: nat, b: nat)
    requires a <= b
    ensures |Decimal(a)| <= |Decimal(b)|
  {
    if b >= 10 && a >= 10 {
      LongerIsLarger(a / 10, b / 10);
    }
  }

  lemma {:induction false} NumeralOrder(a: nat, b: nat)
    requires |Decimal(a)| == |Decimal(b)| && a < b
    ensures Before(Decimal(a), Decimal(b))
  {
    if b >= 10 {
      assert |Decimal(a)| == |Decimal(a / 10)| + 1;
      if a / 10 < b / 10 {
        NumeralOrder(a / 10, b / 10);
        EqualLengths(Decimal(a / 10), Decimal(b / 10), [DigitChar(a % 10)], [DigitChar(b % 10)]);
      } else {
        SharedPrefix(Decimal(a / 10), [DigitChar(a % 10)], [DigitChar(b % 10)]);
      }
    }
  }

  /** The number written with `k` nines. */
  function Nines(k: nat): nat {
    if k == 0 then 0 else 10 * Nines(k - 1) + 9
  }

  lemma {:induction false} NinesText(k: nat)
    requires k > 0
    ensures |Decimal(Nines(k))| == k && forall i :: 0 <= i < k ==> Decimal(Nines(k))[i] == '9'
  {
    if k > 1 {
      NinesText(k - 1);
      assert Nines(k) / 10 == Nines(k - 1) && Nines(k) % 10 == 9;
    }
  }

  /** No number of at most `k` digits exceeds `k` nines. */
  lemma {:induction false} NinesAreLargest(n: nat)
    ensures n <= Nines(|Decimal(n)|)
    ensures |Decimal(n)| > 1 ==> Nines(|Decimal(n)| - 1) < n
  {
    if n >= 10 {
      NinesAreLargest(n / 10);
      assert |Decimal(n)| == |Decimal(n / 10)| + 1;
    }
  }

  // ---------- names ----------

  const U64_LIMIT := 0x1_0000_0000_0000_0000

  predicate Digits(s: string) {
    forall i :: 0 <= i < |s| ==> IsDigit(s[i])
  }

  /** Reading an unsigned 64-bit number; a leading plus sign is accepted. */
  function ParseU64(s: string): Option<nat> {
    var digits := if s != [] && s[0] == '+' then s[1..] else s;
    if digits != [] && Digits(digits) && DecimalValue(digits) < U64_LIMIT then Some(DecimalValue(digits)) else None
  }

  lemma ParseDecimal(n: nat)
    requires n < U64_LIMIT
    ensures ParseU64(Decimal(n)) == Some(n)
  {
    hide Decimal, DecimalValue;
    DecimalRoundTrip(n);
  }

  function ManifestName(ts: nat): string {
    "manifest-" + Decimal(ts) + ".json"
  }

  function ParseManifestName(name: string): Option<nat> {
    if |name| < 14 || name[..9] != "manifest-" || name[|name| - 5..] != ".json" then None
    else ParseU64(name[9..|name| - 5])
  }

  lemma ManifestNameRoundTrip(ts: nat)
    requires ts < U64_LIMIT
    ensures ParseManifestName(ManifestName(ts)) == Some(ts)
  {
    hide ParseU64, Decimal;
    ParseDecimal(ts);
    var name := ManifestName(ts);
    assert name[..9] == "manifest-" && name[|name| - 5..] == ".json" && name[9..|name| - 5] == Decimal(ts);
  }

  function WalName(epoch: nat, seq_: nat): string {
    "wal-" + Decimal(epoch) + "-" + Decimal(seq_) + ".wal"
  }

  function ParseWalName(name: string): Option<(nat, nat)> {
    if |name| < 8 || name[..4] != "wal-" || name[|name| - 4..] != ".wal" then None
    else
      var parts := Split(name[4..|name| - 4], '-');
      if |parts| < 2 || ParseU64(parts[0]).None? || ParseU64(parts[1]).None? then None
      else Some((ParseU64(parts[0]).value, ParseU64(parts[1]).value))
  }

  lemma {:induction false} SplitAtDash(first: string, rest: string)
    requires Digits(first)
    ensures Split(first + "-" + rest, '-') == [first] + Split(rest, '-')
  {
    if first == [] {
      assert [] + "-" + rest == "-" + rest;
    } else {
      SplitAtDash(first[1..], rest);
      assert (first + "-" + rest)[1..] == first[1..] + "-" + rest;
      assert first == [first[0]] + first[1..];
    }
  }

  lemma {:induction false} SplitDigits(s: string)
    requires Digits(s)
    ensures Split(s, '-') == [s]
  {
    if s != [] {
      SplitDigits(s[1..]);
      assert s == [s[0]] + s[1..];
    }
  }

  lemma WalNameRoundTrip(epoch: nat, seq_: nat)
    requires epoch < U64_LIMIT && seq_ < U64_LIMIT
    ensures ParseWalName(WalName(epoch, seq_)) == Some((epoch, seq_))
  {
    hide ParseU64, Decimal, Split;
    ParseDecimal(epoch);
    ParseDecimal(seq_);
    var name := WalName(epoch, seq_);
    assert name[..4] == "wal-" && name[|name| - 4..] == ".wal";
    assert name[4..|name| - 4] == Decimal(epoch) + "-" + Decimal(seq_);
    SplitAtDash(Decimal(epoch), Decimal(seq_));
    SplitDigits(Decimal(seq_));
  }

  // ---------- name order against number order ----------

  lemma NumeralsThenText(a: nat, b: nat, tail: string)
    requires |Decimal(a)| == |Decimal(b)|
    ensures Before(Decimal(a) + tail, Decimal(b) + tail) <==> a < b
  {
    hide Decimal, Before;
    BeforeIsTotal(Decimal(a) + tail, Decimal(b) + tail);
    if a < b {
      NumeralOrder(a, b);
      EqualLengths(Decimal(a), Decimal(b), tail, tail);
    } else if b < a {
      NumeralOrder(b, a);
      EqualLengths(Decimal(b), Decimal(a), tail, tail);
    }
  }

  // ---------- numerals of any lengths ----------

  /** A number without its last `k` digits. */
  function Leading(n: nat, k: nat): nat {
    if k == 0 then n else Leading(n / 10, k - 1)
  }

  lemma {:induction false} LeadingDigits(n: nat, k: nat)
    requires k < |Decimal(n)|
    ensures Decimal(Leading(n, k)) == Decimal(n)[..|Decimal(n)| - k]
    decreases k
  {
    if k > 0 {
      LeadingDigits(n / 10, k - 1);
      assert Decimal(n) == Decimal(n / 10) + [DigitChar(n % 10)];
    }
  }

  /** `a` is at most the number made of the first digits of `b`, as many as `a` has. */
  predicate AtMostLeading(a: nat, b: nat) {
    |Decimal(a)| <= |Decimal(b)| && a <= Leading(b, |Decimal(b)| - |Decimal(a)|)
  }

  /** With a text behind them that sorts before digits, a numeral comes no later than a larger one exactly
      when it is at most the larger one's leading digits. */
  lemma NumeralsByNumber(a: nat, b: nat, tail: string)
    requires a <= b && tail != [] && tail[0] < '0'
    ensures AtMost(Decimal(a) + tail, Decimal(b) + tail) <==> AtMostLeading(a, b)
  {
    hide Decimal, Before, Leading;
    LongerIsLarger(a, b);
    var k := |Decimal(b)| - |Decimal(a)|;
    var p := Leading(b, k);
    LeadingDigits(b, k);
    var rest := Decimal(b)[|Decimal(a)|..];
    assert Decimal(b) + tail == Decimal(p) + (rest + tail);
    BeforeIsTotal(Decimal(a) + tail, Decimal(b) + tail);
    if a < p {
      NumeralOrder(a, p);
      EqualLengths(Decimal(a), Decimal(p), tail, rest + tail);
    } else if p < a {
      NumeralOrder(p, a);
      EqualLengths(Decimal(p), Decimal(a), rest + tail, tail);
    } else {
      SharedPrefix(Decimal(a), rest + tail, tail);
      TailFirst(rest, tail);
    }
  }

  lemma TailFirst(rest: string, tail: string)
    requires tail != [] && tail[0] < '0' && forall i :: 0 <= i < |rest| ==> IsDigit(rest[i])
    ensures !Before(rest + tail, tail)
  {
    if rest == [] {
      assert rest + tail == tail;
      BeforeIsTotal(tail, tail);
    }
  }

  /** File names of manifests, in numbers. */
  lemma ManifestsByNumber(a: nat, b: nat)
    requires a <= b
    ensures AtMost(ManifestName(a), ManifestName(b)) <==> AtMostLeading(a, b)
  {
    hide Decimal, Before, Leading;
    SharedPrefix("manifest-", Decimal(b) + ".json", Decimal(a) + ".json");
    assert ManifestName(a) == "manifest-" + (Decimal(a) + ".json") && ManifestName(b) == "manifest-" + (Decimal(b) + ".json");
    NumeralsByNumber(a, b, ".json");
  }

  /** Names of one epoch compare as their numerals with the extension behind them. */
  lemma WalNamesCompare(epoch: nat, a: nat, b: nat)
    ensures Before(WalName(epoch, a), WalName(epoch, b)) <==> Before(Decimal(a) + ".wal", Decimal(b) + ".wal")
  {
    hide Decimal, Before;
    var p := "wal-" + Decimal(epoch) + "-";
    SharedPrefix(p, Decimal(a) + ".wal", Decimal(b) + ".wal");
    assert WalName(epoch, a) == p + (Decimal(a) + ".wal") && WalName(epoch, b) == p + (Decimal(b) + ".wal");
  }

  /** A number whose digits before the last are all nines: one digit, 90 to 99, 990 to 999, ... */
  predicate LastOfItsKind(n: nat) {
    n / 10 == Nines(|Decimal(n)| - 1)
  }

  function NineText(k: nat): string {
    seq(k, _ => '9')
  }

  lemma {:induction false} NinesDominate(s: string, x: string)
    requires Digits(s) && x != [] && x[0] > '.'
    ensures Before(s + ".wal", NineText(|s|) + x)
  {
    var nines := NineText(|s|) + x;
    if s == [] {
      assert s + ".wal" == ".wal" && nines == x;
    } else {
      assert (s + ".wal")[1..] == s[1..] + ".wal";
      assert nines[1..] == NineText(|s[1..]|) + x;
      NinesDominate(s[1..], x);
    }
  }

  lemma LastOutranks(n: nat, m: nat)
    requires LastOfItsKind(n) && m < n
    ensures Before(Decimal(m) + ".wal", Decimal(n) + ".wal")
  {
    hide Before;
    var e, d := |Decimal(m)|, |Decimal(n)|;
    LongerIsLarger(m, n);
    if e == d {
      NumeralsThenText(m, n, ".wal");
    } else {
      NinesText(d - 1);
      assert Decimal(n) == Decimal(n / 10) + [DigitChar(n % 10)];
      var x := Decimal(n)[e..] + ".wal";
      assert Decimal(n)[..e] == NineText(e);
      assert Decimal(n) + ".wal" == NineText(e) + x;
      NinesDominate(Decimal(m), x);
    }
  }

  /** Otherwise the number made of one digit less, all nines, has the larger name. */
  lemma NinesOutrank(n: nat)
    requires !LastOfItsKind(n)
    ensures var m := Nines(|Decimal(n)| - 1); m < n && Before(Decimal(n) + ".wal", Decimal(m) + ".wal")
  {
    hide Before;
    var k := |Decimal(n)| - 1;
    var q := n / 10;
    assert k > 0 && Decimal(n) == Decimal(q) + [DigitChar(n % 10)];
    NinesAreLargest(n);
    NinesAreLargest(q);
    NinesText(k);
    NumeralOrder(q, Nines(k));
    EqualLengths(Decimal(q), Decimal(Nines(k)), [DigitChar(n % 10)] + ".wal", ".wal");
    assert Decimal(n) + ".wal" == Decimal(q) + ([DigitChar(n % 10)] + ".wal");
  }

  /** The newest segment has the last name exactly when its number has one digit or nothing but nines
      before its last digit. */
  lemma NewestIsLastByName(epoch: nat, n: nat)
    ensures (forall m :: 0 <= m < n ==> Before(WalName(epoch, m), WalName(epoch, n))) <==> LastOfItsKind(n)
  {
    hide Before, Decimal, Nines;
    if LastOfItsKind(n) {
      forall m | 0 <= m < n ensures Before(WalName(epoch, m), WalName(epoch, n)) {
        LastOutranks(n, m);
        WalNamesCompare(epoch, m, n);
      }
    } else {
      NinesOutrank(n);
      var m := Nines(|Decimal(n)| - 1);
      WalNamesCompare(epoch, n, m);
      BeforeIsTotal(WalName(epoch, m), WalName(epoch, n));
    }
  }

  /** Among the segments 0 to `n`, the one whose name comes last. */
  function LastName(n: nat): (last: nat)
    ensures last <= n
  {
    if LastOfItsKind(n) then n
    else
      NinesOutrank(n);
      Nines(|Decimal(n)| - 1)
  }

  lemma LastNameOutranks(n: nat, m: nat)
    requires m <= n && m != LastName(n)
    ensures Before(Decimal(m) + ".wal", Decimal(LastName(n)) + ".wal")
  {
    hide Before;
    if LastOfItsKind(n) {
      LastOutranks(n, m);
    } else {
      var k := |Decimal(n)| - 1;
      LongerIsLarger(m, n);
      if |Decimal(m)| == k + 1 {
        NinesAreLargest(n);
        NinesAreLargest(m);
        BelowNines(m, n);
        NinesOutrank(m);
      } else {
        NinesAreOfTheirKind(k);
        NinesAreLargest(m);
        NinesGrow(|Decimal(m)|, k);
        LastOutranks(Nines(k), m);
      }
    }
  }

  lemma BelowNines(m: nat, n: nat)
    requires m <= n && |Decimal(m)| == |Decimal(n)| && !LastOfItsKind(n)
    ensures !LastOfItsKind(m)
  {
    NinesAreLargest(n / 10);
    assert n >= 10 ==> |Decimal(n)| == |Decimal(n / 10)| + 1;
  }

  lemma NinesAreOfTheirKind(k: nat)
    requires k > 0
    ensures LastOfItsKind(Nines(k))
  {
    NinesText(k);
    assert Nines(k) / 10 == Nines(k - 1);
  }

  lemma {:induction false} NinesGrow(a: nat, b: nat)
    requires a <= b
    ensures Nines(a) <= Nines(b)
  {
    if a < b {
      NinesGrow(a, b - 1);
    }
  }

  lemma WalNamesDiffer(epoch: nat, a: nat, b: nat)
    requires a != b
    ensures WalName(epoch, a) != WalName(epoch, b)
  {
    hide Decimal;
    DecimalRoundTrip(a);
    DecimalRoundTrip(b);
    var p := "wal-" + Decimal(epoch) + "-";
    assert WalName(epoch, a) == p + Decimal(a) + ".wal" && WalName(epoch, b) == p + Decimal(b) + ".wal";
    assert Decimal(a) == WalName(epoch, a)[|p|..|WalName(epoch, a)| - 4];
    assert Decimal(b) == WalName(epoch, b)[|p|..|WalName(epoch, b)| - 4];
  }

  // ---------- listings sorted by name ----------

  predicate NameLe<X>(a: (string, X), b: (string, X)) {
    AtMost(a.0, b.0)
  }

  lemma NamesRank<X(!new)>(dom: set<(string, X)>)
    ensures PreorderOn(NameLe, dom)
  {
    forall a, b | a in dom && b in dom ensures NameLe(a, b) || NameLe(b, a) {
      BeforeIsTotal(a.0, b.0);
    }
    forall a, b, c | a in dom && b in dom && c in dom && NameLe(a, b) && NameLe(b, c) ensures NameLe(a, c) {
      BeforeIsTotal(a.0, b.0);
      BeforeIsTotal(b.0, c.0);
      BeforeIsTotal(a.0, c.0);
      if Before(c.0, a.0) && a.0 != b.0 {
        BeforeIsTransitive(c.0, a.0, b.0);
      }
    }
  }

  /** The last entry of a listing after sorting by name: no other entry has a larger name. */
  lemma LastOfSorted<X(!new)>(listing: seq<(string, X)>)
    requires listing != []
    ensures var last := Sort(listing, NameLe)[|listing| - 1];
            last in listing && forall x :: x in listing ==> AtMost(x.0, last.0)
  {
    hide Sort, Before;
    var dom := set x | x in listing;
    NamesRank(dom);
    SortSorts(listing, NameLe, dom);
    SortPermutes(listing, NameLe);
    var sorted := Sort(listing, NameLe);
    var last := sorted[|listing| - 1];
    assert last in multiset(sorted);
    forall x | x in listing ensures AtMost(x.0, last.0) {
      assert x in multiset(sorted);
      var i :| 0 <= i < |sorted| && sorted[i] == x;
      BeforeIsTotal(x.0, x.0);
      assert i < |listing| - 1 ==> NameLe(sorted[i], last);
    }
  }
}
