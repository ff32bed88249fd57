/** A branch's log directory as the list of its segments, numbered from 0, and where opening it really
    puts the writer. */
module WalDirectory {
  import opened Prelude
  import opened Text
  import opened NameOrder
  import opened Wal
  import opened WalWriter

  /** The records of each segment, in the order of the segment numbers. */
  type Segments = seq<seq<Bytes>>

  function FilesOf(segments: Segments): Files {
    Overlay(map[], 0, 0, segments)
  }

  /** The segment number a writer opens: one past the last by name. */
  function OpenNumber(segments: Segments): (number: nat)
    ensures number <= |segments|
  {
    if segments == [] then 0 else LastName(|segments| - 1) + 1
  }

  /** Opening adds a new last segment. */
  predicate OpensBehind(segments: Segments) {
    segments == [] || LastOfItsKind(|segments| - 1)
  }

  function OpenSegment(segments: Segments, number: nat): Segments
    requires number <= |segments|
  {
    if number < |segments| then segments[number := []] else segments + [[]]
  }

  function WriteSegment(segments: Segments, current: nat, r: Bytes, max: nat): (w: (Segments, nat))
    requires current < |segments|
    ensures w.1 < |w.0|
  {
    if Sum(segments[current]) + 4 + |r| <= max then (segments[current := segments[current] + [r]], current)
    else if current + 1 < |segments| then (segments[current + 1 := [r]], current + 1)
    else (segments + [[r]], current + 1)
  }

  // ---------- the same on files ----------

  lemma {:induction false} OverlayNames(files: Files, epoch: nat, segments: Segments, name: string)
    ensures name in Overlay(files, epoch, 0, segments)
      <==> name in files || exists i :: 0 <= i < |segments| && name == WalName(epoch, i)
  {
    hide WalName, Encode;
    if segments != [] {
      OverlayNames(files, epoch, segments[..|segments| - 1], name);
    }
  }

  lemma {:induction false} OverlayUpdate(files: Files, epoch: nat, number: nat, segments: Segments, i: nat, records: seq<Bytes>)
    requires i < |segments|
    ensures Overlay(files, epoch, number, segments)[WalName(epoch, number + i) := Encode(records)]
         == Overlay(files, epoch, number, segments[i := records])
  {
    hide WalName, Encode;
    var n := |segments| - 1;
    if i < n {
      OverlayUpdate(files, epoch, number, segments[..n], i, records);
      assert segments[i := records][..n] == segments[..n][i := records];
      WalNamesDiffer(epoch, number + i, number + n);
    } else {
      assert segments[i := records][..n] == segments[..n];
    }
  }

  lemma WriteSegmentOnFiles(segments: Segments, current: nat, r: Bytes, max: nat)
    requires current < |segments|
    ensures Log(FilesOf(segments), 0, current).Valid()
    ensures var w := WriteSegment(segments, current, r, max);
            WriteOne(Log(FilesOf(segments), 0, current), r, max) == Log(FilesOf(w.0), 0, w.1)
  {
    hide WalName, Encode, Overlay, Frame, Sum;
    OverlayKeeps(map[], 0, 0, segments, current);
    EncodedSize(segments[current]);
    EncodeAppend(segments[current], r);
    EncodeAppend([], r);
    EncodeNone();
    assert [] + [r] == [r] && [] + Frame(r) == Frame(r);
    OverlayUpdate(map[], 0, 0, segments, current, segments[current] + [r]);
    if current + 1 < |segments| {
      OverlayUpdate(map[], 0, 0, segments, current + 1, [r]);
    } else {
      OverlayLast(map[], 0, 0, segments, [r]);
    }
  }

  lemma OpenSegmentOnFiles(segments: Segments, number: nat)
    requires number <= |segments|
    ensures FilesOf(segments)[WalName(0, number) := []] == FilesOf(OpenSegment(segments, number))
  {
    hide WalName, Encode, Overlay;
    EncodeNone();
    if number < |segments| {
      OverlayUpdate(map[], 0, 0, segments, number, []);
    } else {
      OverlayLast(map[], 0, 0, segments, []);
    }
  }

  lemma SegmentNames(segments: Segments, name: string)
    requires |segments| < U64_LIMIT
    ensures name in FilesOf(segments) ==> exists i :: 0 <= i < |segments| && name == WalName(0, i) && ParseWalName(name) == Some((0, i))
  {
    hide WalName, ParseWalName, Overlay;
    OverlayNames(map[], 0, segments, name);
    if name in FilesOf(segments) {
      var i :| 0 <= i < |segments| && name == WalName(0, i);
      WalNameRoundTrip(0, i);
    }
  }

  lemma SegmentIsListed(segments: Segments, i: nat)
    requires |segments| < U64_LIMIT && i < |segments|
    ensures WalName(0, i) in FilesOf(segments) && ParseWalName(WalName(0, i)) == Some((0, i))
  {
    hide WalName, ParseWalName, Overlay, Encode;
    OverlayKeeps(map[], 0, 0, segments, i);
    WalNameRoundTrip(0, i);
  }

  lemma NewestSegment(segments: Segments)
    requires 0 < |segments| < U64_LIMIT
    ensures NewestByName(FilesOf(segments), WalName(0, LastName(|segments| - 1)))
  {
    hide WalName, ParseWalName, FilesOf, Before, LastName;
    var k := LastName(|segments| - 1);
    SegmentIsListed(segments, k);
    forall other | other in FilesOf(segments)
      ensures AtMost(other, WalName(0, k))
    {
      SegmentNames(segments, other);
      var i :| 0 <= i < |segments| && other == WalName(0, i) && ParseWalName(other) == Some((0, i));
      BeforeIsTotal(other, WalName(0, k));
      if i != k {
        LastNameOutranks(|segments| - 1, i);
        WalNamesCompare(0, i, k);
      }
    }
  }

  /** On segments numbered without gaps the code opens exactly the segment `OpenNumber` says. */
  lemma OpeningIsExact(segments: Segments, epoch: nat, number: nat)
    requires |segments| < U64_LIMIT
    ensures OpensAt(FilesOf(segments), epoch, number) <==> epoch == 0 && number == OpenNumber(segments)
  {
    hide WalName, ParseWalName, FilesOf, NewestByName, LastName;
    if segments == [] {
      forall name ensures name !in FilesOf(segments) { SegmentNames(segments, name); }
      forall name ensures !NewestByName(FilesOf(segments), name) { NewestIsAFile(FilesOf(segments), name); }
    } else {
      var k := LastName(|segments| - 1);
      NewestSegment(segments);
      SegmentIsListed(segments, k);
      forall name | NewestByName(FilesOf(segments), name) ensures name == WalName(0, k) {
        NewestIsUnique(FilesOf(segments), name, WalName(0, k));
      }
    }
  }

  lemma NewestIsAFile(files: Files, name: string)
    ensures NewestByName(files, name) ==> name in files
  {
  }

  /** Opening leaves every segment alone exactly when the newest one has one digit or only nines before
      its last digit; otherwise an existing segment is emptied. */
  lemma OpeningOverwrites(segments: Segments)
    ensures OpenNumber(segments) == |segments| <==> OpensBehind(segments)
    ensures !OpensBehind(segments) ==> OpenNumber(segments) < |segments| && OpenSegment(segments, OpenNumber(segments))[OpenNumber(segments)] == []
  {
    hide Nines, Decimal;
    if segments != [] && !LastOfItsKind(|segments| - 1) {
      NinesOutrank(|segments| - 1);
    }
  }

  // ---------- one commit after another ----------

  function WriteBatch(segments: Segments, current: nat, batch: seq<Bytes>, max: nat): (w: (Segments, nat))
    requires current < |segments|
    ensures w.1 < |w.0|
  {
    if batch == [] then (segments, current)
    else
      var before := WriteBatch(segments, current, batch[..|batch| - 1], max);
      WriteSegment(before.0, before.1, batch[|batch| - 1], max)
  }

  // ---------- where the log ends after a batch ----------

  lemma WriteBatchGrows(segments: Segments, current: nat, batch: seq<Bytes>, max: nat)
    requires current < |segments|
    ensures var w := WriteBatch(segments, current, batch, max);
            && current <= w.1 && |segments| <= |w.0| <= |segments| + |batch|
            && (|w.0| > |segments| ==> w.1 == |w.0| - 1)
  {
    hide Sum;
  }

  lemma {:induction false} WriteBatchOnFiles(segments: Segments, current: nat, batch: seq<Bytes>, max: nat)
    requires current < |segments|
    ensures Log(FilesOf(segments), 0, current).Valid()
    ensures var w := WriteBatch(segments, current, batch, max);
            WriteMany(Log(FilesOf(segments), 0, current), batch, max) == Log(FilesOf(w.0), 0, w.1)
  {
    hide FilesOf, WriteSegment, WriteOne, Encode, WalName;
    if batch == [] {
      IsFile(segments, current);
    } else {
      var n := |batch| - 1;
      WriteBatchOnFiles(segments, current, batch[..n], max);
      var before := WriteBatch(segments, current, batch[..n], max);
      WriteSegmentOnFiles(before.0, before.1, batch[n], max);
    }
  }

  lemma IsFile(segments: Segments, current: nat)
    requires current < |segments|
    ensures Log(FilesOf(segments), 0, current).Valid()
  {
    hide Encode, WalName, Overlay;
    OverlayKeeps(map[], 0, 0, segments, current);
  }

  /** Appending to consecutively numbered segments: what they become, and which one is written last. */
  function AppendBatch(segments: Segments, batch: seq<Bytes>, max: nat): (w: (Segments, nat))
    ensures w.1 < |w.0|
  {
    var number := OpenNumber(segments);
    WriteBatch(OpenSegment(segments, number), number, batch, max)
  }

  lemma AppendBatchSize(segments: Segments, batch: seq<Bytes>, max: nat)
    ensures |AppendBatch(segments, batch, max).0| <= |segments| + 1 + |batch|
  {
    hide LastName, WriteBatch;
    var number := OpenNumber(segments);
    WriteBatchGrows(OpenSegment(segments, number), number, batch, max);
  }

  lemma AppendBatchOnFiles(segments: Segments, batch: seq<Bytes>, max: nat)
    requires |segments| < U64_LIMIT
    ensures var w := AppendBatch(segments, batch, max);
            Appended(FilesOf(segments), batch, max) == Log(FilesOf(w.0), 0, w.1)
  {
    hide FilesOf, WalName, OpensAt, OpenPosition, WriteBatch, WriteMany;
    var number := OpenNumber(segments);
    OpeningIsExact(segments, 0, number);
    OpeningIsUnique(FilesOf(segments), 0, number);
    OpenSegmentOnFiles(segments, number);
    WriteBatchOnFiles(OpenSegment(segments, number), number, batch, max);
  }

  lemma LastSegment(segments: Segments)
    requires 0 < |segments| < U64_LIMIT
    ensures LastPosition(FilesOf(segments)) == (0, LastName(|segments| - 1))
  {
    hide WalName, ParseWalName, FilesOf, NewestByName, LastName, LastPosition;
    NewestSegment(segments);
    SegmentIsListed(segments, LastName(|segments| - 1));
    LastPositionIs(FilesOf(segments), WalName(0, LastName(|segments| - 1)));
  }

  /** The number with the last name is the largest one up to there that is the last of its kind. */
  lemma LastNameIsLargest(n: nat, m: nat)
    requires m <= n && LastOfItsKind(m)
    ensures m <= LastName(n)
  {
    hide Before, LastOfItsKind, LastName;
    var k := LastName(n);
    if k < m {
      LastOutranks(m, k);
      LastNameOutranks(n, m);
      BeforeIsTotal(Decimal(k) + ".wal", Decimal(m) + ".wal");
    }
  }

  /** After appending, the position found by name is that of the segment written last exactly when that
      segment's number has one digit or only nines before its last digit. */
  lemma TailIsExact(segments: Segments, batch: seq<Bytes>, max: nat)
    requires |AppendBatch(segments, batch, max).0| < U64_LIMIT
    ensures var log := Appended(FilesOf(segments), batch, max);
            && log.epoch == 0 && log.number == AppendBatch(segments, batch, max).1
            && (LastPosition(log.files) == (log.epoch, log.number) <==> LastOfItsKind(log.number))
  {
    hide FilesOf, Appended, LastPosition, LastOfItsKind, WriteBatch;
    var number := OpenNumber(segments);
    var w := AppendBatch(segments, batch, max);
    WriteBatchGrows(OpenSegment(segments, number), number, batch, max);
    AppendBatchOnFiles(segments, batch, max);
    LastSegment(w.0);
    TailNumber(segments, |w.0|, w.1);
  }

  lemma TailNumber(segments: Segments, size: nat, written: nat)
    requires |segments| <= size && OpenNumber(segments) <= written < size
    requires size > |segments| ==> written == size - 1
    ensures LastName(size - 1) == written <==> LastOfItsKind(written)
  {
    hide Decimal, Nines;
    if LastOfItsKind(written) {
      LastNameIsLargest(size - 1, written);
    } else if size == |segments| {
    } else {
      NinesOutrank(size - 1);
    }
  }

  /** A commit as the code does it: open by name, write, close. */
  function Commit(segments: Segments, batch: seq<Bytes>, max: nat): Segments {
    AppendBatch(segments, batch, max).0
  }

  function CommitAll(batches: seq<seq<Bytes>>, max: nat): Segments {
    if batches == [] then [] else Commit(CommitAll(batches[..|batches| - 1], max), batches[|batches| - 1], max)
  }

  lemma {:induction false} SumPrefix(batch: seq<Bytes>, n: nat)
    requires n <= |batch|
    ensures Sum(batch[..n]) <= Sum(batch)
  {
    if n > 0 {
      SumPrefix(batch[1..], n - 1);
      assert batch[..n][1..] == batch[1..][..n - 1];
    }
  }

  /** A batch within the size limit stays in the segment it was opened for. */
  lemma {:induction false} SmallBatch(segments: Segments, current: nat, batch: seq<Bytes>, max: nat)
    requires current < |segments| && segments[current] == [] && Sum(batch) <= max
    ensures WriteBatch(segments, current, batch, max) == (segments[current := batch], current)
  {
    hide Sum;
    if batch == [] {
      assert segments[current := []] == segments;
    } else {
      var n := |batch| - 1;
      SumPrefix(batch, n);
      SmallBatch(segments, current, batch[..n], max);
      assert batch[..n] + [batch[n]] == batch;
      SumAppend(batch[..n], batch[n]);
      assert segments[current := batch[..n]][current := batch[..n] + [batch[n]]] == segments[current := batch];
    }
  }

  predicate Small(batches: seq<seq<Bytes>>, max: nat) {
    forall i :: 0 <= i < |batches| ==> Sum(batches[i]) <= max
  }

  lemma EarlyNumbers(n: nat)
    ensures n < 10 ==> LastName(n) == n
    ensures n == 10 ==> LastName(n) == 9
  {
    assert Nines(0) == 0 && Nines(1) == 9;
    if n == 10 {
      assert Decimal(10) == Decimal(1) + [DigitChar(0)];
    }
  }

  /** With ten or eleven segments a small batch goes into segment 10, but the position found is that of
      segment 9. */
  lemma TenIsFoundAsNine(segments: Segments, batch: seq<Bytes>, max: nat)
    requires 10 <= |segments| <= 11 && Sum(batch) <= max
    ensures var log := Appended(FilesOf(segments), batch, max); log.number == 10 && LastPosition(log.files) == (0, 9)
  {
    hide Sum, LastName, WriteBatch, FilesOf, Appended, LastPosition;
    EarlyNumbers(|segments| - 1);
    EarlyNumbers(10);
    var now := OpenSegment(segments, 10);
    SmallBatch(now, 10, batch, max);
    AppendBatchOnFiles(segments, batch, max);
    LastSegment(now[10 := batch]);
  }

  /** The first eleven commits get a segment each. From the twelfth on, every commit empties segment 10
      again: what stays readable is the first ten batches and the latest one. */
  lemma {:induction false} CommitsAreLost(batches: seq<seq<Bytes>>, max: nat)
    requires Small(batches, max)
    ensures CommitAll(batches, max) == if |batches| <= 11 then batches else batches[..10] + [batches[|batches| - 1]]
  {
    hide Sum, Commit;
    if batches != [] {
      var n := |batches| - 1;
      CommitsAreLost(batches[..n], max);
      CommitSmall(CommitAll(batches[..n], max), batches[n], max);
      assert batches == batches[..n] + [batches[n]];
      assert n > 11 ==> batches[..n][..10] == batches[..10];
    }
  }

  /** A small batch goes into a new segment while there are at most ten, and into the eleventh again when
      there are eleven. */
  lemma CommitSmall(segments: Segments, batch: seq<Bytes>, max: nat)
    requires |segments| <= 11 && Sum(batch) <= max
    ensures Commit(segments, batch, max) == if |segments| <= 10 then segments + [batch] else segments[..10] + [batch]
  {
    hide Sum, LastName, WriteBatch;
    if segments != [] {
      EarlyNumbers(|segments| - 1);
    }
    var number := OpenNumber(segments);
    SmallBatch(OpenSegment(segments, number), number, batch, max);
  }
}
