/** Writing the log: opening a new segment behind the last one, appending records, rotating at the size
    limit. A directory is a map from file names to contents. */
module WalWriter {
  import opened Prelude
  import opened StableSort
  import opened NameOrder
  import opened Wal

  type Files = map<string, Bytes>

  /** A directory with an open segment. */
  datatype Log = Log(files: Files, epoch: nat, number: nat) {
    function Name(): string {
      WalName(epoch, number)
    }

    predicate Valid() {
      Name() in files
    }
  }

  function WriteOne(l: Log, payload: Bytes, max: nat): (r: Log)
    requires l.Valid()
    ensures r.Valid() && r.epoch == l.epoch
  {
    if |l.files[l.Name()]| + 4 + |payload| > max then
      Log(l.files[WalName(l.epoch, l.number + 1) := Frame(payload)], l.epoch, l.number + 1)
    else l.(files := l.files[l.Name() := l.files[l.Name()] + Frame(payload)])
  }

  function WriteMany(l: Log, records: seq<Bytes>, max: nat): (r: Log)
    requires l.Valid()
    ensures r.Valid() && r.epoch == l.epoch
  {
    if records == [] then l else WriteOne(WriteMany(l, records[..|records| - 1], max), records[|records| - 1], max)
  }

  // ---------- what ends up where ----------

  /** The records split into segments: a record that does not fit starts the next one, even if the
      current one is empty. */
  function Pack(records: seq<Bytes>, max: nat): (segments: seq<seq<Bytes>>)
    ensures segments != []
  {
    if records == [] then [[]]
    else
      var before, r := Pack(records[..|records| - 1], max), records[|records| - 1];
      var n := |before| - 1;
      if Sum(before[n]) + 4 + |r| > max then before + [[r]] else before[n := before[n] + [r]]
  }

  function Flatten(segments: seq<seq<Bytes>>): seq<Bytes> {
    if segments == [] then [] else Flatten(segments[..|segments| - 1]) + segments[|segments| - 1]
  }

  /** `files` with the segments stored under consecutive numbers. */
  function Overlay(files: Files, epoch: nat, number: nat, segments: seq<seq<Bytes>>): Files {
    if segments == [] then files
    else
      var n := |segments| - 1;
      Overlay(files, epoch, number, segments[..n])[WalName(epoch, number + n) := Encode(segments[n])]
  }

  lemma {:induction false} EncodeAppend(records: seq<Bytes>, r: Bytes)
    ensures Encode(records + [r]) == Encode(records) + Frame(r)
  {
    hide Frame;
    if records == [] {
      assert Encode([r]) == Frame(r) + Encode([r][1..]);
    } else {
      EncodeAppend(records[1..], r);
      assert (records + [r])[1..] == records[1..] + [r];
    }
  }

  lemma {:induction false} SumAppend(records: seq<Bytes>, r: Bytes)
    ensures Sum(records + [r]) == Sum(records) + 4 + |r|
  {
    if records == [] {
      assert Sum([r]) == 4 + |r| + Sum([r][1..]);
    } else {
      SumAppend(records[1..], r);
      assert (records + [r])[1..] == records[1..] + [r];
    }
  }

  lemma FlattenLast(before: seq<seq<Bytes>>, last: seq<Bytes>)
    ensures Flatten(before + [last]) == Flatten(before) + last
  {
    assert (before + [last])[..|before|] == before;
  }

  lemma PackStep(before: seq<seq<Bytes>>, r: Bytes)
    requires before != []
    ensures var n := |before| - 1;
            Flatten(before + [[r]]) == Flatten(before) + [r] && Flatten(before[n := before[n] + [r]]) == Flatten(before) + [r]
  {
    hide Flatten;
    var n := |before| - 1;
    var front := before[..n];
    FlattenLast(before, [r]);
    FlattenLast(front, before[n]);
    FlattenLast(front, before[n] + [r]);
    assert before == front + [before[n]];
    assert before[n := before[n] + [r]] == front + [before[n] + [r]];
    assert Flatten(front) + (before[n] + [r]) == Flatten(front) + before[n] + [r];
  }

  /** Packing keeps every record, in order. */
  lemma {:induction false} PackKeepsRecords(records: seq<Bytes>, max: nat)
    ensures Flatten(Pack(records, max)) == records
  {
    hide Flatten, Sum;
    if records == [] {
      var none: seq<seq<Bytes>> := [];
      FlattenLast(none, []);
      assert none + [[]] == Pack(records, max);
      FlattenNone();
    } else {
      PackKeepsRecords(records[..|records| - 1], max);
      PackStep(Pack(records[..|records| - 1], max), records[|records| - 1]);
      assert records == records[..|records| - 1] + [records[|records| - 1]];
    }
  }

  lemma FlattenNone()
    ensures Flatten([]) == []
  {
  }

  /** Every segment is within the limit or holds a single record. */
  lemma {:induction false} PackRespectsLimit(records: seq<Bytes>, max: nat)
    ensures forall i :: 0 <= i < |Pack(records, max)| ==> |Encode(Pack(records, max)[i])| <= max || |Pack(records, max)[i]| == 1
  {
    hide Sum, Encode;
    if records == [] {
      EncodedSize([]);
      EmptySum();
    } else {
      var before, r := Pack(records[..|records| - 1], max), records[|records| - 1];
      PackRespectsLimit(records[..|records| - 1], max);
      var n := |before| - 1;
      SumAppend(before[n], r);
      EncodedSize(before[n] + [r]);
    }
  }

  ghost predicate Overfull(segments: seq<seq<Bytes>>, i: nat, max: nat)
    requires 0 < i < |segments|
  {
    segments[i] != [] && |Encode(segments[i - 1] + [segments[i][0]])| > max
  }

  /** A segment is left only when it is too full: the first record of the next one would not fit. */
  lemma {:induction false} PackFillsSegments(records: seq<Bytes>, max: nat)
    ensures forall i :: 0 < i < |Pack(records, max)| ==> Overfull(Pack(records, max), i, max)
  {
    hide Sum, Encode, Overfull;
    if records != [] {
      var before, r := Pack(records[..|records| - 1], max), records[|records| - 1];
      PackFillsSegments(records[..|records| - 1], max);
      var n := |before| - 1;
      forall i | 0 < i < |Pack(records, max)| ensures Overfull(Pack(records, max), i, max) {
        if Sum(before[n]) + 4 + |r| > max {
          NewSegmentFills(before, r, i, max);
        } else {
          LongerSegmentFills(before, r, i, max);
        }
      }
    }
  }

  lemma NewSegmentFills(before: seq<seq<Bytes>>, r: Bytes, i: nat, max: nat)
    requires 0 < i <= |before| && (i < |before| ==> Overfull(before, i, max))
    requires Sum(before[|before| - 1]) + 4 + |r| > max
    ensures Overfull(before + [[r]], i, max)
  {
    hide Sum, Encode;
    SumAppend(before[|before| - 1], r);
    EncodedSize(before[|before| - 1] + [r]);
  }

  lemma LongerSegmentFills(before: seq<seq<Bytes>>, r: Bytes, i: nat, max: nat)
    requires 0 < i < |before| && Overfull(before, i, max)
    ensures Overfull(before[|before| - 1 := before[|before| - 1] + [r]], i, max)
  {
    hide Encode;
  }

  lemma EmptySum()
    ensures Sum([]) == 0
  {
  }

  lemma OverlayLast(files: Files, epoch: nat, number: nat, before: seq<seq<Bytes>>, last: seq<Bytes>)
    ensures Overlay(files, epoch, number, before + [last])
         == Overlay(files, epoch, number, before)[WalName(epoch, number + |before|) := Encode(last)]
  {
    assert (before + [last])[..|before|] == before;
  }

  /** Writing one more record onto packed segments. */
  lemma WriteStep(files: Files, epoch: nat, number: nat, before: seq<seq<Bytes>>, r: Bytes, max: nat)
    requires before != []
    ensures var l := Log(Overlay(files, epoch, number, before), epoch, number + |before| - 1);
            var n := |before| - 1;
            l.Valid() &&
            WriteOne(l, r, max) ==
              if Sum(before[n]) + 4 + |r| > max then Log(Overlay(files, epoch, number, before + [[r]]), epoch, number + |before|)
              else Log(Overlay(files, epoch, number, before[n := before[n] + [r]]), epoch, l.number)
  {
    hide Encode, Overlay, WalName, Sum, Frame;
    var n := |before| - 1;
    var base := Overlay(files, epoch, number, before[..n]);
    var name := WalName(epoch, number + n);
    OverlayLast(files, epoch, number, before[..n], before[n]);
    OverlayLast(files, epoch, number, before[..n], before[n] + [r]);
    OverlayLast(files, epoch, number, before, [r]);
    assert before == before[..n] + [before[n]];
    assert before[n := before[n] + [r]] == before[..n] + [before[n] + [r]];
    EncodedSize(before[n]);
    EncodeAppend(before[n], r);
    EncodeAppend([], r);
    EncodeNone();
    assert [] + [r] == [r] && [] + Frame(r) == Frame(r);
    assert base[name := Encode(before[n])][name := Encode(before[n] + [r])] == base[name := Encode(before[n] + [r])];
  }

  lemma EncodeNone()
    ensures Encode([]) == []
  {
  }

  /** Writing into a fresh segment stores exactly the packed segments, and touches no other file. */
  lemma {:induction false} WritesPack(l: Log, records: seq<Bytes>, max: nat)
    requires l.Valid() && l.files[l.Name()] == []
    ensures var segments := Pack(records, max); var r := WriteMany(l, records, max);
            r.number == l.number + |segments| - 1 && r.files == Overlay(l.files, l.epoch, l.number, segments)
  {
    hide WriteOne, Sum, Encode, WalName, Overlay;
    if records == [] {
      var none: seq<seq<Bytes>> := [];
      OverlayLast(l.files, l.epoch, l.number, none, []);
      EncodeNone();
      OverlayNone(l.files, l.epoch, l.number);
      assert none + [[]] == Pack(records, max);
      assert l.files[l.Name() := []] == l.files;
    } else {
      WritesPack(l, records[..|records| - 1], max);
      WriteStep(l.files, l.epoch, l.number, Pack(records[..|records| - 1], max), records[|records| - 1], max);
    }
  }

  lemma OverlayNone(files: Files, epoch: nat, number: nat)
    ensures Overlay(files, epoch, number, []) == files
  {
  }

  // ---------- reading it back ----------

  /** The records of `count` segments in the order of their numbers. */
  function ReadSegments(files: Files, epoch: nat, number: nat, count: nat): Result<seq<Bytes>> {
    if count == 0 then Ok([])
    else
      var before :- ReadSegments(files, epoch, number, count - 1);
      var name := WalName(epoch, number + count - 1);
      if name !in files then Err(StorageIo("open"))
      else
        var last :- Decode(files[name]);
        Ok(before + last)
  }

  lemma {:induction false} OverlayKeeps(files: Files, epoch: nat, number: nat, segments: seq<seq<Bytes>>, i: nat)
    requires i < |segments|
    ensures var name := WalName(epoch, number + i); var all := Overlay(files, epoch, number, segments);
            name in all && all[name] == Encode(segments[i])
  {
    hide Encode, WalName;
    if i < |segments| - 1 {
      OverlayKeeps(files, epoch, number, segments[..|segments| - 1], i);
      WalNamesDiffer(epoch, number + i, number + |segments| - 1);
    }
  }

  predicate AllFit(segments: seq<seq<Bytes>>) {
    forall i :: 0 <= i < |segments| ==> Fits(segments[i])
  }

  lemma {:induction false} ReadsOverlay(files: Files, epoch: nat, number: nat, segments: seq<seq<Bytes>>, count: nat)
    requires count <= |segments| && AllFit(segments[..count])
    ensures ReadSegments(Overlay(files, epoch, number, segments), epoch, number, count) == Ok(Flatten(segments[..count]))
  {
    hide Encode, Decode, WalName, Overlay, Fits;
    if count > 0 {
      var now, before := segments[..count], segments[..count - 1];
      assert now[..count - 1] == before;
      assert forall i :: 0 <= i < |before| ==> before[i] == now[i];
      ReadsOverlay(files, epoch, number, segments, count - 1);
      OverlayKeeps(files, epoch, number, segments, count - 1);
      assert Fits(segments[..count][count - 1]);
      SegmentRoundTrip(segments[count - 1]);
    }
  }

  lemma {:induction false} FlattenFits(segments: seq<seq<Bytes>>)
    ensures Fits(Flatten(segments)) <==> AllFit(segments)
  {
    if segments != [] {
      var front, last := segments[..|segments| - 1], segments[|segments| - 1];
      FlattenFits(front);
      var all, a := Flatten(segments), Flatten(front);
      assert Fits(all) <==> Fits(a) && Fits(last) by {
        assert forall i :: 0 <= i < |a| ==> all[i] == a[i];
        assert forall i :: 0 <= i < |last| ==> all[|a| + i] == last[i];
      }
      assert AllFit(segments) <==> AllFit(front) && Fits(last) by {
        assert forall i :: 0 <= i < |front| ==> segments[i] == front[i];
      }
    }
  }

  /** Whatever is written into a fresh segment, under any size limit, reads back in order when every
      record is shorter than 2^32 bytes. */
  lemma WrittenReadsBack(l: Log, records: seq<Bytes>, max: nat)
    requires l.Valid() && l.files[l.Name()] == [] && Fits(records)
    ensures var r := WriteMany(l, records, max);
            r.number >= l.number && ReadSegments(r.files, l.epoch, l.number, r.number - l.number + 1) == Ok(records)
  {
    hide Fits, ReadSegments, WriteMany, Overlay, Pack;
    var segments := Pack(records, max);
    WritesPack(l, records, max);
    PackKeepsRecords(records, max);
    FlattenFits(segments);
    assert segments[..|segments|] == segments;
    ReadsOverlay(l.files, l.epoch, l.number, segments, |segments|);
  }

  lemma {:induction false} OverlayKeepsOthers(files: Files, epoch: nat, number: nat, segments: seq<seq<Bytes>>, name: string)
    requires forall n: nat :: number <= n < number + |segments| ==> name != WalName(epoch, n)
    ensures var all := Overlay(files, epoch, number, segments);
      (name in all <==> name in files) && (name in files ==> all[name] == files[name])
  {
    hide WalName, Encode;
    if segments != [] {
      assert name != WalName(epoch, number + |segments| - 1);
      OverlayKeepsOthers(files, epoch, number, segments[..|segments| - 1], name);
    }
  }

  /** A segment from the first to the last one written. */
  ghost predicate IsWritten(l: Log, last: nat, name: string) {
    exists n: nat :: l.number <= n <= last && name == WalName(l.epoch, n)
  }

  /** No other file is touched. */
  lemma OthersAreKept(l: Log, records: seq<Bytes>, max: nat, name: string)
    requires l.Valid() && l.files[l.Name()] == []
    ensures var r := WriteMany(l, records, max);
      !IsWritten(l, r.number, name) ==> (name in r.files <==> name in l.files) && (name in l.files ==> r.files[name] == l.files[name])
  {
    hide WriteMany, Overlay, Pack, WalName;
    var segments := Pack(records, max);
    var r := WriteMany(l, records, max);
    WritesPack(l, records, max);
    if !IsWritten(l, r.number, name) {
      assert forall n: nat :: l.number <= n < l.number + |segments| ==> name != WalName(l.epoch, n);
      OverlayKeepsOthers(l.files, l.epoch, l.number, segments, name);
    }
  }

  // ---------- opening ----------

  /** A log file whose name no other log file's name exceeds. */
  ghost predicate NewestByName(files: Files, name: string) {
    && name in files && ParseWalName(name).Some?
    && forall other :: other in files && ParseWalName(other).Some? ==> AtMost(other, name)
  }

  ghost predicate NoLogs(files: Files) {
    forall name :: name in files ==> ParseWalName(name).None?
  }

  /** Where opening puts the writer: segment 0, or one past the segment with the last name. */
  ghost predicate OpensAt(files: Files, epoch: nat, number: nat) {
    (NoLogs(files) && epoch == 0 && number == 0)
    || exists name :: NewestByName(files, name) && ParseWalName(name).value.0 == epoch && ParseWalName(name).value.1 + 1 == number
  }

  /** The same as a function of the files. */
  ghost function OpenPosition(files: Files): (nat, nat) {
    if exists name :: NewestByName(files, name) then
      var name :| NewestByName(files, name);
      (ParseWalName(name).value.0, ParseWalName(name).value.1 + 1)
    else (0, 0)
  }

  lemma NewestIsUnique(files: Files, a: string, b: string)
    requires NewestByName(files, a) && NewestByName(files, b)
    ensures a == b
  {
    hide ParseWalName, Before;
    BeforeIsTotal(a, b);
  }

  lemma OpeningIsUnique(files: Files, epoch: nat, number: nat)
    requires OpensAt(files, epoch, number)
    ensures OpenPosition(files) == (epoch, number)
  {
    hide ParseWalName, AtMost;
    if exists name :: NewestByName(files, name) {
      var name :| NewestByName(files, name);
      forall other | NewestByName(files, other) ensures other == name {
        NewestIsUnique(files, other, name);
      }
    }
  }

  /** The position that a scan for the last file reports: the one its name tells. */
  ghost function LastPosition(files: Files): (nat, nat) {
    if exists name :: NewestByName(files, name) then
      var name :| NewestByName(files, name);
      ParseWalName(name).value
    else (0, 0)
  }

  lemma LastPositionIs(files: Files, name: string)
    requires NewestByName(files, name)
    ensures LastPosition(files) == ParseWalName(name).value
  {
    hide ParseWalName, AtMost;
    forall other | NewestByName(files, other) ensures other == name {
      NewestIsUnique(files, other, name);
    }
  }

  lemma NoLastPosition(files: Files)
    requires NoLogs(files)
    ensures LastPosition(files) == (0, 0)
  {
    hide ParseWalName, AtMost;
  }

  /** The log behind whatever the directory holds, with a batch of records written. */
  ghost function Appended(files: Files, records: seq<Bytes>, max: nat): Log {
    var at := OpenPosition(files);
    WriteMany(Log(files[WalName(at.0, at.1) := []], at.0, at.1), records, max)
  }

  class Directory {
    var files: Files

    constructor ()
      ensures files == map[]
    {
      files := map[];
    }
  }

  /** The log files of a directory, sorted by name. */
  method ListWalPaths(dir: Directory) returns (paths: seq<(string, (nat, nat))>)
    ensures forall p :: p in paths ==> p.0 in dir.files && ParseWalName(p.0) == Some(p.1)
    ensures forall name :: name in dir.files && ParseWalName(name).Some? ==> exists p :: p in paths && p.0 == name
    ensures paths != [] ==> forall p :: p in paths ==> AtMost(p.0, paths[|paths| - 1].0)
  {
    hide ParseWalName, Before, Sort;
    var listing: seq<(string, (nat, nat))> := [];
    var rest := dir.files.Keys;
    while rest != {}
      invariant rest <= dir.files.Keys
      invariant forall p :: p in listing ==> p.0 in dir.files && ParseWalName(p.0) == Some(p.1)
      invariant forall name :: name in dir.files && name !in rest && ParseWalName(name).Some? ==> exists p :: p in listing && p.0 == name
      decreases |rest|
    {
      var name :| name in rest;
      rest := rest - {name};
      var parsed := ParseWalName(name);
      if parsed.Some? {
        ghost var before := listing;
        listing := listing + [(name, parsed.value)];
        assert listing[|before|] == (name, parsed.value);
        assert forall p :: p in before ==> p in listing;
      }
    }
    SortPermutes(listing, NameLe);
    SameMembers(listing, Sort(listing, NameLe));
    if listing != [] {
      LastOfSorted(listing);
    }
    paths := Sort(listing, NameLe);
  }

  class WalWriter {
    const dir: Directory
    const max: nat
    var epoch: nat
    var number: nat
    var bytesWritten: nat

    ghost predicate Valid()
      reads this, dir
    {
      State().Valid() && bytesWritten == |dir.files[State().Name()]|
    }

    ghost function State(): Log
      reads this, dir
    {
      Log(dir.files, epoch, number)
    }

    /** Creates the segment after the last one by name; a file of that name is emptied. */
    constructor Open(dir: Directory, max: nat)
      modifies dir
      ensures Valid() && this.dir == dir && this.max == max
      ensures OpensAt(old(dir.files), epoch, number)
      ensures dir.files == old(dir.files)[WalName(epoch, number) := []]
    {
      var paths := ListWalPaths(dir);
      var e, n := 0, 0;
      if paths != [] {
        var last := paths[|paths| - 1];
        assert last in paths;
        e, n := last.1.0, last.1.1 + 1;
        NewestFound(dir.files, paths);
      }
      this.dir := dir;
      this.max := max;
      epoch := e;
      number := n;
      bytesWritten := 0;
      new;
      dir.files := dir.files[WalName(epoch, number) := []];
    }

    method Rotate()
      requires Valid()
      modifies this, dir
      ensures Valid() && epoch == old(epoch) && number == old(number) + 1
      ensures dir.files == old(dir.files)[WalName(epoch, number) := []]
    {
      number := number + 1;
      dir.files := dir.files[WalName(epoch, number) := []];
      bytesWritten := 0;
    }

    method WriteRecord(payload: Bytes)
      requires Valid()
      modifies this, dir
      ensures Valid() && State() == WriteOne(old(State()), payload, max)
    {
      hide Frame, WalName;
      var need := 4 + |payload|;
      if bytesWritten + need > max {
        Rotate();
      }
      var name := WalName(epoch, number);
      dir.files := dir.files[name := dir.files[name] + Frame(payload)];
      bytesWritten := bytesWritten + need;
      assert [] + Frame(payload) == Frame(payload);
    }
  }

  lemma NewestFound(files: Files, paths: seq<(string, (nat, nat))>)
    requires paths != []
    requires forall p :: p in paths ==> p.0 in files && ParseWalName(p.0) == Some(p.1)
    requires forall name :: name in files && ParseWalName(name).Some? ==> exists p :: p in paths && p.0 == name
    requires forall p :: p in paths ==> AtMost(p.0, paths[|paths| - 1].0)
    ensures NewestByName(files, paths[|paths| - 1].0)
  {
    hide ParseWalName, AtMost;
    var last := paths[|paths| - 1].0;
    assert paths[|paths| - 1] in paths;
    forall other | other in files && ParseWalName(other).Some?
      ensures AtMost(other, last)
    {
      var p :| p in paths && p.0 == other;
      assert AtMost(p.0, last);
    }
  }

  /** A batch of records goes behind whatever the directory holds. */
  method AppendRecords(dir: Directory, records: seq<Bytes>, max: nat) returns (writer: WalWriter)
    modifies dir
    ensures fresh(writer) && writer.Valid() && writer.dir == dir
    ensures writer.State() == Appended(old(dir.files), records, max)
  {
    hide WriteOne, OpensAt, OpenPosition;
    writer := new WalWriter.Open(dir, max);
    OpeningIsUnique(old(dir.files), writer.epoch, writer.number);
    ghost var start := writer.State();
    for i := 0 to |records|
      invariant writer.Valid() && writer.dir == dir && writer.max == max
      invariant writer.State() == WriteMany(start, records[..i], max)
    {
      assert records[..i + 1][..i] == records[..i];
      writer.WriteRecord(records[i]);
    }
    assert records[..|records|] == records;
  }
}
