/** Branch histories: every branch is a directory of manifests named by their timestamps, beside a directory
    of log segments. Reads at a point in time compare numbers; "latest" goes by name. */
module Branches {
  import opened Prelude
  import opened Text
  import opened StableSort
  import opened NameOrder
  import opened WalWriter
  import D = WalDirectory
  import W = WalWriter
  import Wal

  type Branch = string
  type Timestamp = nat

  datatype WalTail = WalTail(epoch: nat, number: nat)

  datatype Manifest = Manifest(branch: Branch, versionTs: Timestamp, segments: seq<string>, walTail: Option<WalTail>)

  type History = map<Timestamp, Manifest>
  type Catalog = map<Branch, History>
  type Records = seq<Wal.Bytes>

  /** The size limit of a log segment. */
  const SEGMENT_LIMIT := 4 * 1024 * 1024

  /** What is on disk: the manifests and the log files of every branch. */
  datatype Store = Store(catalog: Catalog, logs: map<Branch, Files>)

  const EmptyStore := Store(map[], map[])

  function LogOf(s: Store, b: Branch): Files {
    if b in s.logs then s.logs[b] else map[]
  }

  function HistoryOf(c: Catalog, b: Branch): History {
    if b in c then c[b] else map[]
  }

  // ---------- reads ----------

  ghost predicate LatestAt(h: History, t: Timestamp, at: Timestamp) {
    t in h && t <= at && forall u :: u in h && u <= at ==> u <= t
  }

  /** The newest manifest not younger than `at`. */
  ghost function Pitr(h: History, at: Timestamp): Option<Manifest> {
    if exists t :: LatestAt(h, t, at) then
      var t :| LatestAt(h, t, at);
      Some(h[t])
    else None
  }

  lemma PitrIs(h: History, t: Timestamp, at: Timestamp)
    requires LatestAt(h, t, at)
    ensures Pitr(h, at) == Some(h[t])
  {
    assert forall u :: LatestAt(h, u, at) ==> u == t;
  }

  ghost predicate LastByName(h: History, t: Timestamp) {
    t in h && forall u :: u in h ==> AtMost(ManifestName(u), ManifestName(t))
  }

  /** The manifest whose file name comes last. */
  ghost function Latest(h: History): Option<Manifest> {
    if exists t :: LastByName(h, t) then
      var t :| LastByName(h, t);
      Some(h[t])
    else None
  }

  lemma ManifestNamesDiffer(a: Timestamp, b: Timestamp)
    requires ManifestName(a) == ManifestName(b)
    ensures a == b
  {
    hide Decimal;
    DecimalRoundTrip(a);
    DecimalRoundTrip(b);
    var m, n := ManifestName(a), ManifestName(b);
    assert m[9..|m| - 5] == Decimal(a) && n[9..|n| - 5] == Decimal(b);
  }

  lemma LatestIs(h: History, t: Timestamp)
    requires LastByName(h, t)
    ensures Latest(h) == Some(h[t])
  {
    hide Before, ManifestName;
    forall u | LastByName(h, u) ensures u == t {
      BeforeIsTotal(ManifestName(u), ManifestName(t));
      ManifestNamesDiffer(u, t);
    }
  }

  // ---------- steps ----------

  datatype Step =
    | CreateBranch(from: Branch, to: Branch, at: Option<Timestamp>, now: Timestamp)
    | Snapshot(branch: Branch, now: Timestamp)
    | Commit(branch: Branch, now: Timestamp, records: Records)

  function Target(step: Step): Branch {
    if step.CreateBranch? then step.to else step.branch
  }

  /** A new version copies the segments of the one it is based on. */
  function Version(base: Option<Manifest>, b: Branch, now: Timestamp, tail: Option<WalTail>): Manifest {
    Manifest(b, now, if base.Some? then base.value.segments else [],
             if tail.Some? then tail else if base.Some? then base.value.walTail else None)
  }

  ghost function BaseOf(c: Catalog, step: Step): Option<Manifest> {
    if step.CreateBranch? then
      if step.at.Some? then Pitr(HistoryOf(c, step.from), step.at.value) else Latest(HistoryOf(c, step.from))
    else Latest(HistoryOf(c, step.branch))
  }

  /** The branch's log after a commit of the records. */
  ghost function Logged(s: Store, b: Branch, records: Records): Log {
    Appended(LogOf(s, b), records, SEGMENT_LIMIT)
  }

  /** The log position that appending reports: the one in the last file name. */
  ghost function Reported(files: Files): WalTail {
    WalTail(LastPosition(files).0, LastPosition(files).1)
  }

  /** Only the composite backend records a log position on commit. */
  ghost function TailOf(s: Store, step: Step, composite: bool): Option<WalTail> {
    if step.Commit? && composite then Some(Reported(Logged(s, step.branch, step.records).files)) else None
  }

  ghost function NewVersion(s: Store, step: Step, composite: bool): Manifest {
    Version(BaseOf(s.catalog, step), Target(step), step.now, TailOf(s, step, composite))
  }

  function Write(c: Catalog, m: Manifest): Catalog {
    c[m.branch := HistoryOf(c, m.branch)[m.versionTs := m]]
  }

  /** A commit writes the log, then the manifest; the other steps only the manifest. */
  ghost function Do(s: Store, step: Step, composite: bool): Store {
    Store(Write(s.catalog, NewVersion(s, step, composite)),
          if step.Commit? then s.logs[step.branch := Logged(s, step.branch, step.records).files] else s.logs)
  }

  ghost function RunAll(s: Store, steps: seq<Step>, composite: bool): Store {
    if steps == [] then s else Do(RunAll(s, steps[..|steps| - 1], composite), steps[|steps| - 1], composite)
  }

  /** The clock does not go back, and starts no earlier than `start`. */
  predicate ClockFrom(steps: seq<Step>, start: Timestamp) {
    && (forall i :: 0 <= i < |steps| ==> start <= steps[i].now)
    && (forall i, j :: 0 <= i < j < |steps| ==> steps[i].now <= steps[j].now)
  }

  // ---------- the stores ----------

  class FsBackend {
    var catalog: Catalog
    var dirs: map<Branch, Directory>

    /** No two branches share a log directory. */
    ghost predicate Valid()
      reads this
    {
      forall a, b :: a in dirs && b in dirs && a != b ==> dirs[a] != dirs[b]
    }

    ghost function State(): Store
      reads this, dirs.Values
    {
      Store(catalog, map b | b in dirs :: dirs[b].files)
    }

    constructor ()
      ensures Valid() && State() == EmptyStore
    {
      catalog, dirs := map[], map[];
    }

    /** The manifests of a branch as name and timestamp, sorted by name. */
    method ListManifestPaths(b: Branch) returns (paths: seq<(string, Timestamp)>)
      ensures forall p :: p in paths ==> p.1 in HistoryOf(catalog, b) && p.0 == ManifestName(p.1)
      ensures forall t :: t in HistoryOf(catalog, b) ==> (ManifestName(t), t) in paths
      ensures paths != [] ==> forall p :: p in paths ==> AtMost(p.0, paths[|paths| - 1].0)
    {
      hide ManifestName, Before, Sort;
      var h := HistoryOf(catalog, b);
      var listing: seq<(string, Timestamp)> := [];
      var rest := h.Keys;
      while rest != {}
        invariant rest <= h.Keys
        invariant forall p :: p in listing ==> p.1 in h && p.0 == ManifestName(p.1)
        invariant forall t :: t in h && t !in rest ==> (ManifestName(t), t) in listing
        decreases |rest|
      {
        var t :| t in rest;
        rest := rest - {t};
        listing := listing + [(ManifestName(t), t)];
      }
      SortPermutes(listing, NameLe);
      SameMembers(listing, Sort(listing, NameLe));
      if listing != [] {
        LastOfSorted(listing);
      }
      paths := Sort(listing, NameLe);
    }

    method LatestManifest(b: Branch) returns (m: Option<Manifest>)
      ensures m == Latest(HistoryOf(catalog, b))
    {
      hide ManifestName, Before;
      var paths := ListManifestPaths(b);
      if paths == [] {
        return None;
      }
      var last := paths[|paths| - 1];
      assert last in paths;
      assert LastByName(HistoryOf(catalog, b), last.1);
      LatestIs(HistoryOf(catalog, b), last.1);
      return Some(HistoryOf(catalog, b)[last.1]);
    }

    method PitrManifest(b: Branch, at: Timestamp) returns (m: Option<Manifest>)
      ensures m == Pitr(HistoryOf(catalog, b), at)
    {
      hide ManifestName, AtMost;
      var paths := ListManifestPaths(b);
      var best: Option<Timestamp> := None;
      for i := 0 to |paths|
        invariant best.Some? ==> best.value in HistoryOf(catalog, b) && best.value <= at
        invariant forall j :: 0 <= j < i && paths[j].1 <= at ==> best.Some? && paths[j].1 <= best.value
      {
        var t := paths[i].1;
        assert paths[i] in paths;
        if t <= at && (best.None? || best.value < t) {
          best := Some(t);
        }
      }
      ghost var h := HistoryOf(catalog, b);
      forall t | t in h && t <= at ensures best.Some? && t <= best.value {
        assert (ManifestName(t), t) in paths;
      }
      if best.Some? {
        PitrIs(h, best.value, at);
        return Some(HistoryOf(catalog, b)[best.value]);
      }
      return None;
    }

    method WriteManifest(m: Manifest)
      modifies this`catalog
      ensures catalog == Write(old(catalog), m)
    {
      catalog := catalog[m.branch := HistoryOf(catalog, m.branch)[m.versionTs := m]];
    }

    method CreateBranch(from: Branch, to: Branch, at: Option<Timestamp>, now: Timestamp)
      modifies this`catalog
      ensures State() == Do(old(State()), Step.CreateBranch(from, to, at, now), false)
    {
      hide Pitr, Latest, Write;
      var base: Option<Manifest>;
      if at.Some? {
        base := PitrManifest(from, at.value);
      } else {
        base := LatestManifest(from);
      }
      WriteManifest(Version(base, to, now, None));
    }

    method Snapshot(b: Branch, now: Timestamp) returns (t: Timestamp)
      modifies this`catalog
      ensures t == now && State() == Do(old(State()), Step.Snapshot(b, now), false)
    {
      hide Latest, Write;
      var base := LatestManifest(b);
      WriteManifest(Version(base, b, now, None));
      t := now;
    }

    /** The branch's log directory, made when there is none yet. */
    method DirectoryOf(b: Branch) returns (dir: Directory)
      requires Valid()
      modifies this`dirs
      ensures Valid() && b in dirs && dirs[b] == dir && dir.files == LogOf(old(State()), b)
      ensures if b in old(dirs) then dirs == old(dirs) else fresh(dir) && dirs == old(dirs)[b := dir]
    {
      if b !in dirs {
        dir := new Directory();
        dirs := dirs[b := dir];
      }
      dir := dirs[b];
    }

    /** Opens the branch's log and writes the records. */
    method WriteLog(b: Branch, records: Records) returns (dir: Directory)
      requires Valid()
      modifies this`dirs, dirs.Values
      ensures Valid() && b in dirs && dirs[b] == dir && dir.files == Logged(old(State()), b, records).files
      ensures State().logs == old(State()).logs[b := dir.files]
    {
      hide Appended;
      dir := DirectoryOf(b);
      assert b in old(dirs) ==> dir in old(dirs.Values);
      var writer := W.AppendRecords(dir, records, SEGMENT_LIMIT);
    }

    /** Writes the records behind the branch's log and reports the position in the last file name. */
    method AppendRecords(b: Branch, records: Records) returns (tail: WalTail)
      requires Valid()
      modifies this`dirs, dirs.Values
      ensures Valid()
      ensures State().logs == old(State()).logs[b := Logged(old(State()), b, records).files]
      ensures tail == Reported(Logged(old(State()), b, records).files)
    {
      hide Appended, LastPosition, ParseWalName, AtMost, Valid, LogOf;
      var dir := WriteLog(b, records);
      var paths := ListWalPaths(dir);
      if paths == [] {
        NoLastPosition(dir.files);
        return WalTail(0, 0);
      }
      var last := paths[|paths| - 1];
      NewestFound(dir.files, paths);
      LastPositionIs(dir.files, last.0);
      return WalTail(last.1.0, last.1.1);
    }

    /** The log is written first; the new version does not record where it ended. */
    method CommitTx(b: Branch, now: Timestamp, records: Records) returns (t: Timestamp)
      requires Valid()
      modifies this, dirs.Values
      ensures Valid() && t == now && State() == Do(old(State()), Step.Commit(b, now, records), false)
    {
      hide Appended, LastPosition, Latest, Write, LogOf;
      var dir := WriteLog(b, records);
      t := Snapshot(b, now);
    }
  }

  class CompositeBackend {
    const store: FsBackend

    constructor (store: FsBackend)
      ensures this.store == store
    {
      this.store := store;
    }

    method CreateBranch(from: Branch, to: Branch, at: Option<Timestamp>, now: Timestamp)
      modifies store`catalog
      ensures store.State() == Do(old(store.State()), Step.CreateBranch(from, to, at, now), true)
    {
      hide Pitr, Latest, Write;
      store.CreateBranch(from, to, at, now);
    }

    method Snapshot(b: Branch, now: Timestamp) returns (t: Timestamp)
      modifies store`catalog
      ensures t == now && store.State() == Do(old(store.State()), Step.Snapshot(b, now), true)
    {
      hide Latest, Write;
      var base := store.LatestManifest(b);
      store.WriteManifest(Version(base, b, now, None));
      t := now;
    }

    method CommitTx(b: Branch, now: Timestamp, records: Records) returns (t: Timestamp)
      requires store.Valid()
      modifies store, store.dirs.Values
      ensures store.Valid() && t == now && store.State() == Do(old(store.State()), Step.Commit(b, now, records), true)
    {
      hide Appended, LastPosition, Latest, Write;
      var tail := store.AppendRecords(b, records);
      var prev := store.LatestManifest(b);
      store.WriteManifest(Version(prev, b, now, Some(tail)));
      t := now;
    }
  }

  // ---------- the past stays, branches stay apart ----------

  lemma WriteKeepsPast(h: History, m: Manifest, at: Timestamp)
    requires at < m.versionTs
    ensures Pitr(h[m.versionTs := m], at) == Pitr(h, at)
  {
    var h' := h[m.versionTs := m];
    assert forall t :: t <= at ==> (t in h' <==> t in h);
    forall t ensures LatestAt(h', t, at) <==> LatestAt(h, t, at) {
    }
    if exists t :: LatestAt(h, t, at) {
      var t :| LatestAt(h, t, at);
      PitrIs(h, t, at);
      PitrIs(h', t, at);
    }
  }

  /** Nothing that happens from `now` on changes what any branch was before `now`. */
  lemma {:induction false} PastIsImmutable(s: Store, steps: seq<Step>, composite: bool, now: Timestamp, b: Branch, at: Timestamp)
    requires ClockFrom(steps, now) && at < now
    ensures Pitr(HistoryOf(RunAll(s, steps, composite).catalog, b), at) == Pitr(HistoryOf(s.catalog, b), at)
  {
    hide Pitr, BaseOf, TailOf, Logged;
    if steps != [] {
      var front, last := steps[..|steps| - 1], steps[|steps| - 1];
      PastIsImmutable(s, front, composite, now, b, at);
      var before := RunAll(s, front, composite);
      WriteKeepsPast(HistoryOf(before.catalog, Target(last)), NewVersion(before, last, composite), at);
    }
  }

  /** A step touches no branch but its target, and adds or replaces one version there. */
  lemma StepIsLocal(s: Store, step: Step, composite: bool, b: Branch)
    ensures b != Target(step) ==>
      HistoryOf(Do(s, step, composite).catalog, b) == HistoryOf(s.catalog, b) && LogOf(Do(s, step, composite), b) == LogOf(s, b)
    ensures b == Target(step) ==>
      HistoryOf(Do(s, step, composite).catalog, b) - {step.now} == HistoryOf(s.catalog, b) - {step.now}
  {
    hide BaseOf, TailOf, Logged;
  }

  lemma WriteIsSeen(h: History, m: Manifest)
    ensures Pitr(h[m.versionTs := m], m.versionTs) == Some(m)
  {
    PitrIs(h[m.versionTs := m], m.versionTs, m.versionTs);
  }

  /** No step of the millisecond `t` is about the branch. */
  ghost predicate Spares(steps: seq<Step>, b: Branch, t: Timestamp) {
    forall i :: 0 <= i < |steps| && steps[i].now == t ==> Target(steps[i]) != b
  }

  lemma {:induction false} SparedIsKept(s: Store, steps: seq<Step>, composite: bool, b: Branch, t: Timestamp)
    requires ClockFrom(steps, t) && Spares(steps, b, t)
    ensures Pitr(HistoryOf(RunAll(s, steps, composite).catalog, b), t) == Pitr(HistoryOf(s.catalog, b), t)
  {
    hide Pitr, BaseOf, TailOf, Logged;
    if steps != [] {
      var front, last := steps[..|steps| - 1], steps[|steps| - 1];
      SparedIsKept(s, front, composite, b, t);
      var before := RunAll(s, front, composite);
      if t < last.now {
        WriteKeepsPast(HistoryOf(before.catalog, Target(last)), NewVersion(before, last, composite), t);
      }
    }
  }

  /** What a branch shows at the time of a step on it is the version that the step wrote, after any later steps
      none of which is about the branch within the same millisecond. */
  lemma VersionStays(s: Store, step: Step, later: seq<Step>, composite: bool)
    requires ClockFrom(later, step.now) && Spares(later, Target(step), step.now)
    ensures Pitr(HistoryOf(RunAll(Do(s, step, composite), later, composite).catalog, Target(step)), step.now)
         == Some(NewVersion(s, step, composite))
  {
    hide Pitr, RunAll, Spares, BaseOf, TailOf, Logged;
    SparedIsKept(Do(s, step, composite), later, composite, Target(step), step.now);
    WriteIsSeen(HistoryOf(s.catalog, Target(step)), NewVersion(s, step, composite));
  }

  /** What a commit writes reads back: its records stand in the segments from the one opened to the last one written.
      Every other file of the branch, and every other branch, keeps its log. */
  lemma CommitReadsBack(s: Store, b: Branch, now: Timestamp, records: Records, composite: bool) returns (first: W.Log, last: nat)
    requires Wal.Fits(records)
    ensures var before, after := LogOf(s, b), LogOf(Do(s, Commit(b, now, records), composite), b);
      && first.epoch == OpenPosition(before).0 && first.number == OpenPosition(before).1 <= last
      && W.ReadSegments(after, first.epoch, first.number, last - first.number + 1) == Ok(records)
      && forall name :: !IsWritten(first, last, name) ==> (name in after <==> name in before) && (name in before ==> after[name] == before[name])
    ensures forall other :: other != b ==> LogOf(Do(s, Commit(b, now, records), composite), other) == LogOf(s, other)
  {
    hide NewVersion, Write, OpenPosition, WriteMany, W.ReadSegments, WalName, Wal.Fits;
    var before, at := LogOf(s, b), OpenPosition(LogOf(s, b));
    first := W.Log(before[WalName(at.0, at.1) := []], at.0, at.1);
    var written := WriteMany(first, records, SEGMENT_LIMIT);
    last := written.number;
    WrittenReadsBack(first, records, SEGMENT_LIMIT);
    assert IsWritten(first, last, WalName(at.0, at.1));
    forall name | !IsWritten(first, last, name)
      ensures (name in written.files <==> name in before) && (name in before ==> written.files[name] == before[name])
    {
      OthersAreKept(first, records, SEGMENT_LIMIT, name);
    }
  }

  /** The version carries on another one: the same segments and log position, or none when there is no such
      version. */
  predicate Inherits(m: Manifest, base: Option<Manifest>) {
    && (base.Some? ==> m.segments == base.value.segments && m.walTail == base.value.walTail)
    && (base.None? ==> m.segments == [] && m.walTail == None)
  }

  /** Every step writes one version, for its branch and its time. A new branch carries on the newest version of
      its source not younger than the time asked for, or the latest one; a snapshot the latest of its branch. A
      commit has the segments of the latest; with the composite backend its log position is the one that appending
      reported, with the file backend the one found. */
  lemma WrittenVersionIs(s: Store, step: Step, composite: bool)
    ensures NewVersion(s, step, composite).branch == Target(step) && NewVersion(s, step, composite).versionTs == step.now
    ensures step.CreateBranch? && step.at.Some? ==> Inherits(NewVersion(s, step, composite), Pitr(HistoryOf(s.catalog, step.from), step.at.value))
    ensures step.CreateBranch? && step.at.None? ==> Inherits(NewVersion(s, step, composite), Latest(HistoryOf(s.catalog, step.from)))
    ensures step.Snapshot? || (step.Commit? && !composite) ==> Inherits(NewVersion(s, step, composite), Latest(HistoryOf(s.catalog, step.branch)))
    ensures step.Commit? && composite ==>
      && NewVersion(s, step, composite).walTail == Some(Reported(Logged(s, step.branch, step.records).files))
      && Inherits(NewVersion(s, step, composite).(walTail := if Latest(HistoryOf(s.catalog, step.branch)).Some? then Latest(HistoryOf(s.catalog, step.branch)).value.walTail else None),
                  Latest(HistoryOf(s.catalog, step.branch)))
  {
    hide Pitr, Latest, Logged, Reported;
  }

  /** A branch created at a point in time starts with the source's segments and log position of that time, and
      still shows them after any later steps, unless one of the same millisecond is about the new branch: by
      `VersionStays` the last such step then replaces the version. */
  lemma BranchStartsAtSource(s: Store, step: Step, later: seq<Step>, composite: bool) returns (m: Manifest)
    requires step.CreateBranch? && step.at.Some? && ClockFrom(later, step.now) && Spares(later, step.to, step.now)
    ensures Pitr(HistoryOf(RunAll(Do(s, step, composite), later, composite).catalog, step.to), step.now) == Some(m)
    ensures m.branch == step.to && m.versionTs == step.now && Inherits(m, Pitr(HistoryOf(s.catalog, step.from), step.at.value))
  {
    hide Pitr, RunAll, Spares, ClockFrom, NewVersion, Do;
    m := NewVersion(s, step, composite);
    VersionStays(s, step, later, composite);
    WrittenVersionIs(s, step, composite);
  }

  // ---------- the two backends ----------

  predicate SameVersion(m: Manifest, n: Manifest) {
    m.branch == n.branch && m.versionTs == n.versionTs && m.segments == n.segments
  }

  ghost predicate SameVersions(h: History, k: History) {
    h.Keys == k.Keys && forall t :: t in h ==> SameVersion(h[t], k[t])
  }

  /** The same logs, and the same versions but for their log positions. */
  ghost predicate Alike(s: Store, u: Store) {
    s.logs == u.logs && forall b :: SameVersions(HistoryOf(s.catalog, b), HistoryOf(u.catalog, b))
  }

  predicate SameBase(m: Option<Manifest>, n: Option<Manifest>) {
    (m.None? && n.None?) || (m.Some? && n.Some? && SameVersion(m.value, n.value))
  }

  lemma PitrAlike(h: History, k: History, at: Timestamp)
    requires SameVersions(h, k)
    ensures SameBase(Pitr(h, at), Pitr(k, at))
  {
    assert forall t :: LatestAt(h, t, at) <==> LatestAt(k, t, at);
    if exists t :: LatestAt(h, t, at) {
      var t :| LatestAt(h, t, at);
      PitrIs(h, t, at);
      PitrIs(k, t, at);
    }
  }

  lemma LatestAlike(h: History, k: History)
    requires SameVersions(h, k)
    ensures SameBase(Latest(h), Latest(k))
  {
    hide AtMost, ManifestName;
    assert forall t :: LastByName(h, t) <==> LastByName(k, t);
    if exists t :: LastByName(h, t) {
      var t :| LastByName(h, t);
      LatestIs(h, t);
      LatestIs(k, t);
    }
  }

  lemma BaseAlike(s: Store, u: Store, step: Step)
    requires Alike(s, u)
    ensures SameBase(BaseOf(s.catalog, step), BaseOf(u.catalog, step))
  {
    hide Pitr, Latest;
    var source := if step.CreateBranch? then step.from else step.branch;
    LatestAlike(HistoryOf(s.catalog, source), HistoryOf(u.catalog, source));
    if step.CreateBranch? && step.at.Some? {
      PitrAlike(HistoryOf(s.catalog, source), HistoryOf(u.catalog, source), step.at.value);
    }
  }

  lemma WriteAlike(h: History, k: History, m: Manifest, n: Manifest)
    requires SameVersions(h, k) && SameVersion(m, n)
    ensures SameVersions(h[m.versionTs := m], k[n.versionTs := n])
  {
  }

  lemma StepsAlike(s: Store, u: Store, step: Step)
    requires Alike(s, u)
    ensures Alike(Do(s, step, false), Do(u, step, true))
  {
    hide BaseOf, Logged, TailOf, SameVersions;
    BaseAlike(s, u, step);
    var b := Target(step);
    WriteAlike(HistoryOf(s.catalog, b), HistoryOf(u.catalog, b), NewVersion(s, step, false), NewVersion(u, step, true));
    if step.Commit? {
      LogsAlike(s, u, step);
    }
    forall a ensures SameVersions(HistoryOf(Do(s, step, false).catalog, a), HistoryOf(Do(u, step, true).catalog, a)) {
      assert SameVersions(HistoryOf(s.catalog, a), HistoryOf(u.catalog, a));
    }
  }

  lemma LogsAlike(s: Store, u: Store, step: Step)
    requires s.logs == u.logs && step.Commit?
    ensures Logged(s, step.branch, step.records) == Logged(u, step.branch, step.records)
  {
    hide Appended;
  }

  /** Runs on the two backends leave the same logs, and the same versions with the same segments. */
  lemma {:induction false} BackendsAgree(s: Store, steps: seq<Step>)
    ensures Alike(RunAll(s, steps, false), RunAll(s, steps, true))
  {
    hide Do, Alike;
    if steps == [] {
      AlikeItself(s);
    } else {
      BackendsAgree(s, steps[..|steps| - 1]);
      StepsAlike(RunAll(s, steps[..|steps| - 1], false), RunAll(s, steps[..|steps| - 1], true), steps[|steps| - 1]);
    }
  }

  lemma AlikeItself(s: Store)
    ensures Alike(s, s)
  {
  }

  // ---------- the recorded log position ----------

  function TailAt(c: Catalog, b: Branch, t: Timestamp): Option<WalTail> {
    if t in HistoryOf(c, b) then HistoryOf(c, b)[t].walTail else None
  }

  /** On a commit the file backend keeps the log position it finds, the composite backend records the one that
      appending reports. */
  lemma BackendsDifferInTail(s: Store, commit: Step)
    requires commit.Commit?
    ensures var base := Latest(HistoryOf(s.catalog, commit.branch));
            TailAt(Do(s, commit, false).catalog, commit.branch, commit.now) == if base.Some? then base.value.walTail else None
    ensures TailAt(Do(s, commit, true).catalog, commit.branch, commit.now)
         == Some(Reported(Logged(s, commit.branch, commit.records).files))
  {
    hide Latest, Logged;
  }

  ghost predicate NoTails(c: Catalog) {
    forall b, t :: TailAt(c, b, t) == None
  }

  lemma BaseHasNoTail(c: Catalog, step: Step)
    requires NoTails(c)
    ensures BaseOf(c, step).Some? ==> BaseOf(c, step).value.walTail == None
  {
    hide AtMost, ManifestName;
    var source := if step.CreateBranch? then step.from else step.branch;
    var h := HistoryOf(c, source);
    assert forall t :: t in h ==> TailAt(c, source, t) == h[t].walTail;
  }

  /** Through the file backend no log position is ever recorded. */
  lemma {:induction false} FileBackendHasNoTails(steps: seq<Step>)
    ensures NoTails(RunAll(EmptyStore, steps, false).catalog)
  {
    hide BaseOf, Logged;
    if steps != [] {
      var front, step := steps[..|steps| - 1], steps[|steps| - 1];
      FileBackendHasNoTails(front);
      var s := RunAll(EmptyStore, front, false);
      BaseHasNoTail(s.catalog, step);
      forall b, t ensures TailAt(Do(s, step, false).catalog, b, t) == None {
        assert TailAt(s.catalog, b, t) == None;
      }
    }
  }

  /** The number of segments a branch's log can have at most: one for every commit, one for every record. */
  function Segments(steps: seq<Step>, b: Branch): nat {
    if steps == [] then 0
    else
      var last := steps[|steps| - 1];
      Segments(steps[..|steps| - 1], b) + if last.Commit? && last.branch == b then 1 + |last.records| else 0
  }

  ghost predicate Consecutive(files: Files, limit: nat) {
    exists segments :: files == D.FilesOf(segments) && |segments| <= limit
  }

  /** In every run the segments of every log are numbered without gaps. */
  lemma {:induction false} LogsAreConsecutive(steps: seq<Step>, composite: bool, b: Branch)
    requires Segments(steps, b) < U64_LIMIT
    ensures Consecutive(LogOf(RunAll(EmptyStore, steps, composite), b), Segments(steps, b))
  {
    hide Appended, NewVersion, Write, D.FilesOf;
    if steps == [] {
      NoSegments();
    } else {
      var front, last := steps[..|steps| - 1], steps[|steps| - 1];
      LogsAreConsecutive(front, composite, b);
      var segments :| LogOf(RunAll(EmptyStore, front, composite), b) == D.FilesOf(segments) && |segments| <= Segments(front, b);
      if last.Commit? && last.branch == b {
        AppendsConsecutively(segments, last.records);
      }
    }
  }

  lemma NoSegments()
    ensures Consecutive(map[], 0)
  {
    assert D.FilesOf([]) == map[];
  }

  lemma AppendsConsecutively(segments: D.Segments, records: Records)
    requires |segments| < U64_LIMIT
    ensures Consecutive(Appended(D.FilesOf(segments), records, SEGMENT_LIMIT).files, |segments| + 1 + |records|)
  {
    hide Appended, D.FilesOf;
    D.AppendBatchOnFiles(segments, records, SEGMENT_LIMIT);
    D.AppendBatchSize(segments, records, SEGMENT_LIMIT);
  }

  /** After any run, a commit through the composite backend records the position of the segment it wrote
      last exactly when that segment's number has one digit or only nines before its last digit. */
  lemma RecordedTailIsExact(steps: seq<Step>, commit: Step)
    requires commit.Commit? && Segments(steps + [commit], commit.branch) < U64_LIMIT
    ensures var s := RunAll(EmptyStore, steps, true);
            var log := Logged(s, commit.branch, commit.records);
            var tail := TailAt(Do(s, commit, true).catalog, commit.branch, commit.now);
            tail == Some(WalTail(log.epoch, log.number)) <==> LastOfItsKind(log.number)
  {
    hide Appended, LastPosition, D.FilesOf, LastOfItsKind, Latest;
    var s := RunAll(EmptyStore, steps, true);
    var b := commit.branch;
    assert (steps + [commit])[..|steps|] == steps;
    LogsAreConsecutive(steps, true, b);
    var segments :| LogOf(s, b) == D.FilesOf(segments) && |segments| <= Segments(steps, b);
    D.AppendBatchSize(segments, commit.records, SEGMENT_LIMIT);
    D.TailIsExact(segments, commit.records, SEGMENT_LIMIT);
    BackendsDifferInTail(s, commit);
  }

  // ---------- latest by name and latest by number ----------

  predicate SameDigits(h: History) {
    forall t, u :: t in h && u in h ==> |Decimal(t)| == |Decimal(u)|
  }

  lemma {:induction false} HasLargest(h: History) returns (t: Timestamp)
    requires h != map[]
    ensures t in h && forall u :: u in h ==> u <= t
    decreases |h|
  {
    var x :| x in h;
    var rest := h - {x};
    if rest == map[] {
      assert forall u :: u in h && u != x ==> u in rest;
      t := x;
    } else {
      var y := HasLargest(rest);
      t := if x < y then y else x;
      assert forall u :: u in h && u != x ==> u in rest;
    }
  }

  ghost predicate Newest(h: History, t: Timestamp) {
    t in h && forall u :: u in h ==> u <= t
  }

  /** The newest manifest has the last name exactly when every timestamp is at most the newest one's leading
      digits, as many as it has itself. */
  lemma NewestHasLastName(h: History, t: Timestamp)
    requires Newest(h, t)
    ensures LastByName(h, t) <==> forall u :: u in h ==> AtMostLeading(u, t)
  {
    hide ManifestName, AtMost, AtMostLeading;
    forall u | u in h ensures AtMost(ManifestName(u), ManifestName(t)) <==> AtMostLeading(u, t) {
      ManifestsByNumber(u, t);
    }
  }

  /** The latest manifest by name is the newest one exactly under that condition on the timestamps. */
  lemma LatestIsNewestExactly(h: History, t: Timestamp, end: Timestamp)
    requires Newest(h, t) && t <= end && (forall u :: u in h ==> h[u].versionTs == u)
    ensures Latest(h) == Pitr(h, end) <==> forall u :: u in h ==> AtMostLeading(u, t)
  {
    hide AtMost, ManifestName, Latest, Pitr, AtMostLeading;
    PitrIs(h, t, end);
    NewestHasLastName(h, t);
    if LastByName(h, t) {
      LatestIs(h, t);
    }
    if Latest(h) == Some(h[t]) {
      LatestHasLastName(h);
    }
  }

  lemma LatestHasLastName(h: History)
    requires Latest(h).Some? && forall u :: u in h ==> h[u].versionTs == u
    ensures LastByName(h, Latest(h).value.versionTs)
  {
    hide AtMost, ManifestName;
  }

  /** In particular they agree while all timestamps have equally many digits. */
  lemma LatestIsNewest(h: History, end: Timestamp)
    requires SameDigits(h) && forall t :: t in h ==> t <= end
    ensures Latest(h) == Pitr(h, end)
  {
    hide AtMost, ManifestName, Decimal;
    if h == map[] {
      assert forall t :: !LastByName(h, t) && !LatestAt(h, t, end);
    } else {
      var t := HasLargest(h);
      PitrIs(h, t, end);
      forall u | u in h ensures AtMostLeading(u, t) {
      }
      NewestHasLastName(h, t);
      LatestIs(h, t);
    }
  }

  lemma NineIsNotLeading()
    ensures !AtMostLeading(9, 10) && AtMostLeading(9, 9)
  {
    assert Decimal(10) == Decimal(1) + [DigitChar(0)];
    assert Leading(10, 1) == 1;
  }

  /** With versions 9 and 10 they differ. */
  lemma NameOrderMisleads(h: History)
    requires h.Keys == {9, 10}
    ensures Latest(h) == Some(h[9]) && Pitr(h, 10) == Some(h[10])
  {
    hide Latest, Pitr, AtMost, ManifestName, AtMostLeading;
    assert 9 in h.Keys && 10 in h.Keys;
    NineIsNotLeading();
    ManifestsByNumber(9, 10);
    NotAtMost(ManifestName(9), ManifestName(10));
    BeforeIsTotal(ManifestName(9), ManifestName(9));
    assert AtMost(ManifestName(9), ManifestName(9)) by {
      ManifestsByNumber(9, 9);
    }
    LatestIs(h, 9);
    PitrIs(h, 10, 10);
  }

  lemma NotAtMost(a: string, b: string)
    requires !AtMost(a, b)
    ensures AtMost(b, a)
  {
    BeforeIsTotal(a, b);
  }
}
