/** Point-in-time recovery: mutations are logged in one file per second; a restore takes the nearest
    snapshot and replays the files from there up to the target. Times are microseconds. */
module Recovery {
  import opened Prelude
  import opened Text
  import opened StableSort

  type Time = nat

  const SECOND := 1_000_000

  datatype Entry = Entry(ts: Time, query: string)

  /** Log files by the whole second in their names. */
  type Files = map<nat, seq<Entry>>

  function SecondOf(t: Time): nat {
    t / SECOND
  }

  // ---------- writing the log ----------

  function Mutators(): seq<string> {
    ["CREATE", "MERGE", "DELETE", "SET ", "DROP", "ALTER", "INSERT", "UPDATE"]
  }

  /** A query counts as mutating by its first word only. */
  predicate IsMutating(query: string) {
    var q := Upper(Trim(query));
    exists i :: 0 <= i < |Mutators()| && Mutators()[i] <= q
  }

  function FileAt(files: Files, second: nat): seq<Entry> {
    if second in files then files[second] else []
  }

  function Append(files: Files, e: Entry): Files {
    files[SecondOf(e.ts) := FileAt(files, SecondOf(e.ts)) + [e]]
  }

  function LogFiles(history: seq<Entry>): Files {
    if history == [] then map[] else Append(LogFiles(history[..|history| - 1]), history[|history| - 1])
  }

  /** The objects under a database's log prefix. */
  class WalStore {
    var files: Files

    constructor ()
      ensures files == map[]
    {
      files := map[];
    }

    /** What the worker does after a query: mutating queries are added to the file of the current second. */
    method LogQuery(now: Time, query: string)
      modifies this
      ensures files == if IsMutating(query) then Append(old(files), Entry(now, query)) else old(files)
    {
      if IsMutating(query) {
        var key := SecondOf(now);
        var prior: seq<Entry> := [];
        if key in files {
          prior := files[key];
        }
        files := files[key := prior + [Entry(now, query)]];
      }
    }
  }

  // ---------- choosing the snapshot ----------

  /** A snapshot taken at `created`, of the database after the first `covers` logged mutations. */
  datatype Snapshot = Snapshot(created: Time, covers: nat)

  /** The first among the newest snapshots not younger than the target. */
  function Nearest(snapshots: seq<Snapshot>, target: Time): Option<Snapshot> {
    if snapshots == [] then None
    else
      var before, s := Nearest(snapshots[..|snapshots| - 1], target), snapshots[|snapshots| - 1];
      if s.created <= target && (before.None? || before.value.created < s.created) then Some(s) else before
  }

  lemma {:induction false} NearestIsNewest(snapshots: seq<Snapshot>, target: Time)
    ensures Nearest(snapshots, target).Some? ==> Nearest(snapshots, target).value in snapshots && Nearest(snapshots, target).value.created <= target
    ensures forall s :: s in snapshots && s.created <= target ==>
      Nearest(snapshots, target).Some? && s.created <= Nearest(snapshots, target).value.created
  {
    if snapshots != [] {
      NearestIsNewest(snapshots[..|snapshots| - 1], target);
      assert snapshots == snapshots[..|snapshots| - 1] + [snapshots[|snapshots| - 1]];
    }
  }

  function NotAfter(snapshots: seq<Snapshot>, target: Time): seq<Snapshot> {
    if snapshots == [] then []
    else NotAfter(snapshots[..|snapshots| - 1], target) +
         if snapshots[|snapshots| - 1].created <= target then [snapshots[|snapshots| - 1]] else []
  }

  lemma {:induction false} NearestOfValid(snapshots: seq<Snapshot>, target: Time)
    ensures Nearest(NotAfter(snapshots, target), target) == Nearest(snapshots, target)
  {
    if snapshots != [] {
      var n := |snapshots| - 1;
      NearestOfValid(snapshots[..n], target);
      var front := NotAfter(snapshots[..n], target);
      assert snapshots[n].created <= target ==> (front + [snapshots[n]])[..|front|] == front;
      assert snapshots[n].created > target ==> NotAfter(snapshots, target) == front;
    }
  }

  /** As restore and branch creation do it: filter, then take the maximum. */
  method FindNearestSnapshot(snapshots: seq<Snapshot>, target: Time) returns (best: Option<Snapshot>)
    ensures best == Nearest(snapshots, target)
  {
    hide Nearest;
    var valid := [];
    for i := 0 to |snapshots|
      invariant valid == NotAfter(snapshots[..i], target)
      invariant forall j :: 0 <= j < |valid| ==> valid[j].created <= target
    {
      assert snapshots[..i + 1][..i] == snapshots[..i];
      if snapshots[i].created <= target {
        valid := valid + [snapshots[i]];
      }
    }
    assert snapshots[..|snapshots|] == snapshots;
    NearestOfValid(snapshots, target);
    best := MaxByTime(valid, target);
  }

  method MaxByTime(valid: seq<Snapshot>, target: Time) returns (best: Option<Snapshot>)
    requires forall i :: 0 <= i < |valid| ==> valid[i].created <= target
    ensures best == Nearest(valid, target)
  {
    best := None;
    for i := 0 to |valid|
      invariant best == Nearest(valid[..i], target)
    {
      assert valid[..i + 1][..i] == valid[..i];
      if best.None? || best.value.created < valid[i].created {
        best := Some(valid[i]);
      }
    }
    assert valid[..|valid|] == valid;
  }

  predicate Newer(a: Snapshot, b: Snapshot) {
    a.created >= b.created
  }

  lemma {:induction false} FirstOfSorted(valid: seq<Snapshot>, target: Time)
    requires forall i :: 0 <= i < |valid| ==> valid[i].created <= target
    ensures Nearest(valid, target) == if valid == [] then None else Some(Sort(valid, Newer)[0])
  {
    if valid != [] {
      FirstOfSorted(valid[..|valid| - 1], target);
    }
  }

  /** As preview does it: sort newest first, take the first. */
  method FindNearestBySorting(snapshots: seq<Snapshot>, target: Time) returns (best: Option<Snapshot>)
    ensures best == Nearest(snapshots, target)
  {
    hide Nearest;
    var candidates := [];
    for i := 0 to |snapshots|
      invariant candidates == NotAfter(snapshots[..i], target)
      invariant forall j :: 0 <= j < |candidates| ==> candidates[j].created <= target
    {
      assert snapshots[..i + 1][..i] == snapshots[..i];
      if snapshots[i].created <= target {
        candidates := candidates + [snapshots[i]];
      }
    }
    assert snapshots[..|snapshots|] == snapshots;
    NearestOfValid(snapshots, target);
    FirstOfSorted(candidates, target);
    best := if candidates == [] then None else Some(Sort(candidates, Newer)[0]);
  }

  // ---------- choosing the files ----------

  /** The seconds of the files between the snapshot and the target, in order. */
  ghost predicate IsSelection(seconds: seq<nat>, files: Files, from: Time, target: Time) {
    && (forall i, j :: 0 <= i < j < |seconds| ==> seconds[i] < seconds[j])
    && (forall s :: s in seconds <==> s in files && from <= s * SECOND <= target)
  }

  predicate Earlier(a: nat, b: nat) {
    a <= b
  }

  lemma EarlierRanks(dom: set<nat>)
    ensures PreorderOn(Earlier, dom)
  {
  }

  method FindWalFiles(files: Files, from: Time, target: Time) returns (seconds: seq<nat>)
    ensures IsSelection(seconds, files, from, target)
  {
    hide Sort;
    var found: seq<nat> := [];
    var rest := files.Keys;
    while rest != {}
      invariant rest <= files.Keys && Distinct(found)
      invariant forall s :: s in found <==> s in files && s !in rest && from <= s * SECOND <= target
      decreases |rest|
    {
      var s :| s in rest;
      rest := rest - {s};
      if from <= s * SECOND <= target {
        assert s !in found;
        found := found + [s];
      }
    }
    seconds := Sort(found, Earlier);
    SortedDistinct(found, seconds);
  }

  lemma SortedDistinct(found: seq<nat>, seconds: seq<nat>)
    requires Distinct(found) && seconds == Sort(found, Earlier)
    ensures forall i, j :: 0 <= i < j < |seconds| ==> seconds[i] < seconds[j]
    ensures forall s :: s in seconds <==> s in found
  {
    hide Sort;
    var dom := set s | s in found;
    EarlierRanks(dom);
    SortSorts(found, Earlier, dom);
    SortPermutes(found, Earlier);
    DistinctCounts(found);
    DistinctCounts(seconds);
    forall s ensures s in seconds <==> s in found {
      MultisetIn(seconds, s);
      MultisetIn(found, s);
    }
    forall i, j | 0 <= i < j < |seconds| ensures seconds[i] < seconds[j] {
      assert Earlier(seconds[i], seconds[j]);
    }
  }

  // ---------- replaying ----------

  /** The lines before the first one later than the target. */
  function UpTo(lines: seq<Entry>, target: Time): seq<Entry> {
    if lines == [] || lines[0].ts > target then [] else [lines[0]] + UpTo(lines[1..], target)
  }

  /** The lines that hold a query. */
  function Queries(lines: seq<Entry>): seq<Entry> {
    if lines == [] then [] else (if lines[0].query == "" then [] else [lines[0]]) + Queries(lines[1..])
  }

  function Lines(files: Files, seconds: seq<nat>): seq<Entry> {
    if seconds == [] then [] else FileAt(files, seconds[0]) + Lines(files, seconds[1..])
  }

  /** Restore returns at the first line that is too late. */
  function RestoreReplay(files: Files, seconds: seq<nat>, target: Time): seq<Entry> {
    Queries(UpTo(Lines(files, seconds), target))
  }

  /** Preview leaves only the current file at such a line. */
  function PreviewReplay(files: Files, seconds: seq<nat>, target: Time): seq<Entry> {
    if seconds == [] then []
    else Queries(UpTo(FileAt(files, seconds[0]), target)) + PreviewReplay(files, seconds[1..], target)
  }

  /** Branch creation does too, but lines without a query never stop it. */
  function BranchReplay(files: Files, seconds: seq<nat>, target: Time): seq<Entry> {
    if seconds == [] then []
    else UpTo(Queries(FileAt(files, seconds[0])), target) + BranchReplay(files, seconds[1..], target)
  }

  /** A database, as the mutations it has gone through. */
  class Database {
    var applied: seq<Entry>

    constructor (snapshot: seq<Entry>)
      ensures applied == snapshot
    {
      applied := snapshot;
    }

    method Execute(e: Entry)
      modifies this
      ensures applied == old(applied) + [e]
    {
      applied := applied + [e];
    }
  }

  lemma UpToStep(done: seq<Entry>, lines: seq<Entry>, target: Time)
    ensures lines == [] || lines[0].ts > target ==> done + Queries(UpTo(lines, target)) == done
    ensures lines != [] && lines[0].ts <= target ==>
      done + Queries(UpTo(lines, target)) == (if lines[0].query == "" then done else done + [lines[0]]) + Queries(UpTo(lines[1..], target))
  {
    if lines != [] && lines[0].ts <= target {
      assert UpTo(lines, target)[1..] == UpTo(lines[1..], target);
    }
  }

  lemma LinesStep(done: seq<Entry>, file: seq<Entry>, more: seq<Entry>, i: nat)
    requires i < |file|
    ensures (file[i..] + more)[0] == file[i] && (file[i..] + more)[1..] == file[i + 1..] + more
  {
  }

  method Restore(db: Database, files: Files, seconds: seq<nat>, target: Time)
    requires forall s :: s in seconds ==> s in files
    modifies db
    ensures db.applied == old(db.applied) + RestoreReplay(files, seconds, target)
  {
    hide Queries, UpTo;
    ghost var all := db.applied + RestoreReplay(files, seconds, target);
    for n := 0 to |seconds|
      invariant db.applied + Queries(UpTo(Lines(files, seconds[n..]), target)) == all
    {
      assert seconds[n] in seconds && seconds[n..][1..] == seconds[n + 1..];
      var file := files[seconds[n]];
      ghost var more := Lines(files, seconds[n + 1..]);
      assert file[0..] == file;
      for i := 0 to |file|
        invariant db.applied + Queries(UpTo(file[i..] + more, target)) == all
      {
        LinesStep(db.applied, file, more, i);
        UpToStep(db.applied, file[i..] + more, target);
        if file[i].ts > target {
          return;
        }
        if file[i].query != "" {
          db.Execute(file[i]);
        }
      }
      assert file[|file|..] + more == more;
    }
    assert seconds[|seconds|..] == [];
    UpToStep(db.applied, [], target);
  }

  method Preview(db: Database, files: Files, seconds: seq<nat>, target: Time)
    requires forall s :: s in seconds ==> s in files
    modifies db
    ensures db.applied == old(db.applied) + PreviewReplay(files, seconds, target)
  {
    hide Queries, UpTo;
    ghost var all := db.applied + PreviewReplay(files, seconds, target);
    for n := 0 to |seconds|
      invariant db.applied + PreviewReplay(files, seconds[n..], target) == all
    {
      assert seconds[n] in seconds && seconds[n..][1..] == seconds[n + 1..];
      ghost var rest := PreviewReplay(files, seconds[n + 1..], target);
      ghost var before := db.applied;
      PreviewFile(db, files[seconds[n]], target);
      assert before + (Queries(UpTo(files[seconds[n]], target)) + rest) == db.applied + rest;
    }
    assert seconds[|seconds|..] == [];
    assert db.applied + [] == db.applied;
  }

  method PreviewFile(db: Database, file: seq<Entry>, target: Time)
    modifies db
    ensures db.applied == old(db.applied) + Queries(UpTo(file, target))
  {
    hide Queries, UpTo;
    ghost var all := db.applied + Queries(UpTo(file, target));
    assert file[0..] == file;
    for i := 0 to |file|
      invariant db.applied + Queries(UpTo(file[i..], target)) == all
    {
      UpToStep(db.applied, file[i..], target);
      assert file[i..][1..] == file[i + 1..];
      if file[i].ts > target {
        return;
      }
      if file[i].query != "" {
        db.Execute(file[i]);
      }
    }
    UpToStep(db.applied, file[|file|..], target);
  }

  method BranchFile(db: Database, file: seq<Entry>, target: Time)
    modifies db
    ensures db.applied == old(db.applied) + UpTo(Queries(file), target)
  {
    ghost var all := db.applied + UpTo(Queries(file), target);
    assert file[0..] == file;
    for i := 0 to |file|
      invariant db.applied + UpTo(Queries(file[i..]), target) == all
    {
      assert file[i..][1..] == file[i + 1..];
      ghost var before, lines := db.applied, Queries(file[i..]);
      assert file[i].query == "" ==> lines == Queries(file[i + 1..]);
      if file[i].query != "" {
        assert lines[0] == file[i] && lines[1..] == Queries(file[i + 1..]);
        if file[i].ts > target {
          assert db.applied + [] == db.applied;
          return;
        }
        db.Execute(file[i]);
        assert before + ([file[i]] + UpTo(lines[1..], target)) == db.applied + UpTo(lines[1..], target);
      }
    }
    assert db.applied + [] == db.applied;
  }

  method Branch(db: Database, files: Files, seconds: seq<nat>, target: Time)
    requires forall s :: s in seconds ==> s in files
    modifies db
    ensures db.applied == old(db.applied) + BranchReplay(files, seconds, target)
  {
    hide Queries, UpTo;
    ghost var all := db.applied + BranchReplay(files, seconds, target);
    for n := 0 to |seconds|
      invariant db.applied + BranchReplay(files, seconds[n..], target) == all
    {
      assert seconds[n] in seconds && seconds[n..][1..] == seconds[n + 1..];
      ghost var rest := BranchReplay(files, seconds[n + 1..], target);
      ghost var before := db.applied;
      BranchFile(db, files[seconds[n]], target);
      assert before + (UpTo(Queries(files[seconds[n]]), target) + rest) == db.applied + rest;
    }
    assert seconds[|seconds|..] == [];
    assert db.applied + [] == db.applied;
  }
}
