/** What recovery computes, in terms of the history of mutations. */
module RecoveryTheorems {
  import opened Prelude
  import opened Text
  import opened Recovery

  predicate Ordered(h: seq<Entry>) {
    forall i, j :: 0 <= i < j < |h| ==> h[i].ts <= h[j].ts
  }

  predicate AllQueries(h: seq<Entry>) {
    forall i :: 0 <= i < |h| ==> h[i].query != ""
  }

  /** The mutations logged up to a time. */
  function AsOf(h: seq<Entry>, target: Time): seq<Entry> {
    if h == [] then []
    else AsOf(h[..|h| - 1], target) + if h[|h| - 1].ts <= target then [h[|h| - 1]] else []
  }

  /** The mutations of the seconds from `a` up to, not including, `b`. */
  function Seconds(h: seq<Entry>, a: nat, b: nat): seq<Entry> {
    if h == [] then []
    else Seconds(h[..|h| - 1], a, b) + if a <= SecondOf(h[|h| - 1].ts) < b then [h[|h| - 1]] else []
  }

  // ---------- the three copies ----------

  /** A file holds lines of its own second only. */
  ghost predicate Filed(files: Files) {
    forall s :: s in files ==> (AllQueries(files[s]) && forall i :: 0 <= i < |files[s]| ==> SecondOf(files[s][i].ts) == s)
  }

  lemma {:induction false} LogIsFiled(h: seq<Entry>)
    requires AllQueries(h)
    ensures Filed(LogFiles(h))
  {
    if h != [] {
      LogIsFiled(h[..|h| - 1]);
    }
  }

  lemma {:induction false} QueriesKeepAll(h: seq<Entry>)
    requires AllQueries(h)
    ensures Queries(h) == h
  {
    if h != [] {
      QueriesKeepAll(h[1..]);
    }
  }

  lemma {:induction false} UpToIsPrefix(lines: seq<Entry>, target: Time)
    ensures UpTo(lines, target) <= lines
    ensures (forall i :: 0 <= i < |lines| ==> lines[i].ts <= target) ==> UpTo(lines, target) == lines
  {
    if lines != [] && lines[0].ts <= target {
      UpToIsPrefix(lines[1..], target);
      assert lines == [lines[0]] + lines[1..];
    }
  }

  lemma {:induction false} UpToPastEarly(early: seq<Entry>, lines: seq<Entry>, target: Time)
    requires forall i :: 0 <= i < |early| ==> early[i].ts <= target
    ensures UpTo(early + lines, target) == early + UpTo(lines, target)
  {
    if early == [] {
      assert early + lines == lines;
    } else {
      UpToPastEarly(early[1..], lines, target);
      assert (early + lines)[1..] == early[1..] + lines;
    }
  }

  /** Only the file of the target's own second can hold a line later than the target. */
  lemma EarlierFilesAreEarly(files: Files, s: nat, target: Time)
    requires Filed(files) && s in files && s < SecondOf(target)
    ensures forall i :: 0 <= i < |files[s]| ==> files[s][i].ts <= target
  {
    forall i | 0 <= i < |files[s]| ensures files[s][i].ts <= target {
      assert SecondOf(files[s][i].ts) == s;
    }
  }

  /** The early return of restore and the breaks of preview and branch creation make no difference, for
      any log the worker wrote, in whatever order its clock ran. */
  lemma {:induction false} CopiesAgree(files: Files, seconds: seq<nat>, target: Time)
    requires Filed(files)
    requires forall i, j :: 0 <= i < j < |seconds| ==> seconds[i] < seconds[j]
    requires forall s :: s in seconds ==> s in files && s * SECOND <= target
    ensures RestoreReplay(files, seconds, target) == UpTo(Lines(files, seconds), target)
    ensures PreviewReplay(files, seconds, target) == UpTo(Lines(files, seconds), target)
    ensures BranchReplay(files, seconds, target) == UpTo(Lines(files, seconds), target)
  {
    hide Queries, UpTo;
    LinesAreQueries(files, seconds);
    UpToIsPrefix(Lines(files, seconds), target);
    QueriesKeepAll(UpTo(Lines(files, seconds), target));
    if seconds == [] {
      NothingUpTo(target);
    } else {
      var file, rest := files[seconds[0]], Lines(files, seconds[1..]);
      assert seconds[0] in seconds;
      assert forall s :: s in seconds[1..] ==> s in seconds;
      CopiesAgree(files, seconds[1..], target);
      UpToIsPrefix(file, target);
      QueriesKeepAll(file);
      QueriesKeepAll(UpTo(file, target));
      if |seconds| == 1 {
        assert seconds[1..] == [] && file + [] == file;
        NothingUpTo(target);
      } else {
        assert seconds[1] in seconds && seconds[0] < seconds[1];
        EarlierFilesAreEarly(files, seconds[0], target);
        UpToPastEarly(file, rest, target);
      }
    }
  }

  // ---------- where the copies part ----------

  /** Line `j` holds a query, and the queries up to there are in time. */
  ghost predicate InTime(file: seq<Entry>, target: Time, j: nat) {
    j < |file| && file[j].query != "" && forall k :: 0 <= k <= j && file[k].query != "" ==> file[k].ts <= target
  }

  ghost predicate SomeInTime(file: seq<Entry>, target: Time) {
    exists j: nat :: InTime(file, target, j)
  }

  /** A late line without a query comes before a query that is in time. */
  ghost predicate SomePassed(file: seq<Entry>, target: Time) {
    exists i: nat, j: nat :: i < j < |file| && InTime(file, target, j) && file[i].ts > target
  }

  lemma InTimeBehind(file: seq<Entry>, target: Time, j: nat)
    requires file != [] && InTime(file, target, j) && j > 0
    ensures InTime(file[1..], target, j - 1)
  {
    assert forall k :: 0 <= k < |file[1..]| ==> file[1..][k] == file[k + 1];
  }

  lemma InTimeFurther(file: seq<Entry>, target: Time, j: nat)
    requires file != [] && InTime(file[1..], target, j) && (file[0].query == "" || file[0].ts <= target)
    ensures InTime(file, target, j + 1)
  {
    assert forall k :: 0 < k < |file| ==> file[k] == file[1..][k - 1];
  }

  lemma InTimeCons(file: seq<Entry>, target: Time)
    requires file != []
    ensures SomeInTime(file, target) <==> if file[0].query == "" then SomeInTime(file[1..], target) else file[0].ts <= target
  {
    hide InTime;
    if SomeInTime(file, target) {
      var j: nat :| InTime(file, target, j);
      FirstInTime(file, target, j);
      if j > 0 {
        InTimeBehind(file, target, j);
      }
    }
    if file[0].query == "" && SomeInTime(file[1..], target) {
      var j: nat :| InTime(file[1..], target, j);
      InTimeFurther(file, target, j);
    }
    if file[0].query != "" && file[0].ts <= target {
      FirstInTime(file, target, 0);
    }
  }

  lemma FirstInTime(file: seq<Entry>, target: Time, j: nat)
    requires file != []
    ensures InTime(file, target, j) ==> (file[0].query == "" || file[0].ts <= target) && (j == 0 ==> file[0].query != "")
    ensures file[0].query != "" && file[0].ts <= target ==> InTime(file, target, 0)
  {
  }

  lemma {:induction false} InTimeIsReplayed(file: seq<Entry>, target: Time)
    ensures UpTo(Queries(file), target) != [] <==> SomeInTime(file, target)
  {
    hide SomeInTime;
    if file == [] {
      NothingInTime(target);
    } else {
      InTimeIsReplayed(file[1..], target);
      InTimeCons(file, target);
      QueriesCons(file, target);
    }
  }

  lemma NothingInTime(target: Time)
    ensures !SomeInTime([], target) && !SomePassed([], target)
  {
  }

  lemma QueriesCons(file: seq<Entry>, target: Time)
    requires file != []
    ensures file[0].query == "" ==> Queries(file) == Queries(file[1..])
    ensures file[0].query != "" ==> UpTo(Queries(file), target) == if file[0].ts > target then [] else [file[0]] + UpTo(Queries(file[1..]), target)
  {
    assert ([file[0]] + Queries(file[1..]))[1..] == Queries(file[1..]);
  }

  lemma PassedCons(file: seq<Entry>, target: Time)
    requires file != []
    ensures SomePassed(file, target) <==>
      if file[0].ts <= target then SomePassed(file[1..], target) else file[0].query == "" && SomeInTime(file[1..], target)
  {
    hide InTime;
    if i: nat, j: nat :| i < j < |file| && InTime(file, target, j) && file[i].ts > target {
      FirstInTime(file, target, j);
      InTimeBehind(file, target, j);
      assert i > 0 ==> file[1..][i - 1].ts > target;
    }
    if file[0].ts <= target {
      if i: nat, j: nat :| i < j < |file[1..]| && InTime(file[1..], target, j) && file[1..][i].ts > target {
        InTimeFurther(file, target, j);
        assert file[i + 1].ts > target;
      }
    } else if file[0].query == "" && SomeInTime(file[1..], target) {
      var j: nat :| InTime(file[1..], target, j);
      InTimeFurther(file, target, j);
      assert 0 < j + 1 && file[0].ts > target;
    }
  }

  /** Preview and branch creation replay the same of a file exactly when no late line without a query comes before a
      query that is in time. The worker writes no line without a query. */
  lemma {:induction false} FileCopiesAgree(file: seq<Entry>, target: Time)
    ensures Queries(UpTo(file, target)) == UpTo(Queries(file), target) <==> !SomePassed(file, target)
  {
    hide SomePassed, SomeInTime;
    if file == [] {
      NothingInTime(target);
    } else {
      var rest := file[1..];
      PassedCons(file, target);
      QueriesCons(file, target);
      if file[0].ts > target {
        InTimeIsReplayed(rest, target);
        assert Queries(UpTo(file, target)) == [];
      } else {
        FileCopiesAgree(rest, target);
        UpToCons(file, target);
        ConsCancels(file[0], Queries(UpTo(rest, target)), UpTo(Queries(rest), target));
      }
    }
  }

  lemma UpToCons(file: seq<Entry>, target: Time)
    requires file != [] && file[0].ts <= target
    ensures Queries(UpTo(file, target)) == (if file[0].query == "" then [] else [file[0]]) + Queries(UpTo(file[1..], target))
  {
    assert ([file[0]] + UpTo(file[1..], target))[1..] == UpTo(file[1..], target);
  }

  lemma ConsCancels(e: Entry, a: seq<Entry>, b: seq<Entry>)
    ensures [e] + a == [e] + b <==> a == b
  {
    assert ([e] + a)[1..] == a && ([e] + b)[1..] == b;
  }

  lemma NothingUpTo(target: Time)
    ensures UpTo([], target) == []
  {
  }

  lemma {:induction false} LinesAreQueries(files: Files, seconds: seq<nat>)
    requires Filed(files) && forall s :: s in seconds ==> s in files
    ensures AllQueries(Lines(files, seconds))
  {
    if seconds != [] {
      assert seconds[0] in seconds;
      LinesAreQueries(files, seconds[1..]);
    }
  }

  // ---------- replay against history ----------

  lemma {:induction false} FileIsItsSecond(h: seq<Entry>, s: nat)
    ensures FileAt(LogFiles(h), s) == Seconds(h, s, s + 1)
  {
    if h != [] {
      FileIsItsSecond(h[..|h| - 1], s);
    }
  }

  lemma {:induction false} SecondsSplit(h: seq<Entry>, a: nat, b: nat, c: nat)
    requires Ordered(h) && a <= b <= c
    ensures Seconds(h, a, c) == Seconds(h, a, b) + Seconds(h, b, c)
  {
    if h != [] {
      var n := |h| - 1;
      SecondsSplit(h[..n], a, b, c);
      if SecondOf(h[n].ts) < b {
        NoneLater(h[..n], b, c);
        assert Seconds(h[..n], b, c) == Seconds(h, b, c) == [];
      } else {
        var front := Seconds(h[..n], a, b);
        assert Seconds(h, a, b) == front + [] == front;
      }
    }
  }

  lemma {:induction false} NoneLater(h: seq<Entry>, b: nat, c: nat)
    requires forall i :: 0 <= i < |h| ==> SecondOf(h[i].ts) < b
    ensures Seconds(h, b, c) == []
  {
    if h != [] {
      NoneLater(h[..|h| - 1], b, c);
    }
  }

  lemma {:induction false} LinesAppend(files: Files, a: seq<nat>, s: nat)
    ensures Lines(files, a + [s]) == Lines(files, a) + FileAt(files, s)
  {
    hide FileAt;
    if a == [] {
      assert a + [s] == [s] && [s][1..] == [];
      assert FileAt(files, s) + Lines(files, []) == FileAt(files, s);
    } else {
      LinesAppend(files, a[1..], s);
      assert (a + [s])[1..] == a[1..] + [s];
    }
  }

  lemma {:induction false} EmptySecond(h: seq<Entry>, s: nat)
    requires s !in LogFiles(h)
    ensures Seconds(h, s, s + 1) == []
  {
    FileIsItsSecond(h, s);
  }

  /** Concatenating the selected files in order gives the history of those seconds. */
  lemma {:induction false} LinesAreHistory(h: seq<Entry>, seconds: seq<nat>, lo: nat, hi: nat)
    requires Ordered(h) && lo <= hi
    requires forall i, j :: 0 <= i < j < |seconds| ==> seconds[i] < seconds[j]
    requires forall s :: s in seconds <==> s in LogFiles(h) && lo <= s < hi
    ensures Lines(LogFiles(h), seconds) == Seconds(h, lo, hi)
    decreases hi - lo
  {
    hide LogFiles, FileAt;
    if lo == hi {
      if seconds != [] {
        HasMember(seconds);
      }
      SecondsEmpty(h, lo);
    } else {
      var s, n := hi - 1, |seconds|;
      SecondsSplit(h, lo, s, hi);
      if s in LogFiles(h) {
        assert s in seconds;
        var i :| 0 <= i < n && seconds[i] == s;
        assert seconds[n - 1] in seconds && i == n - 1;
        WithoutLast(seconds);
        LinesAreHistory(h, seconds[..n - 1], lo, s);
        LinesAppend(LogFiles(h), seconds[..n - 1], s);
        assert seconds == seconds[..n - 1] + [s];
        FileIsItsSecond(h, s);
      } else {
        EmptySecond(h, s);
        LinesAreHistory(h, seconds, lo, s);
      }
    }
  }

  lemma HasMember(seconds: seq<nat>)
    requires seconds != []
    ensures exists s :: s in seconds
  {
    assert seconds[0] in seconds;
  }

  lemma WithoutLast(seconds: seq<nat>)
    requires seconds != [] && forall i, j :: 0 <= i < j < |seconds| ==> seconds[i] < seconds[j]
    ensures var n := |seconds| - 1; forall x: nat :: x in seconds[..n] <==> x in seconds && x != seconds[n]
  {
    var n := |seconds| - 1;
    forall x: nat ensures x in seconds[..n] <==> x in seconds && x != seconds[n] {
      if x in seconds && x != seconds[n] {
        var k :| 0 <= k < |seconds| && seconds[k] == x;
        assert seconds[..n][k] == x;
      }
    }
  }

  lemma {:induction false} SecondsEmpty(h: seq<Entry>, a: nat)
    ensures Seconds(h, a, a) == []
  {
    if h != [] {
      SecondsEmpty(h[..|h| - 1], a);
    }
  }

  /** Stopping at the first late line keeps exactly the lines in time, when lines are in order. */
  lemma {:induction false} UpToIsAsOf(h: seq<Entry>, target: Time)
    requires Ordered(h)
    ensures UpTo(h, target) == AsOf(h, target)
  {
    if h != [] {
      var n := |h| - 1;
      UpToIsAsOf(h[..n], target);
      assert h == h[..n] + [h[n]];
      if h[n].ts <= target {
        UpToIsPrefix(h, target);
        UpToIsPrefix(h[..n], target);
      } else {
        UpToDropsLate(h[..n], h[n], target);
      }
    }
  }

  lemma {:induction false} UpToDropsLate(lines: seq<Entry>, late: Entry, target: Time)
    requires late.ts > target
    ensures UpTo(lines + [late], target) == UpTo(lines, target)
  {
    if lines == [] {
      assert lines + [late] == [late];
    } else {
      UpToDropsLate(lines[1..], late, target);
      assert (lines + [late])[1..] == lines[1..] + [late];
    }
  }

  // ---------- the recovered state ----------

  /** The first whole second at or after a time. */
  function CeilSecond(t: Time): nat {
    (t + SECOND - 1) / SECOND
  }

  /** The snapshot holds exactly the first `covers` mutations, and these are the ones logged before it. */
  predicate TakenFrom(s: Snapshot, h: seq<Entry>) {
    && s.covers <= |h|
    && (forall i :: 0 <= i < s.covers ==> h[i].ts <= s.created)
    && (forall i :: s.covers <= i < |h| ==> s.created <= h[i].ts)
  }

  /** Mutations after the snapshot that are logged in the file of its own, already begun second. */
  predicate Skips(s: Snapshot, h: seq<Entry>, target: Time)
    requires s.covers <= |h|
  {
    s.created % SECOND != 0 && exists i :: s.covers <= i < |h| && h[i].ts <= target && SecondOf(h[i].ts) == SecondOf(s.created)
  }

  /** A snapshot taken on a whole second that already holds a mutation logged at that very instant. */
  predicate Repeats(s: Snapshot, h: seq<Entry>)
    requires s.covers <= |h|
  {
    s.created % SECOND == 0 && exists i :: 0 <= i < s.covers && h[i].ts == s.created
  }

  /** What replay selects from a stretch of history: from second `lo` on, up to the target. */
  function Window(h: seq<Entry>, lo: nat, target: Time): seq<Entry> {
    AsOf(Seconds(h, lo, SecondOf(target) + 1), target)
  }

  lemma {:induction false} AsOfAppend(a: seq<Entry>, b: seq<Entry>, target: Time)
    ensures AsOf(a + b, target) == AsOf(a, target) + AsOf(b, target)
    decreases |b|
  {
    if b == [] {
      assert a + b == a;
    } else {
      AsOfAppend(a, b[..|b| - 1], target);
      assert (a + b)[..|a + b| - 1] == a + b[..|b| - 1];
    }
  }

  lemma {:induction false} SecondsAppend(a: seq<Entry>, b: seq<Entry>, lo: nat, hi: nat)
    ensures Seconds(a + b, lo, hi) == Seconds(a, lo, hi) + Seconds(b, lo, hi)
    decreases |b|
  {
    if b == [] {
      assert a + b == a;
    } else {
      SecondsAppend(a, b[..|b| - 1], lo, hi);
      assert (a + b)[..|a + b| - 1] == a + b[..|b| - 1];
    }
  }

  lemma WindowAppend(a: seq<Entry>, b: seq<Entry>, lo: nat, target: Time)
    ensures Window(a + b, lo, target) == Window(a, lo, target) + Window(b, lo, target)
  {
    SecondsAppend(a, b, lo, SecondOf(target) + 1);
    AsOfAppend(Seconds(a, lo, SecondOf(target) + 1), Seconds(b, lo, SecondOf(target) + 1), target);
  }

  lemma SecondsOne(e: Entry, lo: nat, hi: nat)
    ensures Seconds([e], lo, hi) == if lo <= SecondOf(e.ts) < hi then [e] else []
  {
    hide SecondOf;
    var one: seq<Entry> := [e];
    assert one[..0] == [];
    assert Seconds(one[..0], lo, hi) == [];
  }

  lemma AsOfOne(e: Entry, target: Time)
    ensures AsOf([e], target) == if e.ts <= target then [e] else []
    ensures AsOf([], target) == []
  {
    var one: seq<Entry> := [e];
    assert one[..0] == [];
  }

  lemma WindowOne(e: Entry, lo: nat, target: Time)
    ensures Window([e], lo, target) == if lo <= SecondOf(e.ts) && e.ts <= target then [e] else []
    ensures AsOf([e], target) == if e.ts <= target then [e] else []
  {
    hide Seconds, AsOf, SecondOf;
    SecondsOne(e, lo, SecondOf(target) + 1);
    AsOfOne(e, target);
    SecondMonotone(e.ts, target);
  }

  lemma SecondMonotone(a: Time, b: Time)
    ensures a <= b ==> SecondOf(a) <= SecondOf(b)
  {
  }

  /** How much replay selects, compared with everything up to the target. */
  lemma {:induction false} WindowSize(h: seq<Entry>, lo: nat, target: Time)
    ensures |Window(h, lo, target)| <= |AsOf(h, target)|
    ensures |Window(h, lo, target)| == |AsOf(h, target)| ==> Window(h, lo, target) == AsOf(h, target)
    ensures |Window(h, lo, target)| == |AsOf(h, target)| <==>
      forall i :: 0 <= i < |h| && h[i].ts <= target ==> lo <= SecondOf(h[i].ts)
    ensures Window(h, lo, target) == [] <==> forall i :: 0 <= i < |h| && h[i].ts <= target ==> SecondOf(h[i].ts) < lo
  {
    hide Window, AsOf;
    if h == [] {
      NoWindow(lo, target);
    } else {
      var n := |h| - 1;
      WindowSize(h[..n], lo, target);
      assert h == h[..n] + [h[n]];
      WindowAppend(h[..n], [h[n]], lo, target);
      AsOfAppend(h[..n], [h[n]], target);
      WindowOne(h[n], lo, target);
    }
  }

  lemma NoWindow(lo: nat, target: Time)
    ensures Window([], lo, target) == [] && AsOf([], target) == []
  {
  }

  lemma {:induction false} AsOfKeepsAll(h: seq<Entry>, target: Time)
    requires forall i :: 0 <= i < |h| ==> h[i].ts <= target
    ensures AsOf(h, target) == h
  {
    if h != [] {
      var n := |h| - 1;
      AsOfKeepsAll(h[..n], target);
      assert h[n].ts <= target && h == h[..n] + [h[n]];
    }
  }

  lemma {:induction false} SecondsOrdered(h: seq<Entry>, a: nat, b: nat)
    requires Ordered(h)
    ensures Ordered(Seconds(h, a, b))
    ensures forall i :: 0 <= i < |Seconds(h, a, b)| ==> Seconds(h, a, b)[i] in h
  {
    if h != [] {
      SecondsOrdered(h[..|h| - 1], a, b);
      var front := Seconds(h[..|h| - 1], a, b);
      forall i | 0 <= i < |front| ensures front[i].ts <= h[|h| - 1].ts {
        assert front[i] in h[..|h| - 1];
      }
    }
  }

  /** All three copies replay the window from the snapshot's next whole second to the target. */
  lemma ReplayIsWindow(h: seq<Entry>, seconds: seq<nat>, from: Time, target: Time)
    requires Ordered(h) && AllQueries(h) && from <= target && IsSelection(seconds, LogFiles(h), from, target)
    ensures RestoreReplay(LogFiles(h), seconds, target) == Window(h, CeilSecond(from), target)
    ensures PreviewReplay(LogFiles(h), seconds, target) == Window(h, CeilSecond(from), target)
    ensures BranchReplay(LogFiles(h), seconds, target) == Window(h, CeilSecond(from), target)
  {
    hide LogFiles, Lines, UpTo, Seconds, AsOf, RestoreReplay, PreviewReplay, BranchReplay;
    var lo, hi := CeilSecond(from), SecondOf(target) + 1;
    LogIsFiled(h);
    CopiesAgree(LogFiles(h), seconds, target);
    forall s: nat ensures (from <= s * SECOND <= target) <==> (lo <= s < hi) {
      SecondBounds(s, from, target);
    }
    if lo <= hi {
      LinesAreHistory(h, seconds, lo, hi);
    }
    SecondsOrdered(h, lo, hi);
    UpToIsAsOf(Seconds(h, lo, hi), target);
  }

  lemma SecondBounds(s: nat, from: Time, target: Time)
    ensures (from <= s * SECOND <= target) <==> (CeilSecond(from) <= s < SecondOf(target) + 1)
    ensures from <= target ==> CeilSecond(from) <= SecondOf(target) + 1
  {
  }

  /** Replaying onto the snapshot gives the state as of the target. */
  ghost predicate Recovers(s: Snapshot, h: seq<Entry>, target: Time, replayed: seq<Entry>)
    requires s.covers <= |h|
  {
    h[..s.covers] + replayed == AsOf(h, target)
  }

  /** Recovery from a snapshot restores the database as of the target exactly when no mutation up to the
      target shares the snapshot's second on the wrong side: none after the snapshot is skipped, none
      before it is repeated. All three copies of the procedure do the same. */
  lemma RecoveryIsExact(h: seq<Entry>, s: Snapshot, target: Time, seconds: seq<nat>)
    requires Ordered(h) && AllQueries(h) && TakenFrom(s, h) && s.created <= target
    requires IsSelection(seconds, LogFiles(h), s.created, target)
    ensures Recovers(s, h, target, RestoreReplay(LogFiles(h), seconds, target)) <==> !Skips(s, h, target) && !Repeats(s, h)
    ensures RestoreReplay(LogFiles(h), seconds, target) == PreviewReplay(LogFiles(h), seconds, target)
    ensures RestoreReplay(LogFiles(h), seconds, target) == BranchReplay(LogFiles(h), seconds, target)
  {
    hide LogFiles, RestoreReplay, PreviewReplay, BranchReplay, AsOf, Window, Ordered, AllQueries, TakenFrom, Skips, Repeats, IsSelection;
    ReplayIsWindow(h, seconds, s.created, target);
    WindowRecovers(h, s, target);
  }

  /** The window before the snapshot is empty exactly when nothing is repeated; the one behind it holds
      everything up to the target exactly when nothing is skipped. */
  lemma WindowSides(h: seq<Entry>, s: Snapshot, target: Time)
    requires TakenFrom(s, h) && s.created <= target
    ensures var k, lo := s.covers, CeilSecond(s.created);
            && (Window(h[..k], lo, target) == [] <==> !Repeats(s, h))
            && |Window(h[k..], lo, target)| <= |AsOf(h[k..], target)|
            && (Window(h[k..], lo, target) == AsOf(h[k..], target) <==> !Skips(s, h, target))
            && (|Window(h[k..], lo, target)| == |AsOf(h[k..], target)| <==> !Skips(s, h, target))
            && (Repeats(s, h) ==> !Skips(s, h, target))
  {
    hide AsOf, Window, Skips, Repeats;
    var k, lo := s.covers, CeilSecond(s.created);
    WindowSize(h[..k], lo, target);
    WindowSize(h[k..], lo, target);
    SnapshotSecond(h, s, target);
    assert forall i :: k <= i < |h| ==> h[i] == h[k..][i - k];
  }

  lemma WindowRecovers(h: seq<Entry>, s: Snapshot, target: Time)
    requires TakenFrom(s, h) && s.created <= target
    ensures Recovers(s, h, target, Window(h, CeilSecond(s.created), target)) <==> !Skips(s, h, target) && !Repeats(s, h)
  {
    hide AsOf, Window, Skips, Repeats;
    var k, lo := s.covers, CeilSecond(s.created);
    WindowSides(h, s, target);
    assert h == h[..k] + h[k..];
    WindowAppend(h[..k], h[k..], lo, target);
    AsOfAppend(h[..k], h[k..], target);
    AsOfKeepsAll(h[..k], target);
    SameBehind(h[..k], Window(h[..k], lo, target), Window(h[k..], lo, target), AsOf(h[k..], target));
  }

  lemma SameBehind(p: seq<Entry>, a: seq<Entry>, b: seq<Entry>, r: seq<Entry>)
    requires |b| <= |r| && (a != [] ==> |b| == |r|)
    ensures p + (a + b) == p + r <==> a == [] && b == r
  {
    if p + (a + b) == p + r {
      assert a + b == (p + (a + b))[|p|..] && r == (p + r)[|p|..];
      assert |a| + |b| == |r|;
      assert a == [] && a + b == b;
    }
    if a == [] && b == r {
      assert a + b == b;
    }
  }

  /** Which side of the snapshot can have replay trouble depends on whether its time is a whole second. */
  lemma SnapshotSecond(h: seq<Entry>, s: Snapshot, target: Time)
    requires TakenFrom(s, h) && s.created <= target
    ensures var k, lo := s.covers, CeilSecond(s.created);
            && ((forall i :: 0 <= i < k && h[i].ts <= target ==> SecondOf(h[i].ts) < lo) <==> !Repeats(s, h))
            && ((forall i :: k <= i < |h| && h[i].ts <= target ==> lo <= SecondOf(h[i].ts)) <==> !Skips(s, h, target))
            && (Repeats(s, h) ==> !Skips(s, h, target))
  {
    var k, lo := s.covers, CeilSecond(s.created);
    forall i | 0 <= i < k ensures SecondOf(h[i].ts) >= lo <==> s.created % SECOND == 0 && h[i].ts == s.created {
      assert h[i].ts <= s.created;
    }
    forall i | k <= i < |h|
      ensures lo <= SecondOf(h[i].ts) <==> !(s.created % SECOND != 0 && SecondOf(h[i].ts) == SecondOf(s.created))
    {
      assert s.created <= h[i].ts;
    }
  }

  // ---------- consequences ----------

  /** With the clock running forward, the state as of a time is a prefix of the history. */
  lemma {:induction false} AsOfIsPrefix(h: seq<Entry>, target: Time)
    requires Ordered(h)
    ensures AsOf(h, target) <= h
  {
    UpToIsAsOf(h, target);
    UpToIsPrefix(h, target);
  }

  function Fold<D>(apply: (D, Entry) -> D, d: D, h: seq<Entry>): D {
    if h == [] then d else apply(Fold(apply, d, h[..|h| - 1]), h[|h| - 1])
  }

  lemma {:induction false} FoldAppend<D>(apply: (D, Entry) -> D, d: D, a: seq<Entry>, b: seq<Entry>)
    ensures Fold(apply, d, a + b) == Fold(apply, Fold(apply, d, a), b)
    decreases |b|
  {
    if b == [] {
      assert a + b == a;
    } else {
      FoldAppend(apply, d, a, b[..|b| - 1]);
      assert (a + b)[..|a + b| - 1] == a + b[..|b| - 1];
    }
  }

  /** Restoring the snapshot and replaying the log on it leaves the database that the mutations up to the target
      produce. */
  ghost predicate Restores<D>(apply: (D, Entry) -> D, empty: D, h: seq<Entry>, s: Snapshot, target: Time, seconds: seq<nat>)
    requires TakenFrom(s, h)
  {
    Fold(apply, Fold(apply, empty, h[..s.covers]), RestoreReplay(LogFiles(h), seconds, target)) == Fold(apply, empty, AsOf(h, target))
  }

  /** Whatever executing a mutation does to a database, restoring from the nearest snapshot leaves the
      database that the logged mutations up to the target produce, unless the snapshot's second is shared. */
  lemma NearestSnapshotRecovers<D>(apply: (D, Entry) -> D, empty: D, h: seq<Entry>, snapshots: seq<Snapshot>, target: Time, seconds: seq<nat>)
    requires Ordered(h) && AllQueries(h)
    requires Nearest(snapshots, target).Some? && IsSelection(seconds, LogFiles(h), Nearest(snapshots, target).value.created, target)
    requires var s := Nearest(snapshots, target).value; TakenFrom(s, h) && !Skips(s, h, target) && !Repeats(s, h)
    ensures Restores(apply, empty, h, Nearest(snapshots, target).value, target, seconds)
  {
    hide LogFiles, Nearest, RestoreReplay, PreviewReplay, BranchReplay, AsOf;
    var s := Nearest(snapshots, target).value;
    NearestIsNewest(snapshots, target);
    RecoveryIsExact(h, s, target, seconds);
    FoldAppend(apply, empty, h[..s.covers], RestoreReplay(LogFiles(h), seconds, target));
  }

  function Journal(d: seq<Entry>, e: Entry): seq<Entry> {
    d + [e]
  }

  lemma {:induction false} FoldJournal(h: seq<Entry>)
    ensures Fold(Journal, [], h) == h
  {
    if h != [] {
      FoldJournal(h[..|h| - 1]);
    }
  }

  /** Whatever executing a mutation does to a database, restoring from the nearest snapshot leaves the database
      that the logged mutations up to the target produce, exactly when no mutation shares the snapshot's second
      on the wrong side: otherwise a database that keeps a journal shows it. */
  lemma NearestSnapshotIsExact(h: seq<Entry>, snapshots: seq<Snapshot>, target: Time, seconds: seq<nat>)
    requires Ordered(h) && AllQueries(h)
    requires Nearest(snapshots, target).Some? && IsSelection(seconds, LogFiles(h), Nearest(snapshots, target).value.created, target)
    requires TakenFrom(Nearest(snapshots, target).value, h)
    ensures var s := Nearest(snapshots, target).value;
            (forall apply: (seq<Entry>, Entry) -> seq<Entry>, empty: seq<Entry> :: Restores(apply, empty, h, s, target, seconds))
            <==> !Skips(s, h, target) && !Repeats(s, h)
  {
    hide LogFiles, Nearest, RestoreReplay, AsOf, Fold, Skips, Repeats;
    var s := Nearest(snapshots, target).value;
    NearestIsNewest(snapshots, target);
    RecoveryIsExact(h, s, target, seconds);
    if !Skips(s, h, target) && !Repeats(s, h) {
      forall apply: (seq<Entry>, Entry) -> seq<Entry>, empty: seq<Entry> ensures Restores(apply, empty, h, s, target, seconds) {
        NearestSnapshotRecovers(apply, empty, h, snapshots, target, seconds);
      }
    } else {
      var replayed := RestoreReplay(LogFiles(h), seconds, target);
      FoldAppend(Journal, [], h[..s.covers], replayed);
      FoldJournal(h[..s.covers] + replayed);
      FoldJournal(AsOf(h, target));
      assert !Restores(Journal, [], h, s, target, seconds);
    }
  }

  // ---------- what is logged ----------

  predicate Blank(s: string) {
    forall i :: 0 <= i < |s| ==> IsSpace(s[i])
  }

  /** The query is blanks, a verb in any capitalisation, and a rest; SET needs a blank and something behind it. */
  predicate Mutates(query: string, before: string, verb: string, rest: string) {
    && query == before + verb + rest && Blank(before)
    && Upper(verb) in {"CREATE", "MERGE", "DELETE", "SET ", "DROP", "ALTER", "INSERT", "UPDATE"}
    && (Upper(verb) == "SET " ==> !Blank(rest))
  }

  lemma {:induction false} StartTrimmed(before: string, s: string)
    requires Blank(before) && s != [] && !IsSpace(s[0])
    ensures TrimStart(before + s) == s
  {
    if before == [] {
      assert before + s == s;
    } else {
      assert (before + s)[1..] == before[1..] + s;
      StartTrimmed(before[1..], s);
    }
  }

  lemma {:induction false} EndTrimmed(s: string, rest: string)
    requires s != [] && (!IsSpace(s[|s| - 1]) || !Blank(rest))
    ensures s <= TrimEnd(s + rest)
  {
    var all := s + rest;
    if rest != [] && IsSpace(all[|all| - 1]) {
      var n := |rest| - 1;
      assert all[..|all| - 1] == s + rest[..n];
      if !Blank(rest) {
        var i :| 0 <= i < |rest| && !IsSpace(rest[i]);
        assert i < n && rest[..n][i] == rest[i];
      }
      EndTrimmed(s, rest[..n]);
    } else if rest == [] {
      assert all == s;
    }
  }

  lemma VerbStarts(verb: string)
    requires Upper(verb) in {"CREATE", "MERGE", "DELETE", "SET ", "DROP", "ALTER", "INSERT", "UPDATE"}
    ensures verb != [] && !IsSpace(verb[0]) && (Upper(verb) != "SET " ==> !IsSpace(verb[|verb| - 1]))
  {
    var u := Upper(verb);
    assert u[0] == UpperChar(verb[0]) && u[|u| - 1] == UpperChar(verb[|verb| - 1]);
  }

  lemma UpperPrefix(s: string, t: string)
    requires s <= t
    ensures Upper(s) <= Upper(t)
  {
    assert Upper(t)[..|s|] == Upper(s);
  }

  lemma MutatorsAre(w: string)
    ensures (exists i :: 0 <= i < |Mutators()| && Mutators()[i] == w)
       <==> w in {"CREATE", "MERGE", "DELETE", "SET ", "DROP", "ALTER", "INSERT", "UPDATE"}
  {
    var ms := Mutators();
    assert ms[0] == "CREATE" && ms[1] == "MERGE" && ms[2] == "DELETE" && ms[3] == "SET ";
    assert ms[4] == "DROP" && ms[5] == "ALTER" && ms[6] == "INSERT" && ms[7] == "UPDATE";
  }

  lemma {:induction false} TrimmedStart(s: string) returns (before: string)
    ensures Blank(before) && s == before + TrimStart(s) && (TrimStart(s) != [] ==> !IsSpace(TrimStart(s)[0]))
  {
    before := "";
    if s != [] && IsSpace(s[0]) {
      var more := TrimmedStart(s[1..]);
      before := [s[0]] + more;
      assert s == [s[0]] + s[1..];
    }
  }

  lemma {:induction false} TrimmedEnd(s: string)
    ensures TrimEnd(s) <= s && (TrimEnd(s) != [] ==> !IsSpace(TrimEnd(s)[|TrimEnd(s)| - 1]))
  {
    if s != [] && IsSpace(s[|s| - 1]) {
      TrimmedEnd(s[..|s| - 1]);
    }
  }

  /** A query is logged exactly when it begins with one of eight verbs, whatever else it does. */
  lemma MutatingExactly(query: string)
    ensures IsMutating(query) <==> exists before, verb, rest :: Mutates(query, before, verb, rest)
  {
    hide Upper, TrimStart, TrimEnd, Mutators;
    if before, verb, rest :| Mutates(query, before, verb, rest) {
      VerbStarts(verb);
      assert before + verb + rest == before + (verb + rest);
      StartTrimmed(before, verb + rest);
      EndTrimmed(verb, rest);
      UpperPrefix(verb, Trim(query));
      MutatorsAre(Upper(verb));
    }
    if IsMutating(query) {
      MutatingDecomposes(query);
    }
  }

  lemma MutatingDecomposes(query: string)
    requires IsMutating(query)
    ensures exists before, verb, rest :: Mutates(query, before, verb, rest)
  {
    hide TrimStart, TrimEnd, Mutators, Blank;
    var before := TrimmedStart(query);
    var s := TrimStart(query);
    TrimmedEnd(s);
    var q := TrimEnd(s);
    var i :| 0 <= i < |Mutators()| && Mutators()[i] <= Upper(q);
    var w := Mutators()[i];
    MutatorsAre(w);
    var verb, rest := q[..|w|], s[|w|..];
    assert Upper(verb) == w by { assert Upper(q)[..|w|] == w; }
    assert query == before + verb + rest;
    if w == "SET " {
      SetHasMore(q, s);
    }
    assert Mutates(query, before, verb, rest);
  }

  lemma SetHasMore(q: string, s: string)
    requires q <= s && |q| >= 4 && !IsSpace(q[|q| - 1]) && Upper(q[..4]) == "SET "
    ensures !Blank(s[4..])
  {
    assert Upper(q[..4])[3] == UpperChar(q[3]);
    assert s[4..][|q| - 5] == q[|q| - 1];
  }

  /** So whatever is logged is a query. */
  lemma LoggedIsQuery(query: string)
    requires IsMutating(query)
    ensures query != ""
  {
    hide IsMutating;
    MutatingExactly(query);
    var before, verb, rest :| Mutates(query, before, verb, rest);
    VerbStarts(verb);
  }

  /** Replay passes over lines without a query, and over nothing else. */
  lemma {:induction false} QueriesAre(lines: seq<Entry>, e: Entry)
    ensures multiset(Queries(lines))[e] == if e.query == "" then 0 else multiset(lines)[e]
  {
    if lines != [] {
      QueriesAre(lines[1..], e);
      assert lines == [lines[0]] + lines[1..];
      assert lines[0].query == "" ==> Queries(lines) == Queries(lines[1..]);
      assert lines[0].query != "" ==> multiset(Queries(lines)) == multiset{lines[0]} + multiset(Queries(lines[1..]));
    }
  }

  /** Only the first word counts: a query that begins with MATCH is never logged, whatever it changes. */
  lemma MatchIsNeverLogged(query: string)
    requires "MATCH" <= Upper(Trim(query))
    ensures !IsMutating(query)
  {
    var q := Upper(Trim(query));
    assert q[0] == 'M' && q[1] == 'A';
    forall i | 0 <= i < |Mutators()| ensures !(Mutators()[i] <= q) {
      assert Mutators()[i][0] != 'M' || Mutators()[i][1] != 'A';
    }
  }
}
