/** Concurrent commits as the code opens segments, by name, safe or not: every interleaving leaves a branch as
    committing its batches one after the other in lock order does, with the batches that this loses. */
module CommitOrder {
  import opened Prelude
  import opened NameOrder
  import opened Wal
  import opened WalWriter
  import opened WalDirectory
  import opened CommitProtocol

  /** `s` can be reached by `steps`, whatever the openings do. */
  ghost predicate Runs(steps: seq<Step>, s: State, max: nat)
    decreases |steps|
  {
    if steps == [] then s == Initial
    else
      var last := steps[|steps| - 1];
      exists before :: Runs(steps[..|steps| - 1], before, max) && Enabled(before, last) && s == Do(before, last, true, max)
  }

  predicate Free(s: State, b: Branch) {
    b !in s.locks || s.locks[b] !in s.holders
  }

  /** A batch written as far as `done` behind earlier ones: the segments and the one being written. */
  function Partly(before: Segments, batch: Batch, done: nat, max: nat): (w: (Segments, nat))
    requires done <= |batch|
    ensures w.1 < |w.0|
  {
    AppendBatch(before, batch[..done], max)
  }

  /** A free branch holds its granted batches committed one by one; a held one all but the last, and the last
      as far as it is written. */
  ghost predicate InOrder(s: State, b: Branch, max: nat) {
    var dir, granted := DirOf(s, b), GrantedOf(s, b);
    if !Free(s, b) && s.holders[s.locks[b]] in s.threads then
      var p := s.threads[s.holders[s.locks[b]]];
      Holding(p) && granted != [] && granted[|granted| - 1] == p.batch
      && (var before := CommitAll(granted[..|granted| - 1], max);
          if p.Locked? then dir == before
          else p.done <= |p.batch| && Partly(before, p.batch, p.done, max) == (dir, p.current))
    else dir == CommitAll(granted, max)
  }

  ghost predicate Inv(s: State, max: nat) {
    LocksAgree(s) && forall b :: InOrder(s, b, max)
  }

  lemma OthersInOrder(s: State, step: Step, max: nat, b: Branch)
    requires LocksAgree(s) && Enabled(s, step) && InOrder(s, b, max)
    requires step.Call? || step.GetLock? || PhaseOf(s, step.t).branch != b
    ensures InOrder(Do(s, step, true, max), b, max)
  {
    hide Do, Enabled, CommitAll, DirOf, GrantedOf, Partly;
    OtherDirs(s, step, true, max, b);
    OtherHolders(s, step, true, max, b);
    HolderIsSame(s, Do(s, step, true, max), b);
  }

  lemma AcquireInOrder(s: State, step: Step, max: nat)
    requires LocksAgree(s) && Enabled(s, step) && step.Acquire? && InOrder(s, PhaseOf(s, step.t).branch, max)
    ensures InOrder(Do(s, step, true, max), PhaseOf(s, step.t).branch, max)
  {
    hide CommitAll, Partly;
    var b, s' := PhaseOf(s, step.t).branch, Do(s, step, true, max);
    assert ThreadAgrees(s, step.t);
    assert GrantedOf(s', b)[..|GrantedOf(s', b)| - 1] == GrantedOf(s, b);
  }

  lemma OpenInOrder(s: State, step: Step, max: nat)
    requires LocksAgree(s) && Enabled(s, step) && step.Open? && InOrder(s, PhaseOf(s, step.t).branch, max)
    ensures InOrder(Do(s, step, true, max), PhaseOf(s, step.t).branch, max)
  {
    hide CommitAll, OpenSegment, OpenNumber;
    var p := PhaseOf(s, step.t);
    assert ThreadAgrees(s, step.t);
    assert p.batch[..0] == [];
  }

  lemma PartlyMore(before: Segments, batch: Batch, done: nat, max: nat)
    requires done < |batch|
    ensures var w := Partly(before, batch, done, max);
            Partly(before, batch, done + 1, max) == WriteSegment(w.0, w.1, batch[done], max)
  {
    hide WriteSegment, OpenSegment, OpenNumber;
    assert batch[..done + 1][..done] == batch[..done];
  }

  lemma WriteInOrder(s: State, step: Step, max: nat)
    requires LocksAgree(s) && Enabled(s, step) && step.Write? && InOrder(s, PhaseOf(s, step.t).branch, max)
    ensures InOrder(Do(s, step, true, max), PhaseOf(s, step.t).branch, max)
  {
    hide CommitAll, Partly, WriteSegment;
    var p := PhaseOf(s, step.t);
    assert ThreadAgrees(s, step.t);
    var granted := GrantedOf(s, p.branch);
    PartlyMore(CommitAll(granted[..|granted| - 1], max), p.batch, p.done, max);
  }

  lemma FinishInOrder(s: State, step: Step, max: nat)
    requires LocksAgree(s) && Enabled(s, step) && step.Finish? && InOrder(s, PhaseOf(s, step.t).branch, max)
    ensures InOrder(Do(s, step, true, max), PhaseOf(s, step.t).branch, max)
  {
    hide AppendBatch;
    var p := PhaseOf(s, step.t);
    assert ThreadAgrees(s, step.t);
    assert p.batch[..p.done] == p.batch;
  }

  lemma StepKeepsOrder(s: State, step: Step, max: nat)
    requires Inv(s, max) && Enabled(s, step)
    ensures Inv(Do(s, step, true, max), max)
  {
    hide LocksAgree, InOrder, Do;
    StepKeepsLocks(s, step, true, max);
    forall b ensures InOrder(Do(s, step, true, max), b, max) {
      assert InOrder(s, b, max);
      if step.Call? || step.GetLock? || PhaseOf(s, step.t).branch != b {
        OthersInOrder(s, step, max, b);
      } else {
        match step {
          case Acquire(_) => AcquireInOrder(s, step, max);
          case Open(_) => OpenInOrder(s, step, max);
          case Write(_) => WriteInOrder(s, step, max);
          case Finish(_) => FinishInOrder(s, step, max);
        }
      }
    }
  }

  lemma {:induction false} RunsKeepOrder(steps: seq<Step>, s: State, max: nat)
    requires Runs(steps, s, max)
    ensures Inv(s, max)
    decreases |steps|
  {
    hide Do, Enabled;
    if steps == [] {
      InitialOrder(max);
    } else {
      var last := steps[|steps| - 1];
      var before :| Runs(steps[..|steps| - 1], before, max) && Enabled(before, last) && s == Do(before, last, true, max);
      RunsKeepOrder(steps[..|steps| - 1], before, max);
      StepKeepsOrder(before, last, max);
    }
  }

  lemma InitialOrder(max: nat)
    ensures Inv(Initial, max)
  {
    forall b ensures InOrder(Initial, b, max) {
      assert DirOf(Initial, b) == [] && GrantedOf(Initial, b) == [];
    }
  }

  // ---------- the theorems ----------

  /** In every interleaving, a branch whose lock is free holds exactly what committing its batches one after
      the other, in the order their threads took the lock, leaves. */
  lemma CommitsAreSequential(steps: seq<Step>, s: State, max: nat, b: Branch)
    requires Runs(steps, s, max) && Free(s, b)
    ensures DirOf(s, b) == CommitAll(GrantedOf(s, b), max)
  {
    hide Runs, CommitAll;
    RunsKeepOrder(steps, s, max);
    assert InOrder(s, b, max);
  }

  /** So in every interleaving of commits that fit in a segment, the first ten batches and the latest one are
      all that a free branch holds. */
  lemma BatchesAreLost(steps: seq<Step>, s: State, max: nat, b: Branch)
    requires Runs(steps, s, max) && Free(s, b) && Small(GrantedOf(s, b), max)
    ensures var granted := GrantedOf(s, b);
            DirOf(s, b) == if |granted| <= 11 then granted else granted[..10] + [granted[|granted| - 1]]
  {
    hide Runs, CommitAll, Small;
    CommitsAreSequential(steps, s, max, b);
    CommitsAreLost(GrantedOf(s, b), max);
  }

  // ---------- such runs exist ----------

  lemma RunMore(steps: seq<Step>, s: State, step: Step, max: nat)
    requires Runs(steps, s, max) && Enabled(s, step)
    ensures Runs(steps + [step], Do(s, step, true, max), max)
  {
    hide Do, Enabled;
    var more := steps + [step];
    assert more[..|more| - 1] == steps && more[|more| - 1] == step;
    assert Runs(more[..|more| - 1], s, max) && Enabled(s, step) && Do(s, step, true, max) == Do(s, step, true, max);
  }

  /** Thread 0 is idle and nobody works on the branch. */
  ghost predicate Quiet(s: State, b: Branch) {
    PhaseOf(s, 0).Idle? && Free(s, b)
  }

  lemma BeginCommit(steps: seq<Step>, s: State, max: nat, b: Branch, batch: Batch) returns (more: seq<Step>, s': State)
    requires Runs(steps, s, max) && Quiet(s, b)
    ensures Runs(more, s', max) && PhaseOf(s', 0).Writing? && PhaseOf(s', 0).branch == b && PhaseOf(s', 0).batch == batch
    ensures PhaseOf(s', 0).done == 0 && GrantedOf(s', b) == GrantedOf(s, b) + [batch]
  {
    hide Runs, OpenSegment, NextSegment;
    RunMore(steps, s, Call(0, b, batch), max);
    var s1 := Do(s, Call(0, b, batch), true, max);
    RunMore(steps + [Call(0, b, batch)], s1, GetLock(0), max);
    var s2 := Do(s1, GetLock(0), true, max);
    FreshLockIsFree(steps, s, max, b, batch);
    RunMore(steps + [Call(0, b, batch)] + [GetLock(0)], s2, Acquire(0), max);
    var s3 := Do(s2, Acquire(0), true, max);
    RunMore(steps + [Call(0, b, batch)] + [GetLock(0)] + [Acquire(0)], s3, Open(0), max);
    s' := Do(s3, Open(0), true, max);
    more := steps + [Call(0, b, batch)] + [GetLock(0)] + [Acquire(0)] + [Open(0)];
  }

  lemma FreshLockIsFree(steps: seq<Step>, s: State, max: nat, b: Branch, batch: Batch)
    requires Runs(steps, s, max) && Quiet(s, b)
    ensures var s2 := Do(Do(s, Call(0, b, batch), true, max), GetLock(0), true, max);
            PhaseOf(s2, 0).Ready? && PhaseOf(s2, 0).lock !in s2.holders
  {
    hide Runs;
    RunsKeepOrder(steps, s, max);
    forall l | l in s.holders ensures l < s.nextLock {
      assert ThreadAgrees(s, s.holders[l]);
    }
  }

  lemma {:induction false} WriteRest(steps: seq<Step>, s: State, max: nat, b: Branch) returns (more: seq<Step>, s': State)
    requires Runs(steps, s, max) && PhaseOf(s, 0).Writing? && PhaseOf(s, 0).branch == b && PhaseOf(s, 0).done <= |PhaseOf(s, 0).batch|
    ensures Runs(more, s', max) && Quiet(s', b) && GrantedOf(s', b) == GrantedOf(s, b)
    decreases |PhaseOf(s, 0).batch| - PhaseOf(s, 0).done
  {
    hide Runs, WriteSegment, CommitAll, Partly;
    RunsKeepOrder(steps, s, max);
    var p := PhaseOf(s, 0);
    assert InOrder(s, b, max) && ThreadAgrees(s, 0);
    if p.done == |p.batch| {
      RunMore(steps, s, Finish(0), max);
      more, s' := steps + [Finish(0)], Do(s, Finish(0), true, max);
    } else {
      RunMore(steps, s, Write(0), max);
      more, s' := WriteRest(steps + [Write(0)], Do(s, Write(0), true, max), max, b);
    }
  }

  /** Any batches can be committed to a branch, in any order. */
  lemma {:induction false} CommitRun(batches: seq<Batch>, max: nat, b: Branch) returns (steps: seq<Step>, s: State)
    ensures Runs(steps, s, max) && Quiet(s, b) && GrantedOf(s, b) == batches
  {
    hide Runs;
    if batches == [] {
      steps, s := [], Initial;
      assert Runs([], Initial, max) by { NoSteps(max); }
    } else {
      var n := |batches| - 1;
      steps, s := CommitRun(batches[..n], max, b);
      steps, s := BeginCommit(steps, s, max, b, batches[n]);
      steps, s := WriteRest(steps, s, max, b);
      assert batches == batches[..n] + [batches[n]];
    }
  }

  lemma NoSteps(max: nat)
    ensures Runs([], Initial, max)
  {
  }

  /** There is a run with any twelve or more small batches: at its end the branch is free and reads as the first
      ten and the latest of them. */
  lemma LosingRun(batches: seq<Batch>, max: nat, b: Branch) returns (steps: seq<Step>, s: State)
    requires |batches| >= 12 && Small(batches, max)
    ensures Runs(steps, s, max) && Free(s, b) && GrantedOf(s, b) == batches
    ensures DirOf(s, b) == batches[..10] + [batches[|batches| - 1]]
  {
    hide Runs, Small, DirOf, GrantedOf;
    steps, s := CommitRun(batches, max, b);
    BatchesAreLost(steps, s, max, b);
  }
}
