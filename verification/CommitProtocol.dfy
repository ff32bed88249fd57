/** Concurrent commits: each thread gets the lock object of its branch, takes it, opens a segment, writes
    its batch record by record and releases. Every interleaving keeps the batches of a branch whole, in
    lock order, as long as opening goes behind the last segment. */
module CommitProtocol {
  import opened Prelude
  import opened NameOrder
  import opened Wal
  import opened WalWriter
  import opened WalDirectory

  type Branch = string
  type ThreadId = nat
  type LockId = nat
  type Batch = seq<Bytes>

  datatype Phase =
    | Idle
    | Called(branch: Branch, batch: Batch)
    | Ready(branch: Branch, batch: Batch, lock: LockId)
    | Locked(branch: Branch, batch: Batch, lock: LockId)
    | Writing(branch: Branch, batch: Batch, lock: LockId, done: nat, current: nat)

  /** `granted` records, per branch, the batches in the order their threads took the lock. */
  datatype State = State(
    dirs: map<Branch, Segments>,
    locks: map<Branch, LockId>,
    holders: map<LockId, ThreadId>,
    nextLock: LockId,
    threads: map<ThreadId, Phase>,
    granted: map<Branch, seq<Batch>>)

  const Initial := State(map[], map[], map[], 0, map[], map[])

  datatype Step =
    | Call(t: ThreadId, branch: Branch, batch: Batch)
    | GetLock(t: ThreadId)
    | Acquire(t: ThreadId)
    | Open(t: ThreadId)
    | Write(t: ThreadId)
    | Finish(t: ThreadId)

  function PhaseOf(s: State, t: ThreadId): Phase {
    if t in s.threads then s.threads[t] else Idle
  }

  function DirOf(s: State, b: Branch): Segments {
    if b in s.dirs then s.dirs[b] else []
  }

  function GrantedOf(s: State, b: Branch): seq<Batch> {
    if b in s.granted then s.granted[b] else []
  }

  predicate Enabled(s: State, step: Step) {
    var p := PhaseOf(s, step.t);
    match step
    case Call(_, _, _) => p.Idle?
    case GetLock(_) => p.Called?
    case Acquire(_) => p.Ready? && p.lock !in s.holders
    case Open(_) => p.Locked?
    case Write(_) => p.Writing? && p.done < |p.batch| && p.current < |DirOf(s, p.branch)|
    case Finish(_) => p.Writing? && p.done == |p.batch|
  }

  /** The segment an opening thread creates; `byName` as the code chooses it, otherwise one past the
      highest number. */
  function NextSegment(segments: Segments, byName: bool): (n: nat)
    ensures n <= |segments|
  {
    if byName then OpenNumber(segments) else |segments|
  }

  function Do(s: State, step: Step, byName: bool, max: nat): State
    requires Enabled(s, step)
  {
    var t, p := step.t, PhaseOf(s, step.t);
    match step
    case Call(_, branch, batch) => s.(threads := s.threads[t := Called(branch, batch)])
    case GetLock(_) =>
      if p.branch in s.locks then s.(threads := s.threads[t := Ready(p.branch, p.batch, s.locks[p.branch])])
      else
        s.(threads := s.threads[t := Ready(p.branch, p.batch, s.nextLock)],
           locks := s.locks[p.branch := s.nextLock], nextLock := s.nextLock + 1)
    case Acquire(_) =>
      s.(threads := s.threads[t := Locked(p.branch, p.batch, p.lock)], holders := s.holders[p.lock := t],
         granted := s.granted[p.branch := GrantedOf(s, p.branch) + [p.batch]])
    case Open(_) =>
      var n := NextSegment(DirOf(s, p.branch), byName);
      s.(threads := s.threads[t := Writing(p.branch, p.batch, p.lock, 0, n)],
         dirs := s.dirs[p.branch := OpenSegment(DirOf(s, p.branch), n)])
    case Write(_) =>
      var w := WriteSegment(DirOf(s, p.branch), p.current, p.batch[p.done], max);
      s.(threads := s.threads[t := Writing(p.branch, p.batch, p.lock, p.done + 1, w.1)], dirs := s.dirs[p.branch := w.0])
    case Finish(_) => s.(threads := s.threads[t := Idle], holders := s.holders - {p.lock})
  }

  /** Opening goes behind the last segment. */
  predicate OpensSafely(s: State, step: Step, byName: bool) {
    step.Open? && Enabled(s, step) ==> NextSegment(DirOf(s, PhaseOf(s, step.t).branch), byName) == |DirOf(s, PhaseOf(s, step.t).branch)|
  }

  /** `s` can be reached by `steps`, every opening safe. */
  ghost predicate Reaches(steps: seq<Step>, s: State, byName: bool, max: nat)
    decreases |steps|
  {
    if steps == [] then s == Initial
    else
      var last := steps[|steps| - 1];
      exists before ::
        Reaches(steps[..|steps| - 1], before, byName, max) && Enabled(before, last) && OpensSafely(before, last, byName)
        && s == Do(before, last, byName, max)
  }

  // ---------- the invariant ----------

  predicate Holding(p: Phase) {
    p.Locked? || p.Writing?
  }

  ghost predicate LocksAgree(s: State) {
    && (forall b :: b in s.locks ==> s.locks[b] < s.nextLock)
    && (forall b, c :: b in s.locks && c in s.locks && s.locks[b] == s.locks[c] ==> b == c)
    && (forall t :: t in s.threads ==> ThreadAgrees(s, t))
    && (forall l :: l in s.holders ==> s.holders[l] in s.threads && Holding(s.threads[s.holders[l]]) && s.threads[s.holders[l]].lock == l)
  }

  ghost predicate ThreadAgrees(s: State, t: ThreadId)
    requires t in s.threads
  {
    var p := s.threads[t];
    && (p.Ready? || Holding(p) ==> p.branch in s.locks && s.locks[p.branch] == p.lock)
    && (Holding(p) ==> p.lock in s.holders && s.holders[p.lock] == t)
  }

  /** What a branch's log must read as: the granted batches, the last one as far as it is written. */
  ghost predicate LogAgrees(s: State, b: Branch) {
    var log, granted := Flatten(DirOf(s, b)), GrantedOf(s, b);
    if b in s.locks && s.locks[b] in s.holders && s.holders[s.locks[b]] in s.threads then
      var p := s.threads[s.holders[s.locks[b]]];
      Holding(p) && granted != [] && granted[|granted| - 1] == p.batch
      && if p.Locked? then log == Flatten(granted[..|granted| - 1])
         else p.done <= |p.batch| && log == Flatten(granted[..|granted| - 1]) + p.batch[..p.done]
              && p.current + 1 == |DirOf(s, b)|
    else log == Flatten(granted)
  }

  ghost predicate Inv(s: State) {
    LocksAgree(s) && forall b :: LogAgrees(s, b)
  }

  lemma StepKeepsThread(s: State, step: Step, byName: bool, max: nat, t: ThreadId)
    requires LocksAgree(s) && Enabled(s, step) && t in Do(s, step, byName, max).threads
    ensures ThreadAgrees(Do(s, step, byName, max), t)
  {
    hide WriteSegment, OpenSegment, NextSegment, GrantedOf, DirOf;
    assert t in s.threads ==> ThreadAgrees(s, t);
    assert step.t in s.threads ==> ThreadAgrees(s, step.t);
  }

  lemma StepKeepsHolder(s: State, step: Step, byName: bool, max: nat, l: LockId)
    requires LocksAgree(s) && Enabled(s, step) && l in Do(s, step, byName, max).holders
    ensures var s' := Do(s, step, byName, max);
            s'.holders[l] in s'.threads && Holding(s'.threads[s'.holders[l]]) && s'.threads[s'.holders[l]].lock == l
  {
    hide WriteSegment, OpenSegment, NextSegment, GrantedOf, DirOf;
    assert step.t in s.threads ==> ThreadAgrees(s, step.t);
  }

  lemma StepKeepsLocks(s: State, step: Step, byName: bool, max: nat)
    requires LocksAgree(s) && Enabled(s, step)
    ensures LocksAgree(Do(s, step, byName, max))
  {
    hide WriteSegment, OpenSegment, NextSegment, GrantedOf, DirOf, ThreadAgrees;
    var s' := Do(s, step, byName, max);
    forall t | t in s'.threads ensures ThreadAgrees(s', t) {
      StepKeepsThread(s, step, byName, max, t);
    }
    forall l | l in s'.holders
      ensures s'.holders[l] in s'.threads && Holding(s'.threads[s'.holders[l]]) && s'.threads[s'.holders[l]].lock == l
    {
      StepKeepsHolder(s, step, byName, max, l);
    }
  }

  /** The thread that holds the lock of a branch, if one does. */
  ghost predicate Holds(s: State, t: ThreadId, b: Branch) {
    b in s.locks && s.locks[b] in s.holders && s.holders[s.locks[b]] == t
  }

  lemma OtherDirs(s: State, step: Step, byName: bool, max: nat, b: Branch)
    requires Enabled(s, step) && (step.Call? || step.GetLock? || PhaseOf(s, step.t).branch != b)
    ensures DirOf(Do(s, step, byName, max), b) == DirOf(s, b) && GrantedOf(Do(s, step, byName, max), b) == GrantedOf(s, b)
  {
    hide WriteSegment, OpenSegment, NextSegment;
  }

  lemma OtherHolders(s: State, step: Step, byName: bool, max: nat, b: Branch)
    requires LocksAgree(s) && Enabled(s, step) && (step.Call? || step.GetLock? || PhaseOf(s, step.t).branch != b)
    ensures var s' := Do(s, step, byName, max);
            forall t :: (Holds(s', t, b) <==> Holds(s, t, b)) && (Holds(s, t, b) ==> t in s.threads && t in s'.threads && s'.threads[t] == s.threads[t])
  {
    hide WriteSegment, OpenSegment, NextSegment, DirOf, GrantedOf;
    assert step.t in s.threads ==> ThreadAgrees(s, step.t);
    assert forall t :: Holds(s, t, b) ==> t != step.t;
  }

  /** A step leaves alone every branch but the one its thread works on, and all branches while the thread
      holds no lock. */
  lemma OtherBranches(s: State, step: Step, byName: bool, max: nat, b: Branch)
    requires LocksAgree(s) && Enabled(s, step) && LogAgrees(s, b)
    requires step.Call? || step.GetLock? || PhaseOf(s, step.t).branch != b
    ensures LogAgrees(Do(s, step, byName, max), b)
  {
    hide Do, Enabled, Flatten, DirOf, GrantedOf;
    OtherDirs(s, step, byName, max, b);
    OtherHolders(s, step, byName, max, b);
    var s' := Do(s, step, byName, max);
    HolderIsSame(s, s', b);
  }

  lemma HolderIsSame(s: State, s': State, b: Branch)
    requires forall t :: (Holds(s', t, b) <==> Holds(s, t, b)) && (Holds(s, t, b) ==> t in s.threads && t in s'.threads && s'.threads[t] == s.threads[t])
    ensures (b in s.locks && s.locks[b] in s.holders) == (b in s'.locks && s'.locks[b] in s'.holders)
    ensures b in s.locks && s.locks[b] in s.holders ==> s'.holders[s'.locks[b]] == s.holders[s.locks[b]]
  {
    if b in s.locks && s.locks[b] in s.holders {
      assert Holds(s', s.holders[s.locks[b]], b);
    }
    if b in s'.locks && s'.locks[b] in s'.holders {
      assert Holds(s, s'.holders[s'.locks[b]], b);
    }
  }

  lemma AcquireKeepsLog(s: State, step: Step, byName: bool, max: nat)
    requires LocksAgree(s) && Enabled(s, step) && step.Acquire? && LogAgrees(s, PhaseOf(s, step.t).branch)
    ensures LogAgrees(Do(s, step, byName, max), PhaseOf(s, step.t).branch)
  {
    hide Flatten;
    var b, s' := PhaseOf(s, step.t).branch, Do(s, step, byName, max);
    assert ThreadAgrees(s, step.t);
    var granted := GrantedOf(s', b);
    assert granted[..|granted| - 1] == GrantedOf(s, b);
  }

  lemma OpenKeepsLog(s: State, step: Step, byName: bool, max: nat)
    requires LocksAgree(s) && Enabled(s, step) && step.Open? && LogAgrees(s, PhaseOf(s, step.t).branch)
    requires OpensSafely(s, step, byName)
    ensures LogAgrees(Do(s, step, byName, max), PhaseOf(s, step.t).branch)
  {
    hide Flatten, NextSegment;
    var p := PhaseOf(s, step.t);
    assert ThreadAgrees(s, step.t);
    FlattenLast(DirOf(s, p.branch), []);
    var log := Flatten(DirOf(s, p.branch));
    assert p.batch[..0] == [] && log + [] == log;
  }

  lemma WriteKeepsLog(s: State, step: Step, byName: bool, max: nat)
    requires LocksAgree(s) && Enabled(s, step) && step.Write? && LogAgrees(s, PhaseOf(s, step.t).branch)
    ensures LogAgrees(Do(s, step, byName, max), PhaseOf(s, step.t).branch)
  {
    hide Flatten, Sum;
    var p := PhaseOf(s, step.t);
    assert ThreadAgrees(s, step.t);
    PackStep(DirOf(s, p.branch), p.batch[p.done]);
    assert p.batch[..p.done + 1] == p.batch[..p.done] + [p.batch[p.done]];
  }

  lemma FinishKeepsLog(s: State, step: Step, byName: bool, max: nat)
    requires LocksAgree(s) && Enabled(s, step) && step.Finish? && LogAgrees(s, PhaseOf(s, step.t).branch)
    ensures LogAgrees(Do(s, step, byName, max), PhaseOf(s, step.t).branch)
  {
    hide Flatten;
    var p := PhaseOf(s, step.t);
    assert ThreadAgrees(s, step.t);
    assert p.batch[..p.done] == p.batch;
    var granted := GrantedOf(s, p.branch);
    FlattenLast(granted[..|granted| - 1], p.batch);
    assert granted == granted[..|granted| - 1] + [p.batch];
  }

  lemma StepKeepsInv(s: State, step: Step, byName: bool, max: nat)
    requires Inv(s) && Enabled(s, step) && OpensSafely(s, step, byName)
    ensures Inv(Do(s, step, byName, max))
  {
    hide LocksAgree, LogAgrees, Do, OpensSafely;
    StepKeepsLocks(s, step, byName, max);
    var s' := Do(s, step, byName, max);
    forall b ensures LogAgrees(s', b) {
      assert LogAgrees(s, b);
      if step.Call? || step.GetLock? || PhaseOf(s, step.t).branch != b {
        OtherBranches(s, step, byName, max, b);
      } else {
        match step {
          case Acquire(_) => AcquireKeepsLog(s, step, byName, max);
          case Open(_) => OpenKeepsLog(s, step, byName, max);
          case Write(_) => WriteKeepsLog(s, step, byName, max);
          case Finish(_) => FinishKeepsLog(s, step, byName, max);
        }
      }
    }
  }

  lemma {:induction false} ReachableKeepsInv(steps: seq<Step>, s: State, byName: bool, max: nat)
    requires Reaches(steps, s, byName, max)
    ensures Inv(s)
    decreases |steps|
  {
    hide Do, OpensSafely, Enabled;
    if steps == [] {
      InitialInv();
    } else {
      var last := steps[|steps| - 1];
      var before :| Reaches(steps[..|steps| - 1], before, byName, max) && Enabled(before, last) && OpensSafely(before, last, byName)
        && s == Do(before, last, byName, max);
      ReachableKeepsInv(steps[..|steps| - 1], before, byName, max);
      StepKeepsInv(before, last, byName, max);
    }
  }

  lemma InitialInv()
    ensures Inv(Initial)
  {
    forall b ensures LogAgrees(Initial, b) {
      assert DirOf(Initial, b) == [] && GrantedOf(Initial, b) == [];
    }
  }

  // ---------- the theorems ----------

  /** The log reads as all granted batches but the last, then the first `done` records of the last. */
  ghost predicate WrittenUpTo(log: seq<Bytes>, granted: seq<Batch>, done: nat) {
    granted != [] && done <= |granted[|granted| - 1]|
    && log == Flatten(granted[..|granted| - 1]) + granted[|granted| - 1][..done]
  }

  /** In every interleaving, a branch whose lock is free reads as exactly its batches, each whole, one
      after the other, in the order their threads took the lock. A branch being written ends with the
      records of its last batch written so far. */
  lemma CommitsAreSerial(steps: seq<Step>, s: State, byName: bool, max: nat, b: Branch)
    requires Reaches(steps, s, byName, max)
    ensures b !in s.locks || s.locks[b] !in s.holders ==> Flatten(DirOf(s, b)) == Flatten(GrantedOf(s, b))
    ensures b in s.locks && s.locks[b] in s.holders ==> exists done :: WrittenUpTo(Flatten(DirOf(s, b)), GrantedOf(s, b), done)
  {
    hide Reaches, Flatten;
    ReachableKeepsInv(steps, s, byName, max);
    assert LogAgrees(s, b);
    if b in s.locks && s.locks[b] in s.holders {
      var p := s.threads[s.holders[s.locks[b]]];
      var granted := GrantedOf(s, b);
      var log := Flatten(granted[..|granted| - 1]);
      assert p.Locked? ==> p.batch[..0] == [] && log + [] == log;
      var done := if p.Locked? then 0 else p.done;
      assert WrittenUpTo(Flatten(DirOf(s, b)), granted, done);
    }
  }

  /** Two threads never write the same branch at once. */
  lemma OneWriter(steps: seq<Step>, s: State, byName: bool, max: nat, t: ThreadId, u: ThreadId)
    requires Reaches(steps, s, byName, max)
    requires Holding(PhaseOf(s, t)) && Holding(PhaseOf(s, u)) && PhaseOf(s, t).branch == PhaseOf(s, u).branch
    ensures t == u
  {
    hide Reaches;
    ReachableKeepsInv(steps, s, byName, max);
    assert ThreadAgrees(s, t) && ThreadAgrees(s, u);
  }

  /** No record already in a segment is overwritten: every step keeps all segments, the last one possibly
      longer, and may add new ones. */
  lemma NothingIsOverwritten(steps: seq<Step>, s: State, step: Step, byName: bool, max: nat, b: Branch)
    requires Reaches(steps, s, byName, max) && Enabled(s, step) && OpensSafely(s, step, byName)
    ensures var before, after := DirOf(s, b), DirOf(Do(s, step, byName, max), b);
            |before| <= |after| && forall i :: 0 <= i < |before| ==> before[i] <= after[i] && (i < |before| - 1 ==> before[i] == after[i])
  {
    hide Reaches, Flatten, Sum, NextSegment;
    ReachableKeepsInv(steps, s, byName, max);
    assert LogAgrees(s, b);
    assert step.t in s.threads ==> ThreadAgrees(s, step.t);
  }

  /** Opening one past the highest number is always safe; opening by name is safe exactly when the newest
      segment has one digit or only nines before its last digit. */
  lemma WhenOpeningIsSafe(s: State, step: Step)
    requires step.Open? && Enabled(s, step)
    ensures OpensSafely(s, step, false)
    ensures OpensSafely(s, step, true) <==> OpensBehind(DirOf(s, PhaseOf(s, step.t).branch))
  {
    hide LastName, OpenSegment;
    OpeningOverwrites(DirOf(s, PhaseOf(s, step.t).branch));
  }

  /** Where opening by name is not safe, it empties a segment that is already there. */
  lemma NextOpeningLoses(s: State, step: Step, max: nat)
    requires step.Open? && Enabled(s, step)
    requires !OpensBehind(DirOf(s, PhaseOf(s, step.t).branch))
    ensures var b := PhaseOf(s, step.t).branch;
            var n := OpenNumber(DirOf(s, b));
            n < |DirOf(s, b)| && DirOf(Do(s, step, true, max), b)[n] == []
  {
    hide LastName, LastOfItsKind;
    OpeningOverwrites(DirOf(s, PhaseOf(s, step.t).branch));
  }
}
