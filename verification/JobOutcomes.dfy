/** What can still become of a transaction whose record is terminal: exactly when a status is final, and
    exactly when the transaction can still end as COMPLETED. */
module JobOutcomes {
  import opened Prelude
  import opened JobStores
  import opened Jobs

  // ---------- who can still write a record ----------

  /** The worker is still to run the transaction. */
  predicate Runs(p: Phase, tx: TxId) {
    (p.Got? || p.Loaded? || p.Executing?) && p.m.tx == tx
  }

  /** The worker may still write the record: it is to run the transaction, or it completed it and an error
      behind that is not handled yet. */
  predicate Writes(p: Phase, tx: TxId) {
    Runs(p, tx) || (p.Finished? && !p.handled && p.m.tx == tx)
  }

  predicate Cancels(p: CancelPhase, tx: TxId) {
    (p.Seen? || p.Holding?) && p.tx == tx
  }

  ghost predicate Undelivered(s: State, tx: TxId) {
    exists m :: m in s.queue.stream && m.id >= s.queue.delivered && m.tx == tx
  }

  /** A message for the transaction is still to come: to be sent into a stream that keeps anything at all, or
      to be delivered. */
  ghost predicate Queued(s: State, tx: TxId, limit: nat) {
    (tx in s.saved && limit > 0) || Undelivered(s, tx)
  }

  ghost predicate Runnable(s: State, tx: TxId, limit: nat) {
    Queued(s, tx, limit) || exists w :: Runs(PhaseOf(s, w), tx)
  }

  /** No message is to come and no worker writes the record any more. */
  ghost predicate Settled(s: State, tx: TxId, limit: nat) {
    !Queued(s, tx, limit) && forall w :: !Writes(PhaseOf(s, w), tx)
  }

  ghost predicate NobodyCancels(s: State, tx: TxId) {
    forall c :: !Cancels(CancelPhaseOf(s, c), tx)
  }

  predicate HasStatus(s: State, tx: TxId, status: Status) {
    tx in s.repo.hashes && s.repo.hashes[tx].status == status
  }

  /** The status in every continuation. */
  ghost predicate AlwaysHas(s: State, tx: TxId, status: Status, limit: nat) {
    forall more :: Exec(s, more, limit).Some? ==> HasStatus(Exec(s, more, limit).value, tx, status)
  }

  /** The status at the end of some continuation. */
  ghost predicate CanHave(s: State, tx: TxId, status: Status, limit: nat) {
    exists more :: Exec(s, more, limit).Some? && HasStatus(Exec(s, more, limit).value, tx, status)
  }

  // ---------- runs ----------

  lemma ExecOne(s: State, step: Step, limit: nat)
    requires Enabled(s, step)
    ensures Exec(s, [step], limit) == Some(Do(s, step, limit))
  {
    hide Do, Enabled;
    assert [step][..0] == [];
  }

  lemma {:induction false} ExecJoins(s: State, a: seq<Step>, b: seq<Step>, limit: nat)
    requires Exec(s, a, limit).Some?
    ensures Exec(s, a + b, limit) == Exec(Exec(s, a, limit).value, b, limit)
  {
    hide Do, Enabled;
    if b == [] {
      assert a + b == a;
    } else {
      var n := |b| - 1;
      ExecJoins(s, a, b[..n], limit);
      assert (a + b)[..|a + b| - 1] == a + b[..n];
    }
  }

  lemma HasNow(s: State, tx: TxId, status: Status, limit: nat)
    requires HasStatus(s, tx, status)
    ensures CanHave(s, tx, status, limit)
  {
    var none: seq<Step> := [];
    assert Exec(s, none, limit) == Some(s);
  }

  lemma HasAfter(s: State, step: Step, tx: TxId, status: Status, limit: nat)
    requires Enabled(s, step) && CanHave(Do(s, step, limit), tx, status, limit)
    ensures CanHave(s, tx, status, limit)
  {
    hide Do, Enabled, Exec, HasStatus;
    var more :| Exec(Do(s, step, limit), more, limit).Some? && HasStatus(Exec(Do(s, step, limit), more, limit).value, tx, status);
    ExecOne(s, step, limit);
    ExecJoins(s, [step], more, limit);
  }

  lemma OtherStatusBreaks(s: State, tx: TxId, status: Status, other: Status, limit: nat)
    requires CanHave(s, tx, other, limit) && other != status
    ensures !AlwaysHas(s, tx, status, limit)
  {
    hide Exec;
  }

  // ---------- what keeps a status ----------

  /** Only workers that write the record and cancellers that hold its lock change a known transaction's status. */
  lemma StatusKept(s: State, step: Step, limit: nat, tx: TxId)
    requires Enabled(s, step) && tx in s.repo.hashes
    requires step.Start? || step.Complete? || step.Fail? ==> !Writes(PhaseOf(s, step.w), tx)
    requires step.Cancel? ==> CancelPhaseOf(s, step.c).tx != tx || s.repo.hashes[tx].status == Failed
    ensures HasStatus(Do(s, step, limit), tx, s.repo.hashes[tx].status)
  {
    hide Deliver, Enqueue, Acknowledge, TenantSet;
  }

  lemma QueueStaysEmpty(s: State, step: Step, limit: nat, tx: TxId)
    requires Enabled(s, step) && tx in s.repo.hashes && !Queued(s, tx, limit)
    ensures !Queued(Do(s, step, limit), tx, limit)
  {
    hide Save, Update, NextMessage;
    var s' := Do(s, step, limit);
    forall m | m in s'.queue.stream && m.id >= s'.queue.delivered ensures m.tx != tx {
      if step.Ack? {
        WithoutIsPart(s.queue.stream, PhaseOf(s, step.w).m.id, m);
      }
      assert !Undelivered(s, tx);
      assert s'.queue.delivered >= s.queue.delivered;
    }
  }

  lemma WorkersStayDone(s: State, step: Step, limit: nat, tx: TxId, w: Worker)
    requires Enabled(s, step) && !Undelivered(s, tx)
    ensures !Writes(PhaseOf(s, w), tx) ==> !Writes(PhaseOf(Do(s, step, limit), w), tx)
    ensures !Runs(PhaseOf(s, w), tx) ==> !Runs(PhaseOf(Do(s, step, limit), w), tx)
  {
    hide Save, Update, Without, Enqueue, Acknowledge, TenantSet;
  }

  lemma CancellersStayAway(s: State, step: Step, limit: nat, tx: TxId, c: Canceller)
    requires Enabled(s, step) && tx in s.repo.hashes && Terminal(s.repo.hashes[tx].status)
    requires !Cancels(CancelPhaseOf(s, c), tx)
    ensures !Cancels(CancelPhaseOf(Do(s, step, limit), c), tx)
  {
    hide Save, Update, Deliver, Enqueue, Acknowledge;
  }

  /** No step changes a status that is final. */
  ghost predicate Final(s: State, tx: TxId, status: Status, limit: nat) {
    HasStatus(s, tx, status) && Settled(s, tx, limit) && (status == Failed || NobodyCancels(s, tx))
  }

  lemma FinalStays(s: State, step: Step, limit: nat, tx: TxId, status: Status)
    requires Enabled(s, step) && Final(s, tx, status, limit) && Terminal(status)
    ensures Final(Do(s, step, limit), tx, status, limit)
  {
    hide Do, Queued;
    var s' := Do(s, step, limit);
    assert step.Start? || step.Complete? || step.Fail? ==> !Writes(PhaseOf(s, step.w), tx);
    CancelIsHeld(s, step);
    assert step.Cancel? && status != Failed ==> !Cancels(CancelPhaseOf(s, step.c), tx);
    StatusKept(s, step, limit, tx);
    QueueStaysEmpty(s, step, limit, tx);
    QueuedHolds(s, tx, limit);
    forall w ensures !Writes(PhaseOf(s', w), tx) {
      WorkersStayDone(s, step, limit, tx, w);
    }
    if status != Failed {
      forall c ensures !Cancels(CancelPhaseOf(s', c), tx) {
        CancellersStayAway(s, step, limit, tx, c);
      }
    }
  }

  lemma CancelIsHeld(s: State, step: Step)
    requires Enabled(s, step)
    ensures step.Cancel? ==> CancelPhaseOf(s, step.c).Holding?
  {
  }

  lemma QueuedHolds(s: State, tx: TxId, limit: nat)
    ensures Undelivered(s, tx) ==> Queued(s, tx, limit)
  {
  }

  lemma {:induction false} FinalForever(s: State, more: seq<Step>, limit: nat, tx: TxId, status: Status)
    requires Final(s, tx, status, limit) && Terminal(status) && Exec(s, more, limit).Some?
    ensures Final(Exec(s, more, limit).value, tx, status, limit)
  {
    hide Do, Enabled, Final;
    if more != [] {
      FinalForever(s, more[..|more| - 1], limit, tx, status);
      FinalStays(Exec(s, more[..|more| - 1], limit).value, more[|more| - 1], limit, tx, status);
    }
  }

  // ---------- more that holds in every run ----------

  ghost predicate StreamRises(s: State) {
    forall i, j :: 0 <= i < j < |s.queue.stream| ==> s.queue.stream[i].id < s.queue.stream[j].id
  }

  predicate Holds(p: CancelPhase, tx: TxId) {
    (p.Holding? || p.Cancelled?) && p.tx == tx
  }

  ghost predicate LocksAreHeld(s: State) {
    forall tx :: tx in s.locks ==> exists c :: Holds(CancelPhaseOf(s, c), tx)
  }

  ghost predicate CancellersKnow(s: State) {
    forall c :: !CancelPhaseOf(s, c).Resting? ==> CancelPhaseOf(s, c).tx in s.repo.hashes
  }

  ghost predicate Sound(s: State) {
    Inv(s) && StreamRises(s) && LocksAreHeld(s) && CancellersKnow(s)
  }

  lemma {:induction false} WithoutRises(stream: seq<Message>, id: MessageId)
    requires forall i, j :: 0 <= i < j < |stream| ==> stream[i].id < stream[j].id
    ensures var r := Without(stream, id); forall i, j :: 0 <= i < j < |r| ==> r[i].id < r[j].id
  {
    if stream != [] {
      WithoutRises(stream[1..], id);
      var rest := Without(stream[1..], id);
      forall i | 0 <= i < |rest| ensures stream[0].id < rest[i].id {
        WithoutIsPart(stream[1..], id, rest[i]);
      }
    }
  }

  lemma AcksStream(s: State, w: Worker, limit: nat)
    requires Enabled(s, Ack(w))
    ensures Do(s, Ack(w), limit).queue.stream == Without(s.queue.stream, PhaseOf(s, w).m.id)
  {
  }

  lemma StepKeepsRising(s: State, step: Step, limit: nat)
    requires Inv(s) && StreamRises(s) && Enabled(s, step)
    ensures StreamRises(Do(s, step, limit))
  {
    hide Save, Update, NextMessage, Without, RunningAgrees, OneEach, AckAgrees, WorkerAgrees;
    if step.Ack? {
      AcksStream(s, step.w, limit);
      WithoutRises(s.queue.stream, PhaseOf(s, step.w).m.id);
    } else if step.Send? {
      forall m | m in s.queue.stream ensures m.id < s.queue.nextId {
        assert IsSent(s, m);
      }
    }
  }

  lemma StepKeepsHeld(s: State, step: Step, limit: nat)
    requires LocksAreHeld(s) && Enabled(s, step)
    ensures LocksAreHeld(Do(s, step, limit))
  {
    hide Save, Update, Deliver, Enqueue, Acknowledge, NextMessage;
    var s' := Do(s, step, limit);
    forall tx | tx in s'.locks ensures exists c :: Holds(CancelPhaseOf(s', c), tx) {
      if tx in s.locks {
        var c :| Holds(CancelPhaseOf(s, c), tx);
        assert Holds(CancelPhaseOf(s', c), tx);
      } else {
        assert Holds(CancelPhaseOf(s', step.c), tx);
      }
    }
  }

  lemma StepKeepsKnown(s: State, step: Step, limit: nat)
    requires CancellersKnow(s) && Enabled(s, step)
    ensures CancellersKnow(Do(s, step, limit))
  {
    hide Deliver, Enqueue, Acknowledge, NextMessage, TenantSet;
    var s' := Do(s, step, limit);
    forall c | !CancelPhaseOf(s', c).Resting? ensures CancelPhaseOf(s', c).tx in s'.repo.hashes {
      assert !CancelPhaseOf(s, c).Resting? ==> CancelPhaseOf(s, c).tx in s.repo.hashes;
    }
  }

  lemma StepKeepsSound(s: State, step: Step, limit: nat)
    requires Sound(s) && Enabled(s, step)
    ensures Sound(Do(s, step, limit))
  {
    hide Inv, Do, StreamRises, LocksAreHeld, CancellersKnow;
    StepKeepsInv(s, step, limit);
    StepKeepsRising(s, step, limit);
    StepKeepsHeld(s, step, limit);
    StepKeepsKnown(s, step, limit);
  }

  lemma {:induction false} RunIsSound(steps: seq<Step>, limit: nat)
    requires Exec(Initial, steps, limit).Some?
    ensures Sound(Exec(Initial, steps, limit).value)
  {
    hide Sound, Do, Enabled;
    if steps == [] {
      InitialIsSound();
    } else {
      RunIsSound(steps[..|steps| - 1], limit);
      StepKeepsSound(Exec(Initial, steps[..|steps| - 1], limit).value, steps[|steps| - 1], limit);
    }
  }

  lemma InitialIsSound()
    ensures Sound(Initial)
  {
    InitialInv();
  }

  // ---------- what can still happen ----------

  /** Some worker is idle: only finitely many are not. */
  lemma SomeoneIdle(s: State) returns (w: Worker)
    ensures w !in s.workers
  {
    w := NumberAbove(s.workers.Keys);
  }

  lemma {:induction false} NumberAbove(workers: set<Worker>) returns (w: Worker)
    ensures forall v :: v in workers ==> v < w
  {
    if workers == {} {
      w := 0;
    } else {
      var v :| v in workers;
      var x := NumberAbove(workers - {v});
      w := if v < x then x else v + 1;
      assert forall u :: u in workers ==> u == v || u in workers - {v};
    }
  }

  /** A worker about to run a transaction can complete it, and it can fail it with either error status. */
  lemma RunnerCan(s: State, w: Worker, tx: TxId, status: Status, limit: nat)
    requires tx in s.repo.hashes && Runs(PhaseOf(s, w), tx) && Terminal(status)
    ensures CanHave(s, tx, status, limit)
  {
    hide Exec, CanHave, HasStatus, TenantSet;
    if status == Completed {
      RunnerCompletes(s, w, tx, limit);
    } else {
      WriterFails(s, w, tx, status, limit);
    }
  }

  lemma WriterFails(s: State, w: Worker, tx: TxId, status: Status, limit: nat)
    requires tx in s.repo.hashes && Writes(PhaseOf(s, w), tx) && (status == Failed || status == Timeout)
    ensures CanHave(s, tx, status, limit)
  {
    hide Exec, CanHave;
    var step := Fail(w, status, "");
    HasNow(Do(s, step, limit), tx, status, limit);
    HasAfter(s, step, tx, status, limit);
  }

  lemma RunnerCompletes(s: State, w: Worker, tx: TxId, limit: nat)
    requires tx in s.repo.hashes && Runs(PhaseOf(s, w), tx)
    ensures CanHave(s, tx, Completed, limit)
    decreases if PhaseOf(s, w).Got? then 2 else if PhaseOf(s, w).Loaded? then 1 else 0
  {
    hide Exec, CanHave;
    if PhaseOf(s, w).Executing? {
      HasNow(Do(s, Complete(w, 0), limit), tx, Completed, limit);
      HasAfter(s, Complete(w, 0), tx, Completed, limit);
    } else {
      var step := if PhaseOf(s, w).Got? then Load(w) else Start(w);
      RunnerCompletes(Do(s, step, limit), w, tx, limit);
      HasAfter(s, step, tx, Completed, limit);
    }
  }

  /** The next message is the undelivered one with the lowest id. */
  lemma {:induction false} NextIsLowest(stream: seq<Message>, delivered: MessageId, m: Message)
    requires forall i, j :: 0 <= i < j < |stream| ==> stream[i].id < stream[j].id
    requires m in stream && m.id >= delivered
    ensures NextMessage(stream, delivered).Some?
    ensures NextMessage(stream, delivered).value == m || NextMessage(stream, delivered).value.id < m.id
  {
    if stream[0].id < delivered {
      assert m in stream[1..];
      NextIsLowest(stream[1..], delivered, m);
    }
  }

  lemma TakeDelivers(s: State, w: Worker, m: Message, limit: nat)
    requires StreamRises(s) && m in s.queue.stream && m.id >= s.queue.delivered && w !in s.workers
    ensures Enabled(s, Take(w))
    ensures var s' := Do(s, Take(w), limit);
            && s'.repo == s.repo && s'.queue.stream == s.queue.stream && s'.queue.delivered > s.queue.delivered
            && (PhaseOf(s', w) == Got(m) || s'.queue.delivered <= m.id)
  {
    hide NextMessage;
    NextIsLowest(s.queue.stream, s.queue.delivered, m);
  }

  /** A message not delivered yet reaches a worker: idle workers take the ones before it first. */
  lemma UndeliveredCan(s: State, tx: TxId, m: Message, status: Status, limit: nat)
    requires StreamRises(s) && tx in s.repo.hashes && Terminal(status)
    requires m in s.queue.stream && m.id >= s.queue.delivered && m.tx == tx
    ensures CanHave(s, tx, status, limit)
    decreases m.id - s.queue.delivered
  {
    hide Do, Enabled, CanHave;
    var w := SomeoneIdle(s);
    TakeDelivers(s, w, m, limit);
    var s' := Do(s, Take(w), limit);
    if PhaseOf(s', w) == Got(m) {
      RunnerCan(s', w, tx, status, limit);
    } else {
      UndeliveredCan(s', tx, m, status, limit);
    }
    HasAfter(s, Take(w), tx, status, limit);
  }

  lemma SendQueues(s: State, tx: TxId, limit: nat)
    requires Inv(s) && StreamRises(s) && tx in s.saved && limit > 0
    ensures Enabled(s, Send(tx))
    ensures var s' := Do(s, Send(tx), limit);
            && s'.repo == s.repo && StreamRises(s') && s'.queue.delivered <= s.queue.nextId
            && Message(s.queue.nextId, tx) in s'.queue.stream
  {
    StepKeepsRising(s, Send(tx), limit);
    var q := Do(s, Send(tx), limit).queue;
    assert q.stream[|q.stream| - 1] == Message(s.queue.nextId, tx);
  }

  lemma QueuedCan(s: State, tx: TxId, status: Status, limit: nat)
    requires Sound(s) && tx in s.repo.hashes && Terminal(status) && Queued(s, tx, limit)
    ensures CanHave(s, tx, status, limit)
  {
    hide Do, Enabled, CanHave, Inv;
    if Undelivered(s, tx) {
      var m :| m in s.queue.stream && m.id >= s.queue.delivered && m.tx == tx;
      UndeliveredCan(s, tx, m, status, limit);
    } else {
      SendQueues(s, tx, limit);
      UndeliveredCan(Do(s, Send(tx), limit), tx, Message(s.queue.nextId, tx), status, limit);
      HasAfter(s, Send(tx), tx, status, limit);
    }
  }

  lemma HolderCan(s: State, c: Canceller, tx: TxId, limit: nat)
    requires tx in s.repo.hashes && CancelPhaseOf(s, c) == Holding(tx)
    ensures CanHave(s, tx, Failed, limit)
  {
    hide Exec, CanHave;
    HasNow(Do(s, Cancel(c), limit), tx, Failed, limit);
    HasAfter(s, Cancel(c), tx, Failed, limit);
  }

  /** A canceller that has looked gets to cancel: if another one holds the lock, that one cancels or lets go
      first. */
  lemma CancellerCan(s: State, c: Canceller, tx: TxId, limit: nat)
    requires LocksAreHeld(s) && tx in s.repo.hashes && Cancels(CancelPhaseOf(s, c), tx)
    ensures CanHave(s, tx, Failed, limit)
  {
    hide Exec, CanHave, LocksAreHeld;
    if CancelPhaseOf(s, c).Holding? {
      HolderCan(s, c, tx, limit);
    } else if tx !in s.locks {
      LockThenCancel(s, c, tx, limit);
    } else {
      var d := HolderOf(s, tx);
      if CancelPhaseOf(s, d).Holding? {
        HolderCan(s, d, tx, limit);
      } else {
        LockThenCancel(Do(s, Release(d), limit), c, tx, limit);
        HasAfter(s, Release(d), tx, Failed, limit);
      }
    }
  }

  lemma HolderOf(s: State, tx: TxId) returns (d: Canceller)
    requires LocksAreHeld(s) && tx in s.locks
    ensures Holds(CancelPhaseOf(s, d), tx)
  {
    d :| Holds(CancelPhaseOf(s, d), tx);
  }

  lemma LockThenCancel(s: State, c: Canceller, tx: TxId, limit: nat)
    requires tx in s.repo.hashes && CancelPhaseOf(s, c) == Seen(tx) && tx !in s.locks
    ensures CanHave(s, tx, Failed, limit)
  {
    hide Exec, CanHave;
    HolderCan(Do(s, Lock(c), limit), c, tx, limit);
    HasAfter(s, Lock(c), tx, Failed, limit);
  }

  // ---------- the theorems ----------

  /** In every reachable state, a terminal status is there to stay exactly when no message for the
      transaction is to come, no worker may still write its record, and, unless the status is FAILED
      already, no canceller has looked at it and is yet to write. */
  lemma TerminalIsFinalExactly(steps: seq<Step>, limit: nat, tx: TxId, status: Status)
    requires Exec(Initial, steps, limit).Some? && Terminal(status)
    requires HasStatus(Exec(Initial, steps, limit).value, tx, status)
    ensures var s := Exec(Initial, steps, limit).value;
            AlwaysHas(s, tx, status, limit) <==> Settled(s, tx, limit) && (status == Failed || NobodyCancels(s, tx))
  {
    hide Exec;
    RunIsSound(steps, limit);
    StaysExactly(Exec(Initial, steps, limit).value, tx, status, limit);
  }

  lemma StaysExactly(s: State, tx: TxId, status: Status, limit: nat)
    requires Sound(s) && HasStatus(s, tx, status) && Terminal(status)
    ensures AlwaysHas(s, tx, status, limit) <==> Settled(s, tx, limit) && (status == Failed || NobodyCancels(s, tx))
  {
    hide Exec, CanHave, Queued, Inv, StreamRises, AlwaysHas;
    var other := if status == Timeout then Failed else Timeout;
    if Queued(s, tx, limit) {
      QueuedCan(s, tx, other, limit);
      OtherStatusBreaks(s, tx, status, other, limit);
    } else if w :| Writes(PhaseOf(s, w), tx) {
      WriterFails(s, w, tx, other, limit);
      OtherStatusBreaks(s, tx, status, other, limit);
    } else if c :| status != Failed && Cancels(CancelPhaseOf(s, c), tx) {
      CancellerCan(s, c, tx, limit);
      OtherStatusBreaks(s, tx, status, Failed, limit);
    } else {
      assert Final(s, tx, status, limit);
      FinalHolds(s, tx, status, limit);
    }
  }

  lemma FinalHolds(s: State, tx: TxId, status: Status, limit: nat)
    requires Final(s, tx, status, limit) && Terminal(status)
    ensures AlwaysHas(s, tx, status, limit)
  {
    hide Exec, Settled, NobodyCancels;
    forall more | Exec(s, more, limit).Some? ensures HasStatus(Exec(s, more, limit).value, tx, status) {
      FinalForever(s, more, limit, tx, status);
    }
  }

  /** Cancelling writes FAILED, and the record stays FAILED in every continuation exactly when, at the time of
      cancelling, no message for the transaction is to come and no worker may still write its record. */
  lemma CancelIsFinalExactly(steps: seq<Step>, limit: nat, c: Canceller)
    requires Exec(Initial, steps, limit).Some? && Enabled(Exec(Initial, steps, limit).value, Cancel(c))
    ensures var s := Exec(Initial, steps, limit).value;
            var tx := CancelPhaseOf(s, c).tx;
            && HasStatus(Do(s, Cancel(c), limit), tx, Failed)
            && (AlwaysHas(Do(s, Cancel(c), limit), tx, Failed, limit) <==> Settled(s, tx, limit))
  {
    hide Exec, AlwaysHas, Inv, StreamRises, LocksAreHeld;
    RunIsSound(steps, limit);
    var s := Exec(Initial, steps, limit).value;
    var tx := CancelPhaseOf(s, c).tx;
    var s' := Do(s, Cancel(c), limit);
    StepKeepsSound(s, Cancel(c), limit);
    StaysExactly(s', tx, Failed, limit);
    CancelKeepsSettled(s, c, limit, tx);
  }

  lemma CancelKeepsSettled(s: State, c: Canceller, limit: nat, tx: TxId)
    requires Enabled(s, Cancel(c))
    ensures Settled(Do(s, Cancel(c), limit), tx, limit) <==> Settled(s, tx, limit)
  {
    hide Update;
    var s' := Do(s, Cancel(c), limit);
    assert s'.queue == s.queue && s'.saved == s.saved && s'.workers == s.workers;
    assert Queued(s', tx, limit) <==> Queued(s, tx, limit);
    assert forall w :: PhaseOf(s', w) == PhaseOf(s, w);
  }

  /** A transaction that is not COMPLETED, cancelled or not, can still end as COMPLETED exactly when a message
      for it is to come or a worker is still to run it. */
  lemma CompletesExactly(steps: seq<Step>, limit: nat, tx: TxId)
    requires Exec(Initial, steps, limit).Some?
    requires var s := Exec(Initial, steps, limit).value; tx in s.repo.hashes && s.repo.hashes[tx].status != Completed
    ensures var s := Exec(Initial, steps, limit).value;
            CanHave(s, tx, Completed, limit) <==> Runnable(s, tx, limit)
  {
    hide Exec, Queued;
    RunIsSound(steps, limit);
    var s := Exec(Initial, steps, limit).value;
    if Queued(s, tx, limit) {
      QueuedCan(s, tx, Completed, limit);
    } else if w :| Runs(PhaseOf(s, w), tx) {
      RunnerCan(s, w, tx, Completed, limit);
    } else {
      forall more | Exec(s, more, limit).Some? ensures !HasStatus(Exec(s, more, limit).value, tx, Completed) {
        NeverCompletes(s, more, limit, tx);
      }
    }
  }

  lemma {:induction false} NeverCompletes(s: State, more: seq<Step>, limit: nat, tx: TxId)
    requires tx in s.repo.hashes && s.repo.hashes[tx].status != Completed && !Runnable(s, tx, limit)
    requires Exec(s, more, limit).Some?
    ensures var e := Exec(s, more, limit).value;
            tx in e.repo.hashes && e.repo.hashes[tx].status != Completed && !Runnable(e, tx, limit)
  {
    hide Do, Enabled, Runnable;
    if more != [] {
      NeverCompletes(s, more[..|more| - 1], limit, tx);
      StepCompletesNothing(Exec(s, more[..|more| - 1], limit).value, more[|more| - 1], limit, tx);
    }
  }

  lemma StepCompletesNothing(s: State, step: Step, limit: nat, tx: TxId)
    requires Enabled(s, step) && tx in s.repo.hashes && s.repo.hashes[tx].status != Completed && !Runnable(s, tx, limit)
    ensures var s' := Do(s, step, limit);
            tx in s'.repo.hashes && s'.repo.hashes[tx].status != Completed && !Runnable(s', tx, limit)
  {
    hide Queued, Do;
    var s' := Do(s, step, limit);
    QueueStaysEmpty(s, step, limit, tx);
    QueuedHolds(s, tx, limit);
    forall w ensures !Runs(PhaseOf(s', w), tx) {
      WorkersStayDone(s, step, limit, tx, w);
    }
    OnlyRunnersComplete(s, step, limit, tx);
  }

  lemma OnlyRunnersComplete(s: State, step: Step, limit: nat, tx: TxId)
    requires Enabled(s, step) && tx in s.repo.hashes && s.repo.hashes[tx].status != Completed
    requires step.Complete? ==> !Runs(PhaseOf(s, step.w), tx)
    ensures var s' := Do(s, step, limit); tx in s'.repo.hashes && s'.repo.hashes[tx].status != Completed
  {
    hide Deliver, Enqueue, Acknowledge, TenantSet;
  }

  // ---------- runs from the start ----------

  const First := Message(0, 0)

  function Locked(cs: map<Canceller, CancelPhase>): set<TxId> {
    if 0 in cs && Holds(cs[0], 0) then {0} else {}
  }

  function OneRepo(tenant: Tenant, query: string, status: Status, rows: nat, error: string): Repo {
    Repo(map[0 := TxRecord(tenant, query, status, rows, error)], map[tenant := {0}], if status == Running then {0} else {})
  }

  /** One transaction, saved but not sent yet. */
  function Unsent(repo: Repo, cs: map<Canceller, CancelPhase>): State {
    State(repo, EmptyQueue, {0}, map[], cs, Locked(cs), map[], {})
  }

  /** One transaction, sent and in the hands of a worker. */
  function Taken(repo: Repo, p: Phase, cs: map<Canceller, CancelPhase>): State {
    State(repo, Queue([First], 1, {0}, 1), {}, map[0 := p], cs, Locked(cs), map[0 := 0], {})
  }

  lemma SubmitRun(tenant: Tenant, query: string, limit: nat)
    ensures Exec(Initial, [Submit(0, tenant, query)], limit) == Some(Unsent(OneRepo(tenant, query, Pending, 0, ""), map[]))
  {
    hide Exec;
    var s := Do(Initial, Submit(0, tenant, query), limit);
    assert s.saved == {0} && s.repo.tenants == map[tenant := {0}];
    ExecOne(Initial, Submit(0, tenant, query), limit);
  }

  lemma SendRun(repo: Repo, cs: map<Canceller, CancelPhase>, limit: nat)
    requires limit > 0 && 0 in repo.hashes
    ensures Exec(Unsent(repo, cs), [Send(0), Take(0), Load(0)], limit) == Some(Taken(repo, Loaded(First), cs))
  {
    hide Exec;
    var s := Unsent(repo, cs);
    var t := State(repo, Queue([First], 0, {}, 1), {}, map[], cs, Locked(cs), map[0 := 0], {});
    assert s.saved - {0} == {};
    assert Do(s, Send(0), limit) == t;
    assert NextMessage([First], 0) == Some(First);
    assert Do(t, Take(0), limit) == Taken(repo, Got(First), cs);
    assert Do(Taken(repo, Got(First), cs), Load(0), limit) == Taken(repo, Loaded(First), cs);
    ExecTwo(t, Take(0), Load(0), limit);
    ExecOne(s, Send(0), limit);
    ExecJoins(s, [Send(0)], [Take(0), Load(0)], limit);
    assert [Send(0)] + [Take(0), Load(0)] == [Send(0), Take(0), Load(0)];
  }

  lemma UpdatesOne(tenant: Tenant, query: string, status: Status, next: Status, rows: nat, error: string, reason: string)
    ensures Update(OneRepo(tenant, query, status, 0, error), 0, next, rows, reason) == OneRepo(tenant, query, next, rows, reason)
  {
    var r := Update(OneRepo(tenant, query, status, 0, error), 0, next, rows, reason);
    assert r.hashes == map[0 := TxRecord(tenant, query, next, rows, reason)];
    assert r.running == if next == Running then {0} else {};
  }

  lemma FinishRun(tenant: Tenant, query: string, status: Status, rows: nat, error: string, cs: map<Canceller, CancelPhase>, limit: nat)
    ensures Exec(Taken(OneRepo(tenant, query, status, 0, error), Loaded(First), cs), [Start(0), Complete(0, rows)], limit)
         == Some(Taken(OneRepo(tenant, query, Completed, rows, ""), Finished(First, false), cs))
  {
    hide Exec;
    var s := Taken(OneRepo(tenant, query, status, 0, error), Loaded(First), cs);
    assert Do(s, Start(0), limit) == Taken(OneRepo(tenant, query, Running, 0, ""), Executing(First), cs) by {
      UpdatesOne(tenant, query, status, Running, 0, error, "");
    }
    var t := Taken(OneRepo(tenant, query, Running, 0, ""), Executing(First), cs);
    UpdatesOne(tenant, query, Running, Completed, rows, "", "");
    assert Do(t, Complete(0, rows), limit).workers == map[0 := Finished(First, false)];
    ExecTwo(s, Start(0), Complete(0, rows), limit);
  }

  /** Looking at a record that is not terminal, and taking its lock. */
  lemma LookRun(s: State, limit: nat)
    requires s.cancellers == map[] && s.locks == {} && 0 in s.repo.hashes && s.repo.hashes[0].status == Pending
    ensures Exec(s, [Look(0, 0), Lock(0)], limit) == Some(s.(cancellers := map[0 := Holding(0)], locks := {0}))
  {
    hide Exec;
    assert Do(s, Look(0, 0), limit) == s.(cancellers := map[0 := Seen(0)]);
    var t := Do(Do(s, Look(0, 0), limit), Lock(0), limit);
    assert t.cancellers == map[0 := Holding(0)] && t.locks == {0};
    ExecTwo(s, Look(0, 0), Lock(0), limit);
  }

  lemma CancelRun(s: State, limit: nat)
    requires s.cancellers == map[0 := Holding(0)] && 0 in s.repo.hashes
    ensures Exec(s, [Cancel(0)], limit)
         == Some(s.(repo := Update(s.repo, 0, Failed, 0, "Cancelled by user"), cancellers := map[0 := Cancelled(0)]))
  {
    hide Exec;
    assert Do(s, Cancel(0), limit).cancellers == map[0 := Cancelled(0)];
    ExecOne(s, Cancel(0), limit);
  }

  /** A transaction cancelled while a worker has it still runs and ends as COMPLETED. */
  lemma CancelledCompletes(tenant: Tenant, query: string, rows: nat, limit: nat)
    requires limit > 0
    ensures var run := [Submit(0, tenant, query), Send(0), Take(0), Load(0), Look(0, 0), Lock(0), Cancel(0)];
            && Exec(Initial, run, limit).Some? && HasStatus(Exec(Initial, run, limit).value, 0, Failed)
            && Exec(Initial, run + [Start(0), Complete(0, rows)], limit).Some?
            && HasStatus(Exec(Initial, run + [Start(0), Complete(0, rows)], limit).value, 0, Completed)
  {
    hide Exec, Do, Enabled;
    var a, b, c, d := [Submit(0, tenant, query)], [Send(0), Take(0), Load(0)], [Look(0, 0), Lock(0)], [Cancel(0)];
    var repo := OneRepo(tenant, query, Pending, 0, "");
    var loaded := Taken(repo, Loaded(First), map[]);
    SubmitRun(tenant, query, limit);
    SendRun(repo, map[], limit);
    ExecJoins(Initial, a, b, limit);
    LookRun(loaded, limit);
    ExecJoins(Initial, a + b, c, limit);
    UpdatesOne(tenant, query, Pending, Failed, 0, "", "Cancelled by user");
    CancelRun(loaded.(cancellers := map[0 := Holding(0)], locks := {0}), limit);
    ExecJoins(Initial, a + b + c, d, limit);
    assert a + b + c + d == [Submit(0, tenant, query), Send(0), Take(0), Load(0), Look(0, 0), Lock(0), Cancel(0)];
    FinishRun(tenant, query, Failed, rows, "Cancelled by user", map[0 := Cancelled(0)], limit);
    ExecJoins(Initial, a + b + c + d, [Start(0), Complete(0, rows)], limit);
  }

  /** So does one cancelled before its message is even sent, long after the canceller has gone. */
  lemma CancelledWhileWaiting(tenant: Tenant, query: string, rows: nat, limit: nat)
    requires limit > 0
    ensures var run := [Submit(0, tenant, query), Look(0, 0), Lock(0), Cancel(0), Release(0)];
            var rest := [Send(0), Take(0), Load(0), Start(0), Complete(0, rows)];
            && Exec(Initial, run, limit).Some? && HasStatus(Exec(Initial, run, limit).value, 0, Failed)
            && Exec(Initial, run + rest, limit).Some? && HasStatus(Exec(Initial, run + rest, limit).value, 0, Completed)
  {
    hide Exec, Enabled;
    var a, b, c, d := [Submit(0, tenant, query)], [Look(0, 0), Lock(0)], [Cancel(0)], [Release(0)];
    var repo := OneRepo(tenant, query, Pending, 0, "");
    SubmitRun(tenant, query, limit);
    LookRun(Unsent(repo, map[]), limit);
    ExecJoins(Initial, a, b, limit);
    CancelRun(Unsent(repo, map[0 := Holding(0)]), limit);
    ExecJoins(Initial, a + b, c, limit);
    UpdatesOne(tenant, query, Pending, Failed, 0, "", "Cancelled by user");
    var failed := OneRepo(tenant, query, Failed, 0, "Cancelled by user");
    ReleaseRun(failed, limit);
    ExecJoins(Initial, a + b + c, d, limit);
    assert a + b + c + d == [Submit(0, tenant, query), Look(0, 0), Lock(0), Cancel(0), Release(0)];
    SendRun(failed, map[0 := Resting], limit);
    ExecJoins(Initial, a + b + c + d, [Send(0), Take(0), Load(0)], limit);
    FinishRun(tenant, query, Failed, rows, "Cancelled by user", map[0 := Resting], limit);
    ExecJoins(Initial, a + b + c + d + [Send(0), Take(0), Load(0)], [Start(0), Complete(0, rows)], limit);
    assert a + b + c + d + [Send(0), Take(0), Load(0)] + [Start(0), Complete(0, rows)]
        == (a + b + c + d) + [Send(0), Take(0), Load(0), Start(0), Complete(0, rows)];
  }

  lemma ReleaseRun(repo: Repo, limit: nat)
    ensures Exec(Unsent(repo, map[0 := Cancelled(0)]), [Release(0)], limit) == Some(Unsent(repo, map[0 := Resting]))
  {
    hide Exec;
    var s := Unsent(repo, map[0 := Cancelled(0)]);
    var t := Do(s, Release(0), limit);
    assert t.cancellers == map[0 := Resting] && t.locks == {};
    ExecOne(s, Release(0), limit);
  }

  /** A canceller that looked in time turns a transaction that has since been COMPLETED into FAILED. */
  lemma CompletedIsCancelled(tenant: Tenant, query: string, rows: nat, limit: nat)
    requires limit > 0
    ensures var run := [Submit(0, tenant, query), Send(0), Take(0), Load(0), Look(0, 0), Lock(0), Start(0), Complete(0, rows)];
            && Exec(Initial, run, limit).Some? && HasStatus(Exec(Initial, run, limit).value, 0, Completed)
            && Exec(Initial, run + [Cancel(0)], limit).Some? && HasStatus(Exec(Initial, run + [Cancel(0)], limit).value, 0, Failed)
  {
    hide Exec, Do, Enabled;
    var a, b, c, d := [Submit(0, tenant, query)], [Send(0), Take(0), Load(0)], [Look(0, 0), Lock(0)], [Start(0), Complete(0, rows)];
    var repo := OneRepo(tenant, query, Pending, 0, "");
    var loaded := Taken(repo, Loaded(First), map[]);
    SubmitRun(tenant, query, limit);
    SendRun(repo, map[], limit);
    ExecJoins(Initial, a, b, limit);
    LookRun(loaded, limit);
    ExecJoins(Initial, a + b, c, limit);
    FinishRun(tenant, query, Pending, rows, "", map[0 := Holding(0)], limit);
    ExecJoins(Initial, a + b + c, d, limit);
    assert a + b + c + d == [Submit(0, tenant, query), Send(0), Take(0), Load(0), Look(0, 0), Lock(0), Start(0), Complete(0, rows)];
    CancelRun(Taken(OneRepo(tenant, query, Completed, rows, ""), Finished(First, false), map[0 := Holding(0)]), limit);
    ExecJoins(Initial, a + b + c + d, [Cancel(0)], limit);
  }
}
