/** Submitters, workers and cancellers as interleaved steps over the job stores, one repository or queue
    operation at a time. */
module Jobs {
  import opened Prelude
  import opened JobStores

  type Worker = nat
  type Canceller = nat

  /** Where a worker is with its message. */
  datatype Phase =
    | Idle
    | Got(m: Message)
    | Missing(m: Message)
    | Loaded(m: Message)
    | Executing(m: Message)
    | Finished(m: Message, handled: bool)

  datatype CancelPhase =
    | Resting
    | Seen(tx: TxId)
    | Holding(tx: TxId)
    | Cancelled(tx: TxId)

  /** `sent` and `acked` record which message was sent for which transaction and what was acknowledged. */
  datatype State = State(
    repo: Repo,
    queue: Queue,
    saved: set<TxId>,
    workers: map<Worker, Phase>,
    cancellers: map<Canceller, CancelPhase>,
    locks: set<TxId>,
    sent: map<MessageId, TxId>,
    acked: set<MessageId>)

  const Initial := State(EmptyRepo, EmptyQueue, {}, map[], map[], {}, map[], {})

  datatype Step =
    | Submit(tx: TxId, tenant: Tenant, query: string)
    | Send(tx: TxId)
    | Take(w: Worker)
    | Load(w: Worker)
    | Start(w: Worker)
    | Complete(w: Worker, rows: nat)
    | Fail(w: Worker, status: Status, error: string)
    | Ack(w: Worker)
    | Crash(w: Worker)
    | Look(c: Canceller, tx: TxId)
    | Lock(c: Canceller)
    | Cancel(c: Canceller)
    | Release(c: Canceller)

  function PhaseOf(s: State, w: Worker): Phase {
    if w in s.workers then s.workers[w] else Idle
  }

  function CancelPhaseOf(s: State, c: Canceller): CancelPhase {
    if c in s.cancellers then s.cancellers[c] else Resting
  }

  predicate Enabled(s: State, step: Step) {
    match step
    case Submit(tx, _, _) => tx !in s.repo.hashes
    case Send(tx) => tx in s.saved
    case Take(w) => PhaseOf(s, w).Idle?
    case Load(w) => PhaseOf(s, w).Got?
    case Start(w) => PhaseOf(s, w).Loaded?
    case Complete(w, _) => PhaseOf(s, w).Executing?
    case Fail(w, status, _) =>
      (status == Failed || status == Timeout)
      && (PhaseOf(s, w).Got? || PhaseOf(s, w).Loaded? || PhaseOf(s, w).Executing? || (PhaseOf(s, w).Finished? && !PhaseOf(s, w).handled))
    case Ack(w) => PhaseOf(s, w).Finished? || PhaseOf(s, w).Missing?
    case Crash(w) => !PhaseOf(s, w).Idle?
    case Look(c, tx) =>
      CancelPhaseOf(s, c).Resting? && tx in s.repo.hashes && (s.repo.hashes[tx].status == Pending || s.repo.hashes[tx].status == Running)
    case Lock(c) => CancelPhaseOf(s, c).Seen? && CancelPhaseOf(s, c).tx !in s.locks
    case Cancel(c) => CancelPhaseOf(s, c).Holding?
    case Release(c) => !CancelPhaseOf(s, c).Resting?
  }

  function At(s: State, w: Worker, p: Phase): State {
    s.(workers := s.workers[w := p])
  }

  function CancelAt(s: State, c: Canceller, p: CancelPhase): State {
    s.(cancellers := s.cancellers[c := p])
  }

  function Do(s: State, step: Step, limit: nat): State
    requires Enabled(s, step)
  {
    match step
    case Submit(tx, tenant, query) => s.(repo := Save(s.repo, tx, tenant, query, Pending), saved := s.saved + {tx})
    case Send(tx) => s.(queue := Enqueue(s.queue, tx, limit), saved := s.saved - {tx}, sent := s.sent[s.queue.nextId := tx])
    case Take(w) =>
      var m := NextMessage(s.queue.stream, s.queue.delivered);
      if m.None? then s else At(s, w, Got(m.value)).(queue := Deliver(s.queue))
    case Load(w) =>
      var m := PhaseOf(s, w).m;
      At(s, w, if m.tx in s.repo.hashes then Loaded(m) else Missing(m))
    case Start(w) =>
      var m := PhaseOf(s, w).m;
      At(s, w, Executing(m)).(repo := Update(s.repo, m.tx, Running, 0, ""))
    case Complete(w, rows) =>
      var m := PhaseOf(s, w).m;
      At(s, w, Finished(m, false)).(repo := Update(s.repo, m.tx, Completed, rows, ""))
    case Fail(w, status, error) =>
      var m := PhaseOf(s, w).m;
      At(s, w, Finished(m, true)).(repo := Update(s.repo, m.tx, status, 0, error))
    case Ack(w) =>
      var m := PhaseOf(s, w).m;
      At(s, w, Idle).(queue := Acknowledge(s.queue, m.id), acked := s.acked + {m.id})
    case Crash(w) => At(s, w, Idle)
    case Look(c, tx) => CancelAt(s, c, Seen(tx))
    case Lock(c) => CancelAt(s, c, Holding(CancelPhaseOf(s, c).tx)).(locks := s.locks + {CancelPhaseOf(s, c).tx})
    case Cancel(c) =>
      var tx := CancelPhaseOf(s, c).tx;
      CancelAt(s, c, Cancelled(tx)).(repo := Update(s.repo, tx, Failed, 0, "Cancelled by user"))
    case Release(c) =>
      var p := CancelPhaseOf(s, c);
      CancelAt(s, c, Resting).(locks := if p.Seen? then s.locks else s.locks - {p.tx})
  }

  /** The state after a run, if every step was possible. */
  function Exec(s: State, steps: seq<Step>, limit: nat): Option<State> {
    if steps == [] then Some(s)
    else
      var before := Exec(s, steps[..|steps| - 1], limit);
      if before.Some? && Enabled(before.value, steps[|steps| - 1]) then Some(Do(before.value, steps[|steps| - 1], limit)) else None
  }

  // ---------- the invariant ----------

  ghost predicate RunningAgrees(r: Repo) {
    forall tx :: tx in r.running <==> tx in r.hashes && r.hashes[tx].status == Running
  }

  ghost predicate SentOnce(s: State) {
    && (forall id: MessageId :: id in s.sent <==> id < s.queue.nextId)
    && (forall i, j :: i in s.sent && j in s.sent && s.sent[i] == s.sent[j] ==> i == j)
    && (forall i :: i in s.sent ==> s.sent[i] in s.repo.hashes && s.sent[i] !in s.saved)
    && s.saved <= s.repo.hashes.Keys
  }

  predicate IsSent(s: State, m: Message) {
    m.id in s.sent && s.sent[m.id] == m.tx
  }

  ghost predicate StreamAgrees(s: State) {
    forall m :: m in s.queue.stream ==> IsSent(s, m)
  }

  ghost predicate WorkerAgrees(s: State, w: Worker) {
    var p := PhaseOf(s, w);
    !p.Idle? ==>
      && IsSent(s, p.m) && p.m.id < s.queue.delivered && p.m.id !in s.acked && !p.Missing?
      && (p.Finished? ==> p.m.tx in s.repo.hashes && Terminal(s.repo.hashes[p.m.tx].status))
  }

  ghost predicate OneEach(s: State) {
    forall v, w :: !PhaseOf(s, v).Idle? && !PhaseOf(s, w).Idle? && PhaseOf(s, v).m.id == PhaseOf(s, w).m.id ==> v == w
  }

  ghost predicate AckAgrees(s: State) {
    forall id :: id in s.acked ==>
      id in s.sent && id < s.queue.delivered && s.sent[id] in s.repo.hashes && Terminal(s.repo.hashes[s.sent[id]].status)
  }

  ghost predicate Inv(s: State) {
    && RunningAgrees(s.repo) && SentOnce(s) && StreamAgrees(s) && OneEach(s) && AckAgrees(s)
    && (forall w :: WorkerAgrees(s, w))
    && s.queue.delivered <= s.queue.nextId
  }

  lemma UpdateKeepsIndex(r: Repo, tx: TxId, status: Status, count: nat, error: string)
    requires RunningAgrees(r)
    ensures RunningAgrees(Update(r, tx, status, count, error)) && Update(r, tx, status, count, error).hashes.Keys == r.hashes.Keys
  {
  }

  lemma SaveKeepsIndex(r: Repo, tx: TxId, tenant: Tenant, query: string)
    requires RunningAgrees(r) && tx !in r.hashes
    ensures RunningAgrees(Save(r, tx, tenant, query, Pending))
  {
  }

  lemma StepKeepsIndex(s: State, step: Step, limit: nat)
    requires RunningAgrees(s.repo) && Enabled(s, step)
    ensures RunningAgrees(Do(s, step, limit).repo)
  {
    hide RunningAgrees, Save, Update, Deliver, Enqueue, Acknowledge;
    match step {
      case Submit(tx, tenant, query) => SaveKeepsIndex(s.repo, tx, tenant, query);
      case Start(w) => UpdateKeepsIndex(s.repo, PhaseOf(s, w).m.tx, Running, 0, "");
      case Complete(w, rows) => UpdateKeepsIndex(s.repo, PhaseOf(s, w).m.tx, Completed, rows, "");
      case Fail(w, status, error) => UpdateKeepsIndex(s.repo, PhaseOf(s, w).m.tx, status, 0, error);
      case Cancel(c) => UpdateKeepsIndex(s.repo, CancelPhaseOf(s, c).tx, Failed, 0, "Cancelled by user");
      case _ =>
    }
  }

  /** Records are never removed, and no step but a start makes a transaction run. */
  lemma StepOnRecords(s: State, step: Step, limit: nat, tx: TxId)
    requires Enabled(s, step) && tx in s.repo.hashes
    ensures tx in Do(s, step, limit).repo.hashes
    ensures !(step.Start? && PhaseOf(s, step.w).m.tx == tx) && Terminal(s.repo.hashes[tx].status)
      ==> Terminal(Do(s, step, limit).repo.hashes[tx].status)
    ensures (step.Complete? || step.Fail?) && PhaseOf(s, step.w).m.tx == tx ==> Terminal(Do(s, step, limit).repo.hashes[tx].status)
  {
    hide Deliver, Enqueue, Acknowledge, TenantSet;
  }

  lemma StepKeepsSent(s: State, step: Step, limit: nat)
    requires SentOnce(s) && Enabled(s, step)
    ensures SentOnce(Do(s, step, limit))
  {
    hide NextMessage, Without, TenantSet;
    var s' := Do(s, step, limit);
    forall tx | tx in s.repo.hashes ensures tx in s'.repo.hashes { StepOnRecords(s, step, limit, tx); }
  }

  lemma {:induction false} WithoutIsPart(stream: seq<Message>, id: MessageId, m: Message)
    requires m in Without(stream, id)
    ensures m in stream
  {
    if m !in [stream[0]] || stream[0].id == id {
      WithoutIsPart(stream[1..], id, m);
    }
  }

  lemma StepKeepsStream(s: State, step: Step, limit: nat)
    requires SentOnce(s) && StreamAgrees(s) && Enabled(s, step)
    ensures StreamAgrees(Do(s, step, limit))
  {
    hide NextMessage, Without, Save, Update;
    var s' := Do(s, step, limit);
    forall m | m in s'.queue.stream ensures IsSent(s', m) {
      if step.Ack? {
        WithoutIsPart(s.queue.stream, PhaseOf(s, step.w).m.id, m);
      }
      assert m in s.queue.stream ==> IsSent(s, m);
    }
  }

  lemma StepKeepsDelivered(s: State, step: Step, limit: nat)
    requires SentOnce(s) && StreamAgrees(s) && Enabled(s, step) && s.queue.delivered <= s.queue.nextId
    ensures var q := Do(s, step, limit).queue; s.queue.delivered <= q.delivered <= q.nextId && s.queue.nextId <= q.nextId
  {
    hide NextMessage, Without, Save, Update;
    var m := NextMessage(s.queue.stream, s.queue.delivered);
    assert m.Some? ==> IsSent(s, m.value);
  }

  lemma StepKeepsOneEach(s: State, step: Step, limit: nat)
    requires Inv(s) && Enabled(s, step)
    ensures OneEach(Do(s, step, limit))
  {
    hide Without, Save, Update, Enqueue, Acknowledge, RunningAgrees, SentOnce, StreamAgrees, AckAgrees, NextMessage, IsSent, Terminal;
    var s' := Do(s, step, limit);
    forall v, w | !PhaseOf(s', v).Idle? && !PhaseOf(s', w).Idle? && PhaseOf(s', v).m.id == PhaseOf(s', w).m.id
      ensures v == w
    {
      assert WorkerAgrees(s, v) && WorkerAgrees(s, w);
    }
  }

  /** How one step moves a worker. */
  lemma WorkerMoves(s: State, step: Step, limit: nat, w: Worker)
    requires Enabled(s, step)
    ensures var p, p' := PhaseOf(s, w), PhaseOf(Do(s, step, limit), w);
            || p' == p || p'.Idle?
            || (step == Take(w) && NextMessage(s.queue.stream, s.queue.delivered).Some?
                && p' == Got(NextMessage(s.queue.stream, s.queue.delivered).value)
                && Do(s, step, limit).queue.delivered == p'.m.id + 1)
            || (!p.Idle? && p'.m == p.m && (p'.Missing? ==> p.m.tx !in s.repo.hashes)
                && (p'.Finished? ==> (step.Complete? || step.Fail?) && step.w == w))
    ensures step.Ack? && step.w == w ==> PhaseOf(Do(s, step, limit), w).Idle?
  {
    hide Without, Save, Update, NextMessage, TenantSet, Enqueue, Acknowledge;
  }

  lemma StepKeepsWorker(s: State, step: Step, limit: nat, w: Worker)
    requires Inv(s) && Enabled(s, step)
    ensures WorkerAgrees(Do(s, step, limit), w)
  {
    hide RunningAgrees, AckAgrees, StreamAgrees, NextMessage, Terminal, Do, Enabled;
    var s' := Do(s, step, limit);
    var p := PhaseOf(s', w);
    assert WorkerAgrees(s, w);
    WorkerMoves(s, step, limit, w);
    StepKeepsDelivered(s, step, limit);
    AcksAfter(s, step, limit);
    AckedIsDelivered(s);
    if step.Ack? || step.Start? {
      AckHasMessage(s, step);
    }
    if step == Take(w) {
      TakenIsSent(s);
    }
    if !p.Idle? {
      if !PhaseOf(s, w).Idle? {
        OthersKeepMessages(s, step, w);
      }
      if p.Finished? {
        StepOnRecords(s, step, limit, p.m.tx);
      }
    }
  }

  lemma AckHasMessage(s: State, step: Step)
    requires Enabled(s, step) && (step.Ack? || step.Start?)
    ensures !PhaseOf(s, step.w).Idle? && (step.Start? ==> PhaseOf(s, step.w).Loaded?)
  {
  }

  lemma TakenIsSent(s: State)
    requires StreamAgrees(s)
    ensures var m := NextMessage(s.queue.stream, s.queue.delivered); m.Some? ==> IsSent(s, m.value)
  {
    hide NextMessage;
  }

  /** A step by another worker is about another message and another transaction. */
  lemma OthersKeepMessages(s: State, step: Step, w: Worker)
    requires OneEach(s) && SentOnce(s) && (forall v :: WorkerAgrees(s, v)) && !PhaseOf(s, w).Idle?
    ensures (step.Start? || step.Ack?) && step.w != w && !PhaseOf(s, step.w).Idle?
      ==> PhaseOf(s, step.w).m.id != PhaseOf(s, w).m.id && PhaseOf(s, step.w).m.tx != PhaseOf(s, w).m.tx
  {
    assert WorkerAgrees(s, w);
    assert step.Start? || step.Ack? ==> WorkerAgrees(s, step.w);
  }

  lemma AckedIsDelivered(s: State)
    requires AckAgrees(s)
    ensures forall id :: id in s.acked ==> id < s.queue.delivered
  {
  }

  lemma StepKeepsAcks(s: State, step: Step, limit: nat)
    requires Inv(s) && Enabled(s, step)
    ensures AckAgrees(Do(s, step, limit))
  {
    hide Without, Save, Update, RunningAgrees, NextMessage, Terminal, TenantSet, Do;
    var s' := Do(s, step, limit);
    StepKeepsDelivered(s, step, limit);
    AcksAfter(s, step, limit);
    forall id | id in s'.acked
      ensures id in s'.sent && id < s'.queue.delivered && s'.sent[id] in s'.repo.hashes && Terminal(s'.repo.hashes[s'.sent[id]].status)
    {
      if step.Start? || step.Ack? {
        assert WorkerAgrees(s, step.w);
      }
      assert id in s.sent;
      StepOnRecords(s, step, limit, s.sent[id]);
    }
  }

  lemma AcksAfter(s: State, step: Step, limit: nat)
    requires SentOnce(s) && Enabled(s, step)
    ensures var s' := Do(s, step, limit);
            && s'.acked == (if step.Ack? then s.acked + {PhaseOf(s, step.w).m.id} else s.acked)
            && forall id :: id in s.sent ==> id in s'.sent && s'.sent[id] == s.sent[id]
  {
    hide Without, Save, Update, NextMessage;
  }

  lemma StepKeepsInv(s: State, step: Step, limit: nat)
    requires Inv(s) && Enabled(s, step)
    ensures Inv(Do(s, step, limit))
  {
    hide RunningAgrees, SentOnce, StreamAgrees, OneEach, AckAgrees, WorkerAgrees, Do;
    StepKeepsIndex(s, step, limit);
    StepKeepsSent(s, step, limit);
    StepKeepsStream(s, step, limit);
    StepKeepsDelivered(s, step, limit);
    StepKeepsOneEach(s, step, limit);
    StepKeepsAcks(s, step, limit);
    forall w ensures WorkerAgrees(Do(s, step, limit), w) {
      StepKeepsWorker(s, step, limit, w);
    }
  }

  lemma {:induction false} RunKeepsInv(s: State, steps: seq<Step>, limit: nat)
    requires Inv(s) && Exec(s, steps, limit).Some?
    ensures Inv(Exec(s, steps, limit).value)
  {
    hide Inv, Do, Enabled;
    if steps != [] {
      RunKeepsInv(s, steps[..|steps| - 1], limit);
      StepKeepsInv(Exec(s, steps[..|steps| - 1], limit).value, steps[|steps| - 1], limit);
    }
  }

  lemma InitialInv()
    ensures Inv(Initial)
  {
  }

  // ---------- the theorems ----------

  /** In every interleaving the index of running transactions holds exactly those with status RUNNING. */
  lemma RunningSetIsExact(steps: seq<Step>, limit: nat, tx: TxId)
    requires Exec(Initial, steps, limit).Some?
    ensures var r := Exec(Initial, steps, limit).value.repo;
            tx in r.running <==> tx in r.hashes && r.hashes[tx].status == Running
  {
    hide Exec;
    InitialInv();
    RunKeepsInv(Initial, steps, limit);
  }

  /** A message is acknowledged only when its transaction exists and has a terminal status. */
  lemma AckNeedsTerminal(steps: seq<Step>, limit: nat, w: Worker)
    requires Exec(Initial, steps, limit).Some? && Enabled(Exec(Initial, steps, limit).value, Ack(w))
    ensures var s := Exec(Initial, steps, limit).value;
            var tx := PhaseOf(s, w).m.tx;
            tx in s.repo.hashes && Terminal(s.repo.hashes[tx].status)
  {
    hide Exec;
    InitialInv();
    RunKeepsInv(Initial, steps, limit);
    assert WorkerAgrees(Exec(Initial, steps, limit).value, w);
  }

  lemma {:induction false} AckStays(s: State, steps: seq<Step>, limit: nat, id: MessageId)
    requires Inv(s) && Exec(s, steps, limit).Some? && id in s.acked
    ensures var e := Exec(s, steps, limit).value; id in e.acked && id in e.sent && id in s.sent && e.sent[id] == s.sent[id]
  {
    hide Do, Enabled, RunningAgrees, StreamAgrees, OneEach, WorkerAgrees;
    if steps != [] {
      var n := |steps| - 1;
      AckStays(s, steps[..n], limit, id);
      RunKeepsInv(s, steps[..n], limit);
      AcksAfter(Exec(s, steps[..n], limit).value, steps[n], limit);
    }
  }

  /** After its message is acknowledged a transaction stays terminal and out of the running index, in
      every continuation of every run. */
  lemma AckIsFinal(steps: seq<Step>, more: seq<Step>, limit: nat, id: MessageId)
    requires Exec(Initial, steps, limit).Some? && Exec(Exec(Initial, steps, limit).value, more, limit).Some?
    requires id in Exec(Initial, steps, limit).value.acked
    ensures var s := Exec(Initial, steps, limit).value;
            var e := Exec(s, more, limit).value;
            id in s.sent && s.sent[id] in e.repo.hashes && Terminal(e.repo.hashes[s.sent[id]].status) && s.sent[id] !in e.repo.running
  {
    hide Exec;
    InitialInv();
    RunKeepsInv(Initial, steps, limit);
    var s := Exec(Initial, steps, limit).value;
    RunKeepsInv(s, more, limit);
    AckStays(s, more, limit, id);
  }

  // ---------- what cancelling does not do ----------

  /** A cancelled transaction still runs: whatever its record says, a worker that has loaded it starts it,
      completes it, and the record ends as COMPLETED. */
  lemma CancelledStillCompletes(steps: seq<Step>, limit: nat, w: Worker, rows: nat)
    requires Exec(Initial, steps, limit).Some?
    requires PhaseOf(Exec(Initial, steps, limit).value, w).Loaded?
    ensures var s := Exec(Initial, steps, limit).value;
            var tx := PhaseOf(s, w).m.tx;
            var e := Exec(s, [Start(w), Complete(w, rows)], limit);
            e.Some? && tx in e.value.repo.hashes && e.value.repo.hashes[tx].status == Completed
  {
    hide Exec;
    var s := Exec(Initial, steps, limit).value;
    LoadedExists(steps, limit, w);
    ExecTwo(s, Start(w), Complete(w, rows), limit);
  }

  lemma LoadedExists(steps: seq<Step>, limit: nat, w: Worker)
    requires Exec(Initial, steps, limit).Some? && !PhaseOf(Exec(Initial, steps, limit).value, w).Idle?
    ensures var s := Exec(Initial, steps, limit).value; PhaseOf(s, w).m.tx in s.repo.hashes
  {
    hide Exec;
    InitialInv();
    RunKeepsInv(Initial, steps, limit);
    assert WorkerAgrees(Exec(Initial, steps, limit).value, w);
  }

  lemma ExecTwo(s: State, a: Step, b: Step, limit: nat)
    requires Enabled(s, a) && Enabled(Do(s, a, limit), b)
    ensures Exec(s, [a, b], limit) == Some(Do(Do(s, a, limit), b, limit))
  {
    hide Do, Enabled;
    var one, two: seq<Step> := [a], [a, b];
    var none: seq<Step> := [];
    assert one[..0] == none && two[..1] == one;
    assert Exec(s, none, limit) == Some(s);
    assert Exec(s, one, limit) == Some(Do(s, a, limit));
  }

  /** A canceller that looked in time overwrites a result that arrived since: a completed transaction can
      end as FAILED. */
  lemma LateCancelOverwrites(s: State, c: Canceller, limit: nat)
    requires CancelPhaseOf(s, c).Holding? && CancelPhaseOf(s, c).tx in s.repo.hashes
    ensures Enabled(s, Cancel(c))
    ensures Do(s, Cancel(c), limit).repo.hashes[CancelPhaseOf(s, c).tx].status == Failed
  {
  }
}
