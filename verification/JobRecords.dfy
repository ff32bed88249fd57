/** What transaction records and the stream hold in every run: submissions, results, tenants, and the order in which
    messages are delivered. */
module JobRecords {
  import opened Prelude
  import opened JobStores
  import opened Jobs

  // ---------- what one step writes ----------

  /** What a step writes into a record: its transaction, status, result count and error. */
  datatype Written = Written(tx: TxId, status: Status, count: nat, error: string)

  /** A start, a completion, a failure or a cancellation writes the record of its transaction. */
  function WrittenBy(s: State, step: Step): Option<Written>
    requires Enabled(s, step)
  {
    match step
    case Start(w) => Some(Written(PhaseOf(s, w).m.tx, Running, 0, ""))
    case Complete(w, rows) => Some(Written(PhaseOf(s, w).m.tx, Completed, rows, ""))
    case Fail(w, status, error) => Some(Written(PhaseOf(s, w).m.tx, status, 0, error))
    case Cancel(c) => Some(Written(CancelPhaseOf(s, c).tx, Failed, 0, "Cancelled by user"))
    case _ => None
  }

  predicate Shows(r: TxRecord, x: Written) {
    r.status == x.status && r.resultCount == x.count && r.error == x.error
  }

  predicate SameRequest(r: TxRecord, tenant: Tenant, query: string) {
    r.tenant == tenant && r.query == query
  }

  /** A step leaves every record as it was, except that a submission adds a pending one and that a written one shows
      what was written, for the same tenant and query. */
  lemma StepWrites(s: State, step: Step, limit: nat, tx: TxId)
    requires Enabled(s, step)
    ensures var before, after := s.repo.hashes, Do(s, step, limit).repo.hashes;
      && (tx in before ==> tx in after && SameRequest(after[tx], before[tx].tenant, before[tx].query))
      && (tx in before && WrittenBy(s, step).Some? && WrittenBy(s, step).value.tx == tx ==> Shows(after[tx], WrittenBy(s, step).value))
      && (tx in before && (WrittenBy(s, step).None? || WrittenBy(s, step).value.tx != tx) ==> after[tx] == before[tx])
      && (tx !in before ==> (tx in after <==> step.Submit? && step.tx == tx))
      && (tx !in before && tx in after ==> SameRequest(after[tx], step.tenant, step.query) && Shows(after[tx], Written(tx, Pending, 0, "")))
  {
    hide Deliver, Enqueue, Acknowledge, TenantSet, NextMessage;
  }

  /** A canceller at rest gets through exactly when the transaction is there, has not ended and is not locked; its
      record then says who ended it. */
  lemma CancelStops(s: State, c: Canceller, tx: TxId, limit: nat)
    requires CancelPhaseOf(s, c).Resting?
    ensures var after := Exec(s, [Look(c, tx), Lock(c), Cancel(c)], limit);
      && (after.Some? <==> tx in s.repo.hashes && !Terminal(s.repo.hashes[tx].status) && tx !in s.locks)
      && (after.Some? ==> tx in after.value.repo.hashes && Shows(after.value.repo.hashes[tx], Written(tx, Failed, 0, "Cancelled by user")))
  {
    hide Deliver, Enqueue, Acknowledge, NextMessage;
    var steps := [Look(c, tx), Lock(c), Cancel(c)];
    assert steps[..2] == [Look(c, tx), Lock(c)] && steps[..2][..1] == [Look(c, tx)] && steps[..1][..0] == [];
    ExecOne(s, Look(c, tx), limit);
    var seen := Exec(s, [Look(c, tx)], limit);
    assert steps[..2][..1] == steps[..1];
    if seen.Some? {
      assert Exec(s, steps[..2], limit) == if Enabled(seen.value, Lock(c)) then Some(Do(seen.value, Lock(c), limit)) else None;
    }
  }

  lemma ExecOne(s: State, step: Step, limit: nat)
    ensures Exec(s, [step], limit) == if Enabled(s, step) then Some(Do(s, step, limit)) else None
  {
    hide Enabled, Do;
    assert [step][..0] == [];
  }

  // ---------- whole runs ----------

  ghost predicate SubmittedBy(steps: seq<Step>, tx: TxId, tenant: Tenant, query: string) {
    Submit(tx, tenant, query) in steps
  }

  ghost predicate TenantsAgree(r: Repo) {
    forall t, tx :: tx in TenantSet(r, t) <==> tx in r.hashes && r.hashes[tx].tenant == t
  }

  lemma StepKeepsTenants(s: State, step: Step, limit: nat)
    requires TenantsAgree(s.repo) && Enabled(s, step)
    ensures TenantsAgree(Do(s, step, limit).repo)
  {
    hide Deliver, Enqueue, Acknowledge, TenantSet;
    var s' := Do(s, step, limit);
    forall t, tx ensures tx in TenantSet(s'.repo, t) <==> tx in s'.repo.hashes && s'.repo.hashes[tx].tenant == t {
      StepWrites(s, step, limit, tx);
      StepOnTenants(s, step, limit, t);
    }
  }

  lemma StepOnTenants(s: State, step: Step, limit: nat, t: Tenant)
    requires Enabled(s, step)
    ensures TenantSet(Do(s, step, limit).repo, t)
         == if step.Submit? && step.tenant == t then TenantSet(s.repo, t) + {step.tx} else TenantSet(s.repo, t)
  {
    hide Deliver, Enqueue, Acknowledge;
  }

  lemma LastStep(steps: seq<Step>, limit: nat) returns (before: State)
    requires steps != [] && Exec(Initial, steps, limit).Some?
    ensures Exec(Initial, steps[..|steps| - 1], limit) == Some(before) && Enabled(before, steps[|steps| - 1])
    ensures Exec(Initial, steps, limit) == Some(Do(before, steps[|steps| - 1], limit))
  {
    hide Do, Enabled;
    before := Exec(Initial, steps[..|steps| - 1], limit).value;
  }

  /** In every run the records are those of the submitted transactions, each once and with the tenant and the query
      it was submitted with, and the index of a tenant lists exactly its transactions. */
  lemma {:induction false} RecordsAreSubmissions(steps: seq<Step>, limit: nat)
    requires Exec(Initial, steps, limit).Some?
    ensures var r := Exec(Initial, steps, limit).value.repo;
      && TenantsAgree(r)
      && (forall tx, tenant, query :: SubmittedBy(steps, tx, tenant, query) <==> tx in r.hashes && SameRequest(r.hashes[tx], tenant, query))
    decreases |steps|
  {
    hide Do, Enabled, Exec, TenantSet;
    if steps == [] {
      StartsEmpty(limit);
    } else {
      var n := |steps| - 1;
      var front, last := steps[..n], steps[n];
      var before := LastStep(steps, limit);
      RecordsAreSubmissions(front, limit);
      StepKeepsTenants(before, last, limit);
      assert steps == front + [last];
      var r := Do(before, last, limit).repo;
      forall tx, tenant, query ensures SubmittedBy(steps, tx, tenant, query) <==> tx in r.hashes && SameRequest(r.hashes[tx], tenant, query) {
        StepWrites(before, last, limit, tx);
        if last == Submit(tx, tenant, query) {
          SubmitIsNew(before, last);
        }
        assert SubmittedBy(front, tx, tenant, query) <==> tx in before.repo.hashes && SameRequest(before.repo.hashes[tx], tenant, query);
      }
    }
  }

  lemma StartsEmpty(limit: nat)
    ensures Exec(Initial, [], limit) == Some(Initial) && TenantsAgree(Initial.repo) && Initial.repo.hashes == map[]
  {
  }

  lemma SubmitIsNew(s: State, step: Step)
    requires Enabled(s, step) && step.Submit?
    ensures step.tx !in s.repo.hashes
  {
  }

  // ---------- the order of messages ----------

  ghost predicate Ascending(q: Queue) {
    && (forall i, j :: 0 <= i < j < |q.stream| ==> q.stream[i].id < q.stream[j].id)
    && (forall i :: 0 <= i < |q.stream| ==> q.stream[i].id < q.nextId)
  }

  lemma {:induction false} WithoutMembers(stream: seq<Message>, id: MessageId)
    ensures forall m :: m in Without(stream, id) <==> m in stream && m.id != id
  {
    if stream != [] {
      assert stream == [stream[0]] + stream[1..];
      WithoutMembers(stream[1..], id);
    }
  }

  lemma ConsAscends(first: Message, rest: seq<Message>, next: MessageId)
    requires Ascending(Queue(rest, 0, {}, next)) && first.id < next
    requires forall m :: m in rest ==> first.id < m.id
    ensures Ascending(Queue([first] + rest, 0, {}, next))
  {
    var all := [first] + rest;
    forall i, j | 0 <= i < j < |all| ensures all[i].id < all[j].id {
      assert all[j] == rest[j - 1];
      assert i > 0 ==> all[i] == rest[i - 1];
    }
  }

  lemma FirstIsLeast(stream: seq<Message>, next: MessageId)
    requires stream != [] && Ascending(Queue(stream, 0, {}, next))
    ensures stream[0].id < next && Ascending(Queue(stream[1..], 0, {}, next))
    ensures forall m :: m in stream[1..] ==> stream[0].id < m.id
  {
    forall m | m in stream[1..] ensures stream[0].id < m.id {
      var k :| 0 <= k < |stream[1..]| && stream[1..][k] == m;
      assert stream[k + 1] == m;
    }
  }

  lemma {:induction false} WithoutAscends(stream: seq<Message>, id: MessageId, next: MessageId)
    requires Ascending(Queue(stream, 0, {}, next))
    ensures Ascending(Queue(Without(stream, id), 0, {}, next))
  {
    hide Ascending;
    if stream == [] {
      assert Without(stream, id) == stream;
    } else {
      FirstIsLeast(stream, next);
      WithoutAscends(stream[1..], id, next);
      WithoutMembers(stream[1..], id);
      if stream[0].id == id {
        assert Without(stream, id) == Without(stream[1..], id);
      } else {
        ConsAscends(stream[0], Without(stream[1..], id), next);
      }
    }
  }

  /** Every message of a stream that is not in the other one is older than all of those. */
  ghost predicate OthersAreOlder(stream: seq<Message>, kept: seq<Message>) {
    forall m, n :: m in stream && m !in kept && n in kept ==> m.id < n.id
  }

  lemma EndAscends(all: seq<Message>, cut: nat, next: MessageId)
    requires cut <= |all| && Ascending(Queue(all, 0, {}, next))
    ensures Ascending(Queue(all[cut..], 0, {}, next))
  {
  }

  /** What lies in front of the end of an ascending stream is older. */
  lemma EndIsNewest(all: seq<Message>, cut: nat, next: MessageId)
    requires cut <= |all| && Ascending(Queue(all, 0, {}, next))
    ensures OthersAreOlder(all, all[cut..])
  {
    var front, rest := all[..cut], all[cut..];
    assert all == front + rest;
    forall m, n | m in all && m !in rest && n in rest ensures m.id < n.id {
      assert m in front;
      var i :| 0 <= i < |front| && front[i] == m;
      var j :| 0 <= j < |rest| && rest[j] == n;
      assert all[i] == m && all[cut + j] == n;
    }
  }

  lemma AppendAscends(q: Queue, tx: TxId)
    requires Ascending(q)
    ensures Ascending(Queue(q.stream + [Message(q.nextId, tx)], 0, {}, q.nextId + 1))
  {
  }

  /** What is kept is the end of the stream with the new message behind it. */
  lemma EnqueueCuts(q: Queue, tx: TxId, limit: nat) returns (cut: nat)
    ensures var all, sent := q.stream + [Message(q.nextId, tx)], Enqueue(q, tx, limit);
      && cut <= |all| && sent.stream == all[cut..] && sent.nextId == q.nextId + 1
      && |all| - cut == if |q.stream| < limit then |q.stream| + 1 else limit
  {
    cut := if |q.stream| < limit then 0 else |q.stream| + 1 - limit;
  }

  /** A sent message goes to the end of the stream. When the stream is full its oldest entries go, as many as are too
      many, delivered or not. */
  lemma SendKeepsNewest(q: Queue, tx: TxId, limit: nat)
    requires Ascending(q)
    ensures var all, sent := q.stream + [Message(q.nextId, tx)], Enqueue(q, tx, limit);
      && Ascending(sent) && sent.nextId == q.nextId + 1
      && |sent.stream| == (if |q.stream| < limit then |q.stream| + 1 else limit)
      && IsEnd(sent.stream, all) && OthersAreOlder(all, sent.stream)
  {
    hide Enqueue, Ascending, OthersAreOlder;
    var cut := EnqueueCuts(q, tx, limit);
    var all, sent := q.stream + [Message(q.nextId, tx)], Enqueue(q, tx, limit);
    AppendAscends(q, tx);
    EndAscends(all, cut, q.nextId + 1);
    EndIsNewest(all, cut, q.nextId + 1);
    StreamAlone(sent, Queue(all[cut..], 0, {}, q.nextId + 1));
  }

  /** One stream is what another one ends with. */
  ghost predicate IsEnd(stream: seq<Message>, all: seq<Message>) {
    |stream| <= |all| && stream == all[|all| - |stream|..]
  }

  /** Ascending speaks of the stream and the next id only. */
  lemma StreamAlone(q: Queue, r: Queue)
    requires q.stream == r.stream && q.nextId == r.nextId && Ascending(r)
    ensures Ascending(q)
  {
  }

  lemma StepKeepsAscending(s: State, step: Step, limit: nat)
    requires Ascending(s.queue) && Enabled(s, step)
    ensures Ascending(Do(s, step, limit).queue)
  {
    hide NextMessage, Save, Update, Without, Enqueue;
    if step.Send? {
      SendKeepsNewest(s.queue, step.tx, limit);
    } else if step.Ack? {
      WithoutAscends(s.queue.stream, PhaseOf(s, step.w).m.id, s.queue.nextId);
    }
  }

  lemma {:induction false} StreamAscends(steps: seq<Step>, limit: nat)
    requires Exec(Initial, steps, limit).Some?
    ensures Ascending(Exec(Initial, steps, limit).value.queue)
    decreases |steps|
  {
    hide Do, Enabled, Exec;
    if steps == [] {
      StartsEmpty(limit);
    } else {
      var before := LastStep(steps, limit);
      StreamAscends(steps[..|steps| - 1], limit);
      StepKeepsAscending(before, steps[|steps| - 1], limit);
    }
  }

  lemma {:induction false} NextIsOldest(stream: seq<Message>, delivered: MessageId, next: MessageId)
    requires Ascending(Queue(stream, 0, {}, next))
    ensures NextMessage(stream, delivered).None? ==> forall m :: m in stream ==> m.id < delivered
    ensures NextMessage(stream, delivered).Some? ==> forall m :: m in stream && m.id >= delivered ==> NextMessage(stream, delivered).value.id <= m.id
  {
    if stream != [] {
      assert stream == [stream[0]] + stream[1..];
      if stream[0].id < delivered {
        assert Ascending(Queue(stream[1..], 0, {}, next));
        NextIsOldest(stream[1..], delivered, next);
      } else {
        forall m | m in stream ensures stream[0].id <= m.id {
          var k :| 0 <= k < |stream| && stream[k] == m;
        }
      }
    }
  }

  /** In every run a worker that asks is given the oldest message not delivered yet, and nothing only when all
      have been: messages are delivered in the order they were sent. */
  lemma OldestFirst(steps: seq<Step>, limit: nat, w: Worker)
    requires Exec(Initial, steps, limit).Some? && PhaseOf(Exec(Initial, steps, limit).value, w).Idle?
    ensures var s := Exec(Initial, steps, limit).value;
      var p := PhaseOf(Do(s, Take(w), limit), w);
      && (p.Idle? ==> forall m :: m in s.queue.stream ==> m.id < s.queue.delivered)
      && (p.Got? ==> p.m in s.queue.stream && s.queue.delivered <= p.m.id
                     && forall m :: m in s.queue.stream && m.id >= s.queue.delivered ==> p.m.id <= m.id)
      && (p.Idle? || p.Got?)
  {
    hide Exec, Save, Update, NextMessage;
    var s := Exec(Initial, steps, limit).value;
    StreamAscends(steps, limit);
    NextIsOldest(s.queue.stream, s.queue.delivered, s.queue.nextId);
  }

  // ---------- pending messages ----------

  /** The messages handed out in a run. */
  ghost function Given(steps: seq<Step>, limit: nat): set<MessageId>
    requires Exec(Initial, steps, limit).Some?
    decreases |steps|
  {
    if steps == [] then {}
    else
      var last, s := steps[|steps| - 1], Exec(Initial, steps, limit).value;
      Given(steps[..|steps| - 1], limit)
      + if last.Take? && PhaseOf(s, last.w).Got? then {PhaseOf(s, last.w).m.id} else {}
  }

  ghost predicate PendingAre(s: State, given: set<MessageId>) {
    s.queue.unacked == given - s.acked
  }

  ghost predicate StreamUnacked(s: State) {
    forall m :: m in s.queue.stream ==> m.id !in s.acked
  }

  /** Acknowledged messages have been delivered, so neither the next message nor a new one is one of them. */
  lemma AckedAreOld(s: State)
    requires Inv(s)
    ensures forall id :: id in s.acked ==> id < s.queue.delivered <= s.queue.nextId
  {
    hide RunningAgrees, SentOnce, StreamAgrees, OneEach, WorkerAgrees;
  }

  lemma StepKeepsPending(s: State, step: Step, limit: nat, given: set<MessageId>)
    requires Inv(s) && Enabled(s, step) && PendingAre(s, given)
    ensures var s' := Do(s, step, limit);
      PendingAre(s', given + if step.Take? && PhaseOf(s', step.w).Got? then {PhaseOf(s', step.w).m.id} else {})
  {
    hide Inv, Save, Update, NextMessage, Without;
    AckedAreOld(s);
  }

  lemma StepKeepsStreamUnacked(s: State, step: Step, limit: nat)
    requires Inv(s) && Enabled(s, step) && StreamUnacked(s)
    ensures StreamUnacked(Do(s, step, limit))
  {
    hide Inv, Save, Update, NextMessage, Without, Enqueue;
    AckedAreOld(s);
    if step.Ack? {
      WithoutMembers(s.queue.stream, PhaseOf(s, step.w).m.id);
    } else if step.Send? {
      var cut := EnqueueCuts(s.queue, step.tx, limit);
    }
  }

  /** In every run the pending messages are exactly those handed out and not acknowledged, and an acknowledged
      message is no longer in the stream. */
  lemma {:induction false} PendingIsExact(steps: seq<Step>, limit: nat)
    requires Exec(Initial, steps, limit).Some?
    ensures PendingAre(Exec(Initial, steps, limit).value, Given(steps, limit)) && StreamUnacked(Exec(Initial, steps, limit).value)
    decreases |steps|
  {
    hide Do, Enabled, Exec, PendingAre, StreamUnacked, Inv;
    if steps == [] {
      StartsUnacked(limit);
    } else {
      var n := |steps| - 1;
      var before := LastStep(steps, limit);
      PendingIsExact(steps[..n], limit);
      InitialInv();
      RunKeepsInv(Initial, steps[..n], limit);
      StepKeepsPending(before, steps[n], limit, Given(steps[..n], limit));
      StepKeepsStreamUnacked(before, steps[n], limit);
    }
  }

  lemma StartsUnacked(limit: nat)
    ensures PendingAre(Exec(Initial, [], limit).value, Given([], limit)) && StreamUnacked(Exec(Initial, [], limit).value)
  {
  }
}
