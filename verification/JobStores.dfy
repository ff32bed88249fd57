/** The stores behind asynchronous jobs: transaction records with the index of running ones, and the
    message stream with one consumer group. */
module JobStores {
  import opened Prelude

  type TxId = nat
  type Tenant = nat
  type MessageId = nat

  datatype Status = Pending | Running | Completed | Failed | Timeout

  predicate Terminal(s: Status) {
    s == Completed || s == Failed || s == Timeout
  }

  datatype TxRecord = TxRecord(tenant: Tenant, query: string, status: Status, resultCount: nat, error: string)

  // ---------- transactions ----------

  datatype Repo = Repo(hashes: map<TxId, TxRecord>, tenants: map<Tenant, set<TxId>>, running: set<TxId>)

  const EmptyRepo := Repo(map[], map[], {})

  function TenantSet(r: Repo, t: Tenant): set<TxId> {
    if t in r.tenants then r.tenants[t] else {}
  }

  function Save(r: Repo, id: TxId, tenant: Tenant, query: string, status: Status): Repo {
    Repo(r.hashes[id := TxRecord(tenant, query, status, 0, "")], r.tenants[tenant := TenantSet(r, tenant) + {id}],
         if status == Running then r.running + {id} else r.running)
  }

  function Update(r: Repo, id: TxId, status: Status, count: nat, error: string): Repo {
    if id !in r.hashes then r
    else
      r.(hashes := r.hashes[id := r.hashes[id].(status := status, resultCount := count, error := error)],
         running := if status == Running then r.running + {id} else r.running - {id})
  }

  class RedisTransactionRepository {
    var hashes: map<TxId, TxRecord>
    var tenants: map<Tenant, set<TxId>>
    var running: set<TxId>

    constructor ()
      ensures State() == EmptyRepo
    {
      hashes, tenants, running := map[], map[], {};
    }

    ghost function State(): Repo
      reads this
    {
      Repo(hashes, tenants, running)
    }

    method SaveTransaction(id: TxId, tenant: Tenant, query: string, status: Status)
      modifies this
      ensures State() == Save(old(State()), id, tenant, query, status)
    {
      hashes := hashes[id := TxRecord(tenant, query, status, 0, "")];
      tenants := tenants[tenant := (if tenant in tenants then tenants[tenant] else {}) + {id}];
      if status == Running {
        running := running + {id};
      }
    }

    method FindById(id: TxId) returns (tx: Option<TxRecord>)
      ensures tx == if id in hashes then Some(hashes[id]) else None
    {
      tx := if id in hashes then Some(hashes[id]) else None;
    }

    method UpdateStatus(id: TxId, status: Status, count: nat, error: string) returns (updated: bool)
      modifies this
      ensures updated == (id in old(hashes)) && State() == Update(old(State()), id, status, count, error)
    {
      if id !in hashes {
        return false;
      }
      hashes := hashes[id := hashes[id].(status := status, resultCount := count, error := error)];
      if status == Running {
        running := running + {id};
      } else {
        running := running - {id};
      }
      return true;
    }
  }

  // ---------- the stream ----------

  datatype Message = Message(id: MessageId, tx: TxId)

  /** Entries in order; `delivered` is the first id no worker has been given; `unacked` are delivered
      messages not acknowledged yet. */
  datatype Queue = Queue(stream: seq<Message>, delivered: MessageId, unacked: set<MessageId>, nextId: MessageId)

  const EmptyQueue := Queue([], 0, {}, 0)

  /** Adding an entry trims the oldest ones beyond the limit, delivered or not. */
  function Enqueue(q: Queue, tx: TxId, limit: nat): Queue {
    var all := q.stream + [Message(q.nextId, tx)];
    q.(stream := if |all| > limit then all[|all| - limit..] else all, nextId := q.nextId + 1)
  }

  /** The first entry not delivered yet. */
  function NextMessage(stream: seq<Message>, delivered: MessageId): (m: Option<Message>)
    ensures m.Some? ==> m.value in stream && delivered <= m.value.id
  {
    if stream == [] then None
    else if stream[0].id >= delivered then Some(stream[0])
    else NextMessage(stream[1..], delivered)
  }

  function Deliver(q: Queue): Queue {
    var m := NextMessage(q.stream, q.delivered);
    if m.None? then q else q.(delivered := m.value.id + 1, unacked := q.unacked + {m.value.id})
  }

  function Without(stream: seq<Message>, id: MessageId): seq<Message> {
    if stream == [] then [] else (if stream[0].id == id then [] else [stream[0]]) + Without(stream[1..], id)
  }

  /** Acknowledged messages are also deleted from the stream. */
  function Acknowledge(q: Queue, id: MessageId): Queue {
    q.(stream := Without(q.stream, id), unacked := q.unacked - {id})
  }

  class RedisMessageQueueService {
    const maxLength: nat
    var stream: seq<Message>
    var delivered: MessageId
    var unacked: set<MessageId>
    var nextId: MessageId

    constructor (maxLength: nat)
      ensures State() == EmptyQueue && this.maxLength == maxLength
    {
      this.maxLength := maxLength;
      stream, delivered, unacked, nextId := [], 0, {}, 0;
    }

    ghost function State(): Queue
      reads this
    {
      Queue(stream, delivered, unacked, nextId)
    }

    method EnqueueTransaction(tx: TxId)
      modifies this
      ensures State() == Enqueue(old(State()), tx, maxLength)
    {
      stream := stream + [Message(nextId, tx)];
      nextId := nextId + 1;
      if |stream| > maxLength {
        stream := stream[|stream| - maxLength..];
      }
    }

    method DequeueTransaction() returns (m: Option<Message>)
      modifies this
      ensures m == NextMessage(old(stream), old(delivered)) && State() == Deliver(old(State()))
    {
      ghost var all := NextMessage(stream, delivered);
      assert stream[0..] == stream;
      for i := 0 to |stream|
        invariant delivered == old(delivered) && unacked == old(unacked) && stream == old(stream) && nextId == old(nextId)
        invariant NextMessage(stream[i..], delivered) == all
      {
        assert stream[i..][1..] == stream[i + 1..];
        if stream[i].id >= delivered {
          m := Some(stream[i]);
          delivered := m.value.id + 1;
          unacked := unacked + {m.value.id};
          return;
        }
      }
      m := None;
    }

    method AcknowledgeTransaction(id: MessageId)
      modifies this
      ensures State() == Acknowledge(old(State()), id)
    {
      unacked := unacked - {id};
      var kept: seq<Message> := [];
      assert stream[0..] == stream;
      for i := 0 to |stream|
        invariant stream == old(stream) && delivered == old(delivered) && nextId == old(nextId) && unacked == old(unacked) - {id}
        invariant kept + Without(stream[i..], id) == Without(stream, id)
      {
        assert stream[i..][1..] == stream[i + 1..];
        if stream[i].id != id {
          kept := kept + [stream[i]];
        }
      }
      stream := kept;
    }
  }
}
