/** Status updates below the granularity of operations: each is two commands, and commands of different
    updates may interleave. */
module StatusCommands {
  import opened Prelude
  import opened JobStores

  /** The separate commands of a status update: the record first, then the index. */
  datatype Command = SetRecord(status: Status) | SetIndex(member: bool)

  function Commands(status: Status): seq<Command> {
    [SetRecord(status), SetIndex(status == Running)]
  }

  /** A record's status and its membership in the running index. */
  datatype Cell = Cell(status: Status, member: bool)

  function Apply(c: Cell, cs: seq<Command>): Cell {
    if cs == [] then c
    else
      var d := Apply(c, cs[..|cs| - 1]);
      match cs[|cs| - 1]
      case SetRecord(s) => d.(status := s)
      case SetIndex(m) => d.(member := m)
  }

  predicate Consistent(c: Cell) {
    c.member == (c.status == Running)
  }

  /** Two updates run one after the other leave record and index consistent; a terminal update that slips
      between the two commands of a start does not, whatever was there before. */
  lemma UpdatesMustNotInterleave(c: Cell, terminal: Status, first: Status)
    requires Terminal(terminal)
    ensures Consistent(Apply(c, Commands(first) + Commands(terminal)))
    ensures !Consistent(Apply(c, [Commands(Running)[0]] + Commands(terminal) + [Commands(Running)[1]]))
  {
    var a := Commands(first) + Commands(terminal);
    assert a == [SetRecord(first), SetIndex(first == Running), SetRecord(terminal), SetIndex(false)];
    ApplyFour(c, a);
    var b := [Commands(Running)[0]] + Commands(terminal) + [Commands(Running)[1]];
    assert b == [SetRecord(Running), SetRecord(terminal), SetIndex(false), SetIndex(true)];
    ApplyFour(c, b);
  }

  function Effect(c: Cell, command: Command): Cell {
    match command
    case SetRecord(s) => c.(status := s)
    case SetIndex(m) => c.(member := m)
  }

  lemma ApplyFour(c: Cell, cs: seq<Command>)
    requires |cs| == 4
    ensures Apply(c, cs) == Effect(Effect(Effect(Effect(c, cs[0]), cs[1]), cs[2]), cs[3])
  {
    assert cs[..3][..2] == cs[..2] && cs[..2][..1] == cs[..1] && cs[..1][..0] == [];
    assert Apply(c, cs[..1]) == Effect(c, cs[0]);
    assert Apply(c, cs[..2]) == Effect(Effect(c, cs[0]), cs[1]);
    assert Apply(c, cs[..3]) == Effect(Effect(Effect(c, cs[0]), cs[1]), cs[2]);
  }

  // ---------- any number of interleaved updates ----------

  /** A command and the update it belongs to. */
  datatype Tagged = Tagged(owner: nat, command: Command)

  /** The commands of one update, in order. */
  function Own(trace: seq<Tagged>, owner: nat): seq<Command> {
    if trace == [] then []
    else
      var last := trace[|trace| - 1];
      Own(trace[..|trace| - 1], owner) + if last.owner == owner then [last.command] else []
  }

  /** `trace` runs the two commands of every update once each, in their order, mixed in any way. */
  ghost predicate Interleaves(trace: seq<Tagged>, updates: seq<Status>) {
    && (forall i :: 0 <= i < |trace| ==> trace[i].owner < |updates|)
    && (forall i :: 0 <= i < |updates| ==> Own(trace, i) == Commands(updates[i]))
  }

  function CommandsOf(trace: seq<Tagged>): (cs: seq<Command>)
    ensures |cs| == |trace| && forall i :: 0 <= i < |trace| ==> cs[i] == trace[i].command
  {
    if trace == [] then [] else CommandsOf(trace[..|trace| - 1]) + [trace[|trace| - 1].command]
  }

  /** The update whose record command comes last. */
  function LastRecord(trace: seq<Tagged>): (owner: Option<nat>) {
    if trace == [] then None
    else if trace[|trace| - 1].command.SetRecord? then Some(trace[|trace| - 1].owner)
    else LastRecord(trace[..|trace| - 1])
  }

  /** The update whose index command comes last. */
  function LastIndex(trace: seq<Tagged>): (owner: Option<nat>) {
    if trace == [] then None
    else if trace[|trace| - 1].command.SetIndex? then Some(trace[|trace| - 1].owner)
    else LastIndex(trace[..|trace| - 1])
  }

  lemma {:induction false} OwnHolds(trace: seq<Tagged>, t: Tagged)
    ensures t in trace <==> t.command in Own(trace, t.owner)
  {
    if trace != [] {
      OwnHolds(trace[..|trace| - 1], t);
      assert trace == trace[..|trace| - 1] + [trace[|trace| - 1]];
    }
  }

  lemma {:induction false} EndOfTrace(c: Cell, trace: seq<Tagged>)
    ensures var e := Apply(c, CommandsOf(trace));
            && (LastRecord(trace).None? ==> e.status == c.status)
            && (LastRecord(trace).Some? ==> Tagged(LastRecord(trace).value, SetRecord(e.status)) in trace)
            && (LastIndex(trace).None? ==> e.member == c.member)
            && (LastIndex(trace).Some? ==> Tagged(LastIndex(trace).value, SetIndex(e.member)) in trace)
  {
    if trace != [] {
      var front, last := trace[..|trace| - 1], trace[|trace| - 1];
      EndOfTrace(c, front);
      assert trace == front + [last];
      assert CommandsOf(trace)[..|trace| - 1] == CommandsOf(front);
    }
  }

  lemma {:induction false} LastOnesExist(trace: seq<Tagged>, t: Tagged)
    requires t in trace
    ensures t.command.SetRecord? ==> LastRecord(trace).Some?
    ensures t.command.SetIndex? ==> LastIndex(trace).Some?
  {
    var front, last := trace[..|trace| - 1], trace[|trace| - 1];
    assert trace == front + [last];
    if t != last {
      LastOnesExist(front, t);
    }
  }

  lemma LastOwners(trace: seq<Tagged>, updates: seq<Status>)
    requires Interleaves(trace, updates) && updates != []
    ensures LastRecord(trace).Some? && LastIndex(trace).Some?
  {
    var s := updates[0];
    assert Own(trace, 0) == Commands(s);
    OwnHolds(trace, Tagged(0, SetRecord(s)));
    OwnHolds(trace, Tagged(0, SetIndex(s == Running)));
    LastOnesExist(trace, Tagged(0, SetRecord(s)));
    LastOnesExist(trace, Tagged(0, SetIndex(s == Running)));
  }

  /** However the commands of any number of updates interleave, record and index are consistent at the end
      exactly when the update that wrote the record last and the one that wrote the index last agree on
      whether the transaction runs. */
  lemma ConsistentExactly(c: Cell, trace: seq<Tagged>, updates: seq<Status>)
    requires Interleaves(trace, updates) && updates != []
    ensures LastRecord(trace).Some? && LastIndex(trace).Some?
    ensures var r, i := LastRecord(trace).value, LastIndex(trace).value;
            r < |updates| && i < |updates| &&
            (Consistent(Apply(c, CommandsOf(trace))) <==> (updates[r] == Running <==> updates[i] == Running))
  {
    LastOwners(trace, updates);
    EndOfTrace(c, trace);
    var e := Apply(c, CommandsOf(trace));
    var r, i := LastRecord(trace).value, LastIndex(trace).value;
    OwnerExists(trace, updates, Tagged(r, SetRecord(e.status)));
    OwnerExists(trace, updates, Tagged(i, SetIndex(e.member)));
    OwnHolds(trace, Tagged(r, SetRecord(e.status)));
    OwnHolds(trace, Tagged(i, SetIndex(e.member)));
    assert Own(trace, r) == Commands(updates[r]) && Own(trace, i) == Commands(updates[i]);
  }

  lemma OwnerExists(trace: seq<Tagged>, updates: seq<Status>, t: Tagged)
    requires Interleaves(trace, updates) && t in trace
    ensures t.owner < |updates|
  {
  }

  lemma {:induction false} TraceSize(trace: seq<Tagged>)
    requires forall i :: 0 <= i < |trace| ==> trace[i].owner < 2
    ensures |trace| == |Own(trace, 0)| + |Own(trace, 1)|
  {
    if trace != [] {
      TraceSize(trace[..|trace| - 1]);
    }
  }

  lemma OwnFour(trace: seq<Tagged>, owner: nat)
    requires |trace| == 4
    ensures Own(trace, owner) == OwnOne(trace[0], owner) + OwnOne(trace[1], owner) + OwnOne(trace[2], owner) + OwnOne(trace[3], owner)
  {
    assert trace[..3][..2] == trace[..2] && trace[..2][..1] == trace[..1] && trace[..1][..0] == [];
    assert Own(trace[..1], owner) == OwnOne(trace[0], owner);
    assert Own(trace[..2], owner) == OwnOne(trace[0], owner) + OwnOne(trace[1], owner);
  }

  function OwnOne(t: Tagged, owner: nat): seq<Command> {
    if t.owner == owner then [t.command] else []
  }

  lemma LastFour(trace: seq<Tagged>)
    requires |trace| == 4 && trace[3].command.SetIndex?
    ensures LastIndex(trace) == Some(trace[3].owner)
    ensures trace[2].command.SetRecord? ==> LastRecord(trace) == Some(trace[2].owner)
    ensures trace[2].command.SetIndex? && trace[1].command.SetRecord? ==> LastRecord(trace) == Some(trace[1].owner)
  {
    assert LastRecord(trace) == LastRecord(trace[..3]);
    if trace[2].command.SetIndex? && trace[1].command.SetRecord? {
      assert trace[..3][..2] == trace[..2];
      assert LastRecord(trace[..3]) == LastRecord(trace[..2]);
      assert trace[..2][1] == trace[1];
    }
  }

  /** Two updates leave record and index consistent exactly when both start, or both do not start, the
      transaction, or neither runs entirely between the two commands of the other: the first and the last
      command belong to different updates. */
  lemma TwoUpdates(c: Cell, trace: seq<Tagged>, a: Status, b: Status)
    requires Interleaves(trace, [a, b])
    ensures |trace| == 4
    ensures Consistent(Apply(c, CommandsOf(trace))) <==> (a == Running <==> b == Running) || trace[0].owner != trace[3].owner
  {
    TraceSize(trace);
    assert Own(trace, 0) == Commands([a, b][0]) && Own(trace, 1) == Commands([a, b][1]);
    OwnFour(trace, 0);
    OwnFour(trace, 1);
    FourCommands(trace, a, b);
    LastFour(trace);
    ConsistentExactly(c, trace, [a, b]);
  }

  lemma FourCommands(trace: seq<Tagged>, a: Status, b: Status)
    requires |trace| == 4 && forall i :: 0 <= i < 4 ==> trace[i].owner < 2
    requires OwnOne(trace[0], 0) + OwnOne(trace[1], 0) + OwnOne(trace[2], 0) + OwnOne(trace[3], 0) == Commands(a)
    requires OwnOne(trace[0], 1) + OwnOne(trace[1], 1) + OwnOne(trace[2], 1) + OwnOne(trace[3], 1) == Commands(b)
    ensures trace[3].command.SetIndex?
    ensures trace[2].command.SetRecord? || trace[1].command.SetRecord?
    ensures trace[2].command.SetRecord? ==> trace[2].owner == trace[3].owner != trace[0].owner
    ensures trace[2].command.SetIndex? ==> (trace[1].owner == trace[3].owner <==> trace[0].owner != trace[3].owner)
  {
    var w := OwnOne(trace[0], 0) + OwnOne(trace[1], 0) + OwnOne(trace[2], 0) + OwnOne(trace[3], 0);
    var v := OwnOne(trace[0], 1) + OwnOne(trace[1], 1) + OwnOne(trace[2], 1) + OwnOne(trace[3], 1);
    assert |w| == 2 && |v| == 2 && w[0] == SetRecord(a) && w[1].SetIndex? && v[0] == SetRecord(b) && v[1].SetIndex?;
  }
}
