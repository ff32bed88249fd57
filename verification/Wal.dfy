/** The write-ahead log as bytes: length-prefixed records packed into segment files that rotate at a
    size limit. */
module Wal {
  import opened Prelude
  import opened Text
  import opened StableSort
  import opened NameOrder

  type Byte = n: nat | n < 256

  type Bytes = seq<Byte>

  const U32_LIMIT := 0x1_0000_0000

  function Le32(n: nat): (r: Bytes)
    ensures |r| == 4
  {
    [n % 256, n / 256 % 256, n / 65536 % 256, n / 16777216 % 256]
  }

  function FromLe32(b: Bytes): nat
    requires |b| >= 4
  {
    b[0] as int + 256 * (b[1] as int) + 65536 * (b[2] as int) + 16777216 * (b[3] as int)
  }

  lemma LengthPrefix(n: nat)
    ensures FromLe32(Le32(n)) == n % U32_LIMIT
  {
    assert n / 65536 == n / 256 / 256;
    assert n / 16777216 == n / 65536 / 256;
    assert n / U32_LIMIT == n / 16777216 / 256;
  }

  /** The value of digits to base 256, the first counting least. */
  function LittleEndian(b: Bytes): nat {
    if b == [] then 0 else b[0] + 256 * LittleEndian(b[1..])
  }

  lemma {:induction false} DigitsAreUnique(a: Bytes, b: Bytes)
    requires |a| == |b| && LittleEndian(a) == LittleEndian(b)
    ensures a == b
  {
    if a != [] {
      DigitsAreUnique(a[1..], b[1..]);
      assert a == [a[0]] + a[1..] && b == [b[0]] + b[1..];
    }
  }

  lemma FourDigits(b: Bytes)
    requires |b| == 4
    ensures LittleEndian(b) == FromLe32(b)
  {
    assert b[1..][1..] == b[2..] && b[2..][1..] == b[3..] && b[3..][1..] == [];
    assert LittleEndian(b[3..]) == b[3] as int;
    assert LittleEndian(b[2..]) == b[2] as int + 256 * (b[3] as int);
    assert LittleEndian(b[1..]) == b[1] as int + 256 * (b[2] as int) + 65536 * (b[3] as int);
  }

  /** The prefix is the one list of four bytes that spells the length, the least significant byte first. */
  lemma PrefixSpellsLength(n: nat, b: Bytes)
    requires |b| == 4 && n < U32_LIMIT
    ensures b == Le32(n) <==> n == LittleEndian(b)
  {
    LengthPrefix(n);
    FourDigits(Le32(n));
    if n == LittleEndian(b) {
      DigitsAreUnique(b, Le32(n));
    }
  }

  /** A record as written: the low 32 bits of its length, then the payload. */
  function Frame(payload: Bytes): (r: Bytes)
    ensures |r| == 4 + |payload|
  {
    Le32(|payload|) + payload
  }

  function Encode(records: seq<Bytes>): Bytes {
    if records == [] then [] else Frame(records[0]) + Encode(records[1..])
  }

  /** Reading a segment: fewer than four bytes at the end are ignored, a payload cut short is an error. */
  function Decode(bytes: Bytes): Result<seq<Bytes>> {
    if |bytes| < 4 then Ok([])
    else
      var n := FromLe32(bytes);
      if |bytes| - 4 < n then Err(StorageIo("read payload"))
      else
        var rest :- Decode(bytes[4 + n..]);
        Ok([bytes[4..4 + n]] + rest)
  }

  function Joined(out: seq<Bytes>, r: Result<seq<Bytes>>): Result<seq<Bytes>> {
    match r
    case Ok(more) => Ok(out + more)
    case Err(e) => Err(e)
  }

  lemma JoinOne(out: seq<Bytes>, record: Bytes, r: Result<seq<Bytes>>)
    ensures Joined(out, Joined([record], r)) == Joined(out + [record], r)
  {
    if r.Ok? {
      assert out + ([record] + r.value) == out + [record] + r.value;
    }
  }

  lemma DecodeStep(bytes: Bytes)
    requires |bytes| >= 4 && |bytes| - 4 >= FromLe32(bytes)
    ensures var n := FromLe32(bytes); Decode(bytes) == Joined([bytes[4..4 + n]], Decode(bytes[4 + n..]))
  {
    hide FromLe32;
  }

  lemma DecodeStops(out: seq<Bytes>, bytes: Bytes)
    ensures |bytes| < 4 ==> Joined(out, Decode(bytes)) == Ok(out)
    ensures |bytes| >= 4 && |bytes| - 4 < FromLe32(bytes) ==> Joined(out, Decode(bytes)) == Err(StorageIo("read payload"))
  {
    hide FromLe32;
    assert out + [] == out;
  }

  method ReadRecords(file: Bytes) returns (r: Result<seq<Bytes>>)
    ensures r == Decode(file)
  {
    hide Decode;
    var out: seq<Bytes> := [];
    var cursor := 0;
    assert file[0..] == file;
    assert Decode(file).Ok? ==> [] + Decode(file).value == Decode(file).value;
    while |file| - cursor >= 4
      invariant cursor <= |file|
      invariant Decode(file) == Joined(out, Decode(file[cursor..]))
    {
      ghost var here := file[cursor..];
      DecodeStops(out, here);
      var n := FromLe32(file[cursor..cursor + 4]);
      assert n == FromLe32(here);
      cursor := cursor + 4;
      if |file| - cursor < n {
        return Err(StorageIo("read payload"));
      }
      var buf := file[cursor..cursor + n];
      assert buf == here[4..4 + n] && here[4 + n..] == file[cursor + n..];
      DecodeStep(here);
      JoinOne(out, buf, Decode(here[4 + n..]));
      out := out + [buf];
      cursor := cursor + n;
    }
    DecodeStops(out, file[cursor..]);
    return Ok(out);
  }

  // ---------- reading back one segment ----------

  predicate Fits(records: seq<Bytes>) {
    forall i :: 0 <= i < |records| ==> |records[i]| < U32_LIMIT
  }

  lemma DecodeFrame(payload: Bytes, rest: Bytes)
    requires |payload| < U32_LIMIT
    ensures Decode(Frame(payload) + rest) == Joined([payload], Decode(rest))
  {
    var bytes := Frame(payload) + rest;
    FrameParts(payload, rest);
    hide FromLe32, Frame;
    assert |bytes| == 4 + |payload| + |rest|;
  }

  lemma FrameParts(payload: Bytes, rest: Bytes)
    requires |payload| < U32_LIMIT
    ensures var bytes := Frame(payload) + rest;
      FromLe32(bytes) == |payload| && bytes[4..4 + |payload|] == payload && bytes[4 + |payload|..] == rest
  {
    var bytes, prefix := Frame(payload) + rest, Le32(|payload|);
    LengthPrefix(|payload|);
    assert bytes[0] == prefix[0] && bytes[1] == prefix[1] && bytes[2] == prefix[2] && bytes[3] == prefix[3];
    hide Le32;
  }

  /** Complete records in front of anything decode first. */
  lemma {:induction false} DecodeAfter(records: seq<Bytes>, rest: Bytes)
    requires Fits(records)
    ensures Decode(Encode(records) + rest) == Joined(records, Decode(rest))
  {
    hide Decode, Frame;
    if records == [] {
      assert Encode(records) + rest == rest;
      assert Decode(rest).Ok? ==> [] + Decode(rest).value == Decode(rest).value;
    } else {
      DecodeAfter(records[1..], rest);
      DecodeFrame(records[0], Encode(records[1..]) + rest);
      assert Encode(records) + rest == Frame(records[0]) + (Encode(records[1..]) + rest);
      if Decode(rest).Ok? {
        assert [records[0]] + (records[1..] + Decode(rest).value) == records + Decode(rest).value;
      }
    }
  }

  lemma {:induction false} OversizedIsLost(records: seq<Bytes>)
    requires !Fits(records)
    ensures Decode(Encode(records)) != Ok(records)
  {
    var first := records[0];
    var rest := Encode(records[1..]);
    if |first| < U32_LIMIT {
      DecodeFrame(first, rest);
      OversizedIsLost(records[1..]);
      assert records == [first] + records[1..];
    } else {
      LengthPrefix(|first|);
      var bytes := Frame(first) + rest;
      assert FromLe32(bytes) == FromLe32(Le32(|first|)) < |first|;
    }
  }

  /** A segment reads back as written exactly when every record is shorter than 2^32 bytes. */
  lemma SegmentRoundTrip(records: seq<Bytes>)
    ensures Decode(Encode(records)) == Ok(records) <==> Fits(records)
  {
    hide Decode;
    if Fits(records) {
      DecodeAfter(records, []);
      assert Encode(records) + [] == Encode(records);
      NothingToDecode();
      assert records + [] == records;
    } else {
      OversizedIsLost(records);
    }
  }

  lemma NothingToDecode()
    ensures Decode([]) == Ok([])
  {
  }

  /** The number of whole records in the first `n` bytes. */
  function Whole(records: seq<Bytes>, n: nat): (k: nat)
    ensures k <= |records|
  {
    if records == [] || n < 4 + |records[0]| then 0 else 1 + Whole(records[1..], n - 4 - |records[0]|)
  }

  function Sum(records: seq<Bytes>): nat {
    if records == [] then 0 else 4 + |records[0]| + Sum(records[1..])
  }

  lemma {:induction false} EncodedSize(records: seq<Bytes>)
    ensures |Encode(records)| == Sum(records)
  {
    if records != [] {
      EncodedSize(records[1..]);
    }
  }

  /** A segment cut off anywhere, as after a crash: the whole records read back when the cut leaves at
      most a piece of a length prefix behind them, and otherwise reading fails. Nothing else is ever
      returned. */
  lemma {:induction false} TornSegment(records: seq<Bytes>, n: nat)
    requires Fits(records) && n <= |Encode(records)|
    ensures var k := Whole(records, n);
            Sum(records[..k]) <= n &&
            Decode(Encode(records)[..n]) == if n - Sum(records[..k]) < 4 then Ok(records[..k]) else Err(StorageIo("read payload"))
    decreases |records|
  {
    hide Frame, Decode;
    var bytes := Encode(records);
    if records == [] {
      assert bytes[..n] == [];
      NothingToDecode();
    } else if n < 4 + |records[0]| {
      assert records[..0] == [];
      TornFrame(records[0], Encode(records[1..]), n);
    } else {
      var m := n - 4 - |records[0]|;
      TornSegment(records[1..], m);
      assert bytes[..n] == Frame(records[0]) + Encode(records[1..])[..m];
      DecodeFrame(records[0], Encode(records[1..])[..m]);
      var k := Whole(records, n);
      assert records[..k][1..] == records[1..][..k - 1];
      assert records[..k] == [records[0]] + records[1..][..k - 1];
    }
  }

  lemma TornFrame(payload: Bytes, rest: Bytes, n: nat)
    requires |payload| < U32_LIMIT && n < 4 + |payload|
    ensures Decode((Frame(payload) + rest)[..n]) == if n < 4 then Ok([]) else Err(StorageIo("read payload"))
  {
    hide Frame, FromLe32;
    var bytes := (Frame(payload) + rest)[..n];
    assert |bytes| == n;
    if n >= 4 {
      SameLength(payload, bytes);
      CutPayload(bytes);
    } else {
      TooShort(bytes);
    }
  }

  lemma SameLength(payload: Bytes, bytes: Bytes)
    requires |payload| < U32_LIMIT && |bytes| >= 4 && bytes[..4] == Frame(payload)[..4]
    ensures FromLe32(bytes) == |payload|
  {
    LengthPrefix(|payload|);
    FramePrefix(payload);
    FirstFour(bytes, Frame(payload));
  }

  lemma FirstFour(a: Bytes, b: Bytes)
    requires |a| >= 4 && |b| >= 4 && a[..4] == b[..4]
    ensures FromLe32(a) == FromLe32(b)
  {
    assert forall i :: 0 <= i < 4 ==> a[i] == a[..4][i] && b[i] == b[..4][i];
  }

  lemma CutPayload(bytes: Bytes)
    requires |bytes| >= 4 && |bytes| - 4 < FromLe32(bytes)
    ensures Decode(bytes) == Err(StorageIo("read payload"))
  {
    hide FromLe32;
  }

  lemma TooShort(bytes: Bytes)
    requires |bytes| < 4
    ensures Decode(bytes) == Ok([])
  {
  }

  lemma FramePrefix(payload: Bytes)
    ensures FromLe32(Frame(payload)) == FromLe32(Le32(|payload|))
  {
  }
}
