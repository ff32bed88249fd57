/** JSON values as the engine writes and reads them. JSON text itself is not modelled: it is taken to
    be an exact rendering of these values. */
module Json {
  import opened Prelude
  import opened Values

  datatype Json =
    | JNull
    | JBool(b: bool)
    | JInt(i: int)
    | JFloat(r: real)
    | JStr(s: string)
    | JArr(items: seq<Json>)
    | JObj(fields: map<string, Json>)

  const TWO_63 := 0x8000_0000_0000_0000
  const TWO_64 := 0x1_0000_0000_0000_0000

  /** Looking up a field; anything missing reads as null. */
  function Field(j: Json, name: string): Json {
    if j.JObj? && name in j.fields then j.fields[name] else JNull
  }

  function AsNat(j: Json): nat {
    if j.JInt? && 0 <= j.i < TWO_64 then j.i else 0
  }

  function AsString(j: Json): string {
    if j.JStr? then j.s else ""
  }

  predicate AllStrings(items: seq<Json>) {
    forall i :: 0 <= i < |items| ==> items[i].JStr?
  }

  /** A list of strings, or the empty list if anything in it is not a string. */
  function AsStrings(j: Json): seq<string> {
    if j.JArr? && AllStrings(j.items) then seq(|j.items|, i requires 0 <= i < |j.items| => AsString(j.items[i])) else []
  }

  function FromStrings(ss: seq<string>): Json {
    JArr(seq(|ss|, i requires 0 <= i < |ss| => JStr(ss[i])))
  }

  function ToJson(v: Value): Json {
    match v
    case Str(s) => JStr(s)
    case Int(i) => JInt(i)
    case Float(r) => JFloat(r)
    case Bool(b) => JBool(b)
    case Null => JNull
    case NodeRef(id) => JInt(id)
  }

  /** Numbers that do not fit a signed 64-bit integer come back as floats; arrays and objects are no
      property values. */
  function FromJson(j: Json): Option<Value> {
    match j
    case JStr(s) => Some(Str(s))
    case JInt(i) => Some(if -TWO_63 <= i < TWO_63 then Int(i) else Float(i as real))
    case JFloat(r) => Some(Float(r))
    case JBool(b) => Some(Bool(b))
    case JNull => Some(Null)
    case _ => None
  }

  function PropsToJson(props: map<string, Value>): Json {
    JObj(map k | k in props :: ToJson(props[k]))
  }

  function PropsFromJson(j: Json): map<string, Value> {
    if j.JObj? then map k | k in j.fields && FromJson(j.fields[k]).Some? :: FromJson(j.fields[k]).value else map[]
  }

  /** What a property value becomes when it is written and read back: node references turn into
      numbers, everything else that fits stays itself. */
  function Stored(v: Value): Value {
    match v
    case NodeRef(id) => if id < TWO_63 then Int(id) else Float(id as real)
    case Int(i) => if -TWO_63 <= i < TWO_63 then v else Float(i as real)
    case _ => v
  }

  function StoredProps(props: map<string, Value>): map<string, Value> {
    map k | k in props :: Stored(props[k])
  }

  /** Values that survive: everything but node references and integers beyond 64 bits. */
  predicate Storable(v: Value) {
    match v
    case NodeRef(_) => false
    case Int(i) => -TWO_63 <= i < TWO_63
    case _ => true
  }

  lemma PropsRoundTrip(props: map<string, Value>)
    ensures PropsFromJson(PropsToJson(props)) == StoredProps(props)
    ensures PropsFromJson(PropsToJson(props)) == props <==> forall k :: k in props ==> Storable(props[k])
  {
    forall v: Value
      ensures FromJson(ToJson(v)) == Some(Stored(v)) && (Stored(v) == v <==> Storable(v))
    {
    }
    var back := PropsFromJson(PropsToJson(props));
    assert back == StoredProps(props);
    if back == props {
      forall k | k in props ensures Storable(props[k]) {
        assert back[k] == Stored(props[k]);
      }
    }
  }

  lemma StringsRoundTrip(ss: seq<string>)
    ensures AsStrings(FromStrings(ss)) == ss
  {
    var j := FromStrings(ss);
    assert AllStrings(j.items);
    assert forall i :: 0 <= i < |ss| ==> AsStrings(j)[i] == ss[i];
  }
}
