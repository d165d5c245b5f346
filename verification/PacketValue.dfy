/** The values of Socket.IO packets: JSON, and JSON that may hold binaries anywhere. */
module PacketValue {
  import opened Wrappers
  import opened ByteStrings

  /** A JSON number as `serde_json` keeps it. */
  datatype Number = PosInt(u: nat) | NegInt(i: int) | Float(f: real)
  {
    /** `as_u64` */
    function AsU64(): Option<nat> {
      if PosInt? then Some(u) else None
    }
  }

  /** The keys of an object are in insertion order, `vals[i]` being the value of `keys[i]`. */
  datatype JsonValue =
    | JNull
    | JBool(b: bool)
    | JNumber(n: Number)
    | JString(s: string)
    | JArray(elems: seq<JsonValue>)
    | JObject(keys: seq<string>, vals: seq<JsonValue>)

  datatype PacketDataValue =
    | Null
    | Bool(b: bool)
    | Num(n: Number)
    | Str(s: string)
    | Array(elems: seq<PacketDataValue>)
    | Object(keys: seq<string>, vals: seq<PacketDataValue>)
    | Binary(bytes: Bytes)

  const MARKER_KEY := "_placeholder"
  const INDEX_KEY := "num"

  predicate FirstAt(keys: seq<string>, key: string, i: nat)
    requires i < |keys|
  {
    keys[i] == key && key !in keys[..i]
  }

  /** `obj.get(key)` */
  function Lookup(keys: seq<string>, vals: seq<JsonValue>, key: string): (r: Option<JsonValue>)
    ensures r.None? ==> forall i :: 0 <= i < |keys| && i < |vals| ==> keys[i] != key
    ensures r.Some? ==> exists i :: 0 <= i < |keys| && i < |vals| && FirstAt(keys, key, i) && vals[i] == r.value
  {
    if keys == [] || vals == [] then None
    else if keys[0] == key then Some(vals[0])
    else Lookup(keys[1..], vals[1..], key)
  }

  /** `get_attachment_index_if_placeholder` */
  function PlaceholderIndex(obj: JsonValue): Option<nat>
    requires obj.JObject?
  {
    match (Lookup(obj.keys, obj.vals, MARKER_KEY), Lookup(obj.keys, obj.vals, INDEX_KEY))
    case (Some(JBool(marker)), Some(JNumber(index))) => if marker then index.AsU64() else None
    case _ => None
  }

  /** The first value under the key is this one. */
  ghost predicate Holds(obj: JsonValue, key: string, value: JsonValue)
    requires obj.JObject?
  {
    exists i :: 0 <= i < |obj.keys| && i < |obj.vals| && FirstAt(obj.keys, key, i) && obj.vals[i] == value
  }

  lemma FoundIffHolds(obj: JsonValue, key: string, value: JsonValue)
    requires obj.JObject?
    ensures Lookup(obj.keys, obj.vals, key) == Some(value) <==> Holds(obj, key, value)
  {
    var found := Lookup(obj.keys, obj.vals, key);
    forall i, j | 0 <= i < j < |obj.keys| && obj.keys[i] == key
      ensures !FirstAt(obj.keys, key, j)
    {
      assert obj.keys[..j][i] == key;
    }
    if Holds(obj, key, value) {
      var i :| 0 <= i < |obj.keys| && i < |obj.vals| && FirstAt(obj.keys, key, i) && obj.vals[i] == value;
      assert found.Some?;
      var j :| 0 <= j < |obj.keys| && j < |obj.vals| && FirstAt(obj.keys, key, j) && obj.vals[j] == found.value;
      assert i == j;
    }
  }

  /** An object is a placeholder exactly if it is marked as one with a true value and numbered
      with an unsigned one. */
  lemma PlaceholderIff(obj: JsonValue, index: nat)
    requires obj.JObject?
    ensures PlaceholderIndex(obj) == Some(index) <==>
              Holds(obj, "_placeholder", JBool(true)) && Holds(obj, "num", JNumber(PosInt(index)))
  {
    hide Lookup, Holds;
    FoundIffHolds(obj, "_placeholder", JBool(true));
    FoundIffHolds(obj, "num", JNumber(PosInt(index)));
  }

  /** `make_placeholder` */
  function MakePlaceholder(index: nat): (j: JsonValue)
    ensures j.JObject? && PlaceholderIndex(j) == Some(index)
  {
    var keys, vals := [MARKER_KEY, INDEX_KEY], [JBool(true), JNumber(PosInt(index))];
    assert MARKER_KEY[0] != INDEX_KEY[0];
    assert Lookup(keys[1..], vals[1..], INDEX_KEY) == Some(vals[1]);
    JObject(keys, vals)
  }

  /** `From<JsonValue> for PacketDataValue` */
  function FromJson(j: JsonValue): PacketDataValue {
    match j
    case JNull => Null
    case JBool(b) => Bool(b)
    case JNumber(n) => Num(n)
    case JString(s) => Str(s)
    case JArray(elems) => Array(FromJsonAll(elems))
    case JObject(keys, vals) => Object(keys, FromJsonAll(vals))
  }

  function FromJsonAll(js: seq<JsonValue>): (vs: seq<PacketDataValue>)
    ensures |vs| == |js|
  {
    if js == [] then [] else [FromJson(js[0])] + FromJsonAll(js[1..])
  }

  // What the walks over values are measured by.

  /** The binaries in a value, in traversal order. */
  function Binaries(v: PacketDataValue): seq<Bytes> {
    match v
    case Array(elems) => BinariesOfAll(elems)
    case Object(_, vals) => BinariesOfAll(vals)
    case Binary(bytes) => [bytes]
    case _ => []
  }

  function BinariesOfAll(vs: seq<PacketDataValue>): seq<Bytes> {
    if vs == [] then [] else Binaries(vs[0]) + BinariesOfAll(vs[1..])
  }

  /** The indices of the placeholders in a JSON value, in traversal order. */
  function Indices(j: JsonValue): seq<nat> {
    match j
    case JArray(elems) => IndicesOfAll(elems)
    case JObject(_, vals) =>
      (match PlaceholderIndex(j)
       case Some(index) => [index]
       case None => IndicesOfAll(vals))
    case _ => []
  }

  function IndicesOfAll(js: seq<JsonValue>): seq<nat> {
    if js == [] then [] else Indices(js[0]) + IndicesOfAll(js[1..])
  }

  /** Every object in the JSON value is a placeholder. */
  predicate OnlyPlaceholders(j: JsonValue) {
    match j
    case JArray(elems) => forall i :: 0 <= i < |elems| ==> OnlyPlaceholders(elems[i])
    case JObject(_, _) => PlaceholderIndex(j).Some?
    case _ => true
  }

  /** The value with each object replaced by the array of its values. */
  function WithoutObjects(v: PacketDataValue): PacketDataValue {
    match v
    case Array(elems) => Array(AllWithoutObjects(elems))
    case Object(_, vals) => Array(AllWithoutObjects(vals))
    case _ => v
  }

  function AllWithoutObjects(vs: seq<PacketDataValue>): (r: seq<PacketDataValue>)
    ensures |r| == |vs|
  {
    if vs == [] then [] else [WithoutObjects(vs[0])] + AllWithoutObjects(vs[1..])
  }

  predicate HasNoObject(v: PacketDataValue) {
    match v
    case Array(elems) => forall i :: 0 <= i < |elems| ==> HasNoObject(elems[i])
    case Object(_, _) => false
    case _ => true
  }
}
