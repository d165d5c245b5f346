/** Taking the binaries out of a packet value, as the encoder does, and putting attachments
    back into the JSON of a header, as the decoder does. */
module Attachments {
  import opened Wrappers
  import opened ByteStrings
  import opened PacketValue

  // Taking binaries out.

  /** The JSON for a value whose first binary is to be attachment number `k`. */
  function Numbered(v: PacketDataValue, k: nat): JsonValue {
    match v
    case Null => JNull
    case Bool(b) => JBool(b)
    case Num(n) => JNumber(n)
    case Str(s) => JString(s)
    case Array(elems) => JArray(NumberedAll(elems, k))
    case Object(_, vals) => JArray(NumberedAll(vals, k))
    case Binary(_) => MakePlaceholder(k)
  }

  function NumberedAll(vs: seq<PacketDataValue>, k: nat): seq<JsonValue> {
    if vs == [] then [] else [Numbered(vs[0], k)] + NumberedAll(vs[1..], k + |Binaries(vs[0])|)
  }

  /** The vector that every call of `deconstruct_packet_data` pushes onto. */
  class AttachmentList {
    var attachments: seq<Bytes>

    constructor ()
      ensures attachments == []
    {
      attachments := [];
    }

    method Deconstruct(v: PacketDataValue) returns (j: JsonValue)
      modifies this
      ensures attachments == old(attachments) + Binaries(v)
      ensures j == Numbered(v, |old(attachments)|)
      decreases v
    {
      match v {
        case Null => j := JNull;
        case Bool(b) => j := JBool(b);
        case Num(n) => j := JNumber(n);
        case Str(s) => j := JString(s);
        case Array(elems) =>
          var js := DeconstructAll(elems);
          j := JArray(js);
        case Object(_, vals) =>
          var js := DeconstructAll(vals);
          j := JArray(js);
        case Binary(bytes) =>
          j := MakePlaceholder(|attachments|);
          attachments := attachments + [bytes];
      }
    }

    method DeconstructAll(vs: seq<PacketDataValue>) returns (js: seq<JsonValue>)
      modifies this
      ensures attachments == old(attachments) + BinariesOfAll(vs)
      ensures js == NumberedAll(vs, |old(attachments)|)
      decreases vs
    {
      js := [];
      for i := 0 to |vs|
        invariant attachments + BinariesOfAll(vs[i..]) == old(attachments) + BinariesOfAll(vs)
        invariant js + NumberedAll(vs[i..], |attachments|) == NumberedAll(vs, |old(attachments)|)
      {
        ghost var before := attachments;
        var j := Deconstruct(vs[i]);
        assert vs[i..][0] == vs[i] && vs[i..][1..] == vs[i + 1..];
        assert before + (Binaries(vs[i]) + BinariesOfAll(vs[i + 1..])) == attachments + BinariesOfAll(vs[i + 1..]);
        var rest := NumberedAll(vs[i + 1..], |attachments|);
        assert js + ([j] + rest) == (js + [j]) + rest;
        js := js + [j];
      }
    }
  }

  function Range(k: nat, n: nat): (r: seq<nat>)
    ensures |r| == n
  {
    seq(n, i requires 0 <= i < n => k + i)
  }

  /** The placeholders are numbered from `k` on, once each and in traversal order, one for
      each binary, and there are no other objects. */
  lemma {:induction false} NumberedIndices(v: PacketDataValue, k: nat)
    ensures Indices(Numbered(v, k)) == Range(k, |Binaries(v)|)
    ensures OnlyPlaceholders(Numbered(v, k))
  {
    match v
    case Array(elems) => NumberedAllIndices(elems, k);
    case Object(_, vals) => NumberedAllIndices(vals, k);
    case _ =>
  }

  lemma {:induction false} NumberedAllIndices(vs: seq<PacketDataValue>, k: nat)
    ensures IndicesOfAll(NumberedAll(vs, k)) == Range(k, |BinariesOfAll(vs)|)
    ensures forall i :: 0 <= i < |NumberedAll(vs, k)| ==> OnlyPlaceholders(NumberedAll(vs, k)[i])
  {
    hide Indices, OnlyPlaceholders, Numbered, Binaries, Range;
    assert Range(k, 0) == [];
    if vs != [] {
      var n := |Binaries(vs[0])|;
      NumberedIndices(vs[0], k);
      NumberedAllIndices(vs[1..], k + n);
      assert NumberedAll(vs, k)[1..] == NumberedAll(vs[1..], k + n);
      RangeSplit(k, n, |BinariesOfAll(vs[1..])|);
    }
  }

  lemma RangeSplit(k: nat, m: nat, n: nat)
    ensures Range(k, m + n) == Range(k, m) + Range(k + m, n)
  {
  }

  // Putting attachments back.

  /** The conversion of a JSON value with `fills[i]` in the place of its `i`-th placeholder. */
  function Plug(j: JsonValue, fills: seq<PacketDataValue>): PacketDataValue
    requires |fills| == |Indices(j)|
  {
    match j
    case JNull => Null
    case JBool(b) => Bool(b)
    case JNumber(n) => Num(n)
    case JString(s) => Str(s)
    case JArray(elems) => Array(PlugAll(elems, fills))
    case JObject(keys, vals) =>
      if PlaceholderIndex(j).Some? then fills[0] else Object(keys, PlugAll(vals, fills))
  }

  function PlugAll(js: seq<JsonValue>, fills: seq<PacketDataValue>): (vs: seq<PacketDataValue>)
    requires |fills| == |IndicesOfAll(js)|
    ensures |vs| == |js|
  {
    if js == [] then []
    else
      var n := |Indices(js[0])|;
      [Plug(js[0], fills[..n])] + PlugAll(js[1..], fills[n..])
  }

  /** What the placeholders with these indices, one after the other, take out of the pool. */
  function Fills(indices: seq<nat>, pool: map<nat, Bytes>): (fills: seq<PacketDataValue>)
    ensures |fills| == |indices|
  {
    if indices == [] then []
    else
      [if indices[0] in pool then Binary(pool[indices[0]]) else Null] + Fills(indices[1..], pool - {indices[0]})
  }

  function Reconstructed(j: JsonValue, pool: map<nat, Bytes>): PacketDataValue {
    Plug(j, Fills(Indices(j), pool))
  }

  function ReconstructedAll(js: seq<JsonValue>, pool: map<nat, Bytes>): seq<PacketDataValue> {
    PlugAll(js, Fills(IndicesOfAll(js), pool))
  }

  function SetOf(indices: seq<nat>): set<nat> {
    set i | i in indices
  }

  /** The map that every call of `reconstruct_packet_data` removes from. */
  class AttachmentPool {
    var pool: map<nat, Bytes>

    /** Numbers the buffers from 0 on. */
    constructor (buffer: seq<Bytes>)
      ensures pool == PoolOf(buffer)
    {
      pool := PoolOf(buffer);
    }

    method Reconstruct(j: JsonValue) returns (v: PacketDataValue)
      modifies this
      ensures v == Reconstructed(j, old(pool))
      ensures pool == old(pool) - SetOf(Indices(j))
      decreases j
    {
      match j {
        case JNull => v := Null;
        case JBool(b) => v := Bool(b);
        case JNumber(n) => v := Num(n);
        case JString(s) => v := Str(s);
        case JArray(elems) =>
          var vs := ReconstructAll(elems);
          v := Array(vs);
        case JObject(keys, vals) =>
          match PlaceholderIndex(j) {
            case Some(index) =>
              if index in pool {
                v := Binary(pool[index]);
                pool := pool - {index};
              } else {
                v := Null;
              }
              assert SetOf([index]) == {index};
            case None =>
              var vs := ReconstructAll(vals);
              v := Object(keys, vs);
          }
      }
    }

    method ReconstructAll(js: seq<JsonValue>) returns (vs: seq<PacketDataValue>)
      modifies this
      ensures vs == ReconstructedAll(js, old(pool))
      ensures pool == old(pool) - SetOf(IndicesOfAll(js))
      decreases js
    {
      hide ReconstructedAll, Reconstructed, SetOf, IndicesOfAll;
      vs := [];
      for i := 0 to |js|
        invariant vs + ReconstructedAll(js[i..], pool) == ReconstructedAll(js, old(pool))
        invariant pool - SetOf(IndicesOfAll(js[i..])) == old(pool) - SetOf(IndicesOfAll(js))
      {
        ReconstructedFrom(js, i, pool);
        var v := Reconstruct(js[i]);
        assert vs + ([v] + ReconstructedAll(js[i + 1..], pool)) == (vs + [v]) + ReconstructedAll(js[i + 1..], pool);
        vs := vs + [v];
      }
      NothingReconstructed(pool);
      assert js[|js|..] == [];
    }
  }

  function PoolOf(buffer: seq<Bytes>): map<nat, Bytes> {
    map i: nat | 0 <= i < |buffer| :: buffer[i]
  }

  lemma FillsStep(indices: seq<nat>, pool: map<nat, Bytes>)
    ensures Fills(indices, pool)
         == if indices == [] then []
            else
              [if indices[0] in pool then Binary(pool[indices[0]]) else Null]
              + Fills(indices[1..], pool - {indices[0]})
  {
  }

  lemma RemoveNothing(pool: map<nat, Bytes>)
    ensures pool - SetOf([]) == pool
  {
  }

  lemma RemoveFirst(indices: seq<nat>, pool: map<nat, Bytes>)
    requires indices != []
    ensures pool - {indices[0]} - SetOf(indices[1..]) == pool - SetOf(indices)
  {
    assert indices == [indices[0]] + indices[1..];
  }

  lemma {:induction false} FillsAppend(a: seq<nat>, b: seq<nat>, pool: map<nat, Bytes>)
    ensures Fills(a + b, pool) == Fills(a, pool) + Fills(b, pool - SetOf(a))
  {
    hide SetOf, Fills;
    FillsStep(a, pool);
    if a == [] {
      RemoveNothing(pool);
      assert a + b == b;
    } else {
      FillsAppend(a[1..], b, pool - {a[0]});
      RemoveFirst(a, pool);
      assert (a + b)[0] == a[0] && (a + b)[1..] == a[1..] + b;
      FillsStep(a + b, pool);
    }
  }

  /** The walk over the values from the `i`-th on: first that one, then the others. */
  lemma ReconstructedFrom(js: seq<JsonValue>, i: nat, pool: map<nat, Bytes>)
    requires i < |js|
    ensures ReconstructedAll(js[i..], pool)
         == [Reconstructed(js[i], pool)] + ReconstructedAll(js[i + 1..], pool - SetOf(Indices(js[i])))
    ensures pool - SetOf(Indices(js[i])) - SetOf(IndicesOfAll(js[i + 1..])) == pool - SetOf(IndicesOfAll(js[i..]))
  {
    hide Indices, Plug, Fills;
    assert js[i..][0] == js[i] && js[i..][1..] == js[i + 1..];
    FillsAppend(Indices(js[i]), IndicesOfAll(js[i + 1..]), pool);
  }

  lemma NothingReconstructed(pool: map<nat, Bytes>)
    ensures ReconstructedAll([], pool) == []
    ensures pool - SetOf(IndicesOfAll([])) == pool
  {
  }

  /** The first placeholder for an index, in traversal order, gets that attachment;
      repeated and unknown indices become null. */
  lemma {:induction false} FirstPlaceholderWins(indices: seq<nat>, pool: map<nat, Bytes>, k: nat)
    requires k < |indices|
    ensures Fills(indices, pool)[k]
         == if indices[k] in pool && indices[k] !in indices[..k] then Binary(pool[indices[k]]) else Null
  {
    if k > 0 {
      FirstPlaceholderWins(indices[1..], pool - {indices[0]}, k - 1);
      assert indices[..k] == [indices[0]] + indices[1..][..k - 1];
    }
  }

  /** JSON without placeholders is only converted. */
  lemma {:induction false} PlugNothing(j: JsonValue)
    requires Indices(j) == []
    ensures Plug(j, []) == FromJson(j)
  {
    match j
    case JArray(elems) => PlugNothingAll(elems);
    case JObject(_, vals) => PlugNothingAll(vals);
    case _ =>
  }

  lemma {:induction false} PlugNothingAll(js: seq<JsonValue>)
    requires IndicesOfAll(js) == []
    ensures PlugAll(js, []) == FromJsonAll(js)
  {
    if js != [] {
      PlugNothing(js[0]);
      PlugNothingAll(js[1..]);
    }
  }

  /** The plain conversions of the placeholders in a JSON value, in traversal order. */
  function OwnFills(j: JsonValue): (fills: seq<PacketDataValue>)
    ensures |fills| == |Indices(j)|
  {
    match j
    case JArray(elems) => AllOwnFills(elems)
    case JObject(_, vals) => if PlaceholderIndex(j).Some? then [FromJson(j)] else AllOwnFills(vals)
    case _ => []
  }

  function AllOwnFills(js: seq<JsonValue>): (fills: seq<PacketDataValue>)
    ensures |fills| == |IndicesOfAll(js)|
  {
    if js == [] then [] else OwnFills(js[0]) + AllOwnFills(js[1..])
  }

  /** Nothing but the placeholders is replaced: with themselves in their places, the result is
      the plain conversion. */
  lemma {:induction false} PlugOwn(j: JsonValue)
    ensures Plug(j, OwnFills(j)) == FromJson(j)
  {
    match j
    case JArray(elems) => PlugAllOwn(elems);
    case JObject(_, vals) => PlugAllOwn(vals);
    case _ =>
  }

  lemma {:induction false} PlugAllOwn(js: seq<JsonValue>)
    ensures PlugAll(js, AllOwnFills(js)) == FromJsonAll(js)
  {
    hide Plug, FromJson, OwnFills;
    if js != [] {
      PlugOwn(js[0]);
      PlugAllOwn(js[1..]);
      assert AllOwnFills(js)[..|Indices(js[0])|] == OwnFills(js[0]);
      assert AllOwnFills(js)[|Indices(js[0])|..] == AllOwnFills(js[1..]);
    }
  }

  // Conservation.

  /** The attachments still in the pool, of those numbered below `n`. */
  function Leftover(pool: map<nat, Bytes>, n: nat): seq<Bytes> {
    if n == 0 then [] else Leftover(pool, n - 1) + if n - 1 in pool then [pool[n - 1]] else []
  }

  lemma {:induction false} LeftoverRemove(pool: map<nat, Bytes>, i: nat, n: nat)
    ensures i in pool && i < n ==> multiset(Leftover(pool, n)) == multiset(Leftover(pool - {i}, n)) + multiset{pool[i]}
    ensures i !in pool || i >= n ==> Leftover(pool - {i}, n) == Leftover(pool, n)
  {
    hide Leftover;
    LeftoverStep(pool, n);
    LeftoverStep(pool - {i}, n);
    if n > 0 {
      LeftoverRemove(pool, i, n - 1);
    }
  }

  lemma LeftoverStep(pool: map<nat, Bytes>, n: nat)
    ensures Leftover(pool, 0) == []
    ensures n > 0 ==> Leftover(pool, n) == Leftover(pool, n - 1) + if n - 1 in pool then [pool[n - 1]] else []
  {
  }

  lemma {:induction false} FillsConserve(indices: seq<nat>, pool: map<nat, Bytes>, n: nat)
    requires forall i :: i in pool ==> i < n
    ensures multiset(BinariesOfAll(Fills(indices, pool))) + multiset(Leftover(pool - SetOf(indices), n))
         == multiset(Leftover(pool, n))
  {
    hide Leftover, Fills, BinariesOfAll;
    FirstFill(indices, pool);
    if indices == [] {
      assert pool - SetOf(indices) == pool;
    } else {
      LeftoverRemove(pool, indices[0], n);
      RemoveFirst(indices, pool);
      FillsConserve(indices[1..], pool - {indices[0]}, n);
    }
  }

  lemma FirstFill(indices: seq<nat>, pool: map<nat, Bytes>)
    ensures BinariesOfAll(Fills(indices, pool))
         == if indices == [] then []
            else
              (if indices[0] in pool then [pool[indices[0]]] else [])
              + BinariesOfAll(Fills(indices[1..], pool - {indices[0]}))
  {
    if indices != [] {
      assert Fills(indices, pool)[1..] == Fills(indices[1..], pool - {indices[0]});
    }
  }

  /** The binaries of the result are those of the fills, in order. */
  lemma {:induction false} BinariesOfPlug(j: JsonValue, fills: seq<PacketDataValue>)
    requires |fills| == |Indices(j)|
    ensures Binaries(Plug(j, fills)) == BinariesOfAll(fills)
  {
    match j
    case JArray(elems) => BinariesOfPlugAll(elems, fills);
    case JObject(_, vals) =>
      if PlaceholderIndex(j).None? {
        BinariesOfPlugAll(vals, fills);
      } else {
        assert fills == [fills[0]] && BinariesOfAll(fills[1..]) == [];
      }
    case _ =>
  }

  lemma {:induction false} BinariesOfPlugAll(js: seq<JsonValue>, fills: seq<PacketDataValue>)
    requires |fills| == |IndicesOfAll(js)|
    ensures BinariesOfAll(PlugAll(js, fills)) == BinariesOfAll(fills)
  {
    if js != [] {
      var n := |Indices(js[0])|;
      BinariesOfPlug(js[0], fills[..n]);
      BinariesOfPlugAll(js[1..], fills[n..]);
      BinariesAppend(fills[..n], fills[n..]);
      assert fills == fills[..n] + fills[n..];
      assert PlugAll(js, fills)[1..] == PlugAll(js[1..], fills[n..]);
    }
  }

  lemma {:induction false} BinariesAppend(a: seq<PacketDataValue>, b: seq<PacketDataValue>)
    ensures BinariesOfAll(a + b) == BinariesOfAll(a) + BinariesOfAll(b)
  {
    hide Binaries;
    if a == [] {
      assert a + b == b;
    } else {
      BinariesAppend(a[1..], b);
      assert (a + b)[0] == a[0] && (a + b)[1..] == a[1..] + b;
    }
  }

  lemma {:induction false} LeftoverOfAll(buffer: seq<Bytes>, n: nat)
    requires n <= |buffer|
    ensures Leftover(PoolOf(buffer), n) == buffer[..n]
  {
    if n > 0 {
      LeftoverOfAll(buffer, n - 1);
    }
  }

  /** Each received buffer ends up in the value or stays in the pool, and none is made up. */
  lemma Conservation(j: JsonValue, buffer: seq<Bytes>)
    ensures multiset(Binaries(Reconstructed(j, PoolOf(buffer))))
          + multiset(Leftover(PoolOf(buffer) - SetOf(Indices(j)), |buffer|))
         == multiset(buffer)
  {
    var pool := PoolOf(buffer);
    BinariesOfPlug(j, Fills(Indices(j), pool));
    FillsConserve(Indices(j), pool, |buffer|);
    LeftoverOfAll(buffer, |buffer|);
    assert buffer[..|buffer|] == buffer;
  }

  // Round trip.

  function AsValues(binaries: seq<Bytes>): (vs: seq<PacketDataValue>)
    ensures |vs| == |binaries|
  {
    seq(|binaries|, i requires 0 <= i < |binaries| => Binary(binaries[i]))
  }

  lemma {:induction false} PlugNumbered(v: PacketDataValue, k: nat)
    ensures |Indices(Numbered(v, k))| == |Binaries(v)|
    ensures Plug(Numbered(v, k), AsValues(Binaries(v))) == WithoutObjects(v)
  {
    NumberedIndices(v, k);
    match v
    case Array(elems) => PlugNumberedAll(elems, k);
    case Object(_, vals) => PlugNumberedAll(vals, k);
    case _ =>
  }

  lemma {:induction false} PlugNumberedAll(vs: seq<PacketDataValue>, k: nat)
    ensures |IndicesOfAll(NumberedAll(vs, k))| == |BinariesOfAll(vs)|
    ensures PlugAll(NumberedAll(vs, k), AsValues(BinariesOfAll(vs))) == AllWithoutObjects(vs)
  {
    NumberedAllIndices(vs, k);
    if vs != [] {
      var n := |Binaries(vs[0])|;
      PlugNumbered(vs[0], k);
      PlugNumberedAll(vs[1..], k + n);
      assert NumberedAll(vs, k)[1..] == NumberedAll(vs[1..], k + n);
      assert AsValues(BinariesOfAll(vs))[..n] == AsValues(Binaries(vs[0]));
      assert AsValues(BinariesOfAll(vs))[n..] == AsValues(BinariesOfAll(vs[1..]));
    }
  }

  lemma FillsOfRange(buffer: seq<Bytes>)
    ensures Fills(Range(0, |buffer|), PoolOf(buffer)) == AsValues(buffer)
  {
    var indices, pool := Range(0, |buffer|), PoolOf(buffer);
    forall k | 0 <= k < |buffer|
      ensures Fills(indices, pool)[k] == AsValues(buffer)[k]
    {
      FirstPlaceholderWins(indices, pool, k);
    }
  }

  /** Putting the binaries of a value back into its JSON gives the value, but for its
      objects, which have become the arrays of their values; without objects, the value. */
  lemma RoundTrip(v: PacketDataValue)
    ensures Reconstructed(Numbered(v, 0), PoolOf(Binaries(v))) == WithoutObjects(v)
    ensures Reconstructed(Numbered(v, 0), PoolOf(Binaries(v))) == v <==> HasNoObject(v)
    ensures PoolOf(Binaries(v)) - SetOf(Indices(Numbered(v, 0))) == map[]
  {
    PlugNumbered(v, 0);
    NumberedIndices(v, 0);
    FillsOfRange(Binaries(v));
    ObjectsAreLost(v);
    assert forall i :: i in PoolOf(Binaries(v)) ==> Range(0, |Binaries(v)|)[i] == i;
  }

  lemma {:induction false} ObjectsAreLost(v: PacketDataValue)
    ensures WithoutObjects(v) == v <==> HasNoObject(v)
  {
    if v.Array? {
      AllObjectsAreLost(v.elems);
    }
  }

  lemma {:induction false} AllObjectsAreLost(vs: seq<PacketDataValue>)
    ensures AllWithoutObjects(vs) == vs <==> forall i :: 0 <= i < |vs| ==> HasNoObject(vs[i])
  {
    if vs != [] {
      ObjectsAreLost(vs[0]);
      AllObjectsAreLost(vs[1..]);
      assert AllWithoutObjects(vs)[1..] == AllWithoutObjects(vs[1..]);
    }
  }
}
