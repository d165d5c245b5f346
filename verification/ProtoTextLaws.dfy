/** What the text form of Socket.IO packets can carry, and what it cannot. */
module ProtoTextLaws {
  import opened Wrappers
  import opened Nom
  import opened Decimal
  import opened PacketValue
  import opened Attachments
  import opened SocketPacket
  import opened ProtoText
  import StringCodec

  /** After the type there is no digit left. */
  lemma TypeIsGreedy(input: string)
    ensures var r := StringCodec.TakeUint(StringCodec.U8_MAX, input); r.Ok? ==> !StartsWithDigit(r.rest)
  {
  }

  /** No text is the header of a packet with attachments: the type has already taken the
      digits that their number would be read from. */
  lemma NeverMultipart(json: Json, text: string)
    ensures var r := DecodeProtoPacket(json, text);
            r.Decoded? ==> r.value.Plain? && !IsBinary(r.value.packet.packetType)
  {
    hide ParseNamespace, ParseId, ParseJsonData, StringCodec.TakeUint;
    TypeIsGreedy(text);
  }

  /** In particular none that the encoder makes of such a packet. */
  lemma BinaryPacketsAreRejected(json: Json, packet: Packet)
    requires IsBinary(packet.packetType)
    ensures DecodeProtoPacket(json, EncodeText(json, packet)) == Rejected
  {
    hide ParseAfterCount, Numbered, Binaries, DataText, NamespaceText, IdText, ParseAttachmentsCount;
    var count, after := ToText(|Binaries(packet.data)|),
                        "-" + NamespaceText(packet.nsp) + IdText(packet.id) + DataText(json, Numbered(packet.data, 0));
    var digits := ToText(TypeIndex(packet.packetType)) + count;
    assert EncodeText(json, packet) == digits + after;
    assert digits[0] != '0';
    LongTypeFails(digits, after);
  }

  lemma LongTypeFails(digits: string, tail: string)
    requires AllDigits(digits) && |digits| >= 2 && digits[0] != '0' && !StartsWithDigit(tail)
    ensures var r := StringCodec.TakeUint(StringCodec.U8_MAX, digits + tail);
            if r.Ok? then TypeOf(r.value).None? else !r.Overflow?
  {
    SpanAppend(IsDigit, digits, tail);
    assert (digits + tail)[..|digits|] == digits;
    ValuePositive(digits, 0);
  }

  /** What the encoder writes: the number of the type, for the binary types the number of
      binaries and a hyphen, the namespace and a comma unless it is the root, the number that is
      the id, and the data unless it is null. */
  lemma WrittenParts(json: Json, packet: Packet)
    returns (index: string, count: string, namespace: string, id: string, data: string)
    ensures EncodeText(json, packet) == index + count + namespace + id + data
    ensures AllDigits(index) && TypeOf(Value(index)) == Some(packet.packetType)
    ensures if IsBinary(packet.packetType) then
              count != "" && count[|count| - 1] == '-' && AllDigits(count[..|count| - 1])
              && Value(count[..|count| - 1]) == |Binaries(packet.data)|
            else count == ""
    ensures namespace == if packet.nsp == "/" then "" else packet.nsp + ","
    ensures if packet.id.Some? then id != "" && AllDigits(id) && Value(id) == packet.id.value else id == ""
    ensures var j := Numbered(packet.data, 0); data == if j == JNull then "" else json.print_(j)
  {
    hide Numbered, Value, ToText, Binaries;
    index, count := ToText(TypeIndex(packet.packetType)), CountText(packet);
    namespace, id, data := NamespaceText(packet.nsp), IdText(packet.id), DataText(json, Numbered(packet.data, 0));
    ValueOfToText(TypeIndex(packet.packetType));
    ValueOfToText(|Binaries(packet.data)|);
    if packet.id.Some? {
      ValueOfToText(packet.id.value);
    }
    if IsBinary(packet.packetType) {
      assert count[..|count| - 1] == ToText(|Binaries(packet.data)|);
    }
  }

  // Packets without attachments.

  /** What is asked of the JSON library, for one value. */
  predicate Reads(json: Json, j: JsonValue) {
    && json.parse("") == None
    && json.parse(json.print_(j)) == Some(j)
    && (j.JArray? || j.JObject? || j.JString? ==> json.print_(j) != "" && json.print_(j)[0] in {'[', '{', '"'})
  }

  /** A namespace that reads back. */
  predicate IsPath(nsp: string) {
    nsp != "" && nsp[0] == '/' && ',' !in nsp
  }

  /** A packet without attachments comes back, its objects turned into arrays, exactly when it
      has no id, its namespace is a path and its data, so changed, is right for its type. */
  lemma PlainRoundTrip(json: Json, packet: Packet)
    requires !IsBinary(packet.packetType) && Reads(json, Numbered(packet.data, 0))
    ensures DecodeProtoPacket(json, EncodeText(json, packet)) == Decoded(Plain(Carried(packet)))
            <==> packet.id.None? && IsPath(packet.nsp) && IsPayloadValid(packet.packetType, Numbered(packet.data, 0))
  {
    hide ParseProtoPacket, EncodeText, Numbered, FromJson, IsPayloadValid;
    assert IsPayloadValid(packet.packetType, Numbered(packet.data, 0)) ==> IsEnclosed(Numbered(packet.data, 0)) by {
      ValidIsEnclosed(packet.packetType, Numbered(packet.data, 0));
    }
    var text := EncodeText(json, packet);
    var j := Numbered(packet.data, 0);
    if !IsPath(packet.nsp) || !IsPayloadValid(packet.packetType, j) {
      DecodedIsProper(json, text);
      ValidityShows(packet.packetType, j);
    } else if packet.nsp == "/" {
      RootText(json, packet);
    } else {
      PathText(json, packet);
    }
  }

  function Carried(packet: Packet): Packet {
    packet.(data := FromJson(Numbered(packet.data, 0)))
  }

  /** `IsPayloadValid`, seen on the data made of the payload. */
  predicate IsDataValid(packetType: PacketType, data: PacketDataValue) {
    match packetType
    case Connect => data.Object?
    case Disconnect => data.Null?
    case ConnectError => data.Str? || data.Object?
    case Event => data.Array? && data.elems != [] && data.elems[0].Str?
    case BinaryEvent => data.Array? && data.elems != [] && data.elems[0].Str?
    case Ack => data.Array?
    case BinaryAck => data.Array?
  }

  lemma ValidityShows(packetType: PacketType, j: JsonValue)
    ensures IsPayloadValid(packetType, j) <==> IsDataValid(packetType, FromJson(j))
  {
    if j.JArray? && j.elems != [] {
      assert FromJsonAll(j.elems)[0] == FromJson(j.elems[0]);
    }
  }

  lemma ValidIsEnclosed(packetType: PacketType, j: JsonValue)
    ensures IsPayloadValid(packetType, j) ==> IsEnclosed(j)
  {
  }

  lemma DecodedIsProper(json: Json, text: string)
    ensures var r := DecodeProtoPacket(json, text);
            r.Decoded? && r.value.Plain? ==>
              IsPath(r.value.packet.nsp) && IsDataValid(r.value.packet.packetType, r.value.packet.data)
  {
    hide StringCodec.TakeUint, ParseAttachmentsCount, IsDataValid, IsPayloadValid, FromJson, ParseId, ParseNamespace;
    var r := DecodeProtoPacket(json, text);
    if r.Decoded? && r.value.Plain? {
      var number := StringCodec.TakeUint(StringCodec.U8_MAX, text);
      var packetType := TypeOf(number.value).value;
      var input := if IsBinary(packetType) then ParseAttachmentsCount(number.rest).rest else number.rest;
      NamespaceIsPath(input);
      var id := ParseId(ParseNamespace(input).rest);
      ValidityShows(packetType, ParseJsonData(json, id.rest, packetType).value);
    }
  }

  lemma NamespaceIsPath(input: string)
    ensures ParseNamespace(input).Ok? ==> IsPath(ParseNamespace(input).value)
  {
  }

  // How the parts of a text are read, one by one.

  lemma TypeReadsBack(packetType: PacketType, tail: string)
    requires !StartsWithDigit(tail)
    ensures StringCodec.TakeUint(StringCodec.U8_MAX, ToText(TypeIndex(packetType)) + tail)
         == Ok(tail, TypeIndex(packetType))
    ensures TypeOf(TypeIndex(packetType)) == Some(packetType)
  {
    hide Value, ToText;
    var digits := ToText(TypeIndex(packetType));
    SpanAppend(IsDigit, digits, tail);
    ValueOfToText(TypeIndex(packetType));
    assert (digits + tail)[..|digits|] == digits && (digits + tail)[|digits|..] == tail;
  }

  lemma NamespaceReadsBack(nsp: string, tail: string)
    requires IsPath(nsp)
    ensures ParseNamespace(nsp + "," + tail) == Ok(tail, nsp)
  {
    var after := "," + tail;
    assert nsp + "," + tail == nsp + after;
    assert forall i :: 0 <= i < |nsp| ==> NotComma(nsp[i]);
    SpanAppend(NotComma, nsp, after);
    assert (nsp + after)[..|nsp|] == nsp && (nsp + after)[|nsp|..] == after && after[1..] == tail;
  }

  /** A namespace that no comma ends is an error. */
  lemma UnendedNamespaceIsRejected(json: Json, index: string, nsp: string)
    requires index != "" && AllDigits(index) && TypeOf(Value(index)).Some? && IsPath(nsp)
    ensures DecodeProtoPacket(json, index + nsp) == Rejected
  {
    hide Value, StringCodec.TakeUint;
    TypeIsTaken(index, nsp);
    assert nsp + "" == nsp;
    assert forall i :: 0 <= i < |nsp| ==> NotComma(nsp[i]);
    SpanAppend(NotComma, nsp, "");
  }

  /** An id is not followed by the hyphen that its reading asks for. */
  lemma IdIsRefused(id: Option<nat>, tail: string)
    requires !StartsWithDigit(tail) && (tail == "" || tail[0] != '-')
    ensures ParseId(IdText(id) + tail) == if id.None? then Ok(tail, None) else IResult.Error
  {
    var digits := IdText(id);
    SpanAppend(IsDigit, digits, tail);
    assert (digits + tail)[..|digits|] == digits && (digits + tail)[|digits|..] == tail;
  }

  /** The data that any type of packet may have. */
  predicate IsEnclosed(j: JsonValue) {
    j.JArray? || j.JObject? || j.JString? || j.JNull?
  }

  lemma NumberReadsBack(digits: string, tail: string)
    requires digits != "" && AllDigits(digits)
    ensures ParseId(digits + ("-" + tail))
         == match DigitsToU32(digits) case Some(n) => Ok(tail, Some(n)) case None => Overflow
  {
    hide DigitsToU32;
    var after := "-" + tail;
    SpanAppend(IsDigit, digits, after);
    assert (digits + after)[..|digits|] == digits && (digits + after)[|digits|..] == after && after[1..] == tail;
  }

  /** An id that does have its hyphen is read as ten times what it is, or overflows. Data that
      is no JSON is read as null. */
  lemma IdIsReadTenfold(json: Json, index: string, nsp: string, id: string, data: string)
    requires index != "" && AllDigits(index) && TypeOf(Value(index)).Some? && !IsBinary(TypeOf(Value(index)).value)
    requires IsPath(nsp) && id != "" && AllDigits(id)
    ensures var r := DecodeProtoPacket(json, index + (nsp + "," + (id + ("-" + data))));
            var payload := if json.parse(data).Some? then json.parse(data).value else JNull;
            var packetType := TypeOf(Value(index)).value;
            if |id| > 9 || 10 * Value(id) >= 0x1_0000_0000 then r == Panicked
            else if !IsPayloadValid(packetType, payload) then r == Rejected
            else r == Decoded(Plain(Packet(packetType, Some(10 * Value(id)), nsp, FromJson(payload))))
  {
    hide FromJson, IsPayloadValid, StringCodec.TakeUint, ParseNamespace, ParseId, Value;
    var tail := id + ("-" + data);
    var named := nsp + "," + tail;
    TypeIsTaken(index, named);
    NamespaceReadsBack(nsp, tail);
    NumberReadsBack(id, data);
  }

  lemma TypeIsTaken(index: string, tail: string)
    requires index != "" && AllDigits(index) && TypeOf(Value(index)).Some? && !StartsWithDigit(tail)
    ensures StringCodec.TakeUint(StringCodec.U8_MAX, index + tail) == Ok(tail, Value(index))
  {
    hide Value;
    SpanAppend(IsDigit, index, tail);
    assert (index + tail)[..|index|] == index && (index + tail)[|index|..] == tail;
  }

  lemma DataReadsBack(json: Json, packetType: PacketType, j: JsonValue)
    requires Reads(json, j) && IsEnclosed(j)
    ensures var data := DataText(json, j);
            && (data == "" || data[0] in {'[', '{', '"'})
            && ParseJsonData(json, data, packetType) == if IsPayloadValid(packetType, j) then Ok(data, j) else Failure
  {
  }

  /** How a packet with readable data is decoded behind its namespace. */
  function AsDecoded(packet: Packet): Outcome<ProtoPacket> {
    if IsPayloadValid(packet.packetType, Numbered(packet.data, 0)) then Decoded(Plain(Carried(packet))) else Rejected
  }

  lemma RootText(json: Json, packet: Packet)
    requires !IsBinary(packet.packetType)
    requires Reads(json, Numbered(packet.data, 0)) && IsEnclosed(Numbered(packet.data, 0))
    requires packet.nsp == "/"
    ensures packet.id.None? ==> DecodeProtoPacket(json, EncodeText(json, packet)) == AsDecoded(packet)
    ensures packet.id.Some? ==> DecodeProtoPacket(json, EncodeText(json, packet)) != Decoded(Plain(Carried(packet)))
  {
    hide Numbered, FromJson, IsPayloadValid, DataText, Reads, AllDigits, ToText;
    hide ParseJsonData, ParseNamespace, ParseId, ParseAttachmentsCount, StringCodec.TakeUint;
    var data := DataText(json, Numbered(packet.data, 0));
    DataReadsBack(json, packet.packetType, Numbered(packet.data, 0));
    RootReadsBack(data);
    if packet.id.None? {
      assert EncodeText(json, packet) == ToText(TypeIndex(packet.packetType)) + data;
      TypeReadsBack(packet.packetType, data);
    } else {
      var digits := ToText(TypeIndex(packet.packetType)) + IdText(packet.id);
      assert EncodeText(json, packet) == digits + data;
      DigitsAreTaken(ToText(TypeIndex(packet.packetType)), IdText(packet.id), data);
      NeverMultipart(json, EncodeText(json, packet));
    }
  }

  lemma RootReadsBack(data: string)
    requires data == "" || data[0] in {'[', '{', '"'}
    ensures ParseNamespace(data) == Ok(data, "/") && ParseId(data) == Ok(data, None)
  {
  }

  lemma DigitsAreTaken(a: string, b: string, tail: string)
    requires AllDigits(a) && AllDigits(b) && a != "" && !StartsWithDigit(tail)
    ensures var r := StringCodec.TakeUint(StringCodec.U8_MAX, a + b + tail); r.Ok? ==> r.rest == tail
  {
    SpanAppend(IsDigit, a + b, tail);
    assert (a + b + tail)[|a + b|..] == tail;
  }

  lemma PathText(json: Json, packet: Packet)
    requires !IsBinary(packet.packetType)
    requires Reads(json, Numbered(packet.data, 0)) && IsEnclosed(Numbered(packet.data, 0))
    requires packet.nsp != "/" && IsPath(packet.nsp)
    ensures DecodeProtoPacket(json, EncodeText(json, packet)) == if packet.id.None? then AsDecoded(packet) else Rejected
  {
    hide Numbered, FromJson, IsPayloadValid, DataText, Reads;
    hide ParseJsonData, ParseNamespace, ParseId, StringCodec.TakeUint;
    var data := DataText(json, Numbered(packet.data, 0));
    DataReadsBack(json, packet.packetType, Numbered(packet.data, 0));
    var tail := IdText(packet.id) + data;
    var named := packet.nsp + "," + tail;
    assert EncodeText(json, packet) == ToText(TypeIndex(packet.packetType)) + named;
    TypeReadsBack(packet.packetType, named);
    NamespaceReadsBack(packet.nsp, tail);
    IdIsRefused(packet.id, data);
  }

  /** The encoder's own answer to a client that connects carries an object, which it writes
      as an array: the decoder refuses it. */
  lemma ConnectReplyIsRejected(json: Json, packet: Packet)
    requires packet.packetType.Connect? && packet.data.Object? && packet.id.None? && IsPath(packet.nsp)
    requires Reads(json, Numbered(packet.data, 0))
    ensures DecodeProtoPacket(json, EncodeText(json, packet)) == Rejected
  {
    hide ParseProtoPacket, EncodeText, NumberedAll;
    if packet.nsp == "/" {
      RootText(json, packet);
    } else {
      PathText(json, packet);
    }
  }
}
