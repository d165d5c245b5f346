/** The text form of Socket.IO packets: the type, the number of attachments, the namespace, the
    id and the data as JSON. */
module ProtoText {
  import opened Wrappers
  import opened ByteStrings
  import opened Nom
  import opened Decimal
  import opened PacketValue
  import opened Attachments
  import opened SocketPacket
  import StringCodec
  import BinaryCodec

  /** The JSON library. */
  datatype Json = Json(print_: JsonValue -> string, parse: string -> Option<JsonValue>)

  datatype ProtoPacket = Plain(packet: Packet) | Multipart(header: Header)

  // Encoding.

  function TypeIndex(packetType: PacketType): nat {
    match packetType
    case Connect => 0
    case Disconnect => 1
    case Event => 2
    case Ack => 3
    case ConnectError => 4
    case BinaryEvent => 5
    case BinaryAck => 6
  }

  function NamespaceText(nsp: string): string {
    if nsp != "/" then nsp + "," else ""
  }

  function IdText(id: Option<nat>): string {
    match id
    case Some(n) => ToText(n)
    case None => ""
  }

  function DataText(json: Json, j: JsonValue): string {
    if j != JNull then json.print_(j) else ""
  }

  function CountText(packet: Packet): string {
    if IsBinary(packet.packetType) then ToText(|Binaries(packet.data)|) + "-" else ""
  }

  function EncodeText(json: Json, packet: Packet): string {
    ToText(TypeIndex(packet.packetType)) + CountText(packet) + NamespaceText(packet.nsp) + IdText(packet.id)
    + DataText(json, Numbered(packet.data, 0))
  }

  function Join(buffer: seq<string>): string {
    if buffer == [] then "" else Join(buffer[..|buffer| - 1]) + buffer[|buffer| - 1]
  }

  lemma JoinPush(buffer: seq<string>, s: string)
    ensures Join(buffer + [s]) == Join(buffer) + s
  {
    assert (buffer + [s])[..|buffer|] == buffer;
  }

  method Push(buffer: seq<string>, s: string) returns (longer: seq<string>)
    ensures Join(longer) == Join(buffer) + s
  {
    longer := buffer + [s];
    JoinPush(buffer, s);
  }

  method PushBoth(buffer: seq<string>, s: string, separator: string) returns (longer: seq<string>)
    ensures Join(longer) == Join(buffer) + (s + separator)
  {
    longer := Push(buffer, s);
    longer := Push(longer, separator);
  }

  /** `encode_packet`: the pieces of the text are pushed into a buffer, and the binaries into
      a list. */
  method EncodePacket(json: Json, packet: Packet) returns (text: string, attachments: seq<Bytes>)
    ensures text == EncodeText(json, packet)
    ensures attachments == Binaries(packet.data)
  {
    assert Join([]) == "";
    hide Join, ToText, Numbered, NumberedAll, Binaries, BinariesOfAll, EncodeText, MakePlaceholder, TypeIndex;
    var list := new AttachmentList();
    var header := list.Deconstruct(packet.data);
    attachments := list.attachments;
    var buffer := Push([], ToText(TypeIndex(packet.packetType)));
    if packet.packetType == BinaryEvent || packet.packetType == BinaryAck {
      buffer := PushBoth(buffer, ToText(|attachments|), "-");
    }
    ghost var counted := Join(buffer);
    assert counted == ToText(TypeIndex(packet.packetType)) + CountText(packet);
    if packet.nsp != "/" {
      buffer := PushBoth(buffer, packet.nsp, ",");
    }
    assert Join(buffer) == counted + NamespaceText(packet.nsp);
    if packet.id.Some? {
      buffer := Push(buffer, ToText(packet.id.value));
    }
    assert Join(buffer) == counted + NamespaceText(packet.nsp) + IdText(packet.id);
    if header != JNull {
      buffer := Push(buffer, json.print_(header));
    }
    text := Join(buffer);
    assert text == EncodeText(json, packet) by { Parts(json, packet); }
  }

  lemma Parts(json: Json, packet: Packet)
    ensures EncodeText(json, packet)
         == ToText(TypeIndex(packet.packetType)) + CountText(packet) + NamespaceText(packet.nsp) + IdText(packet.id)
          + DataText(json, Numbered(packet.data, 0))
  {
  }

  // Decoding.

  function TypeOf(index: nat): Option<PacketType> {
    match index
    case 0 => Some(Connect)
    case 1 => Some(Disconnect)
    case 2 => Some(Event)
    case 3 => Some(Ack)
    case 4 => Some(ConnectError)
    case 5 => Some(BinaryEvent)
    case 6 => Some(BinaryAck)
    case _ => None
  }

  /** `digits_to_u32`, in closed form; nothing stands for its overflow. The powers of ten are
      one too high: see `DigitsToU32Loop`. */
  function DigitsToU32(digits: string): Option<nat>
    requires AllDigits(digits)
  {
    if |digits| <= 9 && 10 * Value(digits) < U32_LIMIT then Some(10 * Value(digits)) else None
  }

  method DigitsToU32Loop(digits: string) returns (r: Option<nat>)
    requires AllDigits(digits)
    ensures r == DigitsToU32(digits)
  {
    hide Value, BinaryCodec.Pow10;
    var count := |digits|;
    NoDigitsYet(digits);
    var acc := 0;
    var order := 0;
    while order < count
      invariant order <= count
      invariant acc == Value(digits[..order]) * BinaryCodec.Pow10(count - order + 1)
      invariant acc < U32_LIMIT
      invariant order > 0 ==> count <= 9
    {
      var power := BinaryCodec.Pow10(count - order);
      BinaryCodec.Pow10Width(count - order);
      PrefixValue(digits, order + 1);
      AddDigit(digits, order);
      if power >= U32_LIMIT {
        return None;
      }
      var product := DigitValue(digits[order]) * power;
      if product >= U32_LIMIT || acc + product >= U32_LIMIT {
        return None;
      }
      acc := acc + product;
      order := order + 1;
    }
    assert digits[..count] == digits;
    assert BinaryCodec.Pow10(1) == 10 by { TenToTheFirst(); }
    r := Some(acc);
  }

  lemma NoDigitsYet(digits: string)
    requires AllDigits(digits)
    ensures Value(digits[..0]) == 0
    ensures digits == [] ==> Value(digits) == 0
  {
  }

  lemma TenToTheFirst()
    ensures BinaryCodec.Pow10(1) == 10
  {
    assert BinaryCodec.Pow10(1) == 10 * BinaryCodec.Pow10(0);
  }

  lemma AddDigit(digits: string, order: nat)
    requires AllDigits(digits) && order < |digits|
    ensures Value(digits[..order + 1]) * BinaryCodec.Pow10(|digits| - order)
         == Value(digits[..order]) * BinaryCodec.Pow10(|digits| - order + 1)
          + DigitValue(digits[order]) * BinaryCodec.Pow10(|digits| - order)
    ensures 0 <= DigitValue(digits[order]) * BinaryCodec.Pow10(|digits| - order)
    ensures 0 <= Value(digits[..order]) * BinaryCodec.Pow10(|digits| - order + 1)
  {
    var p, higher, d := BinaryCodec.Pow10(|digits| - order), Value(digits[..order]), DigitValue(digits[order]);
    assert digits[..order + 1][..order] == digits[..order];
    assert (10 * higher + d) * p == higher * (10 * p) + d * p;
  }

  /** Leading digits, at their places, are at most the whole number. */
  lemma {:induction false} PrefixValue(digits: string, k: nat)
    requires AllDigits(digits) && k <= |digits|
    ensures Value(digits[..k]) * BinaryCodec.Pow10(|digits| - k + 1) <= 10 * Value(digits)
    decreases |digits| - k
  {
    if k == |digits| {
      assert digits[..k] == digits;
      assert BinaryCodec.Pow10(1) == 10 * BinaryCodec.Pow10(0);
    } else {
      PrefixValue(digits, k + 1);
      AddDigit(digits, k);
    }
  }

  function FromOverflow(digits: string, rest: string): IResult<char, nat>
    requires AllDigits(digits)
  {
    match DigitsToU32(digits)
    case Some(n) => Ok(rest, n)
    case None => Overflow
  }

  function ParseAttachmentsCount(input: string): IResult<char, nat> {
    var (rest, digits) :- TakeWhile1(IsDigit, input);
    var (rest, _) :- Char('-', rest);
    FromOverflow(digits, rest)
  }

  predicate NotComma(c: char) {
    c != ','
  }

  function ParseNamespace(input: string): IResult<char, string> {
    if Char('/', input).Ok? then
      var (rest, namespace) :- TakeWhile1(NotComma, input);
      var (rest, _) :- Take(1, rest);
      Ok(rest, namespace)
    else
      Ok(input, "/")
  }

  function ParseId(input: string): IResult<char, Option<nat>> {
    match TakeWhile1(IsDigit, input)
    case Ok(rest, digits) =>
      var (rest, _) :- Char('-', rest);
      var (rest, id) :- FromOverflow(digits, rest);
      Ok(rest, Some(id))
    case _ => Ok(input, None)
  }

  predicate IsPayloadValid(packetType: PacketType, payload: JsonValue) {
    match packetType
    case Connect => payload.JObject?
    case Disconnect => payload.JNull?
    case ConnectError => payload.JString? || payload.JObject?
    case Event => payload.JArray? && payload.elems != [] && payload.elems[0].JString?
    case BinaryEvent => payload.JArray? && payload.elems != [] && payload.elems[0].JString?
    case Ack => payload.JArray?
    case BinaryAck => payload.JArray?
  }

  /** The data is all that is left, which is not consumed. */
  function ParseJsonData(json: Json, input: string, packetType: PacketType): IResult<char, JsonValue> {
    var payload := match json.parse(input) case Some(j) => j case None => JNull;
    if IsPayloadValid(packetType, payload) then Ok(input, payload) else Failure
  }

  function ParseProtoPacket(json: Json, input: string): IResult<char, ProtoPacket> {
    var (rest, index) :- StringCodec.TakeUint(StringCodec.U8_MAX, input);
    match TypeOf(index)
    case None => Failure
    case Some(packetType) =>
      var (rest, count) :- if IsBinary(packetType) then ParseAttachmentsCount(rest) else Ok(rest, 0);
      ParseAfterCount(json, rest, packetType, count)
  }

  function ParseAfterCount(json: Json, input: string, packetType: PacketType, count: nat): IResult<char, ProtoPacket>
    requires count > 0 ==> IsBinary(packetType)
  {
    var (rest, namespace) :- ParseNamespace(input);
    var (rest, id) :- ParseId(rest);
    var (rest, payload) :- ParseJsonData(json, rest, packetType);
    if count > 0 then Ok(rest, Multipart(Header(packetType, id, Some(namespace), payload, count)))
    else Ok(rest, Plain(Packet(packetType, id, namespace, FromJson(payload))))
  }

  /** `decode_proto_packet` */
  function DecodeProtoPacket(json: Json, text: string): Outcome<ProtoPacket> {
    ToOutcome(ParseProtoPacket(json, text))
  }
}
