/** Packets and payloads as text: a decimal length, a colon, the packet type and the data,
    with binary data in base64 behind a `b`. */
module StringCodec {
  import opened Wrappers
  import opened EnginePacket
  import opened Nom
  import opened Decimal
  import Base64

  const U8_MAX := 0xFF
  const USIZE_MAX := 0xFFFF_FFFF_FFFF_FFFF

  // Decoding.

  /** `take_u8` and `take_usize`: all the digits there are, as a number of limited width. */
  function TakeUint(max: nat, input: string): (r: IResult<char, nat>)
    ensures r.Ok? ==> IsSuffix(r.rest, input) && |r.rest| < |input|
  {
    var (rest, digits) :- TakeWhile1(IsDigit, input);
    if Value(digits) <= max then Ok(rest, Value(digits)) else Failure
  }

  /** A packet of text; without a length its data is everything that is left. */
  function ParseStringPacket(input: string, dataLength: Option<nat>): (r: IResult<char, Packet>)
    ensures r.Ok? ==> IsSuffix(r.rest, input) && |input| >= |r.rest| + 1 + DataSize(r.value.data)
    ensures r.Ok? ==> r.value.data.Text?
  {
    var (rest, index) :- TakeUint(U8_MAX, input);
    var (rest, data) :- match dataLength case Some(n) => Take(n, rest) case None => Ok("", rest);
    match TypeOf(index)
    case Some(packetType) => Ok(rest, Packet(packetType, Text(data)))
    case None => IResult.Error
  }

  function ParseBase64StringPacket(input: string, dataLength: nat): (r: IResult<char, Packet>)
    ensures r.Ok? ==> IsSuffix(r.rest, input) && |input| >= |r.rest| + 1 + DataSize(r.value.data)
    ensures r.Ok? ==> r.value.data.Binary?
  {
    var (rest, _) :- Char('b', input);
    if dataLength == 0 then Overflow else
    var (rest, index) :- TakeUint(U8_MAX, rest);
    var (rest, base64) :- Take(dataLength - 1, rest);
    match TypeOf(index)
    case Some(packetType) =>
      (match Base64.Decode(base64)
       case Some(data) => Ok(rest, Packet(packetType, Binary(data)))
       case None => Failure)
    case None => IResult.Error
  }

  /** What follows the colon. */
  function ParseFramed(input: string, dataLength: nat): IResult<char, Packet> {
    Alt(ParseStringPacket(input, Some(dataLength)), ParseBase64StringPacket(input, dataLength))
  }

  function ParsePacketInPayload(input: string): (r: IResult<char, Packet>)
    ensures r.Ok? ==> IsSuffix(r.rest, input) && |input| >= |r.rest| + 3 + DataSize(r.value.data)
    ensures r.Ok? ==> !r.value.data.Empty?
  {
    var (rest, length) :- TakeUint(USIZE_MAX, input);
    var (rest, _) :- Char(':', rest);
    if length == 0 then Overflow else ParseFramed(rest, length - 1)
  }

  function ParsePayload(input: string): IResult<char, seq<Packet>> {
    FoldMany0(ParsePacketInPayload, input)
  }

  method DecodePayloadLoop(input: string) returns (r: Outcome<seq<Packet>>)
    ensures r == DecodePayload(input)
  {
    var parsed := FoldMany0Loop(ParsePacketInPayload, input);
    r := ToOutcome(parsed);
  }

  function DecodePayload(input: string): Outcome<seq<Packet>> {
    ToOutcome(ParsePayload(input))
  }

  function DecodePacket(input: string): Outcome<Packet> {
    ToOutcome(ParseStringPacket(input, None))
  }

  /** The number of characters or bytes that a packet carries. */
  function DataSize(data: PacketData): nat {
    match data
    case Text(text) => |text|
    case Binary(bytes) => |bytes|
    case Empty => 0
  }

  // Encoding.

  function DataText(data: PacketData): string {
    match data
    case Text(text) => text
    case Binary(bytes) => Base64.Encode(bytes)
    case Empty => ""
  }

  function EncodePacket(packet: Packet): string {
    ToText(packet.packetType.Index()) + DataText(packet.data)
  }

  function EncodePacketInPayload(packet: Packet): string {
    var serialized := EncodePacket(packet);
    match packet.data
    case Binary(_) => ToText(|serialized| + 1) + ":b" + serialized
    case Text(_) => ToText(|serialized|) + ":" + serialized
    case Empty => ""
  }

  function EncodePayload(packets: seq<Packet>): string {
    if packets == [] then "" else EncodePacketInPayload(packets[0]) + EncodePayload(packets[1..])
  }

  method EncodePayloadLoop(packets: seq<Packet>) returns (acc: string)
    ensures acc == EncodePayload(packets)
  {
    hide EncodePacketInPayload;
    acc := "";
    for i := 0 to |packets|
      invariant acc + EncodePayload(packets[i..]) == EncodePayload(packets)
    {
      acc := acc + EncodePacketInPayload(packets[i]);
    }
  }
}
