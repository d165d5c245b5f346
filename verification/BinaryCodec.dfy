/** Packets and payloads as bytes: a kind, a length in little-endian decimal digits, the
    separator 255, the packet type and the data. */
module BinaryCodec {
  import opened Wrappers
  import opened ByteStrings
  import opened EnginePacket
  import opened Nom
  import Utf8

  const SEPARATOR: byte := 255
  const ASCII_ZERO: byte := 48

  // The length field.

  function Pow10(k: nat): (p: nat)
    ensures p >= 1
  {
    if k == 0 then 1 else 10 * Pow10(k - 1)
  }

  /** The number that base-10 digits stand for, the lowest first. */
  function LittleEndian(digits: Bytes): nat {
    if digits == [] then 0 else digits[0] + 10 * LittleEndian(digits[1..])
  }

  function LengthDigits(n: nat): (digits: Bytes)
    ensures digits != [] && forall i :: 0 <= i < |digits| ==> digits[i] <= 9
    ensures n > 0 ==> digits[|digits| - 1] != 0
    ensures LittleEndian(digits) == n
  {
    if n < 10 then [n] else [n % 10] + LengthDigits(n / 10)
  }

  /** The digits that the loop has still to push. */
  function DigitsLeft(val: nat): Bytes {
    if val == 0 then [] else LengthDigits(val)
  }

  lemma ZeroDigit()
    ensures LengthDigits(0) == [0]
  {
  }

  lemma PushDigit(digits: Bytes, val: nat)
    requires val > 0
    ensures digits + DigitsLeft(val) == (digits + [val % 10]) + DigitsLeft(val / 10)
  {
    assert DigitsLeft(val) == [val % 10] + DigitsLeft(val / 10);
  }

  method EncodePacketLength(input: nat) returns (digits: Bytes)
    ensures digits == LengthDigits(input)
  {
    hide LengthDigits, LittleEndian;
    var val: nat := input;
    digits := [];
    if val == 0 {
      ZeroDigit();
      digits := digits + [0];
      return;
    }
    while val > 0
      invariant digits + DigitsLeft(val) == LengthDigits(input)
    {
      var digit := val % 10;
      PushDigit(digits, val);
      val := val / 10;
      digits := digits + [digit];
    }
  }

  predicate NotSeparator(b: byte) {
    b != SEPARATOR
  }

  /** `parse_packet_length`, with the sum of its loop in closed form: it stays within 32
      bits exactly when there are at most ten digits and their number does. */
  function ParsePacketLength(input: Bytes): (r: IResult<byte, nat>)
    ensures r.Ok? ==> IsSuffix(r.rest, input) && |r.rest| < |input|
  {
    var (rest, digits) :- TakeWhile1<byte>(NotSeparator, input);
    if |digits| <= 10 && LittleEndian(digits) < U32_LIMIT then Ok(rest, LittleEndian(digits)) else Overflow
  }

  /** The loop itself, with its 32-bit power, product and sum checked one by one. */
  method ParsePacketLengthLoop(input: Bytes) returns (r: IResult<byte, nat>)
    ensures r == ParsePacketLength(input)
  {
    var taken := TakeWhile1<byte>(NotSeparator, input);
    if !taken.Ok? {
      return IResult.Error;
    }
    var digits := taken.value;
    var i := |digits|;
    var packetLength := 0;
    while i > 0
      invariant 0 <= i <= |digits|
      invariant packetLength == Pow10(i) * LittleEndian(digits[i..])
      invariant packetLength < U32_LIMIT
      invariant i < |digits| ==> |digits| <= 10
    {
      Pow10Width(i - 1);
      AddDigit(digits, i);
      var power := Pow10(i - 1);
      if power >= U32_LIMIT {
        return Overflow;
      }
      var product := power * digits[i - 1];
      if product >= U32_LIMIT || packetLength + product >= U32_LIMIT {
        return Overflow;
      }
      packetLength := packetLength + product;
      i := i - 1;
    }
    assert digits[0..] == digits;
    r := Ok(taken.rest, packetLength);
  }

  lemma {:induction false} Positional(digits: Bytes, i: nat)
    requires i <= |digits|
    ensures LittleEndian(digits) == LittleEndian(digits[..i]) + Pow10(i) * LittleEndian(digits[i..])
  {
    if i == 0 {
      assert digits[0..] == digits;
    } else {
      Positional(digits[1..], i - 1);
      assert digits[1..][..i - 1] == digits[..i][1..] && digits[1..][i - 1..] == digits[i..];
      Shift(Pow10(i - 1), LittleEndian(digits[i..]));
    }
  }

  lemma Shift(p: nat, v: nat)
    ensures 10 * (p * v) == (10 * p) * v
  {
  }

  /** One turn of the loop: the sum of the digits from `i` on, and one digit more. It can
      only be a part of the whole number. */
  lemma AddDigit(digits: Bytes, i: nat)
    requires 0 < i <= |digits|
    ensures Pow10(i - 1) * LittleEndian(digits[i - 1..])
         == Pow10(i) * LittleEndian(digits[i..]) + Pow10(i - 1) * digits[i - 1]
    ensures Pow10(i - 1) * LittleEndian(digits[i - 1..]) <= LittleEndian(digits)
    ensures 0 <= Pow10(i - 1) * digits[i - 1] && 0 <= Pow10(i) * LittleEndian(digits[i..])
  {
    var p, d, higher := Pow10(i - 1), digits[i - 1], LittleEndian(digits[i..]);
    assert digits[i - 1..][1..] == digits[i..];
    Distribute(p, d, higher);
    Positional(digits, i - 1);
  }

  lemma Distribute(p: nat, d: nat, higher: nat)
    ensures p * (d + 10 * higher) == (10 * p) * higher + p * d
    ensures 0 <= p * d && 0 <= (10 * p) * higher
  {
  }

  lemma {:induction false} Pow10Width(k: nat)
    ensures Pow10(k) < U32_LIMIT <==> k <= 9
  {
    if k > 10 {
      Pow10Width(k - 1);
    } else {
      assert Pow10(4) == 10_000;
      assert Pow10(8) == 10_000 * Pow10(4);
    }
  }

  // Decoding.

  /** `parse_packet_data_type_in_binary_payload`: 0 for text and 1 for bytes. */
  function ParseDataType(input: Bytes): IResult<byte, byte> {
    var (rest, kind) :- Take<byte>(1, input);
    if kind[0] == 0 || kind[0] == 1 then Ok(rest, kind[0]) else Failure
  }

  predicate IsDigit(b: byte) {
    ASCII_ZERO <= b <= ASCII_ZERO + 9
  }

  function ParseStringDataPacket(input: Bytes, dataLength: nat): (r: IResult<byte, Packet>)
    ensures r.Ok? ==> IsSuffix(r.rest, input) && |input| >= |r.rest| + 1 + dataLength
    ensures r.Ok? ==> r.value.data.Binary? && |r.value.data.bytes| == dataLength
  {
    var (rest, typeAscii) :- TakeWhile1<byte>(IsDigit, input);
    var (rest, data) :- Take<byte>(dataLength, rest);
    match TypeOf(typeAscii[0] - ASCII_ZERO)
    case Some(packetType) => if Utf8.Valid(data) then Ok(rest, Packet(packetType, Binary(data))) else Failure
    case None => IResult.Error
  }

  /** A packet of bytes; without a length its data is everything that is left. */
  function ParseBinaryDataPacket(input: Bytes, dataLength: Option<nat>): (r: IResult<byte, Packet>)
    ensures r.Ok? ==> IsSuffix(r.rest, input) && r.value.data.Binary?
    ensures r.Ok? ==> |input| == |r.rest| + 1 + |r.value.data.bytes|
    ensures r.Ok? && dataLength.Some? ==> |r.value.data.bytes| == dataLength.value
  {
    var (rest, index) :- Take<byte>(1, input);
    var (rest, data) :- Take<byte>(match dataLength case Some(n) => n case None => |rest|, rest);
    match TypeOf(index[0])
    case Some(packetType) => Ok(rest, Packet(packetType, Binary(data)))
    case None => IResult.Error
  }

  function ParsePacketInPayload(input: Bytes): (r: IResult<byte, Packet>)
    ensures r.Ok? ==> IsSuffix(r.rest, input) && r.value.data.Binary?
    ensures r.Ok? ==> |input| >= |r.rest| + 4 + |r.value.data.bytes|
  {
    hide ParsePacketLength, ParseFramed, LittleEndian;
    var (rest, kind) :- ParseDataType(input);
    var (rest, length) :- ParsePacketLength(rest);
    var (rest, _) :- Take<byte>(1, rest);
    if length == 0 then Overflow
    else ParseFramed(rest, kind, length - 1)
  }

  /** What follows the separator. */
  function ParseFramed(input: Bytes, kind: byte, dataLength: nat): (r: IResult<byte, Packet>)
    ensures r.Ok? ==> IsSuffix(r.rest, input) && r.value.data.Binary?
    ensures r.Ok? ==> |input| >= |r.rest| + 1 + |r.value.data.bytes|
  {
    if kind == 0 then ParseStringDataPacket(input, dataLength) else ParseBinaryDataPacket(input, Some(dataLength))
  }

  function ParsePayload(input: Bytes): IResult<byte, seq<Packet>> {
    FoldMany0(ParsePacketInPayload, input)
  }

  function DecodePayload(input: Bytes): Outcome<seq<Packet>> {
    ToOutcome(ParsePayload(input))
  }

  method DecodePayloadLoop(input: Bytes) returns (r: Outcome<seq<Packet>>)
    ensures r == DecodePayload(input)
  {
    var parsed := FoldMany0Loop(ParsePacketInPayload, input);
    r := ToOutcome(parsed);
  }

  function DecodePacket(input: Bytes): Outcome<Packet> {
    ToOutcome(ParseBinaryDataPacket(input, None))
  }

  // Encoding.

  function DataBytes(data: PacketData): Bytes {
    match data
    case Text(text) => Utf8.Encode(text)
    case Binary(bytes) => bytes
    case Empty => []
  }

  /** The packet type in front of the data: an ASCII digit unless the data is bytes. */
  function TypeByte(packet: Packet): byte {
    if packet.data.Binary? then packet.packetType.Index() else packet.packetType.Index() + ASCII_ZERO
  }

  function EncodePacket(packet: Packet): Bytes {
    [TypeByte(packet)] + DataBytes(packet.data)
  }

  function EncodePacketInPayload(packet: Packet): Bytes {
    match packet.data
    case Empty => [1, ASCII_ZERO, SEPARATOR, TypeByte(packet)]
    case _ =>
      [if packet.data.Text? then 0 else 1] + LengthDigits(|DataBytes(packet.data)| + 1) + [SEPARATOR]
      + EncodePacket(packet)
  }

  function EncodePayload(packets: seq<Packet>): Bytes {
    if packets == [] then [] else EncodePacketInPayload(packets[0]) + EncodePayload(packets[1..])
  }

  /** `serialize_packet_in_payload`, which pushes onto a growing vector. */
  method EncodePacketInPayloadInto(packet: Packet) returns (sequence: Bytes)
    ensures sequence == EncodePacketInPayload(packet)
  {
    if packet.data.Empty? {
      sequence := [1, ASCII_ZERO, SEPARATOR, TypeByte(packet)];
      return;
    }
    var data := DataBytes(packet.data);
    var lengthBytes := EncodePacketLength(|data| + 1);
    sequence := [if packet.data.Text? then 0 else 1];
    sequence := sequence + lengthBytes;
    sequence := sequence + [SEPARATOR];
    sequence := sequence + [TypeByte(packet)];
    sequence := sequence + data;
  }

  method EncodePayloadLoop(packets: seq<Packet>) returns (acc: Bytes)
    ensures acc == EncodePayload(packets)
  {
    hide EncodePacketInPayload;
    acc := [];
    for i := 0 to |packets|
      invariant acc + EncodePayload(packets[i..]) == EncodePayload(packets)
    {
      var serialized := EncodePacketInPayloadInto(packets[i]);
      acc := acc + serialized;
    }
  }
}
