/** What the binary decoder makes of payloads that no encoder has to have written, and of those
    that hold packets without data. */
module BinaryCodecOutcomes {
  import opened Wrappers
  import opened ByteStrings
  import opened EnginePacket
  import opened Nom
  import opened BinaryCodec
  import opened BinaryCodecLaws
  import Utf8

  /** The bytes are those of some text. */
  ghost predicate IsText(b: Bytes) {
    exists text: string :: Utf8.Encode(text) == b
  }

  lemma ValidIffText(b: Bytes)
    ensures Utf8.Valid(b) <==> IsText(b)
  {
    if Utf8.Valid(b) {
      var text := Utf8.ValidOnlyEncode(b);
      assert Utf8.Encode(text) == b;
    }
    if IsText(b) {
      var text: string :| Utf8.Encode(text) == b;
      Utf8.ValidEncode(text);
    }
  }

  predicate AllDigits(b: Bytes) {
    forall i :: 0 <= i < |b| ==> IsDigit(b[i])
  }

  /** What follows the separator of a text packet: the first of all the digits there are is the
      type, and the data has to be text. */
  lemma TextFrameOutcome(digits: Bytes, rest: Bytes, n: nat)
    requires digits != [] && AllDigits(digits) && !StartsWithDigit(rest)
    ensures var r, packetType := ParseFramed(digits + rest, 0, n), TypeOf(digits[0] - ASCII_ZERO);
            if n > |rest| || packetType.None? then r.Error?
            else if IsText(rest[..n]) then r == Ok(rest[n..], Packet(packetType.value, Binary(rest[..n])))
            else r.Failure?
  {
    hide Utf8.Valid, TypeOf, IsText;
    SpanAppend<byte>(IsDigit, digits, rest);
    assert (digits + rest)[..|digits|] == digits && (digits + rest)[|digits|..] == rest;
    if n <= |rest| {
      ValidIffText(rest[..n]);
    }
  }

  /** Data that is announced as text, and is none, is refused, whatever follows it. */
  lemma NoTextIsRejected(packetType: PacketType, data: Bytes, tail: Bytes)
    requires !IsText(data) && !StartsWithDigit(data) && |data| + 1 < U32_LIMIT
    ensures DecodePayload([0] + LengthDigits(|data| + 1) + [SEPARATOR, packetType.Index() + ASCII_ZERO] + data + tail)
         == Rejected
  {
    hide LengthDigits, IsText, ParsePacketInPayload, ParseFramed, DecodePayload;
    EmptyIsText();
    var digits, rest := [packetType.Index() + ASCII_ZERO], data + tail;
    TypeOfIndex(packetType);
    TextFrameOutcome(digits, rest, |data|);
    assert rest[..|data|] == data;
    var input := [0] + LengthDigits(|data| + 1) + [SEPARATOR, packetType.Index() + ASCII_ZERO] + data + tail;
    assert input == [0] + (LengthDigits(|data| + 1) + ([SEPARATOR] + (digits + rest)));
    AfterField(0, |data| + 1, digits + rest);
    FailureRejects(input);
  }

  lemma AfterField(kind: byte, n: nat, rest: Bytes)
    requires kind <= 1 && 1 <= n < U32_LIMIT
    ensures ParsePacketInPayload([kind] + (LengthDigits(n) + ([SEPARATOR] + rest))) == ParseFramed(rest, kind, n - 1)
  {
    hide LengthDigits, ParseFramed, ParsePacketLength;
    var field := LengthDigits(n) + ([SEPARATOR] + rest);
    assert field == LengthDigits(n) + [SEPARATOR] + rest;
    LengthField(n, rest);
    assert ([kind] + field)[1..] == field;
    assert ([SEPARATOR] + rest)[1..] == rest;
  }

  lemma FailureRejects(input: Bytes)
    ensures ParsePacketInPayload(input).Failure? ==> DecodePayload(input) == Rejected
    ensures ParsePacketInPayload(input).Overflow? ==> DecodePayload(input) == Panicked
  {
    hide ParsePacketInPayload;
  }

  lemma EmptyIsText()
    ensures IsText([])
  {
    assert Utf8.Encode("") == [];
  }

  /** Whatever is decoded from what is announced as text is text. */
  lemma TextKindGivesText(input: Bytes)
    requires input != [] && input[0] == 0
    ensures var r := ParsePacketInPayload(input); r.Ok? ==> IsText(r.value.data.bytes)
  {
    hide IsText, ParsePacketLength, ParseFramed;
    var length := ParsePacketLength(input[1..]);
    if length.Ok? && length.rest != [] && length.value > 0 {
      TextFrameIsText(length.rest[1..], length.value - 1);
    }
  }

  lemma TextFrameIsText(input: Bytes, n: nat)
    ensures var r := ParseFramed(input, 0, n); r.Ok? ==> IsText(r.value.data.bytes)
  {
    hide Utf8.Valid, IsText, TakeWhile1;
    var r := ParseFramed(input, 0, n);
    if r.Ok? {
      ValidIffText(r.value.data.bytes);
    }
  }

  /** A kind other than text and bytes is refused, and a length of 0 is one less than it may be. */
  lemma BadStarts(kind: byte, tail: Bytes)
    ensures kind > 1 ==> DecodePayload([kind] + tail) == Rejected
    ensures kind <= 1 ==> DecodePayload([kind, 0, SEPARATOR] + tail) == Panicked
  {
    hide ParsePacketInPayload;
    if kind > 1 {
      BadKindFails(kind, tail);
      FailureRejects([kind] + tail);
    } else {
      NoLengthUnderflows(kind, tail);
      FailureRejects([kind, 0, SEPARATOR] + tail);
    }
  }

  lemma BadKindFails(kind: byte, tail: Bytes)
    requires kind > 1
    ensures ParsePacketInPayload([kind] + tail).Failure?
  {
    hide ParsePacketLength, ParseFramed;
  }

  lemma NoLengthUnderflows(kind: byte, tail: Bytes)
    requires kind <= 1
    ensures ParsePacketInPayload([kind, 0, SEPARATOR] + tail).Overflow?
  {
    hide ParsePacketLength, ParseFramed, LengthDigits;
    var input := [kind, 0, SEPARATOR] + tail;
    LengthField(0, tail);
    ZeroDigit();
    assert input[1..] == [0] + [SEPARATOR] + tail && ([SEPARATOR] + tail)[1..] == tail;
  }

  /** What follows packets that come back is decoded as if they were not there. */
  lemma {:induction false} DecodeAfter(packets: seq<Packet>, rest: Bytes)
    requires AllSurvive(packets) && !StartsWithDigit(rest)
    ensures ParsePayload(EncodePayload(packets) + rest) == Prepend(AllAsBytes(packets), ParsePayload(rest))
  {
    hide EncodePacketInPayload, ParsePacketInPayload, FoldMany0, Survives;
    if packets == [] {
      assert [] + rest == rest && AllAsBytes(packets) == [];
      PrependNothing(ParsePayload(rest));
    } else {
      var first, more := EncodePacketInPayload(packets[0]), EncodePayload(packets[1..]) + rest;
      assert EncodePayload(packets) + rest == first + more;
      MoreStart(packets[1..], rest);
      ParseEncoded(packets[0], more);
      EncodedNotEmpty(packets[0]);
      FoldMany0Step<byte, Packet>(ParsePacketInPayload, first + more);
      DecodeAfter(packets[1..], rest);
      PrependPrepend([AsBytes(packets[0])], AllAsBytes(packets[1..]), ParsePayload(rest));
      assert AllAsBytes(packets) == [AsBytes(packets[0])] + AllAsBytes(packets[1..]);
    }
  }

  lemma MoreStart(packets: seq<Packet>, rest: Bytes)
    requires !StartsWithDigit(rest)
    ensures !StartsWithDigit(EncodePayload(packets) + rest)
  {
    EncodedStart(packets, |EncodePayload(packets)|);
    assert EncodePayload(packets)[..|EncodePayload(packets)|] == EncodePayload(packets);
  }

  lemma EncodedNotEmpty(packet: Packet)
    ensures EncodePacketInPayload(packet) != []
  {
  }

  /** A packet without data ends the decoding: it and all packets after it are lost silently. */
  lemma EmptyEndsDecoding(before: seq<Packet>, packet: Packet, after: seq<Packet>)
    requires AllSurvive(before) && packet.data.Empty?
    ensures DecodePayload(EncodePayload(before + [packet] + after)) == Decoded(AllAsBytes(before))
  {
    hide ParsePacketInPayload, Survives, LengthDigits;
    var rest := EncodePayload([packet] + after);
    assert before + [packet] + after == before + ([packet] + after);
    EncodePayloadAppend(before, [packet] + after);
    assert ([packet] + after)[1..] == after;
    assert rest == EncodePacketInPayload(packet) + EncodePayload(after);
    assert rest[0] == 1;
    ParseEmptyPacket(packet, EncodePayload(after));
    DecodeAfter(before, rest);
    assert ParsePayload(rest) == Ok(rest, []);
    assert AllAsBytes(before) + [] == AllAsBytes(before);
  }

  /** The example that documents the encoder. */
  lemma DocumentedExample()
    ensures EncodePayload([Packet(Message, Text("\U{20ac}")), Packet(Message, Binary([1, 2, 3, 4]))])
         == [0, 4, 255, 0x34, 0xe2, 0x82, 0xac, 1, 5, 255, 4, 1, 2, 3, 4]
  {
    hide EncodePacketInPayload;
    var text, bytes := Packet(Message, Text("\U{20ac}")), Packet(Message, Binary([1, 2, 3, 4]));
    ExampleText();
    ExampleBytes();
    EncodeTwo(text, bytes);
  }

  /** The answer to a ping. */
  lemma PongExample()
    ensures EncodePayload([Packet(Pong, Empty)]) == [1, 48, 255, 51]
    ensures EncodePacket(Packet(Pong, Empty)) == [51]
  {
    assert [Packet(Pong, Empty)][1..] == [];
    assert EncodePayload([]) == [];
  }

  lemma EncodeTwo(first: Packet, second: Packet)
    ensures EncodePayload([first, second]) == EncodePacketInPayload(first) + EncodePacketInPayload(second)
  {
    hide EncodePacketInPayload;
    assert [first, second][1..] == [second] && [second][1..] == [];
    assert EncodePayload([second]) == EncodePacketInPayload(second) + [] == EncodePacketInPayload(second);
  }

  lemma Euro()
    ensures Utf8.Encode("\U{20ac}") == [0xe2, 0x82, 0xac]
  {
    assert Utf8.EncodeChar('\U{20ac}') == [0xe2, 0x82, 0xac];
    assert "\U{20ac}"[1..] == "";
    assert [0xe2, 0x82, 0xac] + Utf8.Encode("") == [0xe2, 0x82, 0xac];
  }

  lemma ExampleText()
    ensures EncodePacketInPayload(Packet(Message, Text("\U{20ac}"))) == [0, 4, 255, 0x34, 0xe2, 0x82, 0xac]
  {
    hide Utf8.Encode;
    Euro();
    assert LengthDigits(4) == [4];
  }

  lemma ExampleBytes()
    ensures EncodePacketInPayload(Packet(Message, Binary([1, 2, 3, 4]))) == [1, 5, 255, 4, 1, 2, 3, 4]
  {
    assert LengthDigits(5) == [5];
  }
}
