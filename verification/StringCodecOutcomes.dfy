/** What the string decoder makes of payloads that no encoder has to have written, and what
    becomes of packets without data. */
module StringCodecOutcomes {
  import opened Wrappers
  import opened ByteStrings
  import opened EnginePacket
  import opened Nom
  import opened Decimal
  import opened StringCodec
  import opened StringCodecLaws
  import Base64

  // Any input, part by part.

  /** All the digits there are, as one number. */
  lemma NumberOutcome(max: nat, digits: string, tail: string)
    requires digits != "" && AllDigits(digits) && !StartsWithDigit(tail)
    ensures TakeUint(max, digits + tail) == if Value(digits) <= max then Ok(tail, Value(digits)) else Failure
  {
    SpanAppend(IsDigit, digits, tail);
    assert (digits + tail)[..|digits|] == digits && (digits + tail)[|digits|..] == tail;
  }

  /** A packet starts with a length that fits and is not 0, and a colon. */
  lemma LengthOutcome(digits: string, tail: string)
    requires digits != "" && AllDigits(digits) && !StartsWithDigit(tail)
    ensures var r := ParsePacketInPayload(digits + tail);
            if Value(digits) > USIZE_MAX then r.Failure?
            else if tail == "" || tail[0] != ':' then r.Error?
            else if Value(digits) == 0 then r.Overflow?
            else r == ParseFramed(tail[1..], Value(digits) - 1)
  {
    hide TakeUint, ParseFramed;
    NumberOutcome(USIZE_MAX, digits, tail);
  }

  /** What follows the colon of a text packet: all the digits there are make its type. */
  lemma TextFrameOutcome(digits: string, rest: string, n: nat)
    requires digits != "" && AllDigits(digits) && !StartsWithDigit(rest)
    ensures var r, packetType := ParseFramed(digits + rest, n), TypeOf(Value(digits));
            if Value(digits) > U8_MAX then r.Failure?
            else if n > |rest| || packetType.None? then r.Error?
            else r == Ok(rest[n..], Packet(packetType.value, Text(rest[..n])))
  {
    hide TakeUint, TypeOf;
    NumberOutcome(U8_MAX, digits, rest);
    assert IsDigit((digits + rest)[0]);
  }

  /** What follows the colon of a packet of bytes: data that is not base64 is refused. */
  lemma Base64FrameOutcome(digits: string, rest: string, n: nat)
    requires digits != "" && AllDigits(digits) && !StartsWithDigit(rest)
    ensures var r, packetType := ParseFramed("b" + (digits + rest), n), TypeOf(Value(digits));
            if n == 0 then r.Overflow?
            else if Value(digits) > U8_MAX then r.Failure?
            else if n - 1 > |rest| || packetType.None? then r.Error?
            else if Base64.Decode(rest[..n - 1]).None? then r.Failure?
            else r == Ok(rest[n - 1..], Packet(packetType.value, Binary(Base64.Decode(rest[..n - 1]).value)))
  {
    hide TakeUint, TypeOf, Base64.Decode;
    var input := "b" + (digits + rest);
    NotANumber(U8_MAX, input);
    assert input[1..] == digits + rest;
    NumberOutcome(U8_MAX, digits, rest);
  }

  /** Anything else is where the decoding ends. */
  lemma OtherFrameOutcome(input: string, n: nat)
    requires !StartsWithDigit(input) && (input == "" || input[0] != 'b')
    ensures ParseFramed(input, n).Error? && ParsePacketInPayload(input).Error?
  {
  }

  /** What follows packets that come back anywhere is decoded as if they were not there. */
  lemma {:induction false} DecodeAfter(packets: seq<Packet>, rest: string)
    requires forall i :: 0 <= i < |packets| ==> Survives(packets[i], false)
    ensures ParsePayload(EncodePayload(packets) + rest) == Prepend(packets, ParsePayload(rest))
  {
    hide EncodePacketInPayload, ParsePacketInPayload, FoldMany0, Survives;
    if packets == [] {
      assert "" + rest == rest;
      PrependNothing(ParsePayload(rest));
    } else {
      var first, more := EncodePacketInPayload(packets[0]), EncodePayload(packets[1..]) + rest;
      assert EncodePayload(packets) + rest == first + more;
      SurvivorAnywhere(packets[0], more);
      ParseSurvivor(packets[0], more);
      EncodedPacket(packets[0]);
      FoldMany0Step(ParsePacketInPayload, first + more);
      DecodeAfter(packets[1..], rest);
      PrependPrepend([packets[0]], packets[1..], ParsePayload(rest));
      assert packets == [packets[0]] + packets[1..];
    }
  }

  lemma SurvivorAnywhere(packet: Packet, tail: string)
    requires Survives(packet, false)
    ensures !packet.data.Empty? && Framed(packet) <= USIZE_MAX && !StartsWithDigit(DataText(packet.data) + tail)
  {
    if packet.data.Binary? {
      Base64.FirstSymbolDigit(packet.data.bytes);
    }
  }

  /** A packet of bytes whose text is not base64 has the whole payload refused, the packets
      before it with it. */
  lemma BadBase64IsRejected(before: seq<Packet>, packetType: PacketType, text: string, tail: string)
    requires forall i :: 0 <= i < |before| ==> Survives(before[i], false)
    requires Base64.Decode(text).None? && !StartsWithDigit(text) && |text| + 2 <= USIZE_MAX
    ensures var rest := ToText(|text| + 2) + ":b" + ToText(packetType.Index()) + text + tail;
            DecodePayload(EncodePayload(before) + rest) == Rejected
  {
    hide Survives, Base64.Decode, ParsePayload, ToText, EncodePayload;
    var rest := ToText(|text| + 2) + ":b" + ToText(packetType.Index()) + text + tail;
    BadBase64Fails(packetType, text, tail);
    Regroup(ToText(|text| + 2), ToText(packetType.Index()), text, tail);
    FailureRejects(rest);
    DecodeAfter(before, rest);
  }

  lemma Regroup(length: string, digits: string, text: string, tail: string)
    ensures length + ":b" + digits + text + tail == length + (":" + ("b" + (digits + (text + tail))))
  {
  }

  lemma BadBase64Fails(packetType: PacketType, text: string, tail: string)
    requires Base64.Decode(text).None? && !StartsWithDigit(text) && |text| + 2 <= USIZE_MAX
    ensures var frame := "b" + (ToText(packetType.Index()) + (text + tail));
            ParsePacketInPayload(ToText(|text| + 2) + (":" + frame)).Failure?
  {
    hide *;
    var n := packetType.Index();
    StartsLike(text, tail);
    ParseAfterLength(|text| + 2, "b" + (ToText(n) + (text + tail)));
    ValueOfToText(n);
    TypeOfIndex(packetType);
    Base64FrameOutcome(ToText(n), text + tail, |text| + 1);
    assert (text + tail)[..|text|] == text;
  }

  lemma StartsLike(text: string, tail: string)
    requires Base64.Decode(text).None? && !StartsWithDigit(text)
    ensures !StartsWithDigit(text + tail)
  {
    NothingIsBase64();
  }

  lemma NothingIsBase64()
    ensures Base64.Decode("") == Some([])
  {
  }

  lemma FailureRejects(input: string)
    ensures ParsePacketInPayload(input).Failure? ==> ParsePayload(input).Failure?
  {
    hide ParsePacketInPayload;
  }

  // Packets without data.

  function WithData(packets: seq<Packet>): seq<Packet> {
    if packets == [] then []
    else (if packets[0].data.Empty? then [] else [packets[0]]) + WithData(packets[1..])
  }

  /** Packets without data leave no trace in a payload. */
  lemma {:induction false} EmptyIsSkipped(packets: seq<Packet>)
    ensures EncodePayload(packets) == EncodePayload(WithData(packets))
  {
    hide EncodePacketInPayload;
    if packets != [] {
      EmptyIsSkipped(packets[1..]);
      EncodesNothing(packets[0]);
      if !packets[0].data.Empty? {
        assert WithData(packets)[1..] == WithData(packets[1..]);
      } else {
        assert WithData(packets) == WithData(packets[1..]);
      }
    }
  }

  lemma EncodesNothing(packet: Packet)
    ensures packet.data.Empty? ==> EncodePacketInPayload(packet) == ""
  {
  }

  /** Decoding gives exactly the packets with data, if and only if those survive. */
  lemma RoundTripOfData(packets: seq<Packet>)
    ensures DecodePayload(EncodePayload(packets)) == Decoded(WithData(packets)) <==> AllSurvive(WithData(packets))
  {
    hide AllSurvive, DecodePayload, EncodePayload;
    EmptyIsSkipped(packets);
    RoundTrip(WithData(packets));
  }

  // Written examples.

  /** The example that documents the encoder. */
  lemma DocumentedExample()
    ensures EncodePayload([Packet(Message, Text("\U{20ac}")), Packet(Message, Binary([1, 2, 3, 4]))])
         == "2:4\U{20ac}10:b4AQIDBA=="
  {
    hide EncodePacketInPayload;
    var text, bytes := Packet(Message, Text("\U{20ac}")), Packet(Message, Binary([1, 2, 3, 4]));
    ExampleText();
    ExampleBytes();
    assert [text, bytes][1..] == [bytes] && [bytes][1..] == [];
    assert EncodePayload([bytes]) == EncodePacketInPayload(bytes) + "" == EncodePacketInPayload(bytes);
  }

  lemma ExampleText()
    ensures EncodePacketInPayload(Packet(Message, Text("\U{20ac}"))) == "2:4\U{20ac}"
  {
  }

  lemma ExampleBytes()
    ensures EncodePacketInPayload(Packet(Message, Binary([1, 2, 3, 4]))) == "10:b4AQIDBA=="
  {
    hide Base64.Encode, ToText;
    ExampleBase64();
    ExampleNumbers();
    assert "4" + "AQIDBA==" == "4AQIDBA==" && "10" + ":b" + "4AQIDBA==" == "10:b4AQIDBA==";
  }

  lemma ExampleBase64()
    ensures Base64.Encode([1, 2, 3, 4]) == "AQIDBA=="
  {
    assert Base64.EncodeGroup(1, 2, 3) == "AQID";
    assert Base64.Encode([4]) == "BA==";
    assert [1, 2, 3, 4][3..] == [4];
  }

  lemma ExampleNumbers()
    ensures ToText(4) == "4" && ToText(10) == "10"
  {
    assert ToText(10) == ToText(1) + [DigitChar(0)];
  }

  /** The padding may be missing, but no bit may be set beyond the last byte. */
  lemma Base64Leniency()
    ensures Base64.Decode("Zg") == Some([102]) && Base64.Decode("Zm8") == Some([102, 111])
    ensures Base64.Decode("Zh==") == None && Base64.Decode("Zm9=") == None && Base64.Decode("Z") == None
  {
  }

  /** Vectors of RFC 4648, section 10, and the last two symbols of its alphabet. */
  lemma Base64Vectors()
    ensures Base64.Encode([102]) == "Zg==" && Base64.Encode([102, 111]) == "Zm8="
    ensures Base64.Encode([102, 111, 111]) == "Zm9v" && Base64.Encode([0xFB, 0xEF, 0xFF]) == "++//"
  {
    assert Base64.EncodeGroup(102, 111, 111) == "Zm9v" && Base64.EncodeGroup(0xFB, 0xEF, 0xFF) == "++//";
    assert [102, 111, 111][3..] == [] && [0xFB, 0xEF, 0xFF][3..] == [];
    assert Base64.Encode([]) == "";
  }
}
