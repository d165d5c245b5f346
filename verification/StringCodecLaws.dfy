/** What the text payloads promise: which packets survive encoding and decoding, what a
    payload cut short decodes to, and how much input a decoded packet accounts for. */
module StringCodecLaws {
  import opened Wrappers
  import opened ByteStrings
  import opened EnginePacket
  import opened Nom
  import opened Decimal
  import opened StringCodec
  import opened Sequences
  import Base64

  /** The packet can be decoded again from a payload, at the end of it or before another
      packet: it has data, unless it is last; that data does not start with a digit (the
      bytes 208 to 247 come first in the base64 texts that do); and its length fits. */
  predicate Survives(packet: Packet, last: bool) {
    && Framed(packet) <= USIZE_MAX
    && match packet.data
       case Text(text) => if text == "" then last else !IsDigit(text[0])
       case Binary(bytes) => if bytes == [] then last else !(208 <= bytes[0] <= 247)
       case Empty => false
  }

  predicate AllSurvive(packets: seq<Packet>) {
    forall i :: 0 <= i < |packets| ==> Survives(packets[i], i == |packets| - 1)
  }

  /** The length that stands in front of the packet in a payload. */
  function Framed(packet: Packet): (n: nat)
    ensures n >= 1
  {
    1 + |DataText(packet.data)| + if packet.data.Binary? then 1 else 0
  }

  // One packet.

  function TypeDigit(packet: Packet): string {
    ToText(packet.packetType.Index())
  }

  /** What follows the colon of an encoded packet. */
  function Frame(packet: Packet): string {
    (if packet.data.Binary? then "b" else "") + (TypeDigit(packet) + DataText(packet.data))
  }

  lemma EncodedPacket(packet: Packet)
    requires !packet.data.Empty?
    ensures EncodePacketInPayload(packet) == ToText(Framed(packet)) + (":" + Frame(packet))
    ensures |Frame(packet)| == Framed(packet)
  {
    if packet.data.Binary? {
      assert ":b" + (TypeDigit(packet) + DataText(packet.data)) == ":" + Frame(packet);
    }
  }

  lemma TakeNumber(max: nat, n: nat, tail: string)
    requires !StartsWithDigit(tail)
    ensures TakeUint(max, ToText(n) + tail) == if n <= max then Ok(tail, n) else Failure
  {
    SpanAppend(IsDigit, ToText(n), tail);
    ValueOfToText(n);
    assert (ToText(n) + tail)[..|ToText(n)|] == ToText(n);
    assert (ToText(n) + tail)[|ToText(n)|..] == tail;
  }

  lemma ParseAfterLength(n: nat, rest: string)
    requires n >= 1
    ensures ParsePacketInPayload(ToText(n) + (":" + rest))
         == if n <= USIZE_MAX then ParseFramed(rest, n - 1) else Failure
  {
    TakeNumber(USIZE_MAX, n, ":" + rest);
  }

  lemma ParseTextFrame(packet: Packet, tail: string)
    requires packet.data.Text? && !StartsWithDigit(packet.data.text + tail)
    ensures ParseFramed(Frame(packet) + tail, |packet.data.text|) == Ok(tail, packet)
  {
    var text := packet.data.text;
    assert Frame(packet) + tail == TypeDigit(packet) + (text + tail);
    TakeNumber(U8_MAX, packet.packetType.Index(), text + tail);
    assert (text + tail)[..|text|] == text && (text + tail)[|text|..] == tail;
    TypeOfIndex(packet.packetType);
  }

  lemma ParseBinaryFrame(packet: Packet, tail: string)
    requires packet.data.Binary? && !StartsWithDigit(DataText(packet.data) + tail)
    ensures ParseFramed(Frame(packet) + tail, |DataText(packet.data)| + 1) == Ok(tail, packet)
  {
    hide TakeUint, Base64.Encode, Base64.Decode, ToText, TypeOf;
    var base64 := DataText(packet.data);
    var input := TypeDigit(packet) + (base64 + tail);
    assert Frame(packet) + tail == "b" + input;
    assert ("b" + input)[1..] == input;
    NotANumber(U8_MAX, "b" + input);
    TakeNumber(U8_MAX, packet.packetType.Index(), base64 + tail);
    assert (base64 + tail)[..|base64|] == base64 && (base64 + tail)[|base64|..] == tail;
    Base64.DecodeEncode(packet.data.bytes);
    TypeOfIndex(packet.packetType);
  }

  /** A packet whose data does not run into its type comes back, and leaves what follows. */
  lemma ParseSurvivor(packet: Packet, tail: string)
    requires !packet.data.Empty? && Framed(packet) <= USIZE_MAX
    requires !StartsWithDigit(DataText(packet.data) + tail)
    ensures ParsePacketInPayload(EncodePacketInPayload(packet) + tail) == Ok(tail, packet)
  {
    hide ParsePacketInPayload, ParseFramed, EncodePacketInPayload, Frame, ToText, Base64.Encode;
    EncodedPacket(packet);
    assert EncodePacketInPayload(packet) + tail == ToText(Framed(packet)) + (":" + (Frame(packet) + tail));
    ParseAfterLength(Framed(packet), Frame(packet) + tail);
    if packet.data.Binary? {
      ParseBinaryFrame(packet, tail);
    } else {
      ParseTextFrame(packet, tail);
    }
  }

  /** A type followed by more digits reads as itself only when it and they are zeros. */
  lemma GreedyType(packet: Packet, rest: string)
    requires StartsWithDigit(rest)
    ensures var r := TakeUint(U8_MAX, TypeDigit(packet) + rest);
            r.Ok? && r.value == packet.packetType.Index() ==> rest[0] == '0' && !StartsWithDigit(r.rest)
  {
    var input := TypeDigit(packet) + rest;
    var digits := input[..Span(IsDigit, input)];
    assert |TypeDigit(packet)| == 1 && input[1] == rest[0];
    assert |digits| >= 2 by {
      assert IsDigit(input[0]) && IsDigit(input[1]);
      assert Span(IsDigit, input) == 1 + Span(IsDigit, input[1..]);
    }
    if digits[0] != '0' {
      ValuePositive(digits, 0);
    } else if digits[1] != '0' {
      ValuePositive(digits, 1);
      assert packet.packetType.Index() == 0;
    }
  }

  lemma ParseTextCasualty(packet: Packet, tail: string)
    requires packet.data.Text? && StartsWithDigit(packet.data.text + tail)
    requires tail == "" || tail[0] != '0'
    ensures var r := ParseFramed(Frame(packet) + tail, |packet.data.text|); r.Ok? ==> r.value != packet
  {
    hide TakeUint, ToText;
    var text := packet.data.text;
    assert Frame(packet) + tail == TypeDigit(packet) + (text + tail);
    GreedyType(packet, text + tail);
    assert (text + tail)[0] == '0' ==> text != "" && text[0] == '0';
  }

  lemma ParseBinaryCasualty(packet: Packet, tail: string)
    requires packet.data.Binary? && StartsWithDigit(DataText(packet.data) + tail)
    requires tail == "" || tail[0] != '0'
    ensures var r := ParseFramed(Frame(packet) + tail, |DataText(packet.data)| + 1); r.Ok? ==> r.value != packet
  {
    hide Base64.Encode, Base64.Decode, TakeUint, ParseFramed;
    var base64 := DataText(packet.data);
    var input := TypeDigit(packet) + (base64 + tail);
    assert Frame(packet) + tail == "b" + input;
    Base64Frame(input, |base64|);
    GreedyType(packet, base64 + tail);
    assert (base64 + tail)[0] == '0' ==> base64 != "" && base64[0] == '0';
    var number := TakeUint(U8_MAX, input);
    if number.Ok? && number.value == packet.packetType.Index() && |base64| <= |number.rest| {
      GreedyBase64(packet.data.bytes, number.rest);
    }
  }

  /** Behind a `b` only the base64 branch can succeed, and with what it takes from there. */
  lemma Base64Frame(input: string, n: nat)
    ensures var r, number := ParseFramed("b" + input, n + 1), TakeUint(U8_MAX, input);
            r.Ok? ==> && number.Ok? && r.value.packetType.Index() == number.value && n <= |number.rest|
                      && r.value.data.Binary? && Base64.Decode(number.rest[..n]) == Some(r.value.data.bytes)
  {
    hide Base64.Decode, TakeUint;
    assert ("b" + input)[1..] == input;
    assert TakeUint(U8_MAX, "b" + input).Error? by {
      NotANumber(U8_MAX, "b" + input);
    }
  }

  lemma NotANumber(max: nat, input: string)
    ensures !StartsWithDigit(input) <==> TakeUint(max, input).Error?
  {
  }

  /** Text of the length of an encoding that starts with a digit, when it does not start
      with one itself, decodes to something else. */
  lemma GreedyBase64(bytes: Bytes, rest: string)
    requires !StartsWithDigit(rest)
    requires StartsWithDigit(Base64.Encode(bytes)) && |Base64.Encode(bytes)| <= |rest|
    ensures Base64.Decode(rest[..|Base64.Encode(bytes)|]) != Some(bytes)
  {
    hide Base64.Encode, Base64.Decode;
    var taken := rest[..|Base64.Encode(bytes)|];
    if Base64.Decode(taken) == Some(bytes) {
      Base64.EncodeDecode(taken, bytes);
    }
  }

  /** A packet whose data runs into its type does not come back, whatever follows. */
  lemma ParseCasualty(packet: Packet, tail: string)
    requires !packet.data.Empty?
    requires Framed(packet) > USIZE_MAX || StartsWithDigit(DataText(packet.data) + tail)
    requires tail == "" || tail[0] != '0'
    ensures var r := ParsePacketInPayload(EncodePacketInPayload(packet) + tail); r.Ok? ==> r.value != packet
  {
    hide ParsePacketInPayload, ParseFramed, EncodePacketInPayload, Frame, ToText, Base64.Encode;
    EncodedPacket(packet);
    assert EncodePacketInPayload(packet) + tail == ToText(Framed(packet)) + (":" + (Frame(packet) + tail));
    ParseAfterLength(Framed(packet), Frame(packet) + tail);
    if Framed(packet) <= USIZE_MAX {
      if packet.data.Binary? {
        ParseBinaryCasualty(packet, tail);
      } else {
        ParseTextCasualty(packet, tail);
      }
    }
  }

  /** An encoded packet cut short is a recoverable error. */
  lemma ParseCut(packet: Packet, k: nat)
    requires Survives(packet, true) && k < |EncodePacketInPayload(packet)|
    ensures ParsePacketInPayload(EncodePacketInPayload(packet)[..k]).Error?
  {
    hide ParsePacketInPayload, ParseFramed, EncodePacketInPayload, Frame, ToText;
    EncodedPacket(packet);
    SurvivorFits(packet);
    var length := ToText(Framed(packet));
    var cut := EncodePacketInPayload(packet)[..k];
    if k <= |length| {
      assert cut == length[..k];
      CutNumber(Framed(packet), k);
    } else {
      var m := k - |length| - 1;
      assert cut == length + (":" + Frame(packet)[..m]);
      ParseAfterLength(Framed(packet), Frame(packet)[..m]);
      CutFrame(packet, m);
    }
  }

  lemma SurvivorFits(packet: Packet)
    requires Survives(packet, true)
    ensures !packet.data.Empty? && Framed(packet) <= USIZE_MAX
  {
  }

  lemma CutNumber(n: nat, k: nat)
    requires n <= USIZE_MAX && k <= |ToText(n)|
    ensures ParsePacketInPayload(ToText(n)[..k]).Error?
  {
    var cut := ToText(n)[..k];
    assert cut + "" == cut;
    SpanAppend(IsDigit, cut, "");
    ValueOfPrefix(ToText(n), k);
    ValueOfToText(n);
    assert cut[..k] == cut;
  }

  lemma {:induction false} ValueOfPrefix(s: string, k: nat)
    requires AllDigits(s) && k <= |s|
    ensures Value(s[..k]) <= Value(s)
  {
    if k < |s| {
      ValueOfPrefix(s[..|s| - 1], k);
      assert s[..|s| - 1][..k] == s[..k];
    } else {
      assert s[..k] == s;
    }
  }

  lemma CutFrame(packet: Packet, m: nat)
    requires Survives(packet, true) && m < |Frame(packet)|
    ensures ParseFramed(Frame(packet)[..m], |Frame(packet)| - 1).Error?
  {
    hide ParseFramed, Frame, TakeUint;
    SurvivorData(packet, true, "");
    var body := DataText(packet.data);
    assert body + "" == body;
    if packet.data.Binary? {
      CutBinaryFrame(packet, m);
    } else {
      CutTextFrame(packet, m);
    }
  }

  lemma CutTextFrame(packet: Packet, m: nat)
    requires packet.data.Text? && !StartsWithDigit(packet.data.text) && m < |Frame(packet)|
    ensures ParseFramed(Frame(packet)[..m], |Frame(packet)| - 1).Error?
  {
    hide TakeUint;
    NotANumber(U8_MAX, "");
    if m > 0 {
      var part := packet.data.text[..m - 1];
      TakeNumber(U8_MAX, packet.packetType.Index(), part);
      assert Frame(packet)[..m] == TypeDigit(packet) + part;
    }
  }

  lemma CutBinaryFrame(packet: Packet, m: nat)
    requires packet.data.Binary? && !StartsWithDigit(DataText(packet.data)) && m < |Frame(packet)|
    ensures ParseFramed(Frame(packet)[..m], |Frame(packet)| - 1).Error?
  {
    hide TakeUint, Base64.Encode, Base64.Decode;
    NotANumber(U8_MAX, "");
    if m > 0 {
      var cut := Frame(packet)[..m];
      NotANumber(U8_MAX, cut);
      if m > 1 {
        var part := DataText(packet.data)[..m - 2];
        TakeNumber(U8_MAX, packet.packetType.Index(), part);
        assert cut[1..] == TypeDigit(packet) + part;
      } else {
        assert cut[1..] == "";
      }
    }
  }

  // Payloads.

  lemma {:induction false} EncodePayloadAppend(a: seq<Packet>, b: seq<Packet>)
    ensures EncodePayload(a + b) == EncodePayload(a) + EncodePayload(b)
  {
    hide EncodePacketInPayload;
    if a == [] {
      assert a + b == b;
    } else {
      EncodePayloadAppend(a[1..], b);
      assert (a + b)[0] == a[0] && (a + b)[1..] == a[1..] + b;
      Associate(EncodePacketInPayload(a[0]), EncodePayload(a[1..]), EncodePayload(b));
    }
  }

  /** The start of an encoded packet cannot be mistaken for data: it is a digit, but no 0. */
  lemma EncodedStart(packets: seq<Packet>)
    requires forall i :: 0 <= i < |packets| ==> !packets[i].data.Empty?
    ensures var s := EncodePayload(packets); if packets == [] then s == "" else StartsWithDigit(s) && s[0] != '0'
  {
    if packets != [] {
      EncodedPacket(packets[0]);
    }
  }

  /** What `Survives` says in terms of the text that follows the type. */
  lemma SurvivesInText(packet: Packet, last: bool, tail: string)
    requires !packet.data.Empty?
    requires if last then tail == "" else StartsWithDigit(tail)
    ensures Survives(packet, last) <==> Framed(packet) <= USIZE_MAX && !StartsWithDigit(DataText(packet.data) + tail)
  {
    if packet.data.Binary? && packet.data.bytes != [] {
      Base64.FirstSymbolDigit(packet.data.bytes);
    }
  }

  lemma SurvivorData(packet: Packet, last: bool, tail: string)
    requires Survives(packet, last) && (last ==> tail == "")
    ensures !packet.data.Empty? && Framed(packet) <= USIZE_MAX && !StartsWithDigit(DataText(packet.data) + tail)
  {
    SurvivesInText(packet, last, if last then "" else "1");
  }

  lemma NothingToParse()
    ensures ParsePayload("") == Ok("", [])
  {
  }

  lemma ParseFirst(packets: seq<Packet>, k: nat)
    requires AllSurvive(packets) && packets != []
    requires |EncodePacketInPayload(packets[0])| <= k <= |EncodePayload(packets)|
    ensures ParsePayload(EncodePayload(packets)[..k])
         == Prepend([packets[0]], ParsePayload(EncodePayload(packets[1..])[..k - |EncodePacketInPayload(packets[0])|]))
  {
    hide EncodePacketInPayload, ParsePacketInPayload, Survives, FoldMany0;
    var first := EncodePacketInPayload(packets[0]);
    var tail := EncodePayload(packets[1..])[..k - |first|];
    assert EncodePayload(packets)[..k] == first + tail;
    SurvivorData(packets[0], |packets| == 1, tail);
    ParseSurvivor(packets[0], tail);
    FoldMany0Step(ParsePacketInPayload, first + tail);
  }

  /** A payload cut at any point decodes to exactly the packets that are whole before it. */
  lemma {:induction false} Truncation(packets: seq<Packet>, whole: nat, k: nat)
    requires AllSurvive(packets) && whole <= |packets|
    requires |EncodePayload(packets[..whole])| <= k <= |EncodePayload(packets)|
    requires whole < |packets| ==> k < |EncodePayload(packets[..whole + 1])|
    ensures DecodePayload(EncodePayload(packets)[..k]) == Decoded(packets[..whole])
    decreases whole
  {
    hide EncodePacketInPayload, ParsePacketInPayload, DataText;
    if packets == [] {
      NothingToParse();
    } else {
      EncodePayloadAppend(packets[..1], []);
      assert packets[..1] + [] == packets[..1];
      if whole == 0 {
        var first := EncodePacketInPayload(packets[0]);
        assert EncodePayload(packets)[..k] == first[..k];
        ParseCut(packets[0], k);
      } else {
        ParseFirst(packets, k);
        assert packets[..whole][1..] == packets[1..][..whole - 1];
        assert whole < |packets| ==> packets[..whole + 1][1..] == packets[1..][..whole];
        Truncation(packets[1..], whole - 1, k - |EncodePacketInPayload(packets[0])|);
        assert packets[..whole] == [packets[0]] + packets[1..][..whole - 1];
      }
    }
  }

  /** Decoding an encoded payload gives back its packets if and only if they all survive. */
  lemma RoundTrip(packets: seq<Packet>)
    ensures DecodePayload(EncodePayload(packets)) == Decoded(packets) <==> AllSurvive(packets)
  {
    if AllSurvive(packets) {
      assert EncodePayload(packets)[..|EncodePayload(packets)|] == EncodePayload(packets);
      assert packets[..|packets|] == packets;
      Truncation(packets, |packets|, |EncodePayload(packets)|);
    } else {
      Loss(packets);
    }
  }

  lemma {:induction false} Loss(packets: seq<Packet>)
    requires !AllSurvive(packets)
    ensures DecodePayload(EncodePayload(packets)) != Decoded(packets)
  {
    hide EncodePacketInPayload, ParsePacketInPayload, DataText;
    if i :| 0 <= i < |packets| && packets[i].data.Empty? {
      SizeBound(EncodePayload(packets));
    } else {
      var tail := EncodePayload(packets[1..]);
      EncodedStart(packets[1..]);
      SurvivesInText(packets[0], |packets| == 1, tail);
      if Survives(packets[0], |packets| == 1) {
        ParseSurvivor(packets[0], tail);
        FoldMany0Step(ParsePacketInPayload, EncodePayload(packets));
        Loss(packets[1..]);
      } else {
        ParseCasualty(packets[0], tail);
      }
    }
  }

  /** On any input whatever, the loop never stops for lack of progress, what it leaves is
      a suffix, no packet comes out empty, and each packet accounts for at least three
      characters besides its data. */
  lemma {:induction false} SizeBound(input: string)
    ensures !ParsePayload(input).Error?
    ensures var r := ParsePayload(input);
            r.Ok? ==> && IsSuffix(r.rest, input)
                      && (forall i :: 0 <= i < |r.value| ==> !r.value[i].data.Empty?)
                      && PayloadSize(r.value) <= |input| - |r.rest|
    decreases |input|
  {
    hide ParsePacketInPayload;
    var first := ParsePacketInPayload(input);
    if first.Ok? {
      SizeBound(first.rest);
    }
  }

  /** The least input that can hold the packets: their data, and three characters each. */
  function PayloadSize(packets: seq<Packet>): nat {
    if packets == [] then 0 else 3 + DataSize(packets[0].data) + PayloadSize(packets[1..])
  }

  // Packets on their own.

  lemma TextOfData(data: PacketData)
    ensures data.Text? ==> DataText(data) == data.text
  {
  }

  /** A packet on its own comes back if and only if it is text that starts with no digit; bytes
      come back as the text they are written in. */
  lemma PacketRoundTrip(packet: Packet)
    ensures DecodePacket(EncodePacket(packet)) == Decoded(packet)
       <==> packet.data.Text? && !StartsWithDigit(packet.data.text)
    ensures !StartsWithDigit(DataText(packet.data)) ==>
              DecodePacket(EncodePacket(packet)) == Decoded(Packet(packet.packetType, Text(DataText(packet.data))))
  {
    hide TakeUint, DataText, ToText;
    var body := DataText(packet.data);
    assert packet.data.Text? ==> body == packet.data.text by { TextOfData(packet.data); }
    if StartsWithDigit(body) {
      GreedyType(packet, body);
    } else {
      TakeNumber(U8_MAX, packet.packetType.Index(), body);
      TypeOfIndex(packet.packetType);
    }
  }
}
