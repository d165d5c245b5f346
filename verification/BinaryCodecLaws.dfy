/** What the binary payloads promise: the length field, which packets survive encoding and
    decoding, what a payload cut short decodes to, and how much input a packet accounts for. */
module BinaryCodecLaws {
  import opened Wrappers
  import opened ByteStrings
  import opened EnginePacket
  import opened Nom
  import opened BinaryCodec
  import opened Sequences
  import Decimal
  import Utf8

  // The length field.

  /** Lengths of up to 32 bits come back, and longer ones overflow, whatever follows. */
  lemma LengthField(n: nat, tail: Bytes)
    ensures ParsePacketLength(LengthDigits(n) + [SEPARATOR] + tail)
         == if n < U32_LIMIT then Ok([SEPARATOR] + tail, n) else Overflow
  {
    var digits := LengthDigits(n);
    assert digits + [SEPARATOR] + tail == digits + ([SEPARATOR] + tail);
    SpanAppend<byte>(NotSeparator, digits, [SEPARATOR] + tail);
    LengthDigitsWidth(n);
    Pow10Width(10);
    assert (digits + ([SEPARATOR] + tail))[..|digits|] == digits;
  }

  /** A number of `k + 1` digits is at least the `k`-th power of ten. */
  lemma {:induction false} LengthDigitsWidth(n: nat)
    ensures |LengthDigits(n)| > 1 ==> n >= Pow10(|LengthDigits(n)| - 1)
    ensures n < U32_LIMIT ==> |LengthDigits(n)| <= 10
  {
    hide LittleEndian;
    if n >= 10 {
      LengthDigitsWidth(n / 10);
      assert |LengthDigits(n)| - 1 == |LengthDigits(n / 10)|;
      Pow10Width(|LengthDigits(n / 10)|);
    }
  }

  lemma {:induction false} LittleEndianPrefix(digits: Bytes, k: nat)
    requires k <= |digits|
    ensures LittleEndian(digits[..k]) <= LittleEndian(digits)
  {
    if k > 0 {
      LittleEndianPrefix(digits[1..], k - 1);
      assert digits[..k][1..] == digits[1..][..k - 1];
    }
  }

  /** A length cut short is read as a smaller one, with nothing left for the separator. */
  lemma CutLength(n: nat, k: nat)
    requires n < U32_LIMIT && k <= |LengthDigits(n)|
    ensures var r := ParsePacketLength(LengthDigits(n)[..k]); if k == 0 then r.Error? else r.Ok? && r.rest == []
  {
    var cut := LengthDigits(n)[..k];
    assert cut + [] == cut;
    SpanAppend<byte>(NotSeparator, cut, []);
    LittleEndianPrefix(LengthDigits(n), k);
    LengthDigitsWidth(n);
    assert cut[..k] == cut;
  }

  // One packet.

  /** The packet as a payload brings it back: its data always as bytes. */
  function AsBytes(packet: Packet): Packet {
    Packet(packet.packetType, Binary(DataBytes(packet.data)))
  }

  function AllAsBytes(packets: seq<Packet>): (r: seq<Packet>)
    ensures |r| == |packets|
    ensures forall i :: 0 <= i < |packets| ==> r[i] == AsBytes(packets[i])
  {
    seq(|packets|, i requires 0 <= i < |packets| => AsBytes(packets[i]))
  }

  /** The packet can be decoded again from a payload: it has data, text data does not start
      with a digit, and its length fits. */
  predicate Survives(packet: Packet) {
    && |DataBytes(packet.data)| + 1 < U32_LIMIT
    && match packet.data
       case Text(text) => text == "" || !Decimal.IsDigit(text[0])
       case Binary(_) => true
       case Empty => false
  }

  predicate AllSurvive(packets: seq<Packet>) {
    forall i :: 0 <= i < |packets| ==> Survives(packets[i])
  }

  predicate StartsWithDigit(b: Bytes) {
    b != [] && IsDigit(b[0])
  }

  function Kind(packet: Packet): byte {
    if packet.data.Text? then 0 else 1
  }

  lemma EncodedPacket(packet: Packet)
    requires !packet.data.Empty?
    ensures EncodePacketInPayload(packet)
         == [Kind(packet)] + (LengthDigits(|DataBytes(packet.data)| + 1) + ([SEPARATOR] + EncodePacket(packet)))
  {
  }

  lemma ParseAfterLength(packet: Packet, rest: Bytes)
    ensures ParsePacketInPayload([Kind(packet)] + (LengthDigits(|DataBytes(packet.data)| + 1) + ([SEPARATOR] + rest)))
         == if |DataBytes(packet.data)| + 1 < U32_LIMIT
            then ParseFramed(rest, Kind(packet), |DataBytes(packet.data)|)
            else Overflow
  {
    hide LengthDigits, ParseFramed, ParsePacketLength;
    var n := |DataBytes(packet.data)|;
    var field := LengthDigits(n + 1) + ([SEPARATOR] + rest);
    assert field == LengthDigits(n + 1) + [SEPARATOR] + rest;
    LengthField(n + 1, rest);
    assert ([Kind(packet)] + field)[1..] == field;
    assert ([SEPARATOR] + rest)[1..] == rest;
  }

  lemma ParseBinaryFrame(packet: Packet, tail: Bytes)
    requires packet.data.Binary?
    ensures ParseFramed(EncodePacket(packet) + tail, 1, |packet.data.bytes|) == Ok(tail, packet)
  {
    var data := packet.data.bytes;
    assert (EncodePacket(packet) + tail)[1..] == data + tail;
    assert (data + tail)[..|data|] == data && (data + tail)[|data|..] == tail;
    TypeOfIndex(packet.packetType);
  }

  /** Text that starts with no digit comes back; text that does loses those digits. */
  lemma ParseTextFrame(packet: Packet, tail: Bytes)
    requires packet.data.Text? && !StartsWithDigit(tail)
    ensures var data := DataBytes(packet.data);
            var r := ParseFramed(EncodePacket(packet) + tail, 0, |data|);
            if StartsWithDigit(data) then r.Ok? ==> r.value != AsBytes(packet)
            else r == Ok(tail, AsBytes(packet))
  {
    hide DataBytes, ParseFramed, EncodePacket, AsBytes;
    if StartsWithDigit(DataBytes(packet.data)) {
      ParseDigitText(packet, tail);
    } else {
      ParsePlainText(packet, tail);
    }
  }

  lemma ParsePlainText(packet: Packet, tail: Bytes)
    requires packet.data.Text? && !StartsWithDigit(tail) && !StartsWithDigit(DataBytes(packet.data))
    ensures ParseFramed(EncodePacket(packet) + tail, 0, |DataBytes(packet.data)|) == Ok(tail, AsBytes(packet))
  {
    hide Utf8.Encode, Utf8.Valid, TypeOf, TakeWhile1;
    var data := DataBytes(packet.data);
    assert EncodePacket(packet) + tail == [TypeByte(packet)] + (data + tail);
    TypeIsTaken(packet, data + tail);
    TypeOfIndex(packet.packetType);
    assert (data + tail)[..|data|] == data && (data + tail)[|data|..] == tail;
    Utf8.ValidEncode(packet.data.text);
  }

  lemma TypeIsTaken(packet: Packet, rest: Bytes)
    requires packet.data.Text? && !StartsWithDigit(rest)
    ensures TakeWhile1<byte>(IsDigit, [TypeByte(packet)] + rest) == Ok(rest, [TypeByte(packet)])
  {
    var input := [TypeByte(packet)] + rest;
    SpanAppend<byte>(IsDigit, [TypeByte(packet)], rest);
    assert input[..1] == [TypeByte(packet)] && input[1..] == rest;
  }

  lemma ParseDigitText(packet: Packet, tail: Bytes)
    requires packet.data.Text? && !StartsWithDigit(tail) && StartsWithDigit(DataBytes(packet.data))
    ensures var r := ParseFramed(EncodePacket(packet) + tail, 0, |DataBytes(packet.data)|);
            r.Ok? ==> r.value != AsBytes(packet)
  {
    hide Utf8.Encode, Utf8.Valid, TypeOf;
    var data := DataBytes(packet.data);
    var input := EncodePacket(packet) + tail;
    assert input == [TypeByte(packet)] + (data + tail);
    var digits := Span<byte>(IsDigit, input);
    assert IsDigit(input[0]) && IsDigit(input[1]) && input[1..] == data + tail;
    assert digits >= 2;
    assert digits + |data| <= |input| ==> input[digits..][..|data|][0] == input[digits];
  }

  /** What `Survives` says in terms of the bytes of the data. */
  lemma SurvivesInBytes(packet: Packet)
    ensures Survives(packet) <==>
              && !packet.data.Empty? && |DataBytes(packet.data)| + 1 < U32_LIMIT
              && (packet.data.Text? ==> !StartsWithDigit(DataBytes(packet.data)))
  {
    if packet.data.Text? && packet.data.text != "" {
      var first := Utf8.EncodeChar(packet.data.text[0]);
      assert DataBytes(packet.data)[0] == first[0];
    }
  }

  /** A packet comes back from in front of any packets, leaving them, exactly if it survives. */
  lemma ParseEncoded(packet: Packet, tail: Bytes)
    requires !StartsWithDigit(tail)
    ensures var r := ParsePacketInPayload(EncodePacketInPayload(packet) + tail);
            if Survives(packet) then r == Ok(tail, AsBytes(packet)) else r.Ok? ==> r.value != AsBytes(packet)
  {
    hide ParsePacketInPayload, ParseFramed, EncodePacketInPayload, LengthDigits, Survives;
    SurvivesInBytes(packet);
    if packet.data.Empty? {
      ParseEmptyPacket(packet, tail);
    } else {
      EncodedPacket(packet);
      var field := LengthDigits(|DataBytes(packet.data)| + 1) + ([SEPARATOR] + (EncodePacket(packet) + tail));
      assert EncodePacketInPayload(packet) + tail == [Kind(packet)] + field;
      ParseAfterLength(packet, EncodePacket(packet) + tail);
      if packet.data.Binary? {
        ParseBinaryFrame(packet, tail);
      } else {
        ParseTextFrame(packet, tail);
      }
    }
  }

  lemma ParseEmptyPacket(packet: Packet, tail: Bytes)
    requires packet.data.Empty?
    ensures ParsePacketInPayload(EncodePacketInPayload(packet) + tail).Error?
  {
    var encoded := EncodePacketInPayload(packet);
    assert (encoded + tail)[1..] == [ASCII_ZERO] + ([SEPARATOR] + ([TypeByte(packet)] + tail));
    SpanAppend<byte>(NotSeparator, [ASCII_ZERO], [SEPARATOR] + ([TypeByte(packet)] + tail));
    assert LittleEndian([ASCII_ZERO]) == 48;
  }

  /** An encoded packet cut short is a recoverable error. */
  lemma ParseCut(packet: Packet, k: nat)
    requires Survives(packet) && k < |EncodePacketInPayload(packet)|
    ensures ParsePacketInPayload(EncodePacketInPayload(packet)[..k]).Error?
  {
    hide ParsePacketInPayload, ParseFramed, LengthDigits, EncodePacketInPayload, Survives;
    SurvivesInBytes(packet);
    EncodedPacket(packet);
    var digits := LengthDigits(|DataBytes(packet.data)| + 1);
    var encoded := [Kind(packet)] + (digits + ([SEPARATOR] + EncodePacket(packet)));
    if k <= 1 + |digits| {
      assert k > 0 ==> encoded[..k] == [Kind(packet)] + digits[..k - 1];
      CutInLength(packet, k);
    } else {
      var m := k - |digits| - 2;
      assert encoded[..k] == [Kind(packet)] + (digits + ([SEPARATOR] + EncodePacket(packet)[..m]));
      ParseAfterLength(packet, EncodePacket(packet)[..m]);
      CutFrame(packet, m);
    }
  }

  lemma CutInLength(packet: Packet, k: nat)
    requires |DataBytes(packet.data)| + 1 < U32_LIMIT
    requires k <= 1 + |LengthDigits(|DataBytes(packet.data)| + 1)|
    ensures var digits := LengthDigits(|DataBytes(packet.data)| + 1);
            ParsePacketInPayload(if k == 0 then [] else [Kind(packet)] + digits[..k - 1]).Error?
  {
    hide LengthDigits, ParsePacketLength;
    if k > 0 {
      var n := |DataBytes(packet.data)| + 1;
      CutLength(n, k - 1);
      assert ([Kind(packet)] + LengthDigits(n)[..k - 1])[1..] == LengthDigits(n)[..k - 1];
    }
  }

  lemma CutFrame(packet: Packet, m: nat)
    requires !packet.data.Empty? && m < |EncodePacket(packet)|
    requires packet.data.Text? ==> !StartsWithDigit(DataBytes(packet.data))
    ensures ParseFramed(EncodePacket(packet)[..m], Kind(packet), |DataBytes(packet.data)|).Error?
  {
    hide Utf8.Encode;
    if m > 0 {
      var part := DataBytes(packet.data)[..m - 1];
      assert EncodePacket(packet)[..m] == [TypeByte(packet)] + part;
      assert ([TypeByte(packet)] + part)[1..] == part;
      if packet.data.Text? {
        SpanAppend<byte>(IsDigit, [TypeByte(packet)], part);
      }
    }
  }

  // Payloads.

  lemma {:induction false} EncodePayloadAppend(a: seq<Packet>, b: seq<Packet>)
    ensures EncodePayload(a + b) == EncodePayload(a) + EncodePayload(b)
  {
    hide EncodePacketInPayload;
    if a == [] {
      assert a + b == b;
    } else {
      EncodePayloadAppend(a[1..], b);
      assert (a + b)[0] == a[0] && (a + b)[1..] == a[1..] + b;
      Associate(EncodePacketInPayload(a[0]), EncodePayload(a[1..]), EncodePayload(b));
    }
  }

  lemma EncodedStart(packets: seq<Packet>, k: nat)
    requires k <= |EncodePayload(packets)|
    ensures !StartsWithDigit(EncodePayload(packets)[..k])
  {
    hide LengthDigits;
    if packets != [] {
      assert !IsDigit(EncodePacketInPayload(packets[0])[0]);
    }
  }

  lemma NothingToParse()
    ensures ParsePayload([]) == Ok([], [])
  {
  }

  lemma ParseFirst(packets: seq<Packet>, k: nat)
    requires packets != [] && Survives(packets[0])
    requires |EncodePacketInPayload(packets[0])| <= k <= |EncodePayload(packets)|
    ensures ParsePayload(EncodePayload(packets)[..k])
         == Prepend([AsBytes(packets[0])],
                    ParsePayload(EncodePayload(packets[1..])[..k - |EncodePacketInPayload(packets[0])|]))
  {
    hide EncodePacketInPayload, ParsePacketInPayload, Survives, FoldMany0;
    var first := EncodePacketInPayload(packets[0]);
    var tail := EncodePayload(packets[1..])[..k - |first|];
    assert EncodePayload(packets)[..k] == first + tail;
    EncodedStart(packets[1..], k - |first|);
    ParseEncoded(packets[0], tail);
    FoldMany0Step<byte, Packet>(ParsePacketInPayload, first + tail);
  }

  /** A payload cut at any point decodes to exactly the packets that are whole before it. */
  lemma {:induction false} Truncation(packets: seq<Packet>, whole: nat, k: nat)
    requires AllSurvive(packets) && whole <= |packets|
    requires |EncodePayload(packets[..whole])| <= k <= |EncodePayload(packets)|
    requires whole < |packets| ==> k < |EncodePayload(packets[..whole + 1])|
    ensures DecodePayload(EncodePayload(packets)[..k]) == Decoded(AllAsBytes(packets[..whole]))
    decreases whole
  {
    hide EncodePacketInPayload, ParsePacketInPayload, Survives;
    if packets == [] {
      NothingToParse();
    } else {
      EncodePayloadAppend(packets[..1], []);
      assert packets[..1] + [] == packets[..1];
      if whole == 0 {
        var first := EncodePacketInPayload(packets[0]);
        assert EncodePayload(packets)[..k] == first[..k];
        ParseCut(packets[0], k);
      } else {
        ParseFirst(packets, k);
        assert packets[..whole][1..] == packets[1..][..whole - 1];
        assert whole < |packets| ==> packets[..whole + 1][1..] == packets[1..][..whole];
        Truncation(packets[1..], whole - 1, k - |EncodePacketInPayload(packets[0])|);
        assert AllAsBytes(packets[..whole]) == [AsBytes(packets[0])] + AllAsBytes(packets[1..][..whole - 1]);
      }
    }
  }

  /** Decoding an encoded payload gives back the number, order, types and bytes of its
      packets if and only if they all survive. */
  lemma RoundTrip(packets: seq<Packet>)
    ensures DecodePayload(EncodePayload(packets)) == Decoded(AllAsBytes(packets)) <==> AllSurvive(packets)
  {
    if AllSurvive(packets) {
      assert EncodePayload(packets)[..|EncodePayload(packets)|] == EncodePayload(packets);
      assert packets[..|packets|] == packets;
      Truncation(packets, |packets|, |EncodePayload(packets)|);
    } else {
      Loss(packets);
    }
  }

  lemma {:induction false} Loss(packets: seq<Packet>)
    requires !AllSurvive(packets)
    ensures DecodePayload(EncodePayload(packets)) != Decoded(AllAsBytes(packets))
  {
    hide EncodePacketInPayload, ParsePacketInPayload, Survives;
    var tail := EncodePayload(packets[1..]);
    assert tail[..|tail|] == tail;
    EncodedStart(packets[1..], |tail|);
    ParseEncoded(packets[0], tail);
    assert AllAsBytes(packets)[1..] == AllAsBytes(packets[1..]);
    if Survives(packets[0]) {
      FoldMany0Step<byte, Packet>(ParsePacketInPayload, EncodePayload(packets));
      Loss(packets[1..]);
    }
  }

  lemma BytesAsBytes(packet: Packet)
    ensures packet.data.Binary? ==> AsBytes(packet) == packet
  {
  }

  predicate AllBytes(packets: seq<Packet>) {
    forall i :: 0 <= i < |packets| ==> packets[i].data.Binary?
  }

  /** Payloads of bytes that differ in any packet differ in their encodings. */
  lemma EncodingTellsApart(a: seq<Packet>, b: seq<Packet>)
    requires AllSurvive(a) && AllSurvive(b)
    requires EncodePayload(a) == EncodePayload(b)
    ensures AllAsBytes(a) == AllAsBytes(b)
    ensures AllBytes(a) && AllBytes(b) ==> a == b
  {
    hide AllSurvive, DecodePayload, EncodePayload, DataBytes;
    RoundTrip(a);
    RoundTrip(b);
    assert |a| == |AllAsBytes(a)| == |b|;
    forall i | 0 <= i < |a|
      ensures a[i].data.Binary? && b[i].data.Binary? ==> a[i] == b[i]
    {
      assert AsBytes(a[i]) == AllAsBytes(a)[i] == AsBytes(b[i]);
      BytesAsBytes(a[i]);
      BytesAsBytes(b[i]);
    }
  }

  /** On any input whatever, the loop never stops for lack of progress, what it leaves is
      a suffix, all data comes out as bytes, and each packet accounts for at least four
      bytes besides its data. */
  lemma {:induction false} SizeBound(input: Bytes)
    ensures !ParsePayload(input).Error?
    ensures var r := ParsePayload(input);
            r.Ok? ==> && IsSuffix(r.rest, input)
                      && (forall i :: 0 <= i < |r.value| ==> r.value[i].data.Binary?)
                      && PayloadSize(r.value) <= |input| - |r.rest|
    decreases |input|
  {
    hide ParsePacketInPayload;
    var first := ParsePacketInPayload(input);
    if first.Ok? {
      SizeBound(first.rest);
    }
  }

  /** The least input that can hold the packets: their data, and four bytes each. */
  function PayloadSize(packets: seq<Packet>): nat {
    if packets == [] then 0 else 4 + |DataBytes(packets[0].data)| + PayloadSize(packets[1..])
  }

  // Packets on their own.

  /** A packet on its own comes back if it is bytes, and is refused otherwise. */
  lemma PacketRoundTrip(packet: Packet)
    ensures DecodePacket(EncodePacket(packet)) == if packet.data.Binary? then Decoded(packet) else Rejected
  {
    var data := DataBytes(packet.data);
    assert EncodePacket(packet)[1..] == data && data[..|data|] == data;
    TypeOfIndex(packet.packetType);
    assert TypeOf(packet.packetType.Index() + ASCII_ZERO).None?;
  }
}
