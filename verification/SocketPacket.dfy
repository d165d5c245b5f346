/** The packets of Socket.IO and the headers of those that have attachments. */
module SocketPacket {
  import opened Wrappers
  import opened ByteStrings
  import opened PacketValue
  import opened Attachments

  datatype PacketType = Connect | Disconnect | Event | Ack | ConnectError | BinaryEvent | BinaryAck

  predicate IsBinary(packetType: PacketType) {
    packetType.BinaryEvent? || packetType.BinaryAck?
  }

  type BinaryPacketType = t: PacketType | IsBinary(t) witness BinaryEvent

  datatype Packet = Packet(packetType: PacketType, id: Option<nat>, nsp: string, data: PacketDataValue)

  datatype Header = Header(
    packetType: BinaryPacketType,
    id: Option<nat>,
    nsp: Option<string>,
    data: JsonValue,
    attachmentsCount: nat)

  /** What the encoder makes of a packet that may have attachments; the header stands for its
      text. */
  datatype EncodedPacket = EncodedPacket(header: Header, attachments: seq<Bytes>)

  function Encoded(packet: Packet): EncodedPacket
    requires IsBinary(packet.packetType)
  {
    var json, attachments := Numbered(packet.data, 0), Binaries(packet.data);
    EncodedPacket(Header(packet.packetType, packet.id, Some(packet.nsp), json, |attachments|), attachments)
  }

  /** The packet for a header all of whose attachments have come. */
  function Collected(header: Header, buffer: seq<Bytes>): Packet {
    Packet(
      header.packetType,
      header.id,
      match header.nsp case Some(nsp) => nsp case None => "/",
      Reconstructed(header.data, PoolOf(buffer)))
  }

  /** Collecting what was encoded gives the packet back, but for objects in its data; a header
      without namespace is one for the root. */
  lemma CollectedEncoded(packet: Packet)
    requires IsBinary(packet.packetType)
    ensures var encoded := Encoded(packet);
            Collected(encoded.header, encoded.attachments) == packet.(data := WithoutObjects(packet.data))
    ensures var rootless := Encoded(packet).header.(nsp := None);
            var collected := packet.(nsp := "/", data := WithoutObjects(packet.data));
            Collected(rootless, Encoded(packet).attachments) == collected
  {
    RoundTrip(packet.data);
  }
}
