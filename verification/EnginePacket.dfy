/** The packets of the Engine.IO protocol, revision 3. */
module EnginePacket {
  import opened Wrappers
  import opened ByteStrings

  datatype PacketType = Open | Close | Ping | Pong | Message | Upgrade | Noop
  {
    /** `packet_type as u8` */
    function Index(): (n: byte)
      ensures n <= 6
    {
      match this
      case Open => 0
      case Close => 1
      case Ping => 2
      case Pong => 3
      case Message => 4
      case Upgrade => 5
      case Noop => 6
    }
  }

  /** `PacketType::try_from` */
  function TypeOf(n: nat): (t: Option<PacketType>)
    ensures t.Some? <==> n <= 6
    ensures t.Some? ==> t.value.Index() == n
  {
    match n
    case 0 => Some(PacketType.Open)
    case 1 => Some(PacketType.Close)
    case 2 => Some(PacketType.Ping)
    case 3 => Some(PacketType.Pong)
    case 4 => Some(PacketType.Message)
    case 5 => Some(PacketType.Upgrade)
    case 6 => Some(PacketType.Noop)
    case _ => None
  }

  lemma TypeOfIndex(t: PacketType)
    ensures TypeOf(t.Index()) == Some(t)
  {
  }

  datatype PacketData = Text(text: string) | Binary(bytes: Bytes) | Empty

  datatype Packet = Packet(packetType: PacketType, data: PacketData)
}
