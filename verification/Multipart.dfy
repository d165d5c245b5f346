/** Reassembly of packets with attachments: the decoder slot of a connection. */
module Multipart {
  import opened Wrappers
  import opened ByteStrings
  import opened PacketValue
  import opened Attachments
  import opened SocketPacket

  /** A header and the attachments received for it. */
  datatype Progress = Progress(header: Header, buffer: seq<Bytes>)

  type Slot = Option<Progress>

  /** What a client sends on a connection, as far as the slot is concerned. */
  datatype Incoming = MultipartHeader(header: Header) | Attachment(data: Bytes)

  datatype Reaction =
    | NoAttachments        // a header that announces none is ignored
    | Started
    | SequenceError        // a header while another packet is under way
    | Waiting
    | Done(packet: Packet)
    | NoDecoder            // an attachment while no packet is under way
    | DecodeFailed         // an attachment too many; the decoder is gone

  // The objects.

  class DefaultDecoder {
    const header: Header
    var buffer: seq<Bytes>

    constructor (header: Header)
      ensures this.header == header && buffer == []
    {
      this.header := header;
      buffer := [];
    }

    predicate CanCollect()
      reads this
    {
      header.attachmentsCount == |buffer|
    }

    /** `Some(true)` when the packet is ready to be collected, `None` for an attachment too many. */
    method DecodeBinaryData(data: Bytes) returns (ready: Option<bool>)
      modifies this
      ensures old(CanCollect()) ==> ready == None && buffer == old(buffer)
      ensures !old(CanCollect()) ==> ready == Some(CanCollect()) && buffer == old(buffer) + [data]
    {
      if CanCollect() {
        return None;
      }
      buffer := buffer + [data];
      ready := Some(CanCollect());
    }

    method CollectPacket() returns (packet: Option<Packet>)
      ensures packet == if CanCollect() then Some(Collected(header, buffer)) else None
    {
      if !CanCollect() {
        return None;
      }
      var pool := new AttachmentPool(buffer);
      var data := pool.Reconstruct(header.data);
      packet := Some(Packet(
        header.packetType,
        header.id,
        match header.nsp case Some(nsp) => nsp case None => "/",
        data));
    }
  }

  class Connection {
    var decoder: DefaultDecoder?

    ghost function Slot(): Slot
      reads this, decoder
    {
      if decoder == null then None else Some(Progress(decoder.header, decoder.buffer))
    }

    constructor ()
      ensures Slot() == None
    {
      decoder := null;
    }

    method SetDecoder(newDecoder: DefaultDecoder) returns (ok: bool)
      modifies this
      ensures ok <==> old(Slot()).None?
      ensures Slot() == if ok then Some(Progress(newDecoder.header, newDecoder.buffer)) else old(Slot())
    {
      ok := decoder == null;
      if ok {
        decoder := newDecoder;
      }
    }

    /** Takes the decoder out of its slot, and puts it back only while it waits for more. */
    method DecodeBinaryData(data: Bytes) returns (reaction: Reaction)
      modifies this, decoder
      ensures (Slot(), reaction) == Step(old(Slot()), Attachment(data))
    {
      if decoder == null {
        return NoDecoder;
      }
      var taken := decoder;
      decoder := null;
      var ready := taken.DecodeBinaryData(data);
      if ready.None? {
        return DecodeFailed;
      }
      if ready.value {
        var packet := taken.CollectPacket();
        assert packet.Some?;
        return Done(packet.value);
      }
      decoder := taken;
      reaction := Waiting;
    }

    /** The part of the server's `handle_new_message` that concerns the slot. */
    method HandleIncoming(incoming: Incoming) returns (reaction: Reaction)
      modifies this, decoder
      ensures (Slot(), reaction) == Step(old(Slot()), incoming)
    {
      match incoming {
        case MultipartHeader(header) =>
          if header.attachmentsCount == 0 {
            return NoAttachments;
          }
          var newDecoder := new DefaultDecoder(header);
          var ok := SetDecoder(newDecoder);
          reaction := if ok then Started else SequenceError;
        case Attachment(data) =>
          reaction := DecodeBinaryData(data);
      }
    }
  }

  // The runs.

  function Step(slot: Slot, incoming: Incoming): (Slot, Reaction) {
    match (incoming, slot)
    case (MultipartHeader(header), _) =>
      if header.attachmentsCount == 0 then (slot, NoAttachments)
      else if slot.None? then (Some(Progress(header, [])), Started)
      else (slot, SequenceError)
    case (Attachment(_), None) => (None, NoDecoder)
    case (Attachment(data), Some(Progress(header, buffer))) =>
      if |buffer| == header.attachmentsCount then (None, DecodeFailed)
      else if |buffer| + 1 == header.attachmentsCount then (None, Done(Collected(header, buffer + [data])))
      else (Some(Progress(header, buffer + [data])), Waiting)
  }

  function Run(slot: Slot, events: seq<Incoming>): (r: (Slot, seq<Reaction>))
    ensures |r.1| == |events|
    decreases events
  {
    if events == [] then (slot, [])
    else
      var (next, reaction) := Step(slot, events[0]);
      var (last, reactions) := Run(next, events[1..]);
      (last, [reaction] + reactions)
  }

  lemma {:induction false} RunAppend(slot: Slot, a: seq<Incoming>, b: seq<Incoming>)
    ensures Run(slot, a + b) == (Run(Run(slot, a).0, b).0, Run(slot, a).1 + Run(Run(slot, a).0, b).1)
    decreases a
  {
    if a == [] {
      assert a + b == b && [] + Run(slot, b).1 == Run(slot, b).1;
    } else {
      assert (a + b)[0] == a[0];
      RunAppend(Step(slot, a[0]).0, a[1..], b);
      assert (a + b)[1..] == a[1..] + b;
      var (mid, reactions) := Run(Step(slot, a[0]).0, a[1..]);
      var first := [Step(slot, a[0]).1];
      assert first + (reactions + Run(mid, b).1) == (first + reactions) + Run(mid, b).1;
    }
  }

  /** An incomplete packet, if any. */
  predicate Incomplete(slot: Slot) {
    slot.Some? ==> |slot.value.buffer| < slot.value.header.attachmentsCount
  }

  /** The slot never holds a complete packet, so no attachment is ever one too many, and a
      header that comes in the middle changes nothing. */
  lemma {:induction false} AlwaysIncomplete(slot: Slot, events: seq<Incoming>)
    requires Incomplete(slot)
    ensures Incomplete(Run(slot, events).0)
    ensures DecodeFailed !in Run(slot, events).1
    decreases events
  {
    if events != [] {
      AlwaysIncomplete(Step(slot, events[0]).0, events[1..]);
    }
  }

  // What comes out, read off the incoming messages alone.

  /** The data of the attachments among the messages. */
  function AttachmentsIn(events: seq<Incoming>): seq<Bytes> {
    if events == [] then []
    else (if events[0].Attachment? then [events[0].data] else []) + AttachmentsIn(events[1..])
  }

  /** What is left of the messages behind the `n`-th attachment. */
  function After(events: seq<Incoming>, n: nat): (rest: seq<Incoming>)
    ensures |rest| <= |events|
  {
    if n == 0 || events == [] then events
    else After(events[1..], if events[0].Attachment? then n - 1 else n)
  }

  /** Every header that announces attachments, outside the packet before it, takes as many
      attachments as it announces, in the order in which they come. */
  function Assembled(events: seq<Incoming>): seq<Packet>
    decreases |events|
  {
    if events == [] then []
    else if events[0].MultipartHeader? && events[0].header.attachmentsCount > 0 then
      AssembledFor(events[0].header, [], events[1..])
    else
      Assembled(events[1..])
  }

  function AssembledFor(header: Header, received: seq<Bytes>, events: seq<Incoming>): seq<Packet>
    requires |received| < header.attachmentsCount
    decreases |events|, 1
  {
    var missing := header.attachmentsCount - |received|;
    if |AttachmentsIn(events)| < missing then []
    else
      AfterShorter(events, missing);
      [Collected(header, received + AttachmentsIn(events)[..missing])] + Assembled(After(events, missing))
  }

  lemma AfterShorter(events: seq<Incoming>, n: nat)
    requires n > 0 && events != []
    ensures |After(events, n)| < |events|
  {
  }

  function Packets(reactions: seq<Reaction>): seq<Packet> {
    if reactions == [] then []
    else (if reactions[0].Done? then [reactions[0].packet] else []) + Packets(reactions[1..])
  }

  /** Exactly the packets read off the messages come out. */
  lemma Reassembly(events: seq<Incoming>)
    ensures Packets(Run(None, events).1) == Assembled(events)
  {
    ReassemblyFrom(None, events);
  }

  /** How many attachments are still to come for the packet that is under way. */
  function Missing(events: seq<Incoming>): nat {
    if events == [] then 0 else MissingAfter(Missing(events[..|events| - 1]), events[|events| - 1])
  }

  function MissingAfter(missing: nat, incoming: Incoming): nat {
    match incoming
    case MultipartHeader(header) => if missing == 0 then header.attachmentsCount else missing
    case Attachment(_) => if missing == 0 then 0 else missing - 1
  }

  function MissingIn(slot: Slot): int {
    if slot.None? then 0 else slot.value.header.attachmentsCount - |slot.value.buffer|
  }

  lemma {:induction false} MissingInSlot(events: seq<Incoming>)
    ensures Incomplete(Run(None, events).0) && MissingIn(Run(None, events).0) == Missing(events)
  {
    AlwaysIncomplete(None, events);
    if events != [] {
      var before, last := events[..|events| - 1], events[|events| - 1];
      MissingInSlot(before);
      RunAppend(None, before, [last]);
      assert events == before + [last];
      assert Run(Run(None, before).0, [last]).0 == Step(Run(None, before).0, last).0;
    }
  }

  /** The reaction to each message of a run, by what is missing before it: a packet comes out
      on the last attachment that is missing, the one packet that this message adds to those
      read off; and a header in the middle of a packet is an error. */
  lemma ReactionAt(events: seq<Incoming>, k: nat)
    requires k < |events|
    ensures var reaction, missing := Run(None, events).1[k], Missing(events[..k]);
            match events[k]
            case MultipartHeader(header) =>
              && (reaction.NoAttachments? <==> header.attachmentsCount == 0)
              && (reaction.Started? <==> header.attachmentsCount > 0 && missing == 0)
              && (reaction.SequenceError? <==> header.attachmentsCount > 0 && missing > 0)
            case Attachment(_) =>
              && (reaction.NoDecoder? <==> missing == 0)
              && (reaction.Waiting? <==> missing > 1)
              && (reaction.Done? <==> missing == 1)
    ensures var reaction := Run(None, events).1[k];
            Assembled(events[..k + 1]) == Assembled(events[..k]) + if reaction.Done? then [reaction.packet] else []
  {
    hide Run, Step, Assembled, Missing, Collected;
    ReactionIsStep(events, k);
    MissingInSlot(events[..k]);
    StepByMissing(Run(None, events[..k]).0, events[k]);
    Reassembly(events[..k]);
    Reassembly(events[..k + 1]);
  }

  lemma StepByMissing(slot: Slot, incoming: Incoming)
    requires Incomplete(slot)
    ensures var reaction, missing := Step(slot, incoming).1, MissingIn(slot);
            match incoming
            case MultipartHeader(header) =>
              && (reaction.NoAttachments? <==> header.attachmentsCount == 0)
              && (reaction.Started? <==> header.attachmentsCount > 0 && missing == 0)
              && (reaction.SequenceError? <==> header.attachmentsCount > 0 && missing > 0)
            case Attachment(_) =>
              && (reaction.NoDecoder? <==> missing == 0)
              && (reaction.Waiting? <==> missing > 1)
              && (reaction.Done? <==> missing == 1)
  {
  }

  lemma ReactionIsStep(events: seq<Incoming>, k: nat)
    requires k < |events|
    ensures Run(None, events).1[k] == Step(Run(None, events[..k]).0, events[k]).1
    ensures var reaction := Run(None, events).1[k];
            var packets := if reaction.Done? then [reaction.packet] else [];
            Packets(Run(None, events[..k + 1]).1) == Packets(Run(None, events[..k]).1) + packets
  {
    hide Run, Step, Packets;
    var before, after := events[..k], events[k + 1..];
    var slot := Run(None, before).0;
    assert events[..k + 1] == before + [events[k]];
    RunAppend(None, before, [events[k]]);
    RunOne(slot, events[k]);
    PacketsAppend(Run(None, before).1, [Step(slot, events[k]).1]);
    RunPrefix(events, k + 1);
  }

  /** The reactions to the first messages do not depend on the others. */
  lemma RunPrefix(events: seq<Incoming>, n: nat)
    requires n <= |events|
    ensures Run(None, events[..n]).1 == Run(None, events).1[..n]
  {
    hide Run;
    assert events == events[..n] + events[n..];
    RunAppend(None, events[..n], events[n..]);
  }

  lemma RunOne(slot: Slot, incoming: Incoming)
    ensures Run(slot, [incoming]) == (Step(slot, incoming).0, [Step(slot, incoming).1])
    ensures var reaction := Step(slot, incoming).1;
            Packets([reaction]) == if reaction.Done? then [reaction.packet] else []
  {
    hide Step;
    var (next, reaction) := Step(slot, incoming);
    assert [incoming][1..] == [] && Run(next, []) == (next, []);
    assert [reaction] + [] == [reaction] && [reaction][1..] == [];
  }

  /** What is still to come out, given the slot. */
  function AssembledFrom(slot: Slot, events: seq<Incoming>): seq<Packet>
    requires Incomplete(slot)
  {
    if slot.None? then Assembled(events) else AssembledFor(slot.value.header, slot.value.buffer, events)
  }

  /** A message takes its packet, if it completes one, off the front. */
  lemma AssembledStep(slot: Slot, events: seq<Incoming>)
    requires Incomplete(slot) && events != []
    ensures var (next, reaction) := Step(slot, events[0]);
            && Incomplete(next)
            && AssembledFrom(slot, events)
            == (if reaction.Done? then [reaction.packet] else []) + AssembledFrom(next, events[1..])
  {
    hide Collected;
    if slot.Some? && events[0].Attachment? {
      AttachmentStep(slot.value.header, slot.value.buffer, events);
    } else if slot.Some? {
      assert AttachmentsIn(events) == AttachmentsIn(events[1..]);
    }
  }

  lemma AttachmentStep(header: Header, buffer: seq<Bytes>, events: seq<Incoming>)
    requires |buffer| < header.attachmentsCount && events != [] && events[0].Attachment?
    ensures var longer := buffer + [events[0].data];
            if |longer| == header.attachmentsCount then
              AssembledFor(header, buffer, events) == [Collected(header, longer)] + Assembled(events[1..])
            else
              AssembledFor(header, buffer, events) == AssembledFor(header, longer, events[1..])
  {
    hide Collected, Assembled;
    var missing := header.attachmentsCount - |buffer|;
    var data, more := AttachmentsIn(events), AttachmentsIn(events[1..]);
    assert data == [events[0].data] + more;
    assert After(events, missing) == After(events[1..], missing - 1);
    if |data| >= missing {
      assert data[..missing] == [events[0].data] + more[..missing - 1];
      assert buffer + data[..missing] == (buffer + [events[0].data]) + more[..missing - 1];
      if missing == 1 {
        assert more[..0] == [];
      }
    }
  }

  lemma {:induction false} ReassemblyFrom(slot: Slot, events: seq<Incoming>)
    requires Incomplete(slot)
    ensures Packets(Run(slot, events).1) == AssembledFrom(slot, events)
    decreases events
  {
    hide Step, AssembledFrom;
    if events == [] {
      NothingAssembled(slot);
    } else {
      AssembledStep(slot, events);
      ReassemblyFrom(Step(slot, events[0]).0, events[1..]);
      assert Run(slot, events).1[1..] == Run(Step(slot, events[0]).0, events[1..]).1;
    }
  }

  lemma NothingAssembled(slot: Slot)
    requires Incomplete(slot)
    ensures AssembledFrom(slot, []) == []
  {
  }

  // Encoder and slot together.

  /** A packet of a binary type with something to attach, and no more than 32 bits can count. */
  predicate HasAttachments(packet: Packet) {
    && IsBinary(packet.packetType)
    && 0 < |Binaries(packet.data)| < U32_LIMIT
  }

  /** The messages that carry encoded packets, one packet after the other. */
  function Stream(packets: seq<Packet>): seq<Incoming>
    requires forall i :: 0 <= i < |packets| ==> HasAttachments(packets[i])
  {
    if packets == [] then []
    else
      assert HasAttachments(packets[0]);
      Messages(Encoded(packets[0])) + Stream(packets[1..])
  }

  function Messages(encoded: EncodedPacket): seq<Incoming> {
    [MultipartHeader(encoded.header)] + AttachmentMessages(encoded.attachments)
  }

  function AttachmentMessages(attachments: seq<Bytes>): (messages: seq<Incoming>)
    ensures |messages| == |attachments|
  {
    seq(|attachments|, i requires 0 <= i < |attachments| => Attachment(attachments[i]))
  }

  lemma {:induction false} RunAttachments(header: Header, received: seq<Bytes>, attachments: seq<Bytes>)
    requires attachments != [] && header.attachmentsCount == |received| + |attachments|
    ensures var (slot, reactions) := Run(Some(Progress(header, received)), AttachmentMessages(attachments));
            slot == None && Packets(reactions) == [Collected(header, received + attachments)]
    decreases attachments
  {
    var messages := AttachmentMessages(attachments);
    var start := Some(Progress(header, received));
    assert messages[1..] == AttachmentMessages(attachments[1..]);
    if |attachments| == 1 {
      assert attachments == [attachments[0]];
      assert Run(start, messages).1 == [Done(Collected(header, received + attachments))];
    } else {
      RunAttachments(header, received + [attachments[0]], attachments[1..]);
      assert received + attachments == (received + [attachments[0]]) + attachments[1..];
      assert Run(start, messages).1[1..] == Run(Step(start, messages[0]).0, messages[1..]).1;
    }
  }

  lemma RunMessages(packet: Packet)
    requires HasAttachments(packet)
    ensures var (slot, reactions) := Run(None, Messages(Encoded(packet)));
            slot == None && Packets(reactions) == [packet.(data := WithoutObjects(packet.data))]
  {
    var encoded := Encoded(packet);
    var messages := Messages(encoded);
    RunAttachments(encoded.header, [], encoded.attachments);
    assert [] + encoded.attachments == encoded.attachments;
    assert messages[1..] == AttachmentMessages(encoded.attachments);
    assert Run(None, messages).1[1..] == Run(Step(None, messages[0]).0, messages[1..]).1;
    CollectedEncoded(packet);
  }

  lemma {:induction false} PacketsAppend(a: seq<Reaction>, b: seq<Reaction>)
    ensures Packets(a + b) == Packets(a) + Packets(b)
  {
    if a == [] {
      assert a + b == b;
    } else {
      PacketsAppend(a[1..], b);
      assert (a + b)[0] == a[0] && (a + b)[1..] == a[1..] + b;
      var first := if a[0].Done? then [a[0].packet] else [];
      assert first + (Packets(a[1..]) + Packets(b)) == (first + Packets(a[1..])) + Packets(b);
    }
  }

  function AllPacketsWithoutObjects(packets: seq<Packet>): (r: seq<Packet>)
    ensures |r| == |packets|
    ensures forall i :: 0 <= i < |packets| ==> r[i] == packets[i].(data := WithoutObjects(packets[i].data))
  {
    seq(|packets|, i requires 0 <= i < |packets| => packets[i].(data := WithoutObjects(packets[i].data)))
  }

  /** A stream of encoded packets through one connection comes out as the same packets in
      the same order, but for objects in their data, and leaves the slot empty. */
  lemma {:induction false} StreamComposition(packets: seq<Packet>)
    requires forall i :: 0 <= i < |packets| ==> HasAttachments(packets[i])
    ensures var (slot, reactions) := Run(None, Stream(packets));
            slot == None && Packets(reactions) == AllPacketsWithoutObjects(packets)
  {
    if packets != [] {
      var messages := Messages(Encoded(packets[0]));
      RunMessages(packets[0]);
      StreamComposition(packets[1..]);
      RunAppend(None, messages, Stream(packets[1..]));
      PacketsAppend(Run(None, messages).1, Run(None, Stream(packets[1..])).1);
      assert AllPacketsWithoutObjects(packets)
          == [packets[0].(data := WithoutObjects(packets[0].data))] + AllPacketsWithoutObjects(packets[1..]);
    }
  }

  /** Without objects, the packets come out unchanged. */
  lemma StreamUnchanged(packets: seq<Packet>)
    requires forall i :: 0 <= i < |packets| ==> HasAttachments(packets[i])
    ensures Packets(Run(None, Stream(packets)).1) == packets
       <==> forall i :: 0 <= i < |packets| ==> HasNoObject(packets[i].data)
  {
    StreamComposition(packets);
    forall i | 0 <= i < |packets|
      ensures AllPacketsWithoutObjects(packets)[i] == packets[i] <==> HasNoObject(packets[i].data)
    {
      ObjectsAreLost(packets[i].data);
    }
  }
}
