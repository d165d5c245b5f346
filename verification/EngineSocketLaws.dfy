/** What the life of a socket amounts to, read off its inputs alone: what it accepts, when it
    hands that over, what it announces and when it runs the callbacks. */
module EngineSocketLaws {
  import opened Wrappers
  import opened EnginePacket
  import opened EngineSocket
  import opened Sequences

  // The ready state.

  function ReadyStep(ready: ReadyState, input: Input): ReadyState {
    match input
    case CloseByServer(discard) => if ready == ReadyState.Open then Closing(discard) else ready
    case OnError(_) => if Accepts(ready) then Closed else ready
    case OnTransportClosed => Closed
    case _ => ready
  }

  /** The first close by the server is graceful, and only the end of the transport comes
      after it; an error counts only before. */
  function ReadyAfter(ready: ReadyState, inputs: seq<Input>): ReadyState
    decreases inputs
  {
    if inputs == [] then ready else ReadyAfter(ReadyStep(ready, inputs[0]), inputs[1..])
  }

  lemma ReadyFollowsInput(s: State, input: Input)
    ensures HandleInput(s, input).ready == ReadyStep(s.ready, input)
  {
    hide Batches;
  }

  lemma {:induction false} ReadyFollowsInputs(s: State, inputs: seq<Input>)
    ensures Run(s, inputs).ready == ReadyAfter(s.ready, inputs)
    decreases inputs
  {
    hide HandleInput, ReadyStep;
    if inputs != [] {
      ReadyFollowsInput(s, inputs[0]);
      ReadyFollowsInputs(HandleInput(s, inputs[0]), inputs[1..]);
    }
  }

  // What is accepted, announced and handed over.

  /** The packets that an input has the socket take on: what is sent, and a pong for a ping. */
  function PacketsFor(ready: ReadyState, input: Input): seq<Packet> {
    match input
    case Send(packet, _, _) => if Accepts(ready) then [packet] else []
    case OnPacketIn(packet, _) =>
      if ready == ReadyState.Open && packet.packetType.Ping? then [Packet.Packet(Pong, Empty)] else []
    case _ => []
  }

  function CallbacksFor(ready: ReadyState, input: Input): seq<Callback> {
    if input.Send? && input.callback.Some? && Accepts(ready) then [input.callback.value] else []
  }

  /** What the server hears of an input: heartbeats, messages and, for the one input that
      closes the socket, why. */
  function NewsFor(ready: ReadyState, input: Input): seq<SocketEvent> {
    match input
    case OnPacketIn(packet, _) =>
      if ready != ReadyState.Open then []
      else if packet.packetType.Ping? then [Heartbeat]
      else if packet.packetType.Message? then [MessageReceived(packet.data)]
      else []
    case OnError(error) =>
      if !Accepts(ready) then []
      else if error == PacketParseError then [ClosedFor(ParseFailed)]
      else [ClosedFor(TransportFailed)]
    case OnTransportClosed => if ready != Closed then [ClosedFor(TransportClosed)] else []
    case _ => []
  }

  /** The input has the socket try to hand its buffer over, and the transport is writable. */
  predicate HandsOver(ready: ReadyState, input: Input) {
    match input
    case Send(_, _, writable) => writable && Accepts(ready)
    case OnPacketIn(packet, writable) => writable && ready == ReadyState.Open && packet.packetType.Ping?
    case PollingFlush(writable) => writable && ready != Closed
    case OnDrained(writable) => writable && ready != Closed
    case _ => false
  }

  /** The batch, if any, that is handed over on an input, given what is in the buffer before. */
  function BatchFor(ready: ReadyState, buffer: seq<Packet>, input: Input): seq<seq<Packet>> {
    var full := buffer + PacketsFor(ready, input);
    if HandsOver(ready, input) && full != [] then [full] else []
  }

  function BufferFor(ready: ReadyState, buffer: seq<Packet>, input: Input): seq<Packet> {
    if ReadyStep(ready, input) == Closed || HandsOver(ready, input) then [] else buffer + PacketsFor(ready, input)
  }

  function AllPacketsFor(ready: ReadyState, inputs: seq<Input>): seq<Packet>
    decreases inputs
  {
    if inputs == [] then []
    else PacketsFor(ready, inputs[0]) + AllPacketsFor(ReadyStep(ready, inputs[0]), inputs[1..])
  }

  function AllCallbacksFor(ready: ReadyState, inputs: seq<Input>): seq<Callback>
    decreases inputs
  {
    if inputs == [] then []
    else CallbacksFor(ready, inputs[0]) + AllCallbacksFor(ReadyStep(ready, inputs[0]), inputs[1..])
  }

  function AllNewsFor(ready: ReadyState, inputs: seq<Input>): seq<SocketEvent>
    decreases inputs
  {
    if inputs == [] then []
    else NewsFor(ready, inputs[0]) + AllNewsFor(ReadyStep(ready, inputs[0]), inputs[1..])
  }

  function AllBatchesFor(ready: ReadyState, buffer: seq<Packet>, inputs: seq<Input>): seq<seq<Packet>>
    decreases inputs
  {
    if inputs == [] then []
    else
      BatchFor(ready, buffer, inputs[0])
      + AllBatchesFor(ReadyStep(ready, inputs[0]), BufferFor(ready, buffer, inputs[0]), inputs[1..])
  }

  predicate IsNews(event: SocketEvent) {
    !event.Flushed? && !event.Drained?
  }

  predicate IsHandOver(event: SocketEvent) {
    event.Flushed? || event.Drained?
  }

  /** A hand-over is announced before and after. */
  function HandOvers(n: nat): seq<SocketEvent> {
    if n == 0 then [] else HandOvers(n - 1) + [Flushed, Drained]
  }

  lemma {:induction false} HandOversAdd(m: nat, n: nat)
    ensures HandOvers(m + n) == HandOvers(m) + HandOvers(n)
  {
    if n > 0 {
      HandOversAdd(m, n - 1);
      Associate(HandOvers(m), HandOvers(n - 1), [Flushed, Drained]);
    }
  }

  // One input.

  lemma NewsOf(event: SocketEvent)
    ensures Filter(IsNews, [event]) == (if IsNews(event) then [event] else [])
    ensures Filter(IsHandOver, [event]) == (if IsHandOver(event) then [event] else [])
  {
    assert [event][1..] == [];
  }

  lemma NewsOfHandOver()
    ensures Filter(IsNews, [Flushed, Drained]) == []
    ensures Filter(IsHandOver, [Flushed, Drained]) == [Flushed, Drained]
  {
    NewsOf(Flushed);
    NewsOf(Drained);
    FilterAppend(IsNews, [Flushed], [Drained]);
    FilterAppend(IsHandOver, [Flushed], [Drained]);
    assert [Flushed] + [Drained] == [Flushed, Drained];
  }

  /** What a step adds to what the socket shows of itself. */
  predicate Adds(
    s: State, t: State, packets: seq<Packet>, callbacks: seq<Callback>, news: seq<SocketEvent>,
    batches: seq<seq<Packet>>)
  {
    && t.accepted == s.accepted + packets
    && t.registered == s.registered + callbacks
    && Filter(IsNews, t.events) == Filter(IsNews, s.events) + news
    && Filter(IsHandOver, t.events) == Filter(IsHandOver, s.events) + HandOvers(|batches|)
    && t.sent == s.sent + batches
  }

  lemma AddsNothing(s: State, t: State)
    requires t.accepted == s.accepted && t.registered == s.registered && t.events == s.events && t.sent == s.sent
    ensures Adds(s, t, [], [], [], [])
  {
    assert s.sent + [] == s.sent;
  }

  lemma AddsTogether(
    s: State, t: State, u: State,
    p: seq<Packet>, p': seq<Packet>, c: seq<Callback>, c': seq<Callback>, n: seq<SocketEvent>, n': seq<SocketEvent>,
    b: seq<seq<Packet>>, b': seq<seq<Packet>>)
    requires Adds(s, t, p, c, n, b) && Adds(t, u, p', c', n', b')
    ensures Adds(s, u, p + p', c + c', n + n', b + b')
  {
    hide Filter, HandOvers;
    Associate(s.accepted, p, p');
    Associate(s.registered, c, c');
    Associate(Filter(IsNews, s.events), n, n');
    Associate(Filter(IsHandOver, s.events), HandOvers(|b|), HandOvers(|b'|));
    HandOversAdd(|b|, |b'|);
    Associate(s.sent, b, b');
  }

  lemma AnnouncementAdds(s: State, event: SocketEvent)
    requires IsNews(event)
    ensures Adds(s, s.(events := s.events + [event]), [], [], [event], [])
  {
    hide Filter;
    NewsOf(event);
    FilterAppend(IsNews, s.events, [event]);
    FilterAppend(IsHandOver, s.events, [event]);
    assert HandOvers(0) == [] && s.sent + [] == s.sent;
  }

  lemma ThenAnnounced(
    s: State, t: State, packets: seq<Packet>, callbacks: seq<Callback>, batches: seq<seq<Packet>>, event: SocketEvent)
    requires Adds(s, t, packets, callbacks, [], batches) && IsNews(event)
    ensures Adds(s, t.(events := t.events + [event]), packets, callbacks, [event], batches)
  {
    hide Filter;
    NewsOf(event);
    FilterAppend(IsNews, t.events, [event]);
    FilterAppend(IsHandOver, t.events, [event]);
  }

  lemma SameAdds(
    s: State, s': State, t: State,
    packets: seq<Packet>, callbacks: seq<Callback>, news: seq<SocketEvent>, batches: seq<seq<Packet>>)
    requires s'.accepted == s.accepted && s'.registered == s.registered && s'.events == s.events && s'.sent == s.sent
    requires Adds(s', t, packets, callbacks, news, batches)
    ensures Adds(s, t, packets, callbacks, news, batches)
  {
  }

  /** The transport is there for what is in the buffer, and the buffer for what is pending. */
  predicate Ready(s: State) {
    && (s.writeBuffer != [] ==> s.transport.Some?)
    && (s.writeBuffer == [] ==> s.pendingCallbacks == [])
    && (Accepts(s.ready) ==> s.transport.Some?)
    && (s.ready == Closed ==> s.writeBuffer == [])
  }

  lemma FlushAdds(s: State, writable: bool)
    requires Ready(s)
    ensures var batches := if writable && s.writeBuffer != [] then [s.writeBuffer] else [];
            Adds(s, Flush(s, writable), [], [], [], batches)
    ensures Ready(Flush(s, writable))
    ensures Flush(s, writable).writeBuffer == if writable then [] else s.writeBuffer
  {
    hide Filter, Batches;
    NewsOfHandOver();
    FilterAppend(IsNews, s.events, [Flushed, Drained]);
    FilterAppend(IsHandOver, s.events, [Flushed, Drained]);
    assert HandOvers(1) == HandOvers(0) + [Flushed, Drained] == [Flushed, Drained];
    if !(writable && s.writeBuffer != []) {
      AddsNothing(s, Flush(s, writable));
    }
  }

  lemma SendAdds(s: State, packet: Packet, callback: Option<Callback>, writable: bool)
    requires Ready(s) && Accepts(s.ready)
    ensures var t := SendPacket(s, packet, callback, writable);
            var full := s.writeBuffer + [packet];
            var callbacks := if callback.Some? then [callback.value] else [];
            && Adds(s, t, [packet], callbacks, [], if writable then [full] else [])
            && Ready(t) && t.writeBuffer == if writable then [] else full
  {
    hide Filter, Flush;
    var pushed := Push(s, packet, callback);
    var callbacks := if callback.Some? then [callback.value] else [];
    var batches := if writable then [s.writeBuffer + [packet]] else [];
    assert Adds(s, pushed, [packet], callbacks, [], []) by {
      assert HandOvers(0) == [] && s.sent + [] == s.sent;
    }
    FlushAdds(pushed, writable);
    AddsTogether(s, pushed, Flush(pushed, writable), [packet], [], callbacks, [], [], [], [], batches);
    assert [packet] + [] == [packet] && callbacks + [] == callbacks && [] + batches == batches;
  }

  lemma InputAdds(s: State, input: Input)
    requires Ready(s)
    ensures var t := HandleInput(s, input);
            && Adds(s, t, PacketsFor(s.ready, input), CallbacksFor(s.ready, input), NewsFor(s.ready, input),
                    BatchFor(s.ready, s.writeBuffer, input))
            && Ready(t) && t.writeBuffer == BufferFor(s.ready, s.writeBuffer, input)
  {
    hide Filter, Flush, Adds, SendPacket;
    AddsNothing(s, s);
    assert s.writeBuffer + [] == s.writeBuffer;
    match input
    case Send(packet, callback, writable) =>
      SendNothing(s, packet, callback, writable);
      if Accepts(s.ready) {
        SendAdds(s, packet, callback, writable);
      }
    case CloseByServer(discard) => AddsNothing(s, CloseSocket(s, discard));
    case PollingFlush(writable) => FlushAdds(s, writable);
    case OnDrained(writable) =>
      FlushAdds(s, writable);
      DrainAdds(s, Flush(s, writable), BatchFor(s.ready, s.writeBuffer, input));
    case OnError(error) => CloseAdds(s, ErrorReason(error));
    case OnTransportClosed => CloseAdds(s, TransportClosed);
    case OnPacketIn(packet, writable) => PacketAdds(s, packet, writable);
  }

  lemma SendNothing(s: State, packet: Packet, callback: Option<Callback>, writable: bool)
    ensures !Accepts(s.ready) ==> SendPacket(s, packet, callback, writable) == s
  {
  }

  lemma DrainAdds(s: State, t: State, batches: seq<seq<Packet>>)
    requires Adds(s, t, [], [], [], batches) && Ready(t)
    ensures Adds(s, OnDrain(t), [], [], [], batches) && Ready(OnDrain(t))
    ensures OnDrain(t).writeBuffer == t.writeBuffer
  {
  }

  lemma CloseAdds(s: State, reason: CloseReason)
    requires Ready(s)
    ensures Adds(s, OnClose(s, reason), [], [], if s.ready != Closed then [ClosedFor(reason)] else [], [])
    ensures Ready(OnClose(s, reason)) && OnClose(s, reason).writeBuffer == []
  {
    hide Filter;
    if s.ready != Closed {
      AnnouncementAdds(s, ClosedFor(reason));
    } else {
      AddsNothing(s, s);
    }
  }

  lemma PacketAdds(s: State, packet: Packet, writable: bool)
    requires Ready(s)
    ensures var input, t := OnPacketIn(packet, writable), OnPacket(s, packet, writable);
            && Adds(s, t, PacketsFor(s.ready, input), [], NewsFor(s.ready, input),
                    BatchFor(s.ready, s.writeBuffer, input))
            && Ready(t) && t.writeBuffer == BufferFor(s.ready, s.writeBuffer, input)
  {
    hide Filter, SendPacket, Adds;
    AddsNothing(s, s);
    assert s.writeBuffer + [] == s.writeBuffer;
    if s.ready == ReadyState.Open && packet.packetType.Ping? {
      var pong := Packet.Packet(Pong, Empty);
      var sent := SendPacket(s, pong, None, writable);
      var batches := if writable then [s.writeBuffer + [pong]] else [];
      SendAdds(s, pong, None, writable);
      ThenAnnounced(s, sent, [pong], [], batches, Heartbeat);
    } else if s.ready == ReadyState.Open && packet.packetType.Message? {
      AnnouncementAdds(s, MessageReceived(packet.data));
    }
  }

  // Whole lives.

  lemma {:induction false} RunAdds(s: State, inputs: seq<Input>)
    requires Ready(s)
    ensures Adds(s, Run(s, inputs), AllPacketsFor(s.ready, inputs), AllCallbacksFor(s.ready, inputs),
                 AllNewsFor(s.ready, inputs), AllBatchesFor(s.ready, s.writeBuffer, inputs))
    ensures Ready(Run(s, inputs))
    decreases inputs
  {
    hide HandleInput, Adds, Ready, PacketsFor, CallbacksFor, NewsFor, BatchFor, BufferFor, ReadyStep;
    if inputs == [] {
      AddsNothing(s, s);
    } else {
      var t := HandleInput(s, inputs[0]);
      InputAdds(s, inputs[0]);
      ReadyFollowsInput(s, inputs[0]);
      RunAdds(t, inputs[1..]);
      AddsTogether(s, t, Run(t, inputs[1..]),
                   PacketsFor(s.ready, inputs[0]), AllPacketsFor(t.ready, inputs[1..]),
                   CallbacksFor(s.ready, inputs[0]), AllCallbacksFor(t.ready, inputs[1..]),
                   NewsFor(s.ready, inputs[0]), AllNewsFor(t.ready, inputs[1..]),
                   BatchFor(s.ready, s.writeBuffer, inputs[0]), AllBatchesFor(t.ready, t.writeBuffer, inputs[1..]));
    }
  }

  lemma OpeningAdds(kind: TransportKind, openPacket: Packet, writable: bool)
    ensures var begun := OpenSocket(Start(kind), openPacket, writable);
            && Adds(Start(kind), begun, [openPacket], [], [Opened], if writable then [[openPacket]] else [])
            && Ready(begun) && begun.ready == ReadyState.Open
            && begun.writeBuffer == if writable then [] else [openPacket]
  {
    hide Filter, Adds, Flush;
    var s := Start(kind);
    var open := s.(ready := ReadyState.Open);
    var sent := SendPacket(open, openPacket, None, writable);
    var batches := if writable then [[openPacket]] else [];
    assert [] + [openPacket] == [openPacket];
    SendAdds(open, openPacket, None, writable);
    SameAdds(s, open, sent, [openPacket], [], [], batches);
    ThenAnnounced(s, sent, [openPacket], [], batches, Opened);
    FlushReady(Push(open, openPacket, None), writable);
  }

  lemma FlushReady(s: State, writable: bool)
    ensures Flush(s, writable).ready == s.ready
  {
  }

  /** Everything that a socket has accepted, registered, announced and handed over follows from
      its inputs: a batch for every input that meets a writable transport, of all that has
      been accepted since the last one. */
  lemma FollowsInputs(kind: TransportKind, openPacket: Packet, writable: bool, inputs: seq<Input>)
    ensures var s := Life(kind, openPacket, writable, inputs);
            var (sent, buffer) := if writable then ([[openPacket]], []) else ([], [openPacket]);
            && s.accepted == [openPacket] + AllPacketsFor(ReadyState.Open, inputs)
            && s.registered == AllCallbacksFor(ReadyState.Open, inputs)
            && Filter(IsNews, s.events) == [Opened] + AllNewsFor(ReadyState.Open, inputs)
            && Filter(IsHandOver, s.events) == HandOvers(|s.sent|)
            && s.sent == sent + AllBatchesFor(ReadyState.Open, buffer, inputs)
  {
    hide Filter;
    var begun := OpenSocket(Start(kind), openPacket, writable);
    var s := Run(begun, inputs);
    OpeningAdds(kind, openPacket, writable);
    RunAdds(begun, inputs);
    NothingFiltered();
    LifeAdds(Start(kind), begun, s, openPacket, writable, inputs);
  }

  lemma NothingFiltered()
    ensures Filter(IsNews, []) == [] && Filter(IsHandOver, []) == []
  {
  }

  lemma LifeAdds(start: State, begun: State, s: State, openPacket: Packet, writable: bool, inputs: seq<Input>)
    requires start.accepted == [] && start.registered == [] && start.events == [] && start.sent == []
    requires Adds(start, begun, [openPacket], [], [Opened], if writable then [[openPacket]] else [])
    requires Adds(begun, s, AllPacketsFor(begun.ready, inputs), AllCallbacksFor(begun.ready, inputs),
                  AllNewsFor(begun.ready, inputs), AllBatchesFor(begun.ready, begun.writeBuffer, inputs))
    ensures s.accepted == [openPacket] + AllPacketsFor(begun.ready, inputs)
    ensures s.registered == AllCallbacksFor(begun.ready, inputs)
    ensures Filter(IsNews, s.events) == [Opened] + AllNewsFor(begun.ready, inputs)
    ensures Filter(IsHandOver, s.events) == HandOvers(|s.sent|)
    ensures s.sent == (if writable then [[openPacket]] else [])
                    + AllBatchesFor(begun.ready, begun.writeBuffer, inputs)
  {
    hide Filter, AllPacketsFor, AllCallbacksFor, AllNewsFor, AllBatchesFor, HandOvers, Adds;
    var batches := if writable then [[openPacket]] else [];
    AddsTogether(start, begun, s, [openPacket], AllPacketsFor(begun.ready, inputs),
                 [], AllCallbacksFor(begun.ready, inputs), [Opened], AllNewsFor(begun.ready, inputs),
                 batches, AllBatchesFor(begun.ready, begun.writeBuffer, inputs));
    FromNothing(start, s, [openPacket] + AllPacketsFor(begun.ready, inputs), [] + AllCallbacksFor(begun.ready, inputs),
                [Opened] + AllNewsFor(begun.ready, inputs),
                batches + AllBatchesFor(begun.ready, begun.writeBuffer, inputs));
    assert [] + AllCallbacksFor(begun.ready, inputs) == AllCallbacksFor(begun.ready, inputs);
  }

  lemma FromNothing(
    start: State, s: State, p: seq<Packet>, c: seq<Callback>, n: seq<SocketEvent>, b: seq<seq<Packet>>)
    requires start.accepted == [] && start.registered == [] && start.events == [] && start.sent == []
    requires Adds(start, s, p, c, n, b)
    ensures s.accepted == p && s.registered == c && Filter(IsNews, s.events) == n && s.sent == b
    ensures Filter(IsHandOver, s.events) == HandOvers(|s.sent|)
  {
    assert [] + p == p && [] + c == c && [] + n == n && [] + b == b;
    assert [] + HandOvers(|b|) == HandOvers(|b|);
  }

  lemma LifeReady(kind: TransportKind, openPacket: Packet, writable: bool, inputs: seq<Input>)
    ensures Ready(Life(kind, openPacket, writable, inputs))
  {
    hide Adds, Ready;
    OpeningAdds(kind, openPacket, writable);
    RunAdds(OpenSocket(Start(kind), openPacket, writable), inputs);
  }

  predicate MeetsWritable(input: Input) {
    match input
    case Send(_, _, writable) => writable
    case OnPacketIn(_, writable) => writable
    case PollingFlush(writable) => writable
    case OnDrained(writable) => writable
    case _ => false
  }

  /** Nothing is handed over to a transport that is not writable. */
  lemma UnwritableGetsNothing(
    kind: TransportKind, openPacket: Packet, writable: bool, before: seq<Input>, after: seq<Input>)
    requires forall i :: 0 <= i < |after| ==> !MeetsWritable(after[i])
    ensures var s := Life(kind, openPacket, writable, before); Run(s, after).sent == s.sent
  {
    hide Adds, Ready, HandOvers;
    var s := Life(kind, openPacket, writable, before);
    LifeReady(kind, openPacket, writable, before);
    RunAdds(s, after);
    NoBatches(s.ready, s.writeBuffer, after);
    SentOfAdds(s, Run(s, after), AllPacketsFor(s.ready, after), AllCallbacksFor(s.ready, after),
               AllNewsFor(s.ready, after));
  }

  lemma SentOfAdds(s: State, t: State, packets: seq<Packet>, callbacks: seq<Callback>, news: seq<SocketEvent>)
    requires Adds(s, t, packets, callbacks, news, [])
    ensures t.sent == s.sent
  {
  }

  lemma {:induction false} NoBatches(ready: ReadyState, buffer: seq<Packet>, inputs: seq<Input>)
    requires forall i :: 0 <= i < |inputs| ==> !MeetsWritable(inputs[i])
    ensures AllBatchesFor(ready, buffer, inputs) == []
    decreases inputs
  {
    if inputs != [] {
      NoBatches(ReadyStep(ready, inputs[0]), BufferFor(ready, buffer, inputs[0]), inputs[1..]);
    }
  }
}
