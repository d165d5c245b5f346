/** The Engine.IO socket: its write buffer, its callbacks and how it closes, when each handler
    runs to its end before the next one starts. */
module EngineSocket {
  import opened Wrappers
  import opened EnginePacket
  import opened Sequences

  /** Callbacks are only ever told apart. */
  type Callback = nat

  datatype ReadyState = Opening | Open | Closing(withDiscard: bool) | Closed

  datatype TransportKind = WebSocket | Polling

  datatype TransportError = PacketParseError | OtherError

  datatype CloseReason = ParseFailed | TransportFailed | TransportClosed

  datatype CallbackBatch = NonFramed(callbacks: seq<Callback>) | Framed(callback: Callback)

  datatype SocketEvent =
    | Opened
    | ClosedFor(reason: CloseReason)
    | Flushed
    | Drained
    | Heartbeat
    | MessageReceived(data: PacketData)

  /** The state behind the lock, then what left the socket so far, then what the history is
      measured by. */
  datatype State = State(
    ready: ReadyState,
    transport: Option<TransportKind>,
    writeBuffer: seq<Packet>,
    pendingCallbacks: seq<Callback>,
    flushedCallbacks: seq<CallbackBatch>,
    // the batches handed to the transport, the events sent to the server, the callbacks run
    sent: seq<seq<Packet>>,
    events: seq<SocketEvent>,
    fired: seq<Callback>,
    // all packets and callbacks taken on by `send_packet`, and those dropped by `on_close`
    accepted: seq<Packet>,
    registered: seq<Callback>,
    discarded: seq<Packet>,
    cleared: seq<Callback>)

  function Start(kind: TransportKind): State {
    State(Opening, Some(kind), [], [], [], [], [], [], [], [], [], [])
  }

  predicate Accepts(ready: ReadyState) {
    ready == Opening || ready == ReadyState.Open
  }

  // The handlers on values. Whether the transport is writable is up to the adapter.

  function Push(s: State, packet: Packet, callback: Option<Callback>): State {
    var callbacks := if callback.Some? then [callback.value] else [];
    s.(writeBuffer := s.writeBuffer + [packet],
       pendingCallbacks := s.pendingCallbacks + callbacks,
       accepted := s.accepted + [packet],
       registered := s.registered + callbacks)
  }

  function SendPacket(s: State, packet: Packet, callback: Option<Callback>, writable: bool): State {
    if Accepts(s.ready) then Flush(Push(s, packet, callback), writable) else s
  }

  function Batches(framing: bool, callbacks: seq<Callback>): seq<CallbackBatch> {
    if framing then seq(|callbacks|, i requires 0 <= i < |callbacks| => Framed(callbacks[i]))
    else [NonFramed(callbacks)]
  }

  function Flush(s: State, writable: bool): State {
    if s.ready != Closed && s.writeBuffer != [] && s.transport.Some? && writable then
      s.(writeBuffer := [],
         sent := s.sent + [s.writeBuffer],
         pendingCallbacks := [],
         flushedCallbacks := s.flushedCallbacks + Batches(s.transport == Some(WebSocket), s.pendingCallbacks),
         events := s.events + [Flushed, Drained],
         transport := if s.ready.Closing? then None else s.transport)
    else
      s
  }

  function CloseSocket(s: State, discard: bool): State {
    if s.ready == ReadyState.Open then
      s.(ready := Closing(discard), transport := if s.writeBuffer == [] then None else s.transport)
    else
      s
  }

  function Clear(s: State): State {
    s.(ready := Closed,
       discarded := s.discarded + s.writeBuffer, writeBuffer := [],
       cleared := s.cleared + s.pendingCallbacks, pendingCallbacks := [])
  }

  function OnClose(s: State, reason: CloseReason): State {
    if s.ready != Closed then
      Clear(s).(transport := None, events := s.events + [ClosedFor(reason)])
    else
      s
  }

  function ErrorReason(error: TransportError): CloseReason {
    match error
    case PacketParseError => ParseFailed
    case OtherError => TransportFailed
  }

  function OnTransportError(s: State, error: TransportError): State {
    if Accepts(s.ready) then OnClose(s, ErrorReason(error)) else s
  }

  function OnPacket(s: State, packet: Packet, writable: bool): State {
    if s.ready != ReadyState.Open then s
    else
      match packet.packetType
      case Ping =>
        var pong := SendPacket(s, Packet.Packet(Pong, Empty), None, writable);
        pong.(events := pong.events + [Heartbeat])
      case Message => s.(events := s.events + [MessageReceived(packet.data)])
      case _ => s
  }

  function CallbacksOf(batch: CallbackBatch): seq<Callback> {
    match batch
    case Framed(callback) => [callback]
    case NonFramed(callbacks) => callbacks
  }

  function OnDrain(s: State): State {
    if s.flushedCallbacks == [] then s
    else s.(flushedCallbacks := s.flushedCallbacks[1..], fired := s.fired + CallbacksOf(s.flushedCallbacks[0]))
  }

  function OpenSocket(s: State, openPacket: Packet, writable: bool): State {
    var open := SendPacket(s.(ready := ReadyState.Open), openPacket, None, writable);
    open.(events := open.events + [Opened])
  }

  // The object.

  class Socket {
    var ready: ReadyState
    var transport: Option<TransportKind>
    var writeBuffer: seq<Packet>
    var pendingCallbacks: seq<Callback>
    var flushedCallbacks: seq<CallbackBatch>

    var sent: seq<seq<Packet>>
    var events: seq<SocketEvent>
    var fired: seq<Callback>

    ghost var accepted: seq<Packet>
    ghost var registered: seq<Callback>
    ghost var discarded: seq<Packet>
    ghost var cleared: seq<Callback>

    ghost function Now(): State
      reads this
    {
      State(ready, transport, writeBuffer, pendingCallbacks, flushedCallbacks,
            sent, events, fired, accepted, registered, discarded, cleared)
    }

    constructor (kind: TransportKind)
      ensures Now() == Start(kind)
    {
      ready, transport := Opening, Some(kind);
      writeBuffer, pendingCallbacks, flushedCallbacks := [], [], [];
      sent, events, fired := [], [], [];
      accepted, registered, discarded, cleared := [], [], [], [];
    }

    method DoOpen(openPacket: Packet, writable: bool)
      modifies this
      ensures Now() == OpenSocket(old(Now()), openPacket, writable)
    {
      ready := ReadyState.Open;
      DoSendPacket(openPacket, None, writable);
      events := events + [Opened];
    }

    method DoClose(discard: bool)
      modifies this
      ensures Now() == CloseSocket(old(Now()), discard)
    {
      if ready == ReadyState.Open {
        ready := Closing(discard);
        if writeBuffer == [] {
          transport := None;
        }
      }
    }

    method DoSendPacket(packet: Packet, callback: Option<Callback>, writable: bool)
      modifies this
      ensures Now() == SendPacket(old(Now()), packet, callback, writable)
    {
      if ready == Opening || ready == ReadyState.Open {
        writeBuffer := writeBuffer + [packet];
        accepted := accepted + [packet];
        if callback.Some? {
          pendingCallbacks := pendingCallbacks + [callback.value];
          registered := registered + [callback.value];
        }
        assert Now() == Push(old(Now()), packet, callback);
        DoFlush(writable);
      }
    }

    method DoFlush(writable: bool)
      modifies this
      ensures Now() == Flush(old(Now()), writable)
    {
      if ready != Closed && |writeBuffer| > 0 && transport.Some? && writable {
        events := events + [Flushed];
        var buffer := writeBuffer;
        writeBuffer := [];
        sent := sent + [buffer];
        var callbacks := pendingCallbacks;
        pendingCallbacks := [];
        var supportsFraming := transport == Some(WebSocket);
        var batches := Batches(supportsFraming, callbacks);
        flushedCallbacks := flushedCallbacks + batches;
        events := events + [Drained];
        if ready.Closing? {
          transport := None;
        }
        assert events == old(events) + [Flushed, Drained];
      }
    }

    method DoOnClose(reason: CloseReason)
      modifies this
      ensures Now() == OnClose(old(Now()), reason)
    {
      if ready != Closed {
        ready := Closed;
        discarded := discarded + writeBuffer;
        writeBuffer := [];
        cleared := cleared + pendingCallbacks;
        pendingCallbacks := [];
        transport := None;
        events := events + [ClosedFor(reason)];
      }
    }

    method DoOnTransportError(error: TransportError)
      modifies this
      ensures Now() == OnTransportError(old(Now()), error)
    {
      if ready == Opening || ready == ReadyState.Open {
        match error {
          case PacketParseError => DoOnClose(ParseFailed);
          case OtherError => DoOnClose(TransportFailed);
        }
      }
    }

    method DoOnPacket(packet: Packet, writable: bool)
      modifies this
      ensures Now() == OnPacket(old(Now()), packet, writable)
    {
      if ready == ReadyState.Open {
        match packet.packetType {
          case Ping =>
            DoSendPacket(Packet.Packet(Pong, Empty), None, writable);
            events := events + [Heartbeat];
          case Message =>
            events := events + [MessageReceived(packet.data)];
          case _ =>
        }
      }
    }

    method DoOnDrain()
      modifies this
      ensures Now() == OnDrain(old(Now()))
    {
      if flushedCallbacks != [] {
        var first := flushedCallbacks[0];
        flushedCallbacks := flushedCallbacks[1..];
        match first {
          case Framed(callback) => fired := fired + [callback];
          case NonFramed(callbacks) => fired := fired + callbacks;
        }
      }
    }

    /** One turn of the transport event loop, or one call from the server. */
    method Handle(input: Input)
      modifies this
      ensures Now() == HandleInput(old(Now()), input)
    {
      match input {
        case Send(packet, callback, writable) => DoSendPacket(packet, callback, writable);
        case CloseByServer(discard) => DoClose(discard);
        case PollingFlush(writable) => DoFlush(writable);
        case OnError(error) => DoOnTransportError(error);
        case OnPacketIn(packet, writable) => DoOnPacket(packet, writable);
        case OnDrained(writable) =>
          DoFlush(writable);
          DoOnDrain();
        case OnTransportClosed => DoOnClose(TransportClosed);
      }
    }
  }

  // The runs.

  datatype Input =
    | Send(packet: Packet, callback: Option<Callback>, writable: bool)
    | CloseByServer(discard: bool)
    | PollingFlush(writable: bool)
    | OnError(error: TransportError)
    | OnPacketIn(packet: Packet, writable: bool)
    | OnDrained(writable: bool)
    | OnTransportClosed

  function HandleInput(s: State, input: Input): State {
    match input
    case Send(packet, callback, writable) => SendPacket(s, packet, callback, writable)
    case CloseByServer(discard) => CloseSocket(s, discard)
    case PollingFlush(writable) => Flush(s, writable)
    case OnError(error) => OnTransportError(s, error)
    case OnPacketIn(packet, writable) => OnPacket(s, packet, writable)
    case OnDrained(writable) => OnDrain(Flush(s, writable))
    case OnTransportClosed => OnClose(s, TransportClosed)
  }

  function Run(s: State, inputs: seq<Input>): State
    decreases inputs
  {
    if inputs == [] then s else Run(HandleInput(s, inputs[0]), inputs[1..])
  }

  /** A socket that was opened once, then given these inputs. */
  function Life(kind: TransportKind, openPacket: Packet, writable: bool, inputs: seq<Input>): State {
    Run(OpenSocket(Start(kind), openPacket, writable), inputs)
  }

  // What every run keeps.

  function Flat<T>(batches: seq<seq<T>>): seq<T> {
    if batches == [] then [] else Flat(batches[..|batches| - 1]) + batches[|batches| - 1]
  }

  function CallbacksIn(batches: seq<CallbackBatch>): seq<Callback> {
    if batches == [] then [] else CallbacksOf(batches[0]) + CallbacksIn(batches[1..])
  }

  lemma {:induction false} CallbacksInAppend(a: seq<CallbackBatch>, b: seq<CallbackBatch>)
    ensures CallbacksIn(a + b) == CallbacksIn(a) + CallbacksIn(b)
  {
    hide CallbacksOf;
    if a == [] {
      assert a + b == b;
    } else {
      CallbacksInAppend(a[1..], b);
      assert (a + b)[0] == a[0] && (a + b)[1..] == a[1..] + b;
      Associate(CallbacksOf(a[0]), CallbacksIn(a[1..]), CallbacksIn(b));
    }
  }

  /** Framed or not, the batches hold the callbacks in order. */
  lemma {:induction false} CallbacksInBatches(framing: bool, callbacks: seq<Callback>)
    ensures CallbacksIn(Batches(framing, callbacks)) == callbacks
  {
    var batches := Batches(framing, callbacks);
    if !framing {
      assert CallbacksIn(batches) == callbacks + CallbacksIn([]);
    } else if callbacks != [] {
      CallbacksInBatches(framing, callbacks[1..]);
      assert batches[1..] == Batches(framing, callbacks[1..]);
    }
  }

  function CloseEvents(events: seq<SocketEvent>): nat {
    if events == [] then 0
    else CloseEvents(events[..|events| - 1]) + if events[|events| - 1].ClosedFor? then 1 else 0
  }

  predicate PacketsInOrder(s: State) {
    Flat(s.sent) + s.writeBuffer + s.discarded == s.accepted
  }

  predicate CallbacksInOrder(s: State) {
    s.fired + CallbacksIn(s.flushedCallbacks) + s.pendingCallbacks + s.cleared == s.registered
  }

  predicate ClosedIsFinal(s: State) {
    && (s.ready == Closed ==> s.writeBuffer == [] && s.pendingCallbacks == [])
    && (s.ready != Closed ==> s.discarded == [] && s.cleared == [])
    && (s.ready == Closed ==> s.transport.None?)
    && (s.transport.None? ==> s.writeBuffer == [] && !Accepts(s.ready))
    && (s.ready.Closing? && s.transport.Some? ==> s.writeBuffer != [])
    && CloseEvents(s.events) == if s.ready == Closed then 1 else 0
  }

  predicate Invariant(s: State) {
    PacketsInOrder(s) && CallbacksInOrder(s) && ClosedIsFinal(s)
  }

  lemma FlushKeeps(s: State, writable: bool)
    requires Invariant(s)
    ensures Invariant(Flush(s, writable))
  {
    FlushKeepsPackets(s, writable);
    FlushKeepsCallbacks(s, writable);
    CloseEventsAppend(s.events, [Flushed, Drained]);
    assert [Flushed, Drained][..1] == [Flushed];
  }

  lemma FlushKeepsPackets(s: State, writable: bool)
    requires PacketsInOrder(s)
    ensures PacketsInOrder(Flush(s, writable))
  {
    var sent := s.sent + [s.writeBuffer];
    assert sent[..|sent| - 1] == s.sent;
    assert Flat(sent) + [] + s.discarded == Flat(s.sent) + s.writeBuffer + s.discarded;
  }

  lemma FlushKeepsCallbacks(s: State, writable: bool)
    requires CallbacksInOrder(s)
    ensures CallbacksInOrder(Flush(s, writable))
  {
    hide Batches, CallbacksIn;
    var framing := s.transport == Some(WebSocket);
    var batches := Batches(framing, s.pendingCallbacks);
    CallbacksInAppend(s.flushedCallbacks, batches);
    CallbacksInBatches(framing, s.pendingCallbacks);
    assert s.fired + (CallbacksIn(s.flushedCallbacks) + s.pendingCallbacks) + [] + s.cleared == s.registered;
  }

  lemma {:induction false} CloseEventsAppend(a: seq<SocketEvent>, b: seq<SocketEvent>)
    ensures CloseEvents(a + b) == CloseEvents(a) + CloseEvents(b)
  {
    if b == [] {
      assert a + b == a;
    } else {
      CloseEventsAppend(a, b[..|b| - 1]);
      assert (a + b)[..|a + b| - 1] == a + b[..|b| - 1];
    }
  }

  lemma SendKeeps(s: State, packet: Packet, callback: Option<Callback>, writable: bool)
    requires Invariant(s)
    ensures Invariant(SendPacket(s, packet, callback, writable))
  {
    if Accepts(s.ready) {
      var pushed := Push(s, packet, callback);
      assert Invariant(pushed) by {
        assert s.discarded == [] && s.cleared == [];
      }
      FlushKeeps(pushed, writable);
    }
  }

  lemma DrainKeeps(s: State)
    requires Invariant(s)
    ensures Invariant(OnDrain(s))
  {
    hide Flat, CloseEvents;
    if s.flushedCallbacks != [] {
      var first, rest := CallbacksOf(s.flushedCallbacks[0]), CallbacksIn(s.flushedCallbacks[1..]);
      assert CallbacksIn(s.flushedCallbacks) == first + rest;
      assert s.fired + (first + rest) == s.fired + first + rest;
    }
  }

  lemma OnCloseKeeps(s: State, reason: CloseReason)
    requires Invariant(s)
    ensures Invariant(OnClose(s, reason))
  {
    hide Flat, CallbacksIn;
    CloseEventsAppend(s.events, [ClosedFor(reason)]);
    if s.ready != Closed {
      var sent, run := Flat(s.sent), s.fired + CallbacksIn(s.flushedCallbacks);
      assert s.discarded == [] && s.discarded + s.writeBuffer == s.writeBuffer;
      assert s.cleared == [] && s.cleared + s.pendingCallbacks == s.pendingCallbacks;
      assert sent + [] + s.writeBuffer == sent + s.writeBuffer + [];
      assert run + [] + s.pendingCallbacks == run + s.pendingCallbacks + [];
    }
  }

  lemma CloseKeeps(s: State, discard: bool)
    requires Invariant(s)
    ensures Invariant(CloseSocket(s, discard))
  {
  }

  lemma EventKeeps(s: State, event: SocketEvent)
    requires Invariant(s) && !event.ClosedFor?
    ensures Invariant(s.(events := s.events + [event]))
  {
    CloseEventsAppend(s.events, [event]);
  }

  lemma HandleKeeps(s: State, input: Input)
    requires Invariant(s)
    ensures Invariant(HandleInput(s, input))
  {
    hide Invariant, SendPacket, Flush, OnDrain, OnClose;
    match input
    case Send(packet, callback, writable) => SendKeeps(s, packet, callback, writable);
    case CloseByServer(discard) => CloseKeeps(s, discard);
    case PollingFlush(writable) => FlushKeeps(s, writable);
    case OnError(error) => OnCloseKeeps(s, ErrorReason(error));
    case OnPacketIn(packet, writable) =>
      SendKeeps(s, Packet.Packet(Pong, Empty), None, writable);
      EventKeeps(SendPacket(s, Packet.Packet(Pong, Empty), None, writable), Heartbeat);
      EventKeeps(s, MessageReceived(packet.data));
    case OnDrained(writable) =>
      FlushKeeps(s, writable);
      DrainKeeps(Flush(s, writable));
    case OnTransportClosed => OnCloseKeeps(s, TransportClosed);
  }

  lemma {:induction false} RunKeeps(s: State, inputs: seq<Input>)
    requires Invariant(s)
    ensures Invariant(Run(s, inputs))
    decreases inputs
  {
    if inputs != [] {
      HandleKeeps(s, inputs[0]);
      RunKeeps(HandleInput(s, inputs[0]), inputs[1..]);
    }
  }

  lemma LifeKeeps(kind: TransportKind, openPacket: Packet, writable: bool, inputs: seq<Input>)
    ensures Invariant(Life(kind, openPacket, writable, inputs))
  {
    var open := Start(kind).(ready := ReadyState.Open);
    SendKeeps(open, openPacket, None, writable);
    EventKeeps(SendPacket(open, openPacket, None, writable), Opened);
    RunKeeps(OpenSocket(Start(kind), openPacket, writable), inputs);
  }

  // What a user of the socket sees of it.

  /** Until the socket is closed by its transport, the packets handed over and those still
      in the buffer are the accepted ones in order, and likewise for the callbacks. One flush
      of a writable transport hands over all that is left. */
  lemma OrderedDelivery(kind: TransportKind, openPacket: Packet, writable: bool, inputs: seq<Input>)
    requires Life(kind, openPacket, writable, inputs).ready != Closed
    ensures var s := Life(kind, openPacket, writable, inputs);
            && Flat(s.sent) + s.writeBuffer == s.accepted
            && s.fired + CallbacksIn(s.flushedCallbacks) + s.pendingCallbacks == s.registered
            && Flat(Flush(s, true).sent) == s.accepted
  {
    LifeKeeps(kind, openPacket, writable, inputs);
    var s := Life(kind, openPacket, writable, inputs);
    FlushKeeps(s, true);
  }

  /** During a graceful close the transport is gone exactly when everything accepted has
      been handed over, and the next flush of a writable transport is enough for that. */
  lemma GracefulClose(kind: TransportKind, openPacket: Packet, writable: bool, inputs: seq<Input>)
    requires Life(kind, openPacket, writable, inputs).ready.Closing?
    ensures var s := Life(kind, openPacket, writable, inputs);
            && (s.transport.None? <==> Flat(s.sent) == s.accepted)
            && Flush(s, true).transport.None?
  {
    LifeKeeps(kind, openPacket, writable, inputs);
  }

  /** A close by the transport loses exactly the packets that had not been handed over. */
  lemma AbruptClose(kind: TransportKind, openPacket: Packet, writable: bool, inputs: seq<Input>)
    ensures var s := Life(kind, openPacket, writable, inputs);
            s.ready == Closed ==> Flat(s.sent) + s.discarded == s.accepted && Flat(s.sent) <= s.accepted
  {
    LifeKeeps(kind, openPacket, writable, inputs);
  }

  /** The callbacks that have run are the first ones registered, in order, each once. */
  lemma CallbacksRunOnce(kind: TransportKind, openPacket: Packet, writable: bool, inputs: seq<Input>)
    ensures var s := Life(kind, openPacket, writable, inputs); s.fired <= s.registered
  {
    LifeKeeps(kind, openPacket, writable, inputs);
  }

  /** Nothing is accepted once the socket has begun to close. */
  lemma {:induction false} NothingAcceptedAfterClose(s: State, inputs: seq<Input>)
    requires !Accepts(s.ready)
    ensures !Accepts(Run(s, inputs).ready)
    ensures Run(s, inputs).accepted == s.accepted && Run(s, inputs).registered == s.registered
    decreases inputs
  {
    if inputs != [] {
      NothingAcceptedAfterClose(HandleInput(s, inputs[0]), inputs[1..]);
    }
  }

  /** A closed socket stays closed, with nothing buffered and no transport, whatever comes;
      it sends nothing and announces its closing only once. */
  lemma ClosedIsAbsorbing(
    kind: TransportKind, openPacket: Packet, writable: bool, before: seq<Input>, after: seq<Input>)
    requires Life(kind, openPacket, writable, before).ready == Closed
    ensures var closed := Life(kind, openPacket, writable, before);
            var s := Run(closed, after);
            && s.ready == Closed && s.transport == None && s.writeBuffer == [] && s.pendingCallbacks == []
            && s.sent == closed.sent && s.events == closed.events && CloseEvents(s.events) == 1
  {
    LifeKeeps(kind, openPacket, writable, before);
    ClosedStays(Life(kind, openPacket, writable, before), after);
  }

  lemma {:induction false} ClosedStays(s: State, inputs: seq<Input>)
    requires s.ready == Closed && s.transport == None && s.writeBuffer == [] && s.pendingCallbacks == []
    ensures var r := Run(s, inputs);
            && r.ready == Closed && r.transport == None && r.writeBuffer == [] && r.pendingCallbacks == []
            && r.sent == s.sent && r.events == s.events
    decreases inputs
  {
    if inputs != [] {
      ClosedStays(HandleInput(s, inputs[0]), inputs[1..]);
    }
  }
}
