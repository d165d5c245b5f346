/** How the callbacks of an Engine.IO socket are batched and run. */
module EngineSocketCallbacks {
  import opened Wrappers
  import opened EnginePacket
  import opened EngineSocket
  import opened Sequences
  import EngineSocketLaws

  // Drains.

  predicate AllDrains(inputs: seq<Input>) {
    forall i :: 0 <= i < |inputs| ==> inputs[i].OnDrained?
  }

  /** Each drain runs the oldest batch of callbacks, if there is nothing more to flush. */
  lemma {:induction false} DrainsRunBatches(s: State, drains: seq<Input>)
    requires s.writeBuffer == [] && AllDrains(drains) && |drains| <= |s.flushedCallbacks|
    ensures var t, k := Run(s, drains), |drains|;
            && t.fired == s.fired + CallbacksIn(s.flushedCallbacks[..k])
            && t.flushedCallbacks == s.flushedCallbacks[k..]
            && t.registered == s.registered && t.pendingCallbacks == s.pendingCallbacks && t.cleared == s.cleared
    decreases drains
  {
    if drains == [] {
      assert s.flushedCallbacks[..0] == [];
    } else {
      var t, b, k := HandleInput(s, drains[0]), s.flushedCallbacks, |drains|;
      assert t == s.(flushedCallbacks := b[1..], fired := s.fired + CallbacksOf(b[0]));
      DrainsRunBatches(t, drains[1..]);
      assert b[..k][1..] == b[1..][..k - 1] && b[1..][k - 1..] == b[k..];
      Associate(s.fired, CallbacksOf(b[0]), CallbacksIn(b[1..][..k - 1]));
    }
  }

  /** The batches that are flushed and, if there is something to flush, those to come of it:
      one when polling, and otherwise one for each callback. */
  function BatchesDue(s: State): nat {
    |s.flushedCallbacks|
    + if s.writeBuffer == [] then 0 else if s.transport == Some(Polling) then 1 else |s.pendingCallbacks|
  }

  predicate AllWritable(inputs: seq<Input>) {
    forall i :: 0 <= i < |inputs| ==> EngineSocketLaws.MeetsWritable(inputs[i])
  }

  /** A socket that is not closed runs every callback it was given, in order, within as many
      drains as it has batches due, if its transport is writable then: a drain flushes first. */
  lemma EverythingRuns(
    kind: TransportKind, openPacket: Packet, writable: bool, inputs: seq<Input>, drains: seq<Input>)
    requires var s := Life(kind, openPacket, writable, inputs); s.ready != Closed && |drains| == BatchesDue(s)
    requires AllDrains(drains) && AllWritable(drains)
    ensures var s := Life(kind, openPacket, writable, inputs); Run(s, drains).fired == s.registered
  {
    hide Run, Flush, CallbacksIn;
    var s := Life(kind, openPacket, writable, inputs);
    var flushed := Flush(s, true);
    LifeKeeps(kind, openPacket, writable, inputs);
    FlushKeeps(s, true);
    EngineSocketLaws.LifeReady(kind, openPacket, writable, inputs);
    FlushMakesDue(s);
    FlushedFirst(s, drains);
    DrainsRunBatches(flushed, drains);
    assert flushed.flushedCallbacks[..|drains|] == flushed.flushedCallbacks;
    var run := flushed.fired + CallbacksIn(flushed.flushedCallbacks);
    assert run + [] + [] == run;
  }

  lemma FlushMakesDue(s: State)
    requires EngineSocketLaws.Ready(s) && ClosedIsFinal(s) && s.ready != Closed
    ensures var t := Flush(s, true);
            && |t.flushedCallbacks| == BatchesDue(s) && t.writeBuffer == [] && t.pendingCallbacks == []
            && t.registered == s.registered && t.cleared == [] && t.ready == s.ready
  {
    if s.writeBuffer != [] {
      match s.transport {
        case Some(WebSocket) =>
          assert |Batches(true, s.pendingCallbacks)| == |s.pendingCallbacks|;
        case Some(Polling) =>
          assert |Batches(false, s.pendingCallbacks)| == 1;
      }
    }
  }

  /** With drains to come, what is flushed now is flushed by the first of them. */
  lemma FlushedFirst(s: State, drains: seq<Input>)
    requires EngineSocketLaws.Ready(s) && s.ready != Closed
    requires AllDrains(drains) && AllWritable(drains) && |drains| == BatchesDue(s)
    ensures Run(s, drains).fired == Run(Flush(s, true), drains).fired
  {
    hide Flush, OnDrain, BatchesDue;
    FlushTwice(s);
    if drains != [] {
      assert HandleInput(s, drains[0]) == HandleInput(Flush(s, true), drains[0]);
    }
  }

  lemma FlushTwice(s: State)
    ensures Flush(Flush(s, true), true) == Flush(s, true) && Flush(s, true).fired == s.fired
  {
    hide Batches;
  }

  // Polling: a batch for each buffer.

  /** The callbacks that were pending at each hand-over of the run, in turn. */
  function PendingThen(s: State, inputs: seq<Input>): seq<seq<Callback>>
    decreases inputs
  {
    if inputs == [] then []
    else
      var t := HandleInput(s, inputs[0]);
      PendingAt(s, t) + PendingThen(t, inputs[1..])
  }

  /** Those of before and those that the input itself has registered. */
  function PendingAt(s: State, t: State): seq<seq<Callback>> {
    if |t.sent| > |s.sent| && |t.registered| >= |s.registered|
    then [s.pendingCallbacks + t.registered[|s.registered|..]]
    else []
  }

  /** There is a batch for each buffer handed over, `pending` being what was pending then; the
      first batches have been run. */
  predicate BatchPerBuffer(s: State, pending: seq<seq<Callback>>) {
    && |pending| == |s.sent| && |s.flushedCallbacks| <= |s.sent|
    && var run := |s.sent| - |s.flushedCallbacks|;
    && s.fired == Flat(pending[..run])
    && (forall i :: 0 <= i < |s.flushedCallbacks| ==> CallbacksOf(s.flushedCallbacks[i]) == pending[run + i])
  }

  predicate Only(s: State, kind: TransportKind) {
    s.transport.None? || s.transport.value == kind
  }

  lemma FlushKeepsBatches(s: State, writable: bool, pending: seq<seq<Callback>>)
    requires BatchPerBuffer(s, pending) && Only(s, Polling)
    ensures var t := Flush(s, writable);
            && Only(t, Polling) && |s.sent| <= |t.sent|
            && BatchPerBuffer(t, pending + if |t.sent| > |s.sent| then [s.pendingCallbacks] else [])
  {
    var t := Flush(s, writable);
    var run := |s.sent| - |s.flushedCallbacks|;
    var more := pending + [s.pendingCallbacks];
    assert more[..run] == pending[..run];
    if |t.sent| > |s.sent| {
      forall i | 0 <= i < |t.flushedCallbacks|
        ensures CallbacksOf(t.flushedCallbacks[i]) == more[run + i]
      {
        if i < |s.flushedCallbacks| {
          assert t.flushedCallbacks[i] == s.flushedCallbacks[i];
        }
      }
    } else {
      assert pending + [] == pending;
    }
  }

  lemma DrainKeepsBatches(s: State, pending: seq<seq<Callback>>)
    requires BatchPerBuffer(s, pending)
    ensures BatchPerBuffer(OnDrain(s), pending)
  {
    if s.flushedCallbacks != [] {
      var run := |s.sent| - |s.flushedCallbacks|;
      assert CallbacksOf(s.flushedCallbacks[0]) == pending[run + 0];
      assert pending[..run + 1][..run] == pending[..run];
    }
  }

  lemma InputKeepsBatches(s: State, input: Input, pending: seq<seq<Callback>>)
    requires BatchPerBuffer(s, pending) && Only(s, Polling)
    ensures var t := HandleInput(s, input); BatchPerBuffer(t, pending + PendingAt(s, t)) && Only(t, Polling)
  {
    hide Flush, OnDrain, BatchPerBuffer;
    assert pending + [] == pending;
    match input
    case Send(packet, callback, writable) => SendKeepsBatches(s, packet, callback, writable, pending);
    case OnPacketIn(packet, writable) =>
      SendKeepsBatches(s, Packet.Packet(Pong, Empty), None, writable, pending);
      var sent := SendPacket(s, Packet.Packet(Pong, Empty), None, writable);
      SameBatches(sent, sent.(events := sent.events + [Heartbeat]), pending + PendingAt(s, sent));
      SameBatches(s, s.(events := s.events + [MessageReceived(packet.data)]), pending);
    case PollingFlush(writable) =>
      FlushKeepsBatches(s, writable, pending);
      FlushRegistersNothing(s, writable);
    case OnDrained(writable) =>
      FlushKeepsBatches(s, writable, pending);
      FlushRegistersNothing(s, writable);
      DrainKeepsBatches(Flush(s, writable), pending + PendingAt(s, Flush(s, writable)));
      DrainLeaves(Flush(s, writable));
    case CloseByServer(discard) => SameBatches(s, CloseSocket(s, discard), pending);
    case OnError(error) => SameBatches(s, OnClose(s, ErrorReason(error)), pending);
    case OnTransportClosed => SameBatches(s, OnClose(s, TransportClosed), pending);
  }

  lemma SameBatches(s: State, t: State, pending: seq<seq<Callback>>)
    requires t.sent == s.sent && t.flushedCallbacks == s.flushedCallbacks && t.fired == s.fired
    requires BatchPerBuffer(s, pending)
    ensures BatchPerBuffer(t, pending)
  {
  }

  lemma FlushRegistersNothing(s: State, writable: bool)
    ensures Flush(s, writable).registered == s.registered
    ensures s.pendingCallbacks + s.registered[|s.registered|..] == s.pendingCallbacks
  {
  }

  lemma DrainLeaves(s: State)
    ensures OnDrain(s).sent == s.sent && OnDrain(s).registered == s.registered && OnDrain(s).transport == s.transport
  {
  }

  lemma SendKeepsBatches(
    s: State, packet: Packet, callback: Option<Callback>, writable: bool, pending: seq<seq<Callback>>)
    requires BatchPerBuffer(s, pending) && Only(s, Polling)
    ensures var t := SendPacket(s, packet, callback, writable);
            BatchPerBuffer(t, pending + PendingAt(s, t)) && Only(t, Polling)
  {
    hide Flush, BatchPerBuffer;
    assert pending + [] == pending;
    if Accepts(s.ready) {
      var pushed := Push(s, packet, callback);
      SameBatches(s, pushed, pending);
      FlushKeepsBatches(pushed, writable, pending);
      FlushRegistersNothing(pushed, writable);
      assert pushed.pendingCallbacks == s.pendingCallbacks + pushed.registered[|s.registered|..];
    }
  }

  lemma {:induction false} RunKeepsBatches(s: State, inputs: seq<Input>, pending: seq<seq<Callback>>)
    requires BatchPerBuffer(s, pending) && Only(s, Polling)
    ensures BatchPerBuffer(Run(s, inputs), pending + PendingThen(s, inputs))
    decreases inputs
  {
    hide BatchPerBuffer, HandleInput, PendingAt;
    if inputs == [] {
      assert pending + [] == pending;
    } else {
      var t := HandleInput(s, inputs[0]);
      InputKeepsBatches(s, inputs[0], pending);
      RunKeepsBatches(t, inputs[1..], pending + PendingAt(s, t));
      Associate(pending, PendingAt(s, t), PendingThen(t, inputs[1..]));
    }
  }

  /** With a polling transport, each buffer handed over has one batch, of the callbacks that
      were pending then: one drain runs them all. */
  lemma PollingBatches(openPacket: Packet, writable: bool, inputs: seq<Input>)
    ensures var begun := OpenSocket(Start(Polling), openPacket, writable);
            BatchPerBuffer(Life(Polling, openPacket, writable, inputs),
                           (if writable then [[]] else []) + PendingThen(begun, inputs))
  {
    hide BatchPerBuffer, PendingThen, HandleInput, Flush;
    var s := Start(Polling).(ready := ReadyState.Open);
    var sent := SendPacket(s, openPacket, None, writable);
    StartHasNoBatches(s);
    SendKeepsBatches(s, openPacket, None, writable, []);
    OpeningPending(s, openPacket, writable);
    assert [] + PendingAt(s, sent) == PendingAt(s, sent);
    SameBatches(sent, sent.(events := sent.events + [Opened]), PendingAt(s, sent));
    RunKeepsBatches(OpenSocket(Start(Polling), openPacket, writable), inputs, PendingAt(s, sent));
  }

  lemma StartHasNoBatches(s: State)
    requires s.sent == [] && s.flushedCallbacks == [] && s.fired == []
    ensures BatchPerBuffer(s, [])
  {
  }

  lemma OpeningPending(s: State, openPacket: Packet, writable: bool)
    requires s == Start(Polling).(ready := ReadyState.Open)
    ensures PendingAt(s, SendPacket(s, openPacket, None, writable)) == if writable then [[]] else []
  {
  }

  // WebSocket: a batch for each callback.

  predicate Singles(s: State) {
    forall i :: 0 <= i < |s.flushedCallbacks| ==> |CallbacksOf(s.flushedCallbacks[i])| == 1
  }

  lemma FlushKeepsSingles(s: State, writable: bool)
    requires Singles(s) && Only(s, WebSocket)
    ensures Singles(Flush(s, writable)) && Only(Flush(s, writable), WebSocket)
  {
    var t := Flush(s, writable);
    forall i | 0 <= i < |t.flushedCallbacks|
      ensures |CallbacksOf(t.flushedCallbacks[i])| == 1
    {
      if i < |s.flushedCallbacks| {
        assert t.flushedCallbacks[i] == s.flushedCallbacks[i];
      }
    }
  }

  lemma {:induction false} RunKeepsSingles(s: State, inputs: seq<Input>)
    requires Singles(s) && Only(s, WebSocket)
    ensures Singles(Run(s, inputs))
    decreases inputs
  {
    hide Flush;
    if inputs != [] {
      match inputs[0] {
        case Send(packet, callback, writable) => FlushKeepsSingles(Push(s, packet, callback), writable);
        case OnPacketIn(_, writable) => FlushKeepsSingles(Push(s, Packet.Packet(Pong, Empty), None), writable);
        case PollingFlush(writable) => FlushKeepsSingles(s, writable);
        case OnDrained(writable) => FlushKeepsSingles(s, writable);
        case _ =>
      }
      RunKeepsSingles(HandleInput(s, inputs[0]), inputs[1..]);
    }
  }

  /** Batches of one are the callbacks in order. */
  lemma {:induction false} SinglesInOrder(batches: seq<CallbackBatch>, i: nat)
    requires i < |batches| && forall k :: 0 <= k < |batches| ==> |CallbacksOf(batches[k])| == 1
    ensures |CallbacksIn(batches)| == |batches| && CallbacksOf(batches[i]) == [CallbacksIn(batches)[i]]
  {
    if |batches| > 1 {
      SinglesInOrder(batches[1..], if i > 0 then i - 1 else 0);
    }
  }

  /** With a WebSocket, each batch is the one callback that is next: one drain runs one. */
  lemma WebSocketBatches(openPacket: Packet, writable: bool, inputs: seq<Input>, i: nat)
    requires i < |Life(WebSocket, openPacket, writable, inputs).flushedCallbacks|
    ensures var s := Life(WebSocket, openPacket, writable, inputs);
            |s.fired| + i < |s.registered| && CallbacksOf(s.flushedCallbacks[i]) == [s.registered[|s.fired| + i]]
  {
    hide Flush;
    var s := Start(WebSocket).(ready := ReadyState.Open);
    FlushKeepsSingles(Push(s, openPacket, None), writable);
    RunKeepsSingles(OpenSocket(Start(WebSocket), openPacket, writable), inputs);
    SinglesInOrder(Life(WebSocket, openPacket, writable, inputs).flushedCallbacks, i);
    LifeKeeps(WebSocket, openPacket, writable, inputs);
  }
}
