/** A handler of the socket that is let run without interruption does, step by step, what the
    module `EngineSocket` says that it does in one go. */
module SocketRefinement {
  import opened Wrappers
  import opened EnginePacket
  import opened EngineSocket
  import opened SocketInterleaving

  /** An upper bound on the steps that a task has left. */
  function StepsLeft(task: Task): nat {
    match task
    case SendCheck(_, _) => 13
    case SendPush(_, _) => 12
    case FlushCheck => 11
    case FlushWritable => 10
    case FlushAnnounce => 9
    case FlushTake => 8
    case FlushHand(_) => 7
    case FlushTakeCallbacks => 6
    case FlushFraming(_) => 5
    case FlushExtend(_, _) => 4
    case FlushDrained => 3
    case FlushClosing => 2
    case ErrorCheck(_) => 5
    case CloseCheck(_) => 4
    case CloseClear(_) => 3
    case CloseDrop(_) => 2
    case Finished => 0
    case _ => 1
  }

  /** The state when the task has taken its last step, if no other task takes any. */
  function Complete(s: State, task: Task, writable: bool): State
    decreases StepsLeft(task)
  {
    if task == Finished then s
    else
      var (s', task') := TaskStep(s, task, writable);
      Complete(s', task', writable)
  }

  /** The same for the parts of a turn. */
  function CompleteAll(s: State, parts: seq<Task>, writable: bool): State
    decreases |parts|
  {
    if parts == [] then s else CompleteAll(Complete(s, parts[0], writable), parts[1..], writable)
  }

  lemma StepsGoDown(s: State, task: Task, writable: bool)
    ensures var (s', task') := TaskStep(s, task, writable);
            if task == Finished then (s', task') == (s, task) else StepsLeft(task') < StepsLeft(task)
  {
  }

  lemma Next(s: State, task: Task, writable: bool)
    ensures task != Finished ==>
      Complete(s, task, writable) == Complete(TaskStep(s, task, writable).0, TaskStep(s, task, writable).1, writable)
    ensures Complete(s, Finished, writable) == s
  {
    hide TaskStep;
    StepsGoDown(s, task, writable);
  }

  // The handlers, on values.

  lemma SoloFlush(s: State, writable: bool)
    ensures Complete(s, FlushCheck, writable) == Flush(s, writable)
  {
    hide Complete, Batches;
    Next(s, FlushCheck, writable);
    Next(s, FlushWritable, writable);
    if s.ready != Closed && s.writeBuffer != [] && s.transport.Some? && writable {
      var announced := s.(events := s.events + [Flushed]);
      var taken := announced.(writeBuffer := []);
      Next(s, FlushAnnounce, writable);
      Next(announced, FlushTake, writable);
      SoloHand(taken, s.writeBuffer, writable);
      assert s.events + [Flushed] + [Drained] == s.events + [Flushed, Drained];
    }
  }

  lemma SoloHand(s: State, batch: seq<Packet>, writable: bool)
    ensures Complete(s, FlushHand(batch), writable)
         == s.(sent := s.sent + [batch],
               pendingCallbacks := [],
               flushedCallbacks := s.flushedCallbacks + Batches(s.transport == Some(WebSocket), s.pendingCallbacks),
               events := s.events + [Drained],
               transport := if s.ready.Closing? then None else s.transport)
  {
    hide Complete, Batches;
    var framing := s.transport == Some(WebSocket);
    var handed := s.(sent := s.sent + [batch]);
    var emptied := handed.(pendingCallbacks := []);
    var extended := emptied.(flushedCallbacks := s.flushedCallbacks + Batches(framing, s.pendingCallbacks));
    Next(s, FlushHand(batch), writable);
    Next(handed, FlushTakeCallbacks, writable);
    Next(emptied, FlushFraming(s.pendingCallbacks), writable);
    Next(emptied, FlushExtend(s.pendingCallbacks, framing), writable);
    SoloDrained(extended, writable);
  }

  lemma SoloDrained(s: State, writable: bool)
    ensures Complete(s, FlushDrained, writable)
         == s.(events := s.events + [Drained], transport := if s.ready.Closing? then None else s.transport)
  {
    hide Complete;
    var drained := s.(events := s.events + [Drained]);
    Next(s, FlushDrained, writable);
    Next(drained, FlushClosing, writable);
    Next(drained, FlushDrop, writable);
    Next(drained.(transport := None), Finished, writable);
  }

  lemma SoloSend(s: State, packet: Packet, callback: Option<Callback>, writable: bool)
    ensures Complete(s, SendCheck(packet, callback), writable) == SendPacket(s, packet, callback, writable)
  {
    hide Complete, Flush, Push;
    Next(s, SendCheck(packet, callback), writable);
    Next(s, SendPush(packet, callback), writable);
    SoloFlush(Push(s, packet, callback), writable);
  }

  lemma SoloOnClose(s: State, reason: CloseReason, writable: bool)
    ensures Complete(s, CloseCheck(reason), writable) == OnClose(s, reason)
  {
    hide Complete, Clear;
    Next(s, CloseCheck(reason), writable);
    SoloClear(s, reason, writable);
    EventsOfClear(s);
  }

  lemma EventsOfClear(s: State)
    ensures Clear(s).events == s.events
  {
  }

  lemma SoloClear(s: State, reason: CloseReason, writable: bool)
    ensures Complete(s, CloseClear(reason), writable)
         == Clear(s).(transport := None, events := Clear(s).events + [ClosedFor(reason)])
  {
    hide Complete, Clear;
    var cleared := Clear(s);
    var dropped := cleared.(transport := None);
    Next(s, CloseClear(reason), writable);
    Next(cleared, CloseDrop(reason), writable);
    Next(dropped, CloseEmit(reason), writable);
    Next(dropped.(events := dropped.events + [ClosedFor(reason)]), Finished, writable);
  }

  lemma SoloError(s: State, error: TransportError, writable: bool)
    ensures Complete(s, ErrorCheck(error), writable) == OnTransportError(s, error)
  {
    hide Complete, OnClose;
    Next(s, ErrorCheck(error), writable);
    SoloOnClose(s, ErrorReason(error), writable);
  }

  /** The handlers of a single step. */
  lemma SoloStep(s: State, task: Task, writable: bool)
    requires task.CloseCall? || task.DrainCall? || task.OpenReady? || task.Emit?
    ensures task.CloseCall? ==> Complete(s, task, writable) == CloseSocket(s, task.discard)
    ensures task.DrainCall? ==> Complete(s, task, writable) == OnDrain(s)
    ensures task.OpenReady? ==> Complete(s, task, writable) == s.(ready := ReadyState.Open)
    ensures task.Emit? ==> Complete(s, task, writable) == s.(events := s.events + [task.event])
  {
    hide Complete, CloseSocket, OnDrain;
    Next(s, task, writable);
    Next(TaskStep(s, task, writable).0, Finished, writable);
  }

  lemma CompleteTwo(s: State, first: Task, second: Task, writable: bool)
    ensures CompleteAll(s, [first, second], writable) == Complete(Complete(s, first, writable), second, writable)
  {
    hide Complete;
    assert [first, second][1..] == [second] && [second][1..] == [];
    assert CompleteAll(Complete(s, first, writable), [second], writable)
        == CompleteAll(Complete(Complete(s, first, writable), second, writable), [], writable);
  }

  lemma CompleteOne(s: State, task: Task, writable: bool)
    ensures CompleteAll(s, [task], writable) == Complete(s, task, writable)
  {
    hide Complete;
    assert [task][1..] == [];
  }

  // The handlers, on configurations.

  /** Only task `i` takes steps. */
  predicate Only(actions: seq<Action>, i: nat) {
    forall k :: 0 <= k < |actions| ==> actions[k].Advance? && actions[k].i == i
  }

  lemma {:induction false} InterleavedAppend(c: Config, a: seq<Action>, b: seq<Action>)
    ensures Interleaved(c, a + b) == Interleaved(Interleaved(c, a), b)
    decreases a
  {
    hide Step;
    if a == [] {
      assert a + b == b;
    } else {
      InterleavedAppend(Step(c, a[0]), a[1..], b);
      assert (a + b)[0] == a[0] && (a + b)[1..] == a[1..] + b;
    }
  }

  lemma First(c: Config, action: Action, rest: seq<Action>)
    ensures Interleaved(c, [action] + rest) == Interleaved(Step(c, action), rest)
  {
    hide Step;
    assert ([action] + rest)[1..] == rest;
  }

  lemma NothingRun(c: Config)
    ensures Interleaved(c, []) == c
  {
  }

  /** A task that alone takes steps ends, in the state of `Complete`. */
  lemma {:induction false} SoloRun(c: Config, i: nat, writable: bool) returns (actions: seq<Action>)
    requires i < |c.tasks| && !c.tasks[i].PacketCheck?
    ensures Only(actions, i)
    ensures var c' := Interleaved(c, actions);
            && c'.shared == Complete(c.shared, c.tasks[i], writable)
            && c'.tasks == c.tasks[i := Finished] && c'.loop == c.loop
    decreases StepsLeft(c.tasks[i])
  {
    hide TaskStep, Interleaved, Complete, OutstandingAfter;
    Next(c.shared, c.tasks[i], writable);
    if c.tasks[i] == Finished {
      actions := [];
      NothingRun(c);
      assert c.tasks[i := Finished] == c.tasks;
    } else {
      var c' := Step(c, Advance(i, writable));
      StepsGoDown(c.shared, c.tasks[i], writable);
      NoPacketCheck(c.shared, c.tasks[i], writable);
      assert c.loop + [] == c.loop;
      var rest := SoloRun(c', i, writable);
      actions := [Advance(i, writable)] + rest;
      First(c, Advance(i, writable), rest);
      assert c'.tasks[i := Finished] == c.tasks[i := Finished];
    }
  }

  lemma NoPacketCheck(s: State, task: Task, writable: bool)
    ensures !TaskStep(s, task, writable).1.PacketCheck?
  {
  }

  /** The rest of a turn, uninterrupted. */
  lemma {:induction false} SoloParts(c: Config, writable: bool) returns (actions: seq<Action>)
    requires c.tasks != [] && c.tasks[0] == Finished
    requires forall i :: 0 <= i < |c.loop| ==> !c.loop[i].PacketCheck?
    ensures Only(actions, 0)
    ensures var c' := Interleaved(c, actions);
            c'.shared == CompleteAll(c.shared, c.loop, writable) && c'.tasks == c.tasks && c'.loop == []
    decreases |c.loop|
  {
    hide Interleaved, Complete, Proceed;
    if c.loop == [] {
      actions := [];
      NothingRun(c);
    } else {
      var resumed := Resume(c);
      assert Step(c, Advance(0, writable)) == resumed;
      var part := SoloRun(resumed, 0, writable);
      var c' := Interleaved(resumed, part);
      assert c'.tasks == c.tasks;
      var rest := SoloParts(c', writable);
      actions := [Advance(0, writable)] + (part + rest);
      First(c, Advance(0, writable), part + rest);
      InterleavedAppend(resumed, part, rest);
    }
  }

  /** An event of the transport, by what the atomic model calls it. */
  function InputOf(event: TransportEvent, writable: bool): Input {
    match event
    case ErrorEvent(error) => OnError(error)
    case PacketEvent(packet) => OnPacketIn(packet, writable)
    case DrainEvent => OnDrained(writable)
    case CloseEvent => OnTransportClosed
  }

  /** One turn of the event loop, uninterrupted, is one step of the atomic model. */
  lemma SoloTurn(c: Config, event: TransportEvent, writable: bool) returns (actions: seq<Action>)
    requires Idle(c)
    ensures Only(actions, 0)
    ensures var c' := Interleaved(c, [Receive(event)] + actions);
            c'.shared == HandleInput(c.shared, InputOf(event, writable)) && c'.tasks == c.tasks && c'.loop == []
  {
    hide Interleaved, CompleteAll, Complete, HandleInput, TaskStep;
    var received := c.(loop := Turn(event));
    TurnMeans(c.shared, event, writable);
    if event.PacketEvent? {
      var resumed := Resume(received);
      var checked := Proceed(resumed, 0, writable);
      PacketCheckStep(c.shared, event.packet, writable);
      assert checked.tasks == c.tasks && checked.shared == c.shared;
      assert [] + LoopAfter(c.shared, PacketCheck(event.packet)) == LoopAfter(c.shared, PacketCheck(event.packet));
      var rest := SoloParts(checked, writable);
      actions := [Advance(0, writable)] + ([Advance(0, writable)] + rest);
      First(received, Advance(0, writable), [Advance(0, writable)] + rest);
      First(resumed, Advance(0, writable), rest);
    } else {
      actions := SoloParts(received, writable);
    }
    First(c, Receive(event), actions);
  }

  lemma PacketCheckStep(s: State, packet: Packet, writable: bool)
    ensures TaskStep(s, PacketCheck(packet), writable) == (s, Finished)
  {
  }

  lemma TurnMeans(s: State, event: TransportEvent, writable: bool)
    ensures var parts := if event.PacketEvent? then LoopAfter(s, PacketCheck(event.packet)) else Turn(event);
            CompleteAll(s, parts, writable) == HandleInput(s, InputOf(event, writable))
  {
    hide CompleteAll, Complete, Flush, OnDrain, OnClose, OnTransportError, SendPacket;
    match event
    case ErrorEvent(error) =>
      CompleteOne(s, ErrorCheck(error), writable);
      SoloError(s, error, writable);
    case CloseEvent =>
      CompleteOne(s, CloseCheck(TransportClosed), writable);
      SoloOnClose(s, TransportClosed, writable);
    case DrainEvent =>
      CompleteTwo(s, FlushCheck, DrainCall, writable);
      SoloFlush(s, writable);
      SoloStep(Flush(s, writable), DrainCall, writable);
    case PacketEvent(packet) => ReactionMeans(s, packet, writable);
  }

  lemma ReactionMeans(s: State, packet: Packet, writable: bool)
    ensures CompleteAll(s, LoopAfter(s, PacketCheck(packet)), writable) == OnPacket(s, packet, writable)
  {
    hide Complete, SendPacket;
    if s.ready == ReadyState.Open {
      if packet.packetType.Ping? {
        var pong := SendCheck(Packet.Packet(Pong, Empty), None);
        CompleteTwo(s, pong, Emit(Heartbeat), writable);
        SoloSend(s, Packet.Packet(Pong, Empty), None, writable);
        SoloStep(SendPacket(s, Packet.Packet(Pong, Empty), None, writable), Emit(Heartbeat), writable);
      } else if packet.packetType.Message? {
        CompleteOne(s, Emit(MessageReceived(packet.data)), writable);
        SoloStep(s, Emit(MessageReceived(packet.data)), writable);
      }
    }
  }

  /** The opening, uninterrupted, is that of the atomic model. */
  lemma SoloOpening(kind: TransportKind, openPacket: Packet, writable: bool) returns (actions: seq<Action>)
    ensures Only(actions, 0)
    ensures var c := Interleaved(Begin(kind, openPacket, None), actions);
            c.shared == OpenSocket(Start(kind), openPacket, writable) && c.tasks == [Finished] && c.loop == []
  {
    hide Interleaved, Complete, SendPacket;
    var c := Begin(kind, openPacket, None);
    var s := Start(kind);
    var open := s.(ready := ReadyState.Open);
    var parts := [OpenReady, SendCheck(openPacket, None), Emit(Opened)];
    assert parts + [] == parts && parts[1..] == [SendCheck(openPacket, None), Emit(Opened)];
    actions := SoloParts(c, writable);
    SoloStep(s, OpenReady, writable);
    CompleteTwo(open, SendCheck(openPacket, None), Emit(Opened), writable);
    SoloSend(open, openPacket, None, writable);
    SoloStep(SendPacket(open, openPacket, None, writable), Emit(Opened), writable);
  }

  /** A call of the server's, by what the atomic model calls it. */
  function CallOf(task: Task, writable: bool): Input
    requires IsEntry(task)
  {
    match task
    case SendCheck(packet, callback) => Send(packet, callback, writable)
    case CloseCall(discard) => CloseByServer(discard)
    case FlushCheck => PollingFlush(writable)
  }

  /** A call of the server's, uninterrupted, is one step of the atomic model. */
  lemma SoloCall(c: Config, task: Task, writable: bool) returns (actions: seq<Action>)
    requires c.tasks != [] && IsEntry(task)
    ensures Only(actions, |c.tasks|)
    ensures var c' := Interleaved(c, [Spawn(task)] + actions);
            && c'.tasks == c.tasks + [Finished] && c'.loop == c.loop
            && c'.shared == HandleInput(c.shared, CallOf(task, writable))
  {
    hide Interleaved, Complete, SendPacket, CloseSocket, Flush;
    var spawned := c.(tasks := c.tasks + [task]);
    actions := SoloRun(spawned, |c.tasks|, writable);
    First(c, Spawn(task), actions);
    assert spawned.tasks[|c.tasks| := Finished] == c.tasks + [Finished];
    match task
    case SendCheck(packet, callback) => SoloSend(c.shared, packet, callback, writable);
    case CloseCall(_) => SoloStep(c.shared, task, writable);
    case FlushCheck => SoloFlush(c.shared, writable);
  }
}
