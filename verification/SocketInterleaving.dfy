/** The Engine.IO socket when handlers run concurrently. Each takes the lock anew for every
    step, and the steps of all of them may come in any order; but those that the transport's
    events call for are run one after another, by the one event loop that the socket has. */
module SocketInterleaving {
  import opened Wrappers
  import opened EnginePacket
  import opened EngineSocket

  /** A handler, by the step that it is about to take, with what it holds outside the lock. */
  datatype Task =
    | OpenReady
    | SendCheck(packet: Packet, callback: Option<Callback>)
    | SendPush(packet: Packet, callback: Option<Callback>)
    | FlushCheck
    | FlushWritable
    | FlushAnnounce
    | FlushTake
    | FlushHand(batch: seq<Packet>)
    | FlushTakeCallbacks
    | FlushFraming(callbacks: seq<Callback>)
    | FlushExtend(callbacks: seq<Callback>, framing: bool)
    | FlushDrained
    | FlushClosing
    | FlushDrop
    | CloseCall(discard: bool)
    | ErrorCheck(error: TransportError)
    | CloseCheck(reason: CloseReason)
    | CloseClear(reason: CloseReason)
    | CloseDrop(reason: CloseReason)
    | CloseEmit(reason: CloseReason)
    | PacketCheck(packet: Packet)
    | Emit(event: SocketEvent)
    | DrainCall
    | Finished

  /** How the handlers begin that the server may start at any time, any number of them. */
  predicate IsEntry(task: Task) {
    task.SendCheck? || task.FlushCheck? || task.CloseCall?
  }

  /** One step of one task. The adapter decides, when it is asked, whether it is writable. */
  function TaskStep(s: State, task: Task, writable: bool): (State, Task) {
    match task
    case OpenReady => (s.(ready := ReadyState.Open), Finished)
    case SendCheck(packet, callback) => (s, if Accepts(s.ready) then SendPush(packet, callback) else Finished)
    case SendPush(packet, callback) => (Push(s, packet, callback), FlushCheck)
    case FlushCheck => (s, if s.ready != Closed && s.writeBuffer != [] then FlushWritable else Finished)
    case FlushWritable => (s, if s.transport.Some? && writable then FlushAnnounce else Finished)
    case FlushAnnounce => (s.(events := s.events + [Flushed]), FlushTake)
    case FlushTake => (s.(writeBuffer := []), FlushHand(s.writeBuffer))
    case FlushHand(batch) => (s.(sent := s.sent + [batch]), FlushTakeCallbacks)
    case FlushTakeCallbacks => (s.(pendingCallbacks := []), FlushFraming(s.pendingCallbacks))
    case FlushFraming(callbacks) => (s, FlushExtend(callbacks, s.transport == Some(WebSocket)))
    case FlushExtend(callbacks, framing) =>
      (s.(flushedCallbacks := s.flushedCallbacks + Batches(framing, callbacks)), FlushDrained)
    case FlushDrained => (s.(events := s.events + [Drained]), FlushClosing)
    case FlushClosing => (s, if s.ready.Closing? then FlushDrop else Finished)
    case FlushDrop => (s.(transport := None), Finished)
    case CloseCall(discard) => (CloseSocket(s, discard), Finished)
    case ErrorCheck(error) => (s, if Accepts(s.ready) then CloseCheck(ErrorReason(error)) else Finished)
    case CloseCheck(reason) => (s, if s.ready != Closed then CloseClear(reason) else Finished)
    case CloseClear(reason) => (Clear(s), CloseDrop(reason))
    case CloseDrop(reason) => (s.(transport := None), CloseEmit(reason))
    case CloseEmit(reason) => (s.(events := s.events + [ClosedFor(reason)]), Finished)
    case PacketCheck(_) => (s, Finished)
    case Emit(event) => (s.(events := s.events + [event]), Finished)
    case DrainCall => (OnDrain(s), Finished)
    case Finished => (s, Finished)
  }

  datatype TransportEvent =
    | ErrorEvent(error: TransportError)
    | PacketEvent(packet: Packet)
    | DrainEvent
    | CloseEvent

  /** What the event loop runs for an event, one after the other. */
  function Turn(event: TransportEvent): seq<Task> {
    match event
    case ErrorEvent(error) => [ErrorCheck(error)]
    case PacketEvent(packet) => [PacketCheck(packet)]
    case DrainEvent => [FlushCheck, DrainCall]
    case CloseEvent => [CloseCheck(TransportClosed)]
  }

  /** What a packet calls for when it finds the socket open. */
  function Reaction(packet: Packet): seq<Task> {
    match packet.packetType
    case Ping => [SendCheck(Packet.Packet(Pong, Empty), None), Emit(Heartbeat)]
    case Message => [Emit(MessageReceived(packet.data))]
    case _ => []
  }

  function LoopAfter(s: State, task: Task): seq<Task> {
    if task.PacketCheck? && s.ready == ReadyState.Open then Reaction(task.packet) else []
  }

  /** The tasks with what they share. The first task is that of the event loop, and `loop`
      is what it has still to run in its turn. For the record, `outstanding` are the non-empty
      batches that have been taken and not handed over, in the order of their taking. */
  datatype Config = Config(shared: State, tasks: seq<Task>, loop: seq<Task>, outstanding: seq<seq<Packet>>)

  datatype Action = Spawn(task: Task) | Receive(event: TransportEvent) | Advance(i: nat, writable: bool)

  predicate Idle(c: Config) {
    c.tasks != [] && c.tasks[0] == Finished && c.loop == []
  }

  function Without<T(==)>(s: seq<T>, x: T): seq<T> {
    if s == [] then [] else if s[0] == x then s[1..] else [s[0]] + Without(s[1..], x)
  }

  function OutstandingAfter(outstanding: seq<seq<Packet>>, s: State, task: Task): seq<seq<Packet>> {
    if task.FlushTake? && s.writeBuffer != [] then outstanding + [s.writeBuffer]
    else if task.FlushHand? && task.batch != [] then Without(outstanding, task.batch)
    else outstanding
  }

  function Step(c: Config, action: Action): Config {
    match action
    case Spawn(task) => if IsEntry(task) then c.(tasks := c.tasks + [task]) else c
    case Receive(event) => if Idle(c) then c.(loop := Turn(event)) else c
    case Advance(i, writable) =>
      if i >= |c.tasks| then c
      else if i == 0 && c.tasks[0] == Finished then Resume(c)
      else Proceed(c, i, writable)
  }

  /** The event loop goes on to the next part of its turn. */
  function Resume(c: Config): Config
    requires c.tasks != []
  {
    if c.loop == [] then c else c.(tasks := c.tasks[0 := c.loop[0]], loop := c.loop[1..])
  }

  function Proceed(c: Config, i: nat, writable: bool): Config
    requires i < |c.tasks|
  {
    var (shared, task) := TaskStep(c.shared, c.tasks[i], writable);
    Config(shared, c.tasks[i := task],
           c.loop + LoopAfter(c.shared, c.tasks[i]),
           OutstandingAfter(c.outstanding, c.shared, c.tasks[i]))
  }

  /** Every interleaving is a sequence of actions. */
  function Interleaved(c: Config, actions: seq<Action>): Config
    decreases actions
  {
    if actions == [] then c else Interleaved(Step(c, actions[0]), actions[1..])
  }

  /** The handshake opens the socket and then starts the event loop: one after the other. */
  function Begin(kind: TransportKind, openPacket: Packet, initial: Option<Packet>): Config {
    var first := if initial.Some? then [SendCheck(initial.value, None)] else [];
    Config(Start(kind), [Finished], [OpenReady, SendCheck(openPacket, None), Emit(Opened)] + first, [])
  }

  /** The property holds in every configuration of the run. */
  predicate Throughout(holds: Config -> bool, c: Config, actions: seq<Action>)
    decreases actions
  {
    holds(c) && (actions == [] || Throughout(holds, Step(c, actions[0]), actions[1..]))
  }

  /** Every step of the run is one that is allowed where it is taken. */
  predicate EachStep(allows: (Config, Action) -> bool, c: Config, actions: seq<Action>)
    decreases actions
  {
    actions == [] || (allows(c, actions[0]) && EachStep(allows, Step(c, actions[0]), actions[1..]))
  }

  lemma {:induction false} RunSnoc(c: Config, actions: seq<Action>, action: Action)
    ensures Interleaved(c, actions + [action]) == Step(Interleaved(c, actions), action)
    decreases actions
  {
    hide Step;
    if actions == [] {
      assert (actions + [action])[1..] == [];
    } else {
      RunSnoc(Step(c, actions[0]), actions[1..], action);
      assert (actions + [action])[1..] == actions[1..] + [action];
    }
  }

  // What all runs keep about the tasks themselves.

  /** What only the event loop runs. */
  predicate LoopOnly(task: Task) {
    || task.OpenReady? || task.ErrorCheck? || task.CloseCheck? || task.CloseClear? || task.CloseDrop? || task.CloseEmit?
    || task.PacketCheck? || task.Emit? || task.DrainCall?
  }

  /** How a part of a turn begins. */
  predicate IsPart(task: Task) {
    || IsEntry(task) || task.OpenReady? || task.ErrorCheck? || task.CloseCheck? || task.PacketCheck? || task.DrainCall?
    || (task.Emit? && !task.event.ClosedFor?)
  }

  /** The tasks besides the loop's are the server's, parts of a turn are yet to begin, and the
      socket is opened first of all and only once. */
  predicate WellFormed(c: Config) {
    && c.tasks != []
    && (forall i :: 1 <= i < |c.tasks| ==> !LoopOnly(c.tasks[i]))
    && (forall i :: 0 <= i < |c.loop| ==> IsPart(c.loop[i]))
    && (forall i :: 1 <= i < |c.loop| ==> !c.loop[i].OpenReady?)
    && (c.loop != [] && c.loop[0].OpenReady? ==> c.shared.ready == Opening && c.tasks[0] == Finished)
    && (c.tasks[0].OpenReady? ==> c.shared.ready == Opening)
    && (c.tasks[0].Emit? ==> !c.tasks[0].event.ClosedFor?)
  }

  lemma BeginWellFormed(kind: TransportKind, openPacket: Packet, initial: Option<Packet>)
    ensures WellFormed(Begin(kind, openPacket, initial))
  {
  }

  lemma TaskStaysOrdinary(s: State, task: Task, writable: bool)
    ensures var (s', task') := TaskStep(s, task, writable);
            && (!LoopOnly(task) ==>
                  && !LoopOnly(task')
                  && (s'.ready == s.ready || (s.ready == ReadyState.Open && s'.ready.Closing?)))
            && !task'.OpenReady? && !task'.Emit?
            && LoopAfter(s, Finished) == []
  {
    hide Batches, Clear, OnDrain;
  }

  lemma ReactionParts(s: State, task: Task)
    ensures forall i :: 0 <= i < |LoopAfter(s, task)| ==>
              IsPart(LoopAfter(s, task)[i]) && !LoopAfter(s, task)[i].OpenReady?
    ensures LoopAfter(s, task) != [] ==> s.ready == ReadyState.Open && task.PacketCheck?
  {
  }

  lemma ProceedWellFormed(c: Config, i: nat, writable: bool)
    requires WellFormed(c) && i < |c.tasks| && (i == 0 ==> c.tasks[0] != Finished)
    ensures WellFormed(Proceed(c, i, writable))
  {
    hide TaskStep, LoopAfter, IsPart, OutstandingAfter;
    TaskStaysOrdinary(c.shared, c.tasks[i], writable);
    ReactionParts(c.shared, c.tasks[i]);
  }

  lemma StepWellFormed(c: Config, action: Action)
    requires WellFormed(c)
    ensures WellFormed(Step(c, action))
  {
    hide Proceed;
    match action
    case Spawn(_) =>
    case Receive(_) =>
    case Advance(i, writable) =>
      if i < |c.tasks| && !(i == 0 && c.tasks[0] == Finished) {
        ProceedWellFormed(c, i, writable);
      }
  }
}
