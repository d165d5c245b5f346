/** How the socket closes while its handlers interleave. */
module SocketClosing {
  import opened Wrappers
  import opened EnginePacket
  import opened EngineSocket
  import opened SocketInterleaving

  // The end is announced once.

  /** The loop is between clearing the socket and announcing its end. */
  predicate Midway(c: Config) {
    c.tasks != [] && (c.tasks[0].CloseDrop? || c.tasks[0].CloseEmit?)
  }

  predicate AnnouncedOnce(c: Config) {
    && WellFormed(c)
    && CloseEvents(c.shared.events) == (if c.shared.ready == Closed && !Midway(c) then 1 else 0)
    && (Midway(c) ==> c.shared.ready == Closed)
    && (c.tasks[0].CloseClear? ==> c.shared.ready != Closed)
  }

  lemma CloseEventsSnoc(events: seq<SocketEvent>, event: SocketEvent)
    ensures CloseEvents(events + [event]) == CloseEvents(events) + if event.ClosedFor? then 1 else 0
  {
    assert (events + [event])[..|events|] == events;
  }

  /** What a step does to the ready state and to the announcements. */
  lemma TaskCloses(s: State, task: Task, writable: bool)
    ensures var s' := TaskStep(s, task, writable).0;
            && (task.CloseClear? ==> s'.ready == Closed)
            && (task.OpenReady? ==> s'.ready == ReadyState.Open)
            && (!task.CloseClear? && !task.OpenReady? ==>
                  s'.ready == s.ready || (s.ready == ReadyState.Open && s'.ready.Closing?))
            && CloseEvents(s'.events)
            == CloseEvents(s.events) + if task.CloseEmit? || (task.Emit? && task.event.ClosedFor?) then 1 else 0
  {
    hide Batches, CloseEvents;
    CloseEventsSnoc(s.events, Flushed);
    CloseEventsSnoc(s.events, Drained);
    match task
    case Emit(event) => CloseEventsSnoc(s.events, event);
    case CloseEmit(reason) => CloseEventsSnoc(s.events, ClosedFor(reason));
    case _ =>
  }

  /** The steps of a close follow one another. */
  lemma TaskGoesOn(s: State, task: Task, writable: bool)
    ensures var task' := TaskStep(s, task, writable).1;
            && (task'.CloseClear? <==> task.CloseCheck? && s.ready != Closed)
            && (task'.CloseDrop? <==> task.CloseClear?) && (task'.CloseEmit? <==> task.CloseDrop?)
  {
  }

  lemma ProceedAnnounces(c: Config, i: nat, writable: bool)
    requires AnnouncedOnce(c) && i < |c.tasks| && (i == 0 ==> c.tasks[0] != Finished)
    ensures AnnouncedOnce(Proceed(c, i, writable))
  {
    hide TaskStep, LoopAfter, OutstandingAfter, CloseEvents, IsPart;
    ProceedWellFormed(c, i, writable);
    TaskCloses(c.shared, c.tasks[i], writable);
    TaskGoesOn(c.shared, c.tasks[i], writable);
  }

  lemma StepAnnounces(c: Config, action: Action)
    requires AnnouncedOnce(c)
    ensures AnnouncedOnce(Step(c, action))
  {
    hide Proceed, CloseEvents;
    StepWellFormed(c, action);
    match action
    case Advance(i, writable) =>
      if i < |c.tasks| && !(i == 0 && c.tasks[0] == Finished) {
        ProceedAnnounces(c, i, writable);
      }
    case _ =>
  }

  lemma {:induction false} RunAnnounces(c: Config, actions: seq<Action>)
    requires AnnouncedOnce(c)
    ensures AnnouncedOnce(Interleaved(c, actions))
    decreases actions
  {
    hide AnnouncedOnce, Step;
    if actions != [] {
      StepAnnounces(c, actions[0]);
      RunAnnounces(Step(c, actions[0]), actions[1..]);
    }
  }

  lemma Reachable(kind: TransportKind, openPacket: Packet, initial: Option<Packet>, actions: seq<Action>)
    ensures AnnouncedOnce(Interleaved(Begin(kind, openPacket, initial), actions))
  {
    BeginWellFormed(kind, openPacket, initial);
    RunAnnounces(Begin(kind, openPacket, initial), actions);
  }

  /** Under every interleaving the end of the socket is announced at most once, and when the
      event loop is not in the middle of it, exactly if the socket is closed. */
  lemma OneCloseEvent(kind: TransportKind, openPacket: Packet, initial: Option<Packet>, actions: seq<Action>)
    ensures var c := Interleaved(Begin(kind, openPacket, initial), actions);
            && CloseEvents(c.shared.events) <= 1
            && (Idle(c) ==> (CloseEvents(c.shared.events) == 1 <==> c.shared.ready == Closed))
  {
    Reachable(kind, openPacket, initial, actions);
  }

  // A closed socket.

  /** Once closed, always closed, under every interleaving. */
  lemma ClosedForGood(
    kind: TransportKind, openPacket: Packet, initial: Option<Packet>, before: seq<Action>, after: seq<Action>)
    requires Interleaved(Begin(kind, openPacket, initial), before).shared.ready == Closed
    ensures Interleaved(Interleaved(Begin(kind, openPacket, initial), before), after).shared.ready == Closed
  {
    Reachable(kind, openPacket, initial, before);
    RunStaysClosed(Interleaved(Begin(kind, openPacket, initial), before), after);
  }

  lemma StepStaysClosed(c: Config, action: Action)
    requires WellFormed(c) && c.shared.ready == Closed
    ensures Step(c, action).shared.ready == Closed
  {
    hide TaskStep, IsPart;
    if action.Advance? && action.i < |c.tasks| {
      TaskCloses(c.shared, c.tasks[action.i], action.writable);
    }
  }

  lemma {:induction false} RunStaysClosed(c: Config, actions: seq<Action>)
    requires WellFormed(c) && c.shared.ready == Closed
    ensures Interleaved(c, actions).shared.ready == Closed
    decreases actions
  {
    hide WellFormed, Step;
    if actions != [] {
      StepWellFormed(c, actions[0]);
      StepStaysClosed(c, actions[0]);
      RunStaysClosed(Step(c, actions[0]), actions[1..]);
    }
  }

  /** The task is past the check that would stop it from accepting or handing over anything. */
  predicate PastCheck(task: Task) {
    task.SendPush? || task.FlushWritable? || task.FlushAnnounce? || task.FlushTake? || task.FlushHand?
  }

  predicate PastNoCheck(c: Config) {
    forall i :: 0 <= i < |c.tasks| ==> !PastCheck(c.tasks[i])
  }

  /** Once the socket is closed and the handlers that had passed their checks are through, it
      neither accepts nor hands over a packet under any interleaving. */
  lemma ClosedSettles(
    kind: TransportKind, openPacket: Packet, initial: Option<Packet>, before: seq<Action>, after: seq<Action>)
    requires var c := Interleaved(Begin(kind, openPacket, initial), before); c.shared.ready == Closed && PastNoCheck(c)
    ensures var c := Interleaved(Begin(kind, openPacket, initial), before);
            var s := Interleaved(c, after).shared;
            s.accepted == c.shared.accepted && s.sent == c.shared.sent
  {
    Reachable(kind, openPacket, initial, before);
    RunSettles(Interleaved(Begin(kind, openPacket, initial), before), after);
  }

  lemma TaskSettles(s: State, task: Task, writable: bool)
    requires s.ready == Closed && !PastCheck(task)
    ensures var (s', task') := TaskStep(s, task, writable);
            !PastCheck(task') && s'.accepted == s.accepted && s'.sent == s.sent
  {
    hide Batches;
  }

  lemma StepSettles(c: Config, action: Action)
    requires WellFormed(c) && c.shared.ready == Closed && PastNoCheck(c)
    ensures var c' := Step(c, action);
            PastNoCheck(c') && c'.shared.accepted == c.shared.accepted && c'.shared.sent == c.shared.sent
  {
    hide TaskStep;
    if action.Advance? && action.i < |c.tasks| {
      TaskSettles(c.shared, c.tasks[action.i], action.writable);
    }
  }

  lemma {:induction false} RunSettles(c: Config, actions: seq<Action>)
    requires WellFormed(c) && c.shared.ready == Closed && PastNoCheck(c)
    ensures var s := Interleaved(c, actions).shared; s.accepted == c.shared.accepted && s.sent == c.shared.sent
    decreases actions
  {
    hide WellFormed, PastNoCheck, Step;
    if actions != [] {
      StepWellFormed(c, actions[0]);
      StepStaysClosed(c, actions[0]);
      StepSettles(c, actions[0]);
      RunSettles(Step(c, actions[0]), actions[1..]);
    }
  }

  // What is left behind in it.

  predicate BufferEmptyIfClosed(c: Config) {
    c.shared.ready == Closed ==> c.shared.writeBuffer == []
  }

  predicate NothingPendingIfClosed(c: Config) {
    c.shared.ready == Closed ==> c.shared.pendingCallbacks == []
  }

  /** The step is a send's second one, taken on a closed socket: its check was before. */
  predicate PushesLate(c: Config, action: Action) {
    action.Advance? && action.i < |c.tasks| && c.tasks[action.i].SendPush? && c.shared.ready == Closed
  }

  predicate PushesInTime(c: Config, action: Action) {
    !PushesLate(c, action)
  }

  predicate RegistersInTime(c: Config, action: Action) {
    PushesLate(c, action) ==> c.tasks[action.i].callback.None?
  }

  /** A closed socket never has a packet in its buffer if and only if no send pushes its packet
      after the close; the second step of a send would have to look at the state again. */
  lemma BufferEmptyIff(kind: TransportKind, openPacket: Packet, initial: Option<Packet>, actions: seq<Action>)
    ensures Throughout(BufferEmptyIfClosed, Begin(kind, openPacket, initial), actions)
       <==> EachStep(PushesInTime, Begin(kind, openPacket, initial), actions)
  {
    BufferEmptyFrom(Begin(kind, openPacket, initial), actions);
  }

  /** And it never has a callback pending if and only if no send registers one after it. */
  lemma NothingPendingIff(kind: TransportKind, openPacket: Packet, initial: Option<Packet>, actions: seq<Action>)
    ensures Throughout(NothingPendingIfClosed, Begin(kind, openPacket, initial), actions)
       <==> EachStep(RegistersInTime, Begin(kind, openPacket, initial), actions)
  {
    NothingPendingFrom(Begin(kind, openPacket, initial), actions);
  }

  lemma TaskFills(s: State, task: Task, writable: bool)
    ensures var s' := TaskStep(s, task, writable).0;
            && (s'.ready == Closed && !task.SendPush? && (s.ready == Closed ==> s.writeBuffer == []) ==>
                  s'.writeBuffer == [])
            && (task.SendPush? ==> s'.writeBuffer == s.writeBuffer + [task.packet] && s'.ready == s.ready)
  {
    hide Batches;
  }

  predicate Registers(task: Task) {
    task.SendPush? && task.callback.Some?
  }

  lemma TaskRegisters(s: State, task: Task, writable: bool)
    ensures var s' := TaskStep(s, task, writable).0;
            && (s'.ready == Closed && !Registers(task) && (s.ready == Closed ==> s.pendingCallbacks == []) ==>
                  s'.pendingCallbacks == [])
            && (Registers(task) ==>
                  s'.pendingCallbacks == s.pendingCallbacks + [task.callback.value] && s'.ready == s.ready)
  {
    hide Batches;
  }

  lemma StepFills(c: Config, action: Action)
    requires BufferEmptyIfClosed(c)
    ensures BufferEmptyIfClosed(Step(c, action)) <==> PushesInTime(c, action)
  {
    hide TaskStep;
    if action.Advance? && action.i < |c.tasks| {
      TaskFills(c.shared, c.tasks[action.i], action.writable);
    }
  }

  lemma StepRegisters(c: Config, action: Action)
    requires NothingPendingIfClosed(c)
    ensures NothingPendingIfClosed(Step(c, action)) <==> RegistersInTime(c, action)
  {
    hide TaskStep;
    if action.Advance? && action.i < |c.tasks| {
      TaskRegisters(c.shared, c.tasks[action.i], action.writable);
    }
  }

  lemma {:induction false} BufferEmptyFrom(c: Config, actions: seq<Action>)
    requires BufferEmptyIfClosed(c)
    ensures Throughout(BufferEmptyIfClosed, c, actions) <==> EachStep(PushesInTime, c, actions)
    decreases actions
  {
    hide Step;
    if actions != [] {
      StepFills(c, actions[0]);
      if BufferEmptyIfClosed(Step(c, actions[0])) {
        BufferEmptyFrom(Step(c, actions[0]), actions[1..]);
      }
    }
  }

  lemma {:induction false} NothingPendingFrom(c: Config, actions: seq<Action>)
    requires NothingPendingIfClosed(c)
    ensures Throughout(NothingPendingIfClosed, c, actions) <==> EachStep(RegistersInTime, c, actions)
    decreases actions
  {
    hide Step;
    if actions != [] {
      StepRegisters(c, actions[0]);
      if NothingPendingIfClosed(Step(c, actions[0])) {
        NothingPendingFrom(Step(c, actions[0]), actions[1..]);
      }
    }
  }
}
