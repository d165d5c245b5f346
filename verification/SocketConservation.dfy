/** Under every interleaving of the socket's handlers, each packet and each callback is in one
    place only. */
module SocketConservation {
  import opened Wrappers
  import opened EnginePacket
  import opened EngineSocket
  import opened SocketInterleaving

  /** The packets that a flush has taken out of the buffer and not yet handed over. */
  function HeldPackets(task: Task): seq<Packet> {
    if task.FlushHand? then task.batch else []
  }

  function HeldCallbacks(task: Task): seq<Callback> {
    if task.FlushFraming? || task.FlushExtend? then task.callbacks else []
  }

  /** What the tasks hold between them. */
  function InFlight<T>(held: Task -> seq<T>, tasks: seq<Task>): multiset<T> {
    if tasks == [] then multiset{} else multiset(held(tasks[0])) + InFlight(held, tasks[1..])
  }

  /** Where the packets are that are not in the hands of a flush. */
  function PacketsAtRest(s: State): multiset<Packet> {
    multiset(s.writeBuffer) + multiset(Flat(s.sent)) + multiset(s.discarded)
  }

  function CallbacksAtRest(s: State): multiset<Callback> {
    multiset(s.pendingCallbacks) + multiset(CallbacksIn(s.flushedCallbacks)) + multiset(s.fired) + multiset(s.cleared)
  }

  /** Each accepted packet is in exactly one place: the buffer, the hands of one flush, a
      batch handed over, or what was discarded on closing. */
  predicate PacketsConserved(c: Config) {
    multiset(c.shared.accepted) == PacketsAtRest(c.shared) + InFlight(HeldPackets, c.tasks)
  }

  /** Each registered callback is pending, in the hands of one flush, in one flushed batch,
      run, or cleared on closing. */
  predicate CallbacksConserved(c: Config) {
    multiset(c.shared.registered) == CallbacksAtRest(c.shared) + InFlight(HeldCallbacks, c.tasks)
  }

  lemma FlatAppend<T>(batches: seq<seq<T>>, batch: seq<T>)
    ensures Flat(batches + [batch]) == Flat(batches) + batch
  {
    assert (batches + [batch])[..|batches|] == batches;
  }

  /** A step moves packets about, or takes one on. */
  lemma TaskKeepsPackets(s: State, task: Task, s': State, task': Task, writable: bool)
    requires (s', task') == TaskStep(s, task, writable)
    ensures multiset(s'.accepted) + PacketsAtRest(s) + multiset(HeldPackets(task))
         == multiset(s.accepted) + PacketsAtRest(s') + multiset(HeldPackets(task'))
  {
    hide PacketsAtRest, Push, Clear, Batches, CloseSocket, OnDrain;
    match task
    case SendPush(packet, callback) => PushKeepsPackets(s, packet, callback);
    case FlushTake => TakeKeepsPackets(s);
    case FlushHand(batch) => HandKeepsPackets(s, batch);
    case CloseClear(_) => ClearKeepsPackets(s);
    case CloseCall(discard) => CallKeepsPackets(s, discard);
    case DrainCall => CallKeepsPackets(s, false);
    case _ => SamePackets(s, s');
  }

  lemma CallKeepsPackets(s: State, discard: bool)
    ensures PacketsAtRest(CloseSocket(s, discard)) == PacketsAtRest(s) && CloseSocket(s, discard).accepted == s.accepted
    ensures PacketsAtRest(OnDrain(s)) == PacketsAtRest(s) && OnDrain(s).accepted == s.accepted
  {
  }

  lemma SamePackets(s: State, s': State)
    requires s' == s.(ready := s'.ready, transport := s'.transport, events := s'.events, fired := s'.fired,
                      pendingCallbacks := s'.pendingCallbacks, flushedCallbacks := s'.flushedCallbacks)
    ensures PacketsAtRest(s') == PacketsAtRest(s) && s'.accepted == s.accepted
  {
  }

  lemma PushKeepsPackets(s: State, packet: Packet, callback: Option<Callback>)
    ensures var s' := Push(s, packet, callback);
            multiset(s'.accepted) + PacketsAtRest(s) == multiset(s.accepted) + PacketsAtRest(s')
  {
    hide Flat;
    assert multiset(s.accepted + [packet]) == multiset(s.accepted) + multiset{packet};
    assert multiset(s.writeBuffer + [packet]) == multiset(s.writeBuffer) + multiset{packet};
  }

  lemma TakeKeepsPackets(s: State)
    ensures PacketsAtRest(s) == PacketsAtRest(s.(writeBuffer := [])) + multiset(s.writeBuffer)
  {
    hide Flat;
  }

  lemma HandKeepsPackets(s: State, batch: seq<Packet>)
    ensures PacketsAtRest(s.(sent := s.sent + [batch])) == PacketsAtRest(s) + multiset(batch)
  {
    hide Flat;
    FlatAppend(s.sent, batch);
  }

  lemma ClearKeepsPackets(s: State)
    ensures PacketsAtRest(Clear(s)) == PacketsAtRest(s) && Clear(s).accepted == s.accepted
  {
    hide Flat;
    assert multiset(s.discarded + s.writeBuffer) == multiset(s.discarded) + multiset(s.writeBuffer);
  }

  lemma TaskKeepsCallbacks(s: State, task: Task, s': State, task': Task, writable: bool)
    requires (s', task') == TaskStep(s, task, writable)
    ensures multiset(s'.registered) + CallbacksAtRest(s) + multiset(HeldCallbacks(task))
         == multiset(s.registered) + CallbacksAtRest(s') + multiset(HeldCallbacks(task'))
  {
    hide CallbacksAtRest, Batches, OnDrain, Push, Clear, CloseSocket;
    match task
    case SendPush(packet, callback) => PushKeepsCallbacks(s, packet, callback);
    case FlushTakeCallbacks => TakeKeepsCallbacks(s);
    case FlushExtend(callbacks, framing) => ExtendKeepsCallbacks(s, callbacks, framing);
    case CloseClear(_) => ClearKeepsCallbacks(s);
    case DrainCall => DrainKeepsCallbacks(s);
    case CloseCall(discard) => CloseKeepsCallbacks(s, discard);
    case _ => TaskLeavesCallbacks(s, task, s', task', writable);
  }

  /** The other steps move no callback. */
  lemma TaskLeavesCallbacks(s: State, task: Task, s': State, task': Task, writable: bool)
    requires (s', task') == TaskStep(s, task, writable)
    requires !task.SendPush? && !task.FlushTakeCallbacks? && !task.FlushExtend? && !task.CloseClear?
    requires !task.DrainCall? && !task.CloseCall?
    ensures CallbacksAtRest(s') == CallbacksAtRest(s) && s'.registered == s.registered
    ensures HeldCallbacks(task') == HeldCallbacks(task)
  {
    hide CallbacksAtRest;
    SameCallbacks(s, s');
  }

  lemma SameCallbacks(s: State, s': State)
    requires s' == s.(ready := s'.ready, transport := s'.transport, events := s'.events,
                      writeBuffer := s'.writeBuffer, sent := s'.sent)
    ensures CallbacksAtRest(s') == CallbacksAtRest(s) && s'.registered == s.registered
  {
  }

  lemma CloseKeepsCallbacks(s: State, discard: bool)
    ensures CallbacksAtRest(CloseSocket(s, discard)) == CallbacksAtRest(s)
    ensures CloseSocket(s, discard).registered == s.registered
  {
  }

  lemma TakeKeepsCallbacks(s: State)
    ensures CallbacksAtRest(s) == CallbacksAtRest(s.(pendingCallbacks := [])) + multiset(s.pendingCallbacks)
  {
  }

  lemma ClearKeepsCallbacks(s: State)
    ensures CallbacksAtRest(Clear(s)) == CallbacksAtRest(s) && Clear(s).registered == s.registered
  {
  }

  lemma PushKeepsCallbacks(s: State, packet: Packet, callback: Option<Callback>)
    ensures var s' := Push(s, packet, callback);
            multiset(s'.registered) + CallbacksAtRest(s) == multiset(s.registered) + CallbacksAtRest(s')
  {
    hide CallbacksIn;
    if callback.Some? {
      assert multiset(s.registered + [callback.value]) == multiset(s.registered) + multiset{callback.value};
    }
  }

  lemma ExtendKeepsCallbacks(s: State, callbacks: seq<Callback>, framing: bool)
    ensures CallbacksAtRest(s.(flushedCallbacks := s.flushedCallbacks + Batches(framing, callbacks)))
         == CallbacksAtRest(s) + multiset(callbacks)
  {
    hide CallbacksIn, Batches;
    CallbacksInAppend(s.flushedCallbacks, Batches(framing, callbacks));
    CallbacksInBatches(framing, callbacks);
  }

  lemma DrainKeepsCallbacks(s: State)
    ensures CallbacksAtRest(OnDrain(s)) == CallbacksAtRest(s) && OnDrain(s).registered == s.registered
  {
    if s.flushedCallbacks != [] {
      var first, rest := CallbacksOf(s.flushedCallbacks[0]), CallbacksIn(s.flushedCallbacks[1..]);
      assert CallbacksIn(s.flushedCallbacks) == first + rest;
    }
  }

  lemma {:induction false} InFlightUpdate<T>(held: Task -> seq<T>, tasks: seq<Task>, i: nat, task: Task)
    requires i < |tasks|
    ensures InFlight(held, tasks[i := task]) + multiset(held(tasks[i])) == InFlight(held, tasks) + multiset(held(task))
  {
    if i == 0 {
      assert tasks[i := task][1..] == tasks[1..];
    } else {
      InFlightUpdate(held, tasks[1..], i - 1, task);
      assert tasks[i := task][1..] == tasks[1..][i - 1 := task];
      AddFirst(multiset(held(tasks[0])), InFlight(held, tasks[1..][i - 1 := task]), InFlight(held, tasks[1..]),
               multiset(held(tasks[i])), multiset(held(task)));
    }
  }

  lemma AddFirst<T>(first: multiset<T>, a': multiset<T>, a: multiset<T>, held: multiset<T>, held': multiset<T>)
    requires a' + held == a + held'
    ensures (first + a') + held == (first + a) + held'
  {
    assert (first + a') + held == first + (a' + held);
    assert (first + a) + held' == first + (a + held');
  }

  lemma {:induction false} InFlightSpawn<T>(held: Task -> seq<T>, tasks: seq<Task>, task: Task)
    requires held(task) == []
    ensures InFlight(held, tasks + [task]) == InFlight(held, tasks)
  {
    if tasks != [] {
      InFlightSpawn(held, tasks[1..], task);
      assert (tasks + [task])[0] == tasks[0] && (tasks + [task])[1..] == tasks[1..] + [task];
    }
  }

  /** The next part of a turn holds nothing yet. */
  lemma InFlightResume<T>(held: Task -> seq<T>, c: Config)
    requires WellFormed(c) && c.tasks[0] == Finished
    requires forall task :: IsPart(task) || task == Finished ==> held(task) == []
    ensures InFlight(held, Resume(c).tasks) == InFlight(held, c.tasks)
  {
    if c.loop != [] {
      InFlightUpdate(held, c.tasks, 0, c.loop[0]);
      assert held(c.loop[0]) == held(c.tasks[0]) == [];
    }
  }

  /** From the balance of a task to the balance of them all. */
  lemma MoveBalance<T>(
    all: multiset<T>, all': multiset<T>, rest: multiset<T>, rest': multiset<T>,
    held: multiset<T>, held': multiset<T>, flight: multiset<T>, flight': multiset<T>)
    requires all' + rest + held == all + rest' + held'
    requires flight' + held == flight + held'
    requires all == rest + flight
    ensures all' == rest' + flight'
  {
    forall x: T | x in all' || x in rest' + flight'
      ensures all'[x] == (rest' + flight')[x]
    {
      assert all'[x] + rest[x] + held[x] == (all' + rest + held)[x] == (all + rest' + held')[x];
      assert (flight' + held)[x] == (flight + held')[x];
    }
  }

  lemma ProceedConserves(c: Config, i: nat, writable: bool)
    requires PacketsConserved(c) && CallbacksConserved(c) && i < |c.tasks|
    ensures PacketsConserved(Proceed(c, i, writable)) && CallbacksConserved(Proceed(c, i, writable))
  {
    hide TaskStep, PacketsAtRest, CallbacksAtRest, InFlight, HeldPackets, HeldCallbacks;
    var (s, held) := (c.shared, c.tasks[i]);
    var (s', held') := TaskStep(s, held, writable);
    TaskKeepsPackets(s, held, s', held', writable);
    TaskKeepsCallbacks(s, held, s', held', writable);
    InFlightUpdate(HeldPackets, c.tasks, i, held');
    InFlightUpdate(HeldCallbacks, c.tasks, i, held');
    MoveBalance(multiset(s.accepted), multiset(s'.accepted), PacketsAtRest(s), PacketsAtRest(s'),
                multiset(HeldPackets(held)), multiset(HeldPackets(held')),
                InFlight(HeldPackets, c.tasks), InFlight(HeldPackets, c.tasks[i := held']));
    MoveBalance(multiset(s.registered), multiset(s'.registered), CallbacksAtRest(s), CallbacksAtRest(s'),
                multiset(HeldCallbacks(held)), multiset(HeldCallbacks(held')),
                InFlight(HeldCallbacks, c.tasks), InFlight(HeldCallbacks, c.tasks[i := held']));
  }

  lemma StepConserves(c: Config, action: Action)
    requires WellFormed(c) && PacketsConserved(c) && CallbacksConserved(c)
    ensures PacketsConserved(Step(c, action)) && CallbacksConserved(Step(c, action))
  {
    hide Proceed, PacketsAtRest, CallbacksAtRest, InFlight;
    match action
    case Spawn(task) =>
      InFlightSpawn(HeldPackets, c.tasks, if IsEntry(task) then task else FlushCheck);
      InFlightSpawn(HeldCallbacks, c.tasks, if IsEntry(task) then task else FlushCheck);
    case Receive(_) =>
    case Advance(i, writable) =>
      if i < |c.tasks| {
        if i == 0 && c.tasks[0] == Finished {
          InFlightResume(HeldPackets, c);
          InFlightResume(HeldCallbacks, c);
        } else {
          ProceedConserves(c, i, writable);
        }
      }
  }

  lemma {:induction false} RunConserves(c: Config, actions: seq<Action>)
    requires WellFormed(c) && PacketsConserved(c) && CallbacksConserved(c)
    ensures PacketsConserved(Interleaved(c, actions)) && CallbacksConserved(Interleaved(c, actions))
    decreases actions
  {
    hide WellFormed, PacketsConserved, CallbacksConserved, Step;
    if actions != [] {
      StepWellFormed(c, actions[0]);
      StepConserves(c, actions[0]);
      RunConserves(Step(c, actions[0]), actions[1..]);
    }
  }

  /** Under every interleaving no packet and no callback is lost or counted twice; so nothing
      is handed over or run more often than it was accepted. */
  lemma Conservation(kind: TransportKind, openPacket: Packet, initial: Option<Packet>, actions: seq<Action>)
    ensures var c := Interleaved(Begin(kind, openPacket, initial), actions);
            && PacketsConserved(c) && CallbacksConserved(c)
            && multiset(Flat(c.shared.sent)) <= multiset(c.shared.accepted)
            && multiset(c.shared.fired) <= multiset(c.shared.registered)
  {
    BeginWellFormed(kind, openPacket, initial);
    RunConserves(Begin(kind, openPacket, initial), actions);
  }
}
