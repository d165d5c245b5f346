/** When the socket hands packets over in the order in which it has accepted them, while its
    handlers interleave. */
module SocketOrder {
  import opened Wrappers
  import opened EnginePacket
  import opened EngineSocket
  import opened Sequences
  import opened SocketInterleaving
  import opened SocketConservation

  /** What has been handed over is what was accepted first, in that order. */
  predicate HandedInOrder(c: Config) {
    Flat(c.shared.sent) <= c.shared.accepted
  }

  /** A flush that hands over a batch has the one that was taken first of those outstanding. */
  predicate InTurn(c: Config, action: Action) {
    action.Advance? && action.i < |c.tasks| && HeldBatches(c.tasks[action.i]) != [] ==>
      c.outstanding != [] && c.outstanding[0] == c.tasks[action.i].batch
  }

  predicate Distinct<T(==)>(s: seq<T>) {
    forall i, j :: 0 <= i < j < |s| ==> s[i] != s[j]
  }

  function HeldBatches(task: Task): seq<seq<Packet>> {
    if task.FlushHand? && task.batch != [] then [task.batch] else []
  }

  // The outstanding batches are those that the flushes hold.

  ghost predicate Accounted(c: Config) {
    Tally(c.outstanding, InFlight(HeldBatches, c.tasks))
  }

  ghost predicate Tally(outstanding: seq<seq<Packet>>, flight: multiset<seq<Packet>>) {
    multiset(outstanding) == flight && forall b :: b in outstanding ==> b != []
  }

  lemma {:induction false} MultisetWithout<T>(s: seq<T>, x: T)
    requires x in s
    ensures multiset(Without(s, x)) + multiset{x} == multiset(s)
  {
    assert s == [s[0]] + s[1..];
    if s[0] != x {
      MultisetWithout(s[1..], x);
    }
  }

  lemma Cancel<T>(a: multiset<T>, b: multiset<T>, x: T)
    requires a + multiset{x} == b + multiset{x}
    ensures a == b
  {
    forall y: T | y in a || y in b
      ensures a[y] == b[y]
    {
      assert (a + multiset{x})[y] == (b + multiset{x})[y];
    }
  }

  lemma {:induction false} HeldIsInFlight(tasks: seq<Task>, i: nat)
    requires i < |tasks|
    ensures multiset(HeldBatches(tasks[i])) <= InFlight(HeldBatches, tasks)
  {
    if i > 0 {
      HeldIsInFlight(tasks[1..], i - 1);
    }
  }

  lemma ProceedAccounts(c: Config, i: nat, writable: bool)
    requires Accounted(c) && i < |c.tasks|
    ensures Accounted(Proceed(c, i, writable))
  {
    hide TaskStep, InFlight, HeldBatches, OutstandingAfter, LoopAfter, Tally, Without;
    var task' := TaskStep(c.shared, c.tasks[i], writable).1;
    InFlightUpdate(HeldBatches, c.tasks, i, task');
    HeldIsInFlight(c.tasks, i);
    TaskTakes(c.shared, c.tasks[i], writable, c.outstanding);
    TallyAfter(c.outstanding, HeldBatches(c.tasks[i]), HeldBatches(task'),
               InFlight(HeldBatches, c.tasks), InFlight(HeldBatches, c.tasks[i := task']));
  }

  /** A step hands over the batch that the task holds, or takes one, or neither. */
  lemma TaskTakes(s: State, task: Task, writable: bool, outstanding: seq<seq<Packet>>)
    ensures var held, held' := HeldBatches(task), HeldBatches(TaskStep(s, task, writable).1);
            && |held| <= 1 && (held != [] ==> held' == [])
            && (forall b :: b in held' ==> b != [])
            && OutstandingAfter(outstanding, s, task)
            == if held != [] then Without(outstanding, held[0]) else outstanding + held'
  {
    hide Without;
    assert outstanding + [] == outstanding;
  }

  lemma TallyAfter(
    outstanding: seq<seq<Packet>>, held: seq<seq<Packet>>, held': seq<seq<Packet>>,
    flight: multiset<seq<Packet>>, flight': multiset<seq<Packet>>)
    requires Tally(outstanding, flight) && multiset(held) <= flight
    requires flight' + multiset(held) == flight + multiset(held')
    requires |held| <= 1 && (held != [] ==> held' == []) && forall b :: b in held' ==> b != []
    ensures Tally(if held != [] then Without(outstanding, held[0]) else outstanding + held', flight')
  {
    if held != [] {
      var batch, rest := held[0], Without(outstanding, held[0]);
      assert held == [batch] && batch in multiset(held);
      MultisetWithout(outstanding, batch);
      assert multiset(held') == multiset{};
      Cancel(multiset(rest), flight', batch);
      assert forall b :: b in rest ==> b in multiset(rest) + multiset{batch};
      assert forall b :: b in rest ==> b in outstanding;
    } else {
      assert flight' == flight + multiset(held');
    }
  }

  lemma StepAccounts(c: Config, action: Action)
    requires WellFormed(c) && Accounted(c)
    ensures Accounted(Step(c, action))
  {
    hide Proceed, InFlight;
    match action
    case Spawn(task) => InFlightSpawn(HeldBatches, c.tasks, if IsEntry(task) then task else FlushCheck);
    case Receive(_) =>
    case Advance(i, writable) =>
      if i < |c.tasks| {
        if i == 0 && c.tasks[0] == Finished {
          InFlightResume(HeldBatches, c);
        } else {
          ProceedAccounts(c, i, writable);
        }
      }
  }

  // The line of packets from the transport back to the buffer.

  predicate InLine(c: Config) {
    Flat(c.shared.sent) + Flat(c.outstanding) + c.shared.writeBuffer == c.shared.accepted
  }

  lemma {:induction false} FlatSplit<T>(a: seq<seq<T>>, b: seq<seq<T>>)
    ensures Flat(a + b) == Flat(a) + Flat(b)
  {
    if b == [] {
      assert a + b == a;
    } else {
      FlatSplit(a, b[..|b| - 1]);
      assert (a + b)[..|a + b| - 1] == a + b[..|b| - 1] && (a + b)[|a + b| - 1] == b[|b| - 1];
      Associate(Flat(a), Flat(b[..|b| - 1]), b[|b| - 1]);
    }
  }

  lemma FlatFirst<T>(batches: seq<seq<T>>)
    requires batches != []
    ensures Flat(batches) == batches[0] + Flat(batches[1..])
  {
    assert batches == [batches[0]] + batches[1..];
    FlatSplit([batches[0]], batches[1..]);
    FlatAppend([], batches[0]);
  }

  function PushedBy(task: Task): seq<Packet> {
    if task.SendPush? then [task.packet] else []
  }

  /** What a step does to the line, unless it discards packets. */
  lemma TaskMoves(s: State, task: Task, writable: bool)
    ensures var s' := TaskStep(s, task, writable).0;
            && s.accepted <= s'.accepted && s.discarded <= s'.discarded
            && s'.accepted == s.accepted + PushedBy(task)
            && s'.sent == s.sent + (if task.FlushHand? then [task.batch] else [])
            && (s'.discarded == [] ==>
                  s'.writeBuffer == if task.FlushTake? then [] else s.writeBuffer + PushedBy(task))
  {
    hide Batches;
  }

  lemma ProceedInLine(c: Config, i: nat, writable: bool)
    requires InLine(c) && i < |c.tasks| && InTurn(c, Advance(i, writable))
    requires Proceed(c, i, writable).shared.discarded == []
    ensures InLine(Proceed(c, i, writable))
  {
    hide TaskStep, Flat;
    var s, task := c.shared, c.tasks[i];
    var c' := Proceed(c, i, writable);
    TaskMoves(s, task, writable);
    if task.FlushHand? {
      FlatAppend(s.sent, task.batch);
      if task.batch != [] {
        FlatFirst(c.outstanding);
        Associate(Flat(s.sent), task.batch, Flat(c.outstanding[1..]));
      }
    } else if task.FlushTake? {
      assert c'.shared.sent == s.sent && c'.shared.accepted == s.accepted && c'.shared.writeBuffer == [];
      assert Flat(s.sent) + Flat(c'.outstanding) + [] == Flat(s.sent) + Flat(c'.outstanding);
      if s.writeBuffer != [] {
        FlatAppend(c.outstanding, s.writeBuffer);
        Associate(Flat(s.sent), Flat(c.outstanding), s.writeBuffer);
      }
    } else {
      assert c'.shared.sent == s.sent && c'.outstanding == c.outstanding;
      Associate(Flat(s.sent) + Flat(c.outstanding), s.writeBuffer, PushedBy(task));
    }
  }

  /** A batch handed over before its turn leaves the order for good: it and the one whose turn
      it was do not start with the same packet. */
  lemma OutOfTurn(c: Config, action: Action)
    requires InLine(c) && Accounted(c) && !InTurn(c, action) && Distinct(c.shared.accepted)
    ensures !HandedInOrder(Step(c, action))
  {
    hide InFlight, Flat;
    var s, i := c.shared, action.i;
    var batch := c.tasks[i].batch;
    assert Step(c, action).shared == s.(sent := s.sent + [batch]);
    FlatAppend(s.sent, batch);
    HeldIsInFlight(c.tasks, i);
    assert batch in multiset(HeldBatches(c.tasks[i]));
    assert batch in multiset(c.outstanding);
    var j :| 0 <= j < |c.outstanding| && c.outstanding[j] == batch;
    FlatSplit(c.outstanding[..j], c.outstanding[j..]);
    assert c.outstanding == c.outstanding[..j] + c.outstanding[j..];
    FlatFirst(c.outstanding[j..]);
    FlatFirst(c.outstanding[..j]);
    var n, m := |Flat(s.sent)|, |Flat(c.outstanding[..j])|;
    assert c.outstanding[..j][0] == c.outstanding[0] && c.outstanding[0] in c.outstanding;
    assert s.accepted[n + m] == Flat(c.outstanding)[m] == batch[0];
    assert s.accepted[n] != batch[0] && (Flat(s.sent) + batch)[n] == batch[0];
  }

  // Whole runs.

  lemma {:induction false} OnlyMoreAccepted(c: Config, actions: seq<Action>)
    ensures var s := Interleaved(c, actions).shared;
            c.shared.accepted <= s.accepted && c.shared.discarded <= s.discarded
    decreases actions
  {
    hide TaskStep;
    if actions != [] {
      var action := actions[0];
      if action.Advance? && action.i < |c.tasks| {
        TaskMoves(c.shared, c.tasks[action.i], action.writable);
      }
      OnlyMoreAccepted(Step(c, action), actions[1..]);
    }
  }

  lemma StepInLine(c: Config, action: Action)
    requires InLine(c) && InTurn(c, action) && Step(c, action).shared.discarded == []
    ensures InLine(Step(c, action))
  {
    hide Proceed, InLine, InTurn;
    if action.Advance? && action.i < |c.tasks| && !(action.i == 0 && c.tasks[0] == Finished) {
      ProceedInLine(c, action.i, action.writable);
    } else {
      SameLine(c, Step(c, action));
    }
  }

  lemma SameLine(c: Config, c': Config)
    requires InLine(c) && c'.shared == c.shared && c'.outstanding == c.outstanding
    ensures InLine(c')
  {
  }

  lemma InLineInOrder(c: Config)
    requires InLine(c)
    ensures HandedInOrder(c)
  {
    hide Flat;
    Associate(Flat(c.shared.sent), Flat(c.outstanding), c.shared.writeBuffer);
  }

  lemma {:induction false} InOrderFrom(c: Config, actions: seq<Action>)
    requires WellFormed(c) && Accounted(c) && InLine(c) && Interleaved(c, actions).shared.discarded == []
    ensures EachStep(InTurn, c, actions) ==> Throughout(HandedInOrder, c, actions) && InLine(Interleaved(c, actions))
    ensures Distinct(Interleaved(c, actions).shared.accepted) && Throughout(HandedInOrder, c, actions) ==>
              EachStep(InTurn, c, actions)
    decreases actions
  {
    hide WellFormed, Accounted, InLine, HandedInOrder, InTurn, Step;
    InLineInOrder(c);
    if actions != [] {
      var next := Step(c, actions[0]);
      OnlyMoreAccepted(c, actions);
      OnlyMoreAccepted(next, actions[1..]);
      StepWellFormed(c, actions[0]);
      StepAccounts(c, actions[0]);
      if InTurn(c, actions[0]) {
        StepInLine(c, actions[0]);
        InOrderFrom(next, actions[1..]);
      } else if Distinct(Interleaved(c, actions).shared.accepted) {
        OutOfTurn(c, actions[0]);
        assert !Throughout(HandedInOrder, next, actions[1..]);
      }
    }
  }

  lemma BeginInLine(kind: TransportKind, openPacket: Packet, initial: Option<Packet>)
    ensures var c := Begin(kind, openPacket, initial); WellFormed(c) && Accounted(c) && InLine(c)
  {
    BeginWellFormed(kind, openPacket, initial);
  }

  /** Where nothing is discarded and no packet is accepted twice, the packets are handed over
      in the order of their acceptance if and only if every flush hands its batch over before
      any that was taken later. */
  lemma InOrderIff(kind: TransportKind, openPacket: Packet, initial: Option<Packet>, actions: seq<Action>)
    requires var s := Interleaved(Begin(kind, openPacket, initial), actions).shared;
             s.discarded == [] && Distinct(s.accepted)
    ensures Throughout(HandedInOrder, Begin(kind, openPacket, initial), actions)
       <==> EachStep(InTurn, Begin(kind, openPacket, initial), actions)
  {
    BeginInLine(kind, openPacket, initial);
    InOrderFrom(Begin(kind, openPacket, initial), actions);
  }

  /** No two flushes hold packets. */
  predicate Exclusive(c: Config) {
    forall i, j :: 0 <= i < j < |c.tasks| ==> HeldBatches(c.tasks[i]) == [] || HeldBatches(c.tasks[j]) == []
  }

  lemma {:induction false} NothingHeld(tasks: seq<Task>)
    requires forall i :: 0 <= i < |tasks| ==> HeldBatches(tasks[i]) == []
    ensures InFlight(HeldBatches, tasks) == multiset{}
  {
    if tasks != [] {
      NothingHeld(tasks[1..]);
    }
  }

  /** The only batch held is the only one outstanding. */
  lemma AloneInTurn(c: Config, action: Action)
    requires Accounted(c) && Exclusive(c)
    ensures InTurn(c, action)
  {
    hide InFlight;
    if action.Advance? && action.i < |c.tasks| && HeldBatches(c.tasks[action.i]) != [] {
      var i := action.i;
      var batch := c.tasks[i].batch;
      NothingHeld(c.tasks[i := Finished]);
      InFlightUpdate(HeldBatches, c.tasks, i, Finished);
      assert HeldBatches(c.tasks[i]) == [batch] && HeldBatches(Finished) == [];
      assert InFlight(HeldBatches, c.tasks) == multiset{} + multiset([batch]) == multiset{batch};
      assert multiset(c.outstanding) == multiset{batch};
      assert |c.outstanding| == |multiset(c.outstanding)| == 1;
      assert c.outstanding[0] in multiset(c.outstanding);
    }
  }

  /** In particular they are, repeated or not, as long as no two flushes hold packets; what is
      not handed over is then in the hands of the flushes and in the buffer, in line. */
  lemma OrderedUnderOneFlush(kind: TransportKind, openPacket: Packet, initial: Option<Packet>, actions: seq<Action>)
    requires Interleaved(Begin(kind, openPacket, initial), actions).shared.discarded == []
    requires Throughout(Exclusive, Begin(kind, openPacket, initial), actions)
    ensures Throughout(HandedInOrder, Begin(kind, openPacket, initial), actions)
    ensures InLine(Interleaved(Begin(kind, openPacket, initial), actions))
  {
    BeginInLine(kind, openPacket, initial);
    ExclusiveInTurn(Begin(kind, openPacket, initial), actions);
    InOrderFrom(Begin(kind, openPacket, initial), actions);
  }

  lemma {:induction false} ExclusiveInTurn(c: Config, actions: seq<Action>)
    requires WellFormed(c) && Accounted(c) && Throughout(Exclusive, c, actions)
    ensures EachStep(InTurn, c, actions)
    decreases actions
  {
    hide WellFormed, Accounted, Exclusive, InTurn, Step;
    if actions != [] {
      AloneInTurn(c, actions[0]);
      StepWellFormed(c, actions[0]);
      StepAccounts(c, actions[0]);
      ExclusiveInTurn(Step(c, actions[0]), actions[1..]);
    }
  }

  // Only to a writable transport.

  /** The flush has found the transport writable. */
  predicate FoundWritable(task: Task) {
    task.FlushAnnounce? || task.FlushTake? || task.FlushHand?
  }

  predicate NoneFoundWritable(c: Config) {
    forall i :: 0 <= i < |c.tasks| ==> !FoundWritable(c.tasks[i])
  }

  predicate NeverWritable(actions: seq<Action>) {
    forall i :: 0 <= i < |actions| ==> actions[i].Advance? ==> !actions[i].writable
  }

  /** Under every interleaving nothing is handed over while the transport is not writable, but
      by flushes that have found it so before. */
  lemma UnwritableGetsNothing(
    kind: TransportKind, openPacket: Packet, initial: Option<Packet>, before: seq<Action>, after: seq<Action>)
    requires NoneFoundWritable(Interleaved(Begin(kind, openPacket, initial), before)) && NeverWritable(after)
    ensures var c := Interleaved(Begin(kind, openPacket, initial), before);
            Interleaved(c, after).shared.sent == c.shared.sent
  {
    BeginWellFormed(kind, openPacket, initial);
    RunWellFormed(Begin(kind, openPacket, initial), before);
    RunGetsNothing(Interleaved(Begin(kind, openPacket, initial), before), after);
  }

  lemma {:induction false} RunWellFormed(c: Config, actions: seq<Action>)
    requires WellFormed(c)
    ensures WellFormed(Interleaved(c, actions))
    decreases actions
  {
    hide WellFormed, Step;
    if actions != [] {
      StepWellFormed(c, actions[0]);
      RunWellFormed(Step(c, actions[0]), actions[1..]);
    }
  }

  lemma TaskGetsNothing(s: State, task: Task)
    requires !FoundWritable(task)
    ensures var (s', task') := TaskStep(s, task, false); !FoundWritable(task') && s'.sent == s.sent
  {
    hide Batches;
  }

  lemma StepGetsNothing(c: Config, action: Action)
    requires WellFormed(c) && NoneFoundWritable(c) && (action.Advance? ==> !action.writable)
    ensures NoneFoundWritable(Step(c, action)) && Step(c, action).shared.sent == c.shared.sent
  {
    hide TaskStep;
    if action.Advance? && action.i < |c.tasks| {
      TaskGetsNothing(c.shared, c.tasks[action.i]);
    }
  }

  lemma {:induction false} RunGetsNothing(c: Config, actions: seq<Action>)
    requires WellFormed(c) && NoneFoundWritable(c) && NeverWritable(actions)
    ensures Interleaved(c, actions).shared.sent == c.shared.sent
    decreases actions
  {
    hide WellFormed, NoneFoundWritable, Step;
    if actions != [] {
      StepWellFormed(c, actions[0]);
      StepGetsNothing(c, actions[0]);
      RunGetsNothing(Step(c, actions[0]), actions[1..]);
    }
  }
}
