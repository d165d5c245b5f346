/** Runs that show where the conditions on interleavings come from, on a socket that has been
    opened without disturbance. */
module SocketRaces {
  import opened Wrappers
  import opened EnginePacket
  import opened EngineSocket
  import opened SocketInterleaving
  import opened SocketConservation
  import opened SocketRefinement

  lemma Opening(kind: TransportKind, openPacket: Packet) returns (actions: seq<Action>, c: Config)
    ensures Interleaved(Begin(kind, openPacket, None), actions) == c
    ensures c.tasks == [Finished] && c.loop == [] && IsOpen(c.shared, kind, openPacket)
  {
    hide Interleaved;
    actions := SoloOpening(kind, openPacket, true);
    c := Interleaved(Begin(kind, openPacket, None), actions);
    assert [] + [openPacket] == [openPacket] && [] + [[openPacket]] == [[openPacket]];
  }

  predicate IsOpen(s: State, kind: TransportKind, openPacket: Packet) {
    && s.ready == ReadyState.Open && s.transport == Some(kind) && s.writeBuffer == []
    && s.accepted == [openPacket] && s.sent == [[openPacket]] && s.discarded == []
  }

  /** Task `i` takes its next step. */
  lemma Go(start: Config, before: seq<Action>, c: Config, i: nat) returns (actions: seq<Action>, c': Config)
    requires Interleaved(start, before) == c && i < |c.tasks| && c.tasks[i] != Finished
    ensures Interleaved(start, actions) == c' && |c'.tasks| == |c.tasks|
    ensures (c'.shared, c'.tasks[i]) == TaskStep(c.shared, c.tasks[i], true) && c'.tasks == c.tasks[i := c'.tasks[i]]
    ensures c'.loop == c.loop + LoopAfter(c.shared, c.tasks[i])
  {
    hide Interleaved, TaskStep, LoopAfter, OutstandingAfter;
    RunSnoc(start, before, Advance(i, true));
    actions := before + [Advance(i, true)];
    c' := Proceed(c, i, true);
  }

  lemma GoSpawn(start: Config, before: seq<Action>, c: Config, task: Task) returns (actions: seq<Action>, c': Config)
    requires Interleaved(start, before) == c && IsEntry(task)
    ensures Interleaved(start, actions) == c' && c' == c.(tasks := c.tasks + [task])
  {
    hide Interleaved;
    RunSnoc(start, before, Spawn(task));
    actions := before + [Spawn(task)];
    c' := c.(tasks := c.tasks + [task]);
  }

  /** A send runs up to the point where its flush holds the buffer. */
  lemma GoToHand(start: Config, before: seq<Action>, c: Config, i: nat, packet: Packet)
    returns (actions: seq<Action>, c': Config)
    requires Interleaved(start, before) == c && i < |c.tasks| && c.tasks[i] == SendCheck(packet, None)
    requires Accepts(c.shared.ready) && c.shared.transport.Some? && c.shared.writeBuffer == []
    ensures Interleaved(start, actions) == c' && c'.tasks == c.tasks[i := FlushHand([packet])]
    ensures c'.shared.accepted == c.shared.accepted + [packet] && c'.shared.sent == c.shared.sent
    ensures c'.shared.ready == c.shared.ready && c'.shared.transport == c.shared.transport
    ensures c'.shared.writeBuffer == [] && c'.shared.discarded == c.shared.discarded
  {
    hide Interleaved;
    actions, c' := Go(start, before, c, i);
    actions, c' := Go(start, actions, c', i);
    assert c'.shared.writeBuffer == [packet];
    actions, c' := Go(start, actions, c', i);
    actions, c' := Go(start, actions, c', i);
    actions, c' := Go(start, actions, c', i);
    actions, c' := Go(start, actions, c', i);
  }

  /** Two sends, each with its flush: the packet accepted last is handed over first. */
  lemma OrderIsLost(kind: TransportKind, openPacket: Packet, p: Packet, q: Packet)
    ensures exists actions :: OutOfOrder(Interleaved(Begin(kind, openPacket, None), actions).shared, openPacket, p, q)
  {
    hide Interleaved, TaskStep, Flat;
    var start := Begin(kind, openPacket, None);
    var actions, c := Opening(kind, openPacket);
    actions, c := GoSpawn(start, actions, c, SendCheck(p, None));
    actions, c := GoSpawn(start, actions, c, SendCheck(q, None));
    assert c.tasks == [Finished, SendCheck(p, None), SendCheck(q, None)];
    actions, c := GoToHand(start, actions, c, 1, p);
    actions, c := GoToHand(start, actions, c, 2, q);
    assert c.tasks == [Finished, FlushHand([p]), FlushHand([q])];
    HandStep(c.shared, [q]);
    actions, c := Go(start, actions, c, 2);
    HandStep(c.shared, [p]);
    actions, c := Go(start, actions, c, 1);
    FlatThree(openPacket, q, p);
    assert c.shared.sent == [[openPacket], [q], [p]] && c.shared.accepted == [openPacket, p, q];
    assert OutOfOrder(c.shared, openPacket, p, q);
  }

  predicate OutOfOrder(s: State, openPacket: Packet, p: Packet, q: Packet) {
    s.accepted == [openPacket, p, q] && s.discarded == [] && Flat(s.sent) == [openPacket, q, p]
  }

  lemma HandStep(s: State, batch: seq<Packet>)
    ensures TaskStep(s, FlushHand(batch), true) == (s.(sent := s.sent + [batch]), FlushTakeCallbacks)
  {
  }

  lemma FlatThree<T>(x: T, y: T, z: T)
    ensures Flat([[x], [y], [z]]) == [x, y, z]
  {
    FlatAppend([], [x]);
    FlatAppend([[x]], [y]);
    FlatAppend([[x], [y]], [z]);
    assert [] + [[x]] == [[x]] && [[x]] + [[y]] == [[x], [y]] && [[x], [y]] + [[z]] == [[x], [y], [z]];
    assert [] + [x] == [x] && [x] + [y] == [x, y] && [x, y] + [z] == [x, y, z];
  }

  /** A send that passed its check before a close leaves its packet behind: accepted by a
      closed socket, with every handler finished and nobody left to hand it over. */
  lemma Stranded(kind: TransportKind, openPacket: Packet, packet: Packet)
    ensures exists actions :: LeftBehind(Interleaved(Begin(kind, openPacket, None), actions), packet)
  {
    hide Interleaved;
    var start := Begin(kind, openPacket, None);
    var actions, c := Opening(kind, openPacket);
    actions, c := GoSpawn(start, actions, c, SendCheck(packet, None));
    assert c.tasks == [Finished, SendCheck(packet, None)];
    actions, c := Go(start, actions, c, 1);
    assert c.tasks == [Finished, SendPush(packet, None)];

    var closing := SoloTurn(c, CloseEvent, true);
    InterleavedAppend(start, actions, [Receive(CloseEvent)] + closing);
    actions := actions + ([Receive(CloseEvent)] + closing);
    c := Interleaved(start, actions);
    assert c.shared.ready == Closed && c.shared.writeBuffer == [];

    actions, c := Go(start, actions, c, 1);
    actions, c := Go(start, actions, c, 1);
    assert c.shared.writeBuffer == [packet] && c.tasks == [Finished, Finished];
    assert c.shared.accepted[|c.shared.accepted| - 1] == packet;
    assert LeftBehind(c, packet);
  }

  predicate LeftBehind(c: Config, packet: Packet) {
    && c.shared.ready == Closed && c.shared.writeBuffer == [packet] && packet in c.shared.accepted && c.loop == []
    && forall i :: 0 <= i < |c.tasks| ==> c.tasks[i] == Finished
  }
}
