/** The Socket.IO server's registry when its handlers run concurrently: every event of the
    engine is handled by a task of its own, and the steps of all tasks may come in any order. */
module RegistryInterleaving {
  type ConnectionId = string
  type SocketId = nat

  /** Which of the namespace objects; two may have come to bear the same name. */
  type NamespaceRef = nat

  /** A handler, by the step it is about to take, with what it knows by then. */
  datatype Task =
    // a client joins a namespace
    | FindNamespace(c: ConnectionId, name: string)
    | PutNamespace(c: ConnectionId, name: string)
    | Join(c: ConnectionId, namespace: NamespaceRef)
    | PutConnection(c: ConnectionId, id: SocketId)
    | Index(c: ConnectionId, id: SocketId)
    // a connection is closed
    | Remove(c: ConnectionId)
    | Unindex(ids: set<SocketId>)
    | Finished

  predicate IsEntry(task: Task) {
    task.FindNamespace? || task.Remove?
  }

  datatype Origin = Origin(connection: ConnectionId, namespace: NamespaceRef)

  /** The stored connections with their sockets, the lookup, the namespaces by name and what
      each namespace object holds; then where each socket was created. */
  datatype Shared = Shared(
    connections: map<ConnectionId, set<SocketId>>,
    lookup: map<SocketId, ConnectionId>,
    namespaces: map<string, NamespaceRef>,
    members: seq<set<SocketId>>,
    origins: seq<Origin>)

  const START := Shared(map[], map[], map[], [], [])

  /** The namespace takes in a socket that is created for it. Sockets are numbered in the
      order of their creation, as namespaces are. */
  function CreateSocket(s: Shared, c: ConnectionId, namespace: NamespaceRef): Shared {
    var id := |s.origins|;
    s.(origins := s.origins + [Origin(c, namespace)],
       members := if namespace < |s.members| then s.members[namespace := s.members[namespace] + {id}] else s.members)
  }

  /** One step of one task; `pick` is the next socket in the iteration over a removed
      connection's sockets. */
  function TaskStep(s: Shared, task: Task, pick: SocketId): (Shared, Task) {
    match task
    case FindNamespace(c, name) =>
      (s, if name in s.namespaces then Join(c, s.namespaces[name]) else PutNamespace(c, name))
    case PutNamespace(c, name) =>
      (s.(namespaces := s.namespaces[name := |s.members|], members := s.members + [{}]), Join(c, |s.members|))
    case Join(c, namespace) =>
      var id := |s.origins|;
      var created := CreateSocket(s, c, namespace);
      if c in s.connections then (created.(connections := s.connections[c := s.connections[c] + {id}]), Index(c, id))
      else (created, PutConnection(c, id))
    case PutConnection(c, id) => (s.(connections := s.connections[c := {id}]), Index(c, id))
    case Index(c, id) => (s.(lookup := s.lookup[id := c]), Finished)
    case Remove(c) =>
      if c in s.connections then (s.(connections := s.connections - {c}), Unindex(s.connections[c]))
      else (s, Finished)
    case Unindex(ids) =>
      if ids == {} then (s, Finished)
      else if pick in ids then (s.(lookup := s.lookup - {pick}), Unindex(ids - {pick}))
      else (s, task)
    case Finished => (s, Finished)
  }

  datatype Config = Config(shared: Shared, tasks: seq<Task>)

  datatype Action = Spawn(task: Task) | Advance(i: nat, pick: SocketId)

  function Step(c: Config, action: Action): Config {
    match action
    case Spawn(task) => if IsEntry(task) then c.(tasks := c.tasks + [task]) else c
    case Advance(i, pick) =>
      if i < |c.tasks| then
        var (shared, task) := TaskStep(c.shared, c.tasks[i], pick);
        Config(shared, c.tasks[i := task])
      else
        c
  }

  /** Every interleaving is a sequence of actions. */
  function Run(c: Config, actions: seq<Action>): Config
    decreases actions
  {
    if actions == [] then c else Run(Step(c, actions[0]), actions[1..])
  }

  const BEGIN := Config(START, [])

  /** Every step of the run is one that is allowed where it is taken. */
  ghost predicate EachStep(allows: (Config, Action) -> bool, c: Config, actions: seq<Action>)
    decreases actions
  {
    actions == [] || (allows(c, actions[0]) && EachStep(allows, Step(c, actions[0]), actions[1..]))
  }

  lemma {:induction false} RunSnoc(c: Config, actions: seq<Action>, action: Action)
    ensures Run(c, actions + [action]) == Step(Run(c, actions), action)
    decreases actions
  {
    hide Step;
    if actions == [] {
      assert (actions + [action])[1..] == [];
    } else {
      RunSnoc(Step(c, actions[0]), actions[1..], action);
      assert (actions + [action])[1..] == actions[1..] + [action];
    }
  }

  // What every interleaving keeps.

  predicate Owns(s: Shared, c: ConnectionId, id: SocketId) {
    c in s.connections && id in s.connections[c]
  }

  predicate CreatedFor(s: Shared, c: ConnectionId, id: SocketId) {
    id < |s.origins| && s.origins[id].connection == c
  }

  predicate CreatedIn(s: Shared, n: NamespaceRef, id: SocketId) {
    id < |s.origins| && s.origins[id].namespace == n
  }

  /** Everything that names a socket together with a connection names the right one. */
  ghost predicate TrueToOrigin(c: Config) {
    && (forall d, id: SocketId :: Owns(c.shared, d, id) ==> CreatedFor(c.shared, d, id))
    && (forall id: SocketId :: id in c.shared.lookup ==> CreatedFor(c.shared, c.shared.lookup[id], id))
    && (forall i :: 0 <= i < |c.tasks| ==> TaskTrue(c.shared, c.tasks[i]))
  }

  predicate TaskTrue(s: Shared, task: Task) {
    match task
    case PutConnection(c, id) => CreatedFor(s, c, id)
    case Index(c, id) => CreatedFor(s, c, id)
    case Unindex(ids) => forall id: SocketId :: id in ids ==> id < |s.origins|
    case _ => true
  }

  /** A socket of a stored connection can be looked up, or will be. */
  ghost predicate Indexed(c: Config) {
    forall d, id: SocketId :: Owns(c.shared, d, id) ==>
      (id in c.shared.lookup && c.shared.lookup[id] == d) || Index(d, id) in c.tasks
  }

  /** No task will yet take out of the lookup a socket that a stored connection has. */
  ghost predicate UnindexedAreGone(c: Config) {
    forall i, d, id: SocketId :: 0 <= i < |c.tasks| && Owns(c.shared, d, id) ==> !Mentions(c.tasks[i], id)
  }

  /** The task is about to store the socket or to take it out of the lookup. */
  predicate Mentions(task: Task, id: SocketId) {
    (task.PutConnection? && task.id == id) || (task.Unindex? && id in task.ids)
  }

  /** No two tasks are about to store or take out the same socket. */
  ghost predicate MentionedOnce(c: Config) {
    forall i, j, id: SocketId :: 0 <= i < j < |c.tasks| && Mentions(c.tasks[i], id) ==> !Mentions(c.tasks[j], id)
  }

  ghost predicate Invariant(c: Config) {
    TrueToOrigin(c) && Indexed(c) && UnindexedAreGone(c) && MentionedOnce(c)
  }

  /** The namespace objects hold exactly the sockets created for them, however many there are
      of one name, and no object is filed under two names. */
  ghost predicate Filed(s: Shared) {
    && (forall n, id: SocketId :: 0 <= n < |s.members| ==> (id in s.members[n] <==> CreatedIn(s, n, id)))
    && (forall name :: name in s.namespaces ==> s.namespaces[name] < |s.members|)
    && (forall a, b :: a in s.namespaces && b in s.namespaces && s.namespaces[a] == s.namespaces[b] ==> a == b)
    && (forall id: SocketId :: id < |s.origins| ==> s.origins[id].namespace < |s.members|)
  }

  predicate Bound(s: Shared, task: Task) {
    task.Join? ==> task.namespace < |s.members|
  }

  ghost predicate Joined(c: Config) {
    Filed(c.shared) && forall i :: 0 <= i < |c.tasks| ==> Bound(c.shared, c.tasks[i])
  }

  lemma SpawnKeeps(c: Config, task: Task)
    requires Invariant(c) && Joined(c) && IsEntry(task)
    ensures Invariant(Step(c, Spawn(task))) && Joined(Step(c, Spawn(task)))
  {
    var t := Step(c, Spawn(task));
    assert t.shared == c.shared;
    assert forall d, id: SocketId :: Index(d, id) in c.tasks ==> Index(d, id) in t.tasks;
  }

  /** Which tasks there are after one of them has taken a step. */
  lemma TasksAfter(c: Config, i: nat, task: Task)
    requires i < |c.tasks|
    ensures forall d, id: SocketId :: Index(d, id) in c.tasks ==>
              Index(d, id) in c.tasks[i := task] || c.tasks[i] == Index(d, id)
    ensures task in c.tasks[i := task]
  {
    var tasks := c.tasks[i := task];
    assert tasks[i] == task;
    forall d, id: SocketId | Index(d, id) in c.tasks && c.tasks[i] != Index(d, id)
      ensures Index(d, id) in tasks
    {
      var k :| 0 <= k < |c.tasks| && c.tasks[k] == Index(d, id);
      assert tasks[k] == Index(d, id);
    }
  }

  lemma JoinKeeps(c: Config, i: nat, pick: SocketId)
    requires Invariant(c) && i < |c.tasks| && c.tasks[i].Join?
    ensures Invariant(Step(c, Advance(i, pick)))
  {
    var t := Step(c, Advance(i, pick));
    TasksAfter(c, i, t.tasks[i]);
    var d, id := c.tasks[i].c, |c.shared.origins|;
    assert forall e, k: SocketId :: Owns(t.shared, e, k) ==>
             Owns(c.shared, e, k) || (e == d && k == id && Index(e, k) in t.tasks);
    assert forall e, k: SocketId :: CreatedFor(c.shared, e, k) ==> CreatedFor(t.shared, e, k) && k < id;
    forall k: nat | k < |t.tasks| && k != i
      ensures TaskTrue(t.shared, t.tasks[k]) && !Mentions(t.tasks[k], id)
    {
      assert TaskTrue(c.shared, c.tasks[k]);
    }
  }

  lemma PutConnectionKeeps(c: Config, i: nat, pick: SocketId)
    requires Invariant(c) && i < |c.tasks| && c.tasks[i].PutConnection?
    ensures Invariant(Step(c, Advance(i, pick)))
  {
    var t := Step(c, Advance(i, pick));
    TasksAfter(c, i, t.tasks[i]);
    var d, id := c.tasks[i].c, c.tasks[i].id;
    assert TaskTrue(c.shared, c.tasks[i]) && Mentions(c.tasks[i], id);
    assert forall e, k: SocketId :: Owns(t.shared, e, k) ==> (Owns(c.shared, e, k) && e != d) || (e == d && k == id);
    assert forall k: nat :: k < |t.tasks| && k != i ==> t.tasks[k] == c.tasks[k] && !Mentions(t.tasks[k], id);
  }

  lemma IndexKeeps(c: Config, i: nat, pick: SocketId)
    requires Invariant(c) && i < |c.tasks| && c.tasks[i].Index?
    ensures Invariant(Step(c, Advance(i, pick)))
  {
    var t := Step(c, Advance(i, pick));
    TasksAfter(c, i, t.tasks[i]);
    assert TaskTrue(c.shared, c.tasks[i]);
    assert forall e, k: SocketId :: Owns(t.shared, e, k) <==> Owns(c.shared, e, k);
  }

  lemma RemoveKeeps(c: Config, i: nat, pick: SocketId)
    requires Invariant(c) && i < |c.tasks| && c.tasks[i].Remove?
    ensures Invariant(Step(c, Advance(i, pick)))
  {
    var t := Step(c, Advance(i, pick));
    TasksAfter(c, i, t.tasks[i]);
    var d := c.tasks[i].c;
    assert forall e, k: SocketId :: Owns(t.shared, e, k) <==> Owns(c.shared, e, k) && e != d;
    assert forall k: SocketId :: Mentions(t.tasks[i], k) ==> Owns(c.shared, d, k) && CreatedFor(c.shared, d, k);
    forall k: nat | k < |t.tasks|
      ensures TaskTrue(t.shared, t.tasks[k])
    {
      if k == i {
        assert forall id: SocketId :: t.tasks[i].Unindex? && id in t.tasks[i].ids ==> Mentions(t.tasks[i], id);
      } else {
        assert TaskTrue(c.shared, c.tasks[k]);
      }
    }
  }

  lemma UnindexKeeps(c: Config, i: nat, pick: SocketId)
    requires Invariant(c) && i < |c.tasks| && c.tasks[i].Unindex?
    ensures Invariant(Step(c, Advance(i, pick)))
  {
    var t := Step(c, Advance(i, pick));
    TasksAfter(c, i, t.tasks[i]);
    assert forall e, k: SocketId :: Owns(t.shared, e, k) <==> Owns(c.shared, e, k);
    forall k: nat | k < |t.tasks|
      ensures TaskTrue(t.shared, t.tasks[k])
    {
      assert TaskTrue(c.shared, c.tasks[k]);
    }
    assert forall k: SocketId :: Mentions(t.tasks[i], k) ==> Mentions(c.tasks[i], k);
    assert pick in c.tasks[i].ids ==> Mentions(c.tasks[i], pick);
  }

  lemma NamespaceKeeps(c: Config, i: nat, pick: SocketId)
    requires Invariant(c) && i < |c.tasks|
    requires c.tasks[i].FindNamespace? || c.tasks[i].PutNamespace? || c.tasks[i].Finished?
    ensures Invariant(Step(c, Advance(i, pick)))
  {
    var t := Step(c, Advance(i, pick));
    TasksAfter(c, i, t.tasks[i]);
    assert forall e, k: SocketId :: Owns(t.shared, e, k) <==> Owns(c.shared, e, k);
    forall k: nat | k < |t.tasks|
      ensures TaskTrue(t.shared, t.tasks[k])
    {
      assert k != i ==> TaskTrue(c.shared, c.tasks[k]);
    }
  }

  lemma TaskStepFiles(s: Shared, task: Task, pick: SocketId)
    requires Filed(s) && Bound(s, task)
    ensures var (s', task') := TaskStep(s, task, pick); Filed(s') && Bound(s', task') && |s.members| <= |s'.members|
  {
    var s' := TaskStep(s, task, pick).0;
    if task.Join? {
      CreateSocketFiles(s, task.c, task.namespace);
    } else if task.PutNamespace? {
      forall n, id: SocketId | 0 <= n < |s'.members|
        ensures id in s'.members[n] <==> CreatedIn(s', n, id)
      {
        assert CreatedIn(s', n, id) <==> CreatedIn(s, n, id);
      }
    } else {
      assert forall n, id: SocketId :: CreatedIn(s', n, id) <==> CreatedIn(s, n, id);
    }
  }

  lemma CreateSocketFiles(s: Shared, c: ConnectionId, namespace: NamespaceRef)
    requires Filed(s) && namespace < |s.members|
    ensures Filed(CreateSocket(s, c, namespace))
    ensures forall connections :: Filed(CreateSocket(s, c, namespace).(connections := connections))
  {
    var s' := CreateSocket(s, c, namespace);
    assert forall n, id: SocketId :: CreatedIn(s', n, id) <==>
             CreatedIn(s, n, id) || (n == namespace && id == |s.origins|);
    forall connections
      ensures Filed(s'.(connections := connections))
    {
      assert forall n, id: SocketId :: CreatedIn(s'.(connections := connections), n, id) <==> CreatedIn(s', n, id);
    }
  }

  lemma AdvanceJoined(c: Config, i: nat, pick: SocketId)
    requires Joined(c) && i < |c.tasks|
    ensures Joined(Step(c, Advance(i, pick)))
  {
    hide Filed, TaskStep;
    TaskStepFiles(c.shared, c.tasks[i], pick);
  }

  lemma StepKeeps(c: Config, action: Action)
    requires Invariant(c) && Joined(c)
    ensures Invariant(Step(c, action)) && Joined(Step(c, action))
  {
    hide Invariant, Joined, TaskStep;
    match action
    case Spawn(task) =>
      if IsEntry(task) {
        SpawnKeeps(c, task);
      }
    case Advance(i, pick) =>
      if i < |c.tasks| {
        AdvanceJoined(c, i, pick);
        match c.tasks[i] {
          case Join(_, _) => JoinKeeps(c, i, pick);
          case PutConnection(_, _) => PutConnectionKeeps(c, i, pick);
          case Index(_, _) => IndexKeeps(c, i, pick);
          case Remove(_) => RemoveKeeps(c, i, pick);
          case Unindex(_) => UnindexKeeps(c, i, pick);
          case _ => NamespaceKeeps(c, i, pick);
        }
      }
  }

  lemma {:induction false} RunKeeps(c: Config, actions: seq<Action>)
    requires Invariant(c) && Joined(c)
    ensures Invariant(Run(c, actions)) && Joined(Run(c, actions))
    decreases actions
  {
    hide Invariant, Joined, Step;
    if actions != [] {
      StepKeeps(c, actions[0]);
      RunKeeps(Step(c, actions[0]), actions[1..]);
    }
  }

  lemma Reachable(actions: seq<Action>)
    ensures Invariant(Run(BEGIN, actions)) && Joined(Run(BEGIN, actions))
  {
    RunKeeps(BEGIN, actions);
  }

  // What holds however the handlers interleave.

  /** Every socket of a stored connection is looked up to that connection, or the task that
      will enter it is still under way; no lookup leads to a connection other than the one the
      socket was created under; and no two connections share a socket. */
  lemma LookupUnderRaces(actions: seq<Action>)
    ensures var c := Run(BEGIN, actions);
            var s := c.shared;
            && (forall d, id: SocketId :: Owns(s, d, id) ==>
                  (id in s.lookup && s.lookup[id] == d) || Index(d, id) in c.tasks)
            && (forall id: SocketId :: id in s.lookup ==> CreatedFor(s, s.lookup[id], id))
            && (forall d, e, id: SocketId :: Owns(s, d, id) && Owns(s, e, id) ==> d == e)
  {
    Reachable(actions);
    var s := Run(BEGIN, actions).shared;
    assert forall d, id: SocketId :: Owns(s, d, id) ==> CreatedFor(s, d, id);
  }

  predicate AtRest(c: Config) {
    forall i :: 0 <= i < |c.tasks| ==> c.tasks[i] == Finished
  }

  /** When all handlers are through, every socket of a stored connection can be looked up. */
  lemma LookupAtRest(actions: seq<Action>)
    requires AtRest(Run(BEGIN, actions))
    ensures var s := Run(BEGIN, actions).shared;
            forall d, id: SocketId :: Owns(s, d, id) ==> id in s.lookup && s.lookup[id] == d
  {
    hide Run;
    LookupUnderRaces(actions);
  }

  /** A socket is a member of the namespace object that it was created for, and of no other. */
  lemma MembersUnderRaces(actions: seq<Action>, n: NamespaceRef, id: SocketId)
    ensures var s := Run(BEGIN, actions).shared;
            n < |s.members| ==> (id in s.members[n] <==> id < |s.origins| && s.origins[id].namespace == n)
  {
    Reachable(actions);
    assert CreatedIn(Run(BEGIN, actions).shared, n, id) || !CreatedIn(Run(BEGIN, actions).shared, n, id);
  }

  /** The socket is in the lookup, but no connection has it and no task will see to it. */
  ghost predicate Stale(c: Config, id: SocketId) {
    && id in c.shared.lookup
    && (forall d :: !Owns(c.shared, d, id))
    && (forall i :: 0 <= i < |c.tasks| ==> !Mentions(c.tasks[i], id))
  }

  /** Such an entry stays in the lookup for good. */
  lemma StaleForever(before: seq<Action>, after: seq<Action>, id: SocketId)
    requires Stale(Run(BEGIN, before), id)
    ensures Stale(Run(Run(BEGIN, before), after), id)
  {
    Reachable(before);
    RunStaysStale(Run(BEGIN, before), after, id);
  }

  lemma {:induction false} RunStaysStale(c: Config, actions: seq<Action>, id: SocketId)
    requires Invariant(c) && Joined(c) && Stale(c, id)
    ensures Stale(Run(c, actions), id)
    decreases actions
  {
    hide Invariant, Joined, Stale, Step;
    if actions != [] {
      StepKeeps(c, actions[0]);
      StepStaysStale(c, actions[0], id);
      RunStaysStale(Step(c, actions[0]), actions[1..], id);
    }
  }

  lemma StepStaysStale(c: Config, action: Action, id: SocketId)
    requires Invariant(c) && Stale(c, id)
    ensures Stale(Step(c, action), id)
  {
    if action.Advance? && action.i < |c.tasks| {
      var t := Step(c, action);
      var i := action.i;
      assert id < |c.shared.origins|;
      assert forall k: SocketId :: Mentions(c.tasks[i], k) ==> k != id;
      assert !Mentions(t.tasks[i], id) by {
        if c.tasks[i].Remove? {
          assert !Owns(c.shared, c.tasks[i].c, id);
        }
      }
      forall d
        ensures !Owns(t.shared, d, id)
      {
        assert !Owns(c.shared, d, id);
      }
    }
  }
}
