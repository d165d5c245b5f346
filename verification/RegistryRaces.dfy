/** When the registry keeps its promises while its handlers interleave: exact conditions on the
    runs, and runs that miss them. */
module RegistryRaces {
  import opened RegistryInterleaving

  // When the lookup is the inverse of the socket sets.

  /** Connections and lookup say the same of every socket. */
  ghost predicate IsInverse(s: Shared) {
    forall d, id: SocketId :: Owns(s, d, id) <==> id in s.lookup && s.lookup[id] == d
  }

  /** A close has still to sweep the socket out of the lookup. */
  predicate SweepPending(c: Config, id: SocketId) {
    exists i :: 0 <= i < |c.tasks| && c.tasks[i].Unindex? && id in c.tasks[i].ids
  }

  /** A connection is stored only where there is none, and a socket entered into the lookup
      only while it is owned or a close has still to sweep it out. */
  predicate InPlace(c: Config, action: Action) {
    action.Advance? && action.i < |c.tasks| ==>
      match c.tasks[action.i]
      case PutConnection(d, _) => d !in c.shared.connections
      case Index(d, id) => Owns(c.shared, d, id) || SweepPending(c, id)
      case _ => true
  }

  /** Stored connections have sockets, and a socket is entered into the lookup after its
      connection has been stored. */
  ghost predicate Stocked(c: Config) {
    && (forall d :: d in c.shared.connections ==> c.shared.connections[d] != {})
    && (forall i, j :: 0 <= i < |c.tasks| && 0 <= j < |c.tasks| && c.tasks[i].Index? && c.tasks[j].PutConnection? ==>
          c.tasks[i].id != c.tasks[j].id)
  }

  lemma StepStocks(c: Config, action: Action)
    requires Invariant(c) && Stocked(c)
    ensures Stocked(Step(c, action))
  {
    hide Indexed;
    if action.Advance? && action.i < |c.tasks| {
      var i := action.i;
      var c' := Step(c, action);
      assert forall k :: 0 <= k < |c.tasks| ==> TaskTrue(c.shared, c.tasks[k]);
      if c.tasks[i].PutConnection? {
        assert forall k :: 0 <= k < |c.tasks| && k != i ==> !Mentions(c.tasks[k], c.tasks[i].id) by {
          assert Mentions(c.tasks[i], c.tasks[i].id);
        }
      }
      assert forall k :: 0 <= k < |c.tasks| && k != i ==> c'.tasks[k] == c.tasks[k];
    }
  }

  /** Every entry of the lookup is owned or about to be swept out. */
  ghost predicate OwnedOrSwept(c: Config) {
    forall id: SocketId :: id in c.shared.lookup ==> Owns(c.shared, c.shared.lookup[id], id) || SweepPending(c, id)
  }

  lemma StepInPlace(c: Config, action: Action)
    requires Invariant(c) && OwnedOrSwept(c) && InPlace(c, action)
    ensures OwnedOrSwept(Step(c, action))
  {
    if action.Advance? && action.i < |c.tasks| {
      var i, c' := action.i, Step(c, action);
      forall id: SocketId | id in c'.shared.lookup
        ensures Owns(c'.shared, c'.shared.lookup[id], id) || SweepPending(c', id)
      {
        EntryStays(c, i, action.pick, id);
      }
    } else if action.Spawn? && IsEntry(action.task) {
      forall id: SocketId | SweepPending(c, id)
        ensures SweepPending(Step(c, action), id)
      {
        var i :| 0 <= i < |c.tasks| && c.tasks[i].Unindex? && id in c.tasks[i].ids;
        assert Step(c, action).tasks[i] == c.tasks[i];
      }
    }
  }

  lemma EntryStays(c: Config, i: nat, pick: SocketId, id: SocketId)
    requires Invariant(c) && OwnedOrSwept(c) && InPlace(c, Advance(i, pick)) && i < |c.tasks|
    requires id in Step(c, Advance(i, pick)).shared.lookup
    ensures var c' := Step(c, Advance(i, pick)); Owns(c'.shared, c'.shared.lookup[id], id) || SweepPending(c', id)
  {
    hide Indexed, MentionedOnce, UnindexedAreGone;
    var c' := Step(c, Advance(i, pick));
    assert TaskTrue(c.shared, c.tasks[i]);
    assert c'.tasks[i] == TaskStep(c.shared, c.tasks[i], pick).1;
    if SweepPending(c, id) {
      var k :| 0 <= k < |c.tasks| && c.tasks[k].Unindex? && id in c.tasks[k].ids;
      assert k != i ==> c'.tasks[k] == c.tasks[k];
    }
  }

  /** Nobody has the socket, nobody will store it or sweep it out, and it is in the lookup or
      about to be entered. */
  ghost predicate Doomed(c: Config, id: SocketId) {
    && id < |c.shared.origins|
    && (forall d :: !Owns(c.shared, d, id))
    && (forall i :: 0 <= i < |c.tasks| ==> !Mentions(c.tasks[i], id))
    && (id in c.shared.lookup || exists d :: Index(d, id) in c.tasks)
  }

  lemma StepStaysDoomed(c: Config, action: Action, id: SocketId)
    requires Doomed(c, id)
    ensures Doomed(Step(c, action), id)
  {
    var c' := Step(c, action);
    if action.Advance? && action.i < |c.tasks| {
      var i := action.i;
      TasksAfter(c, i, c'.tasks[i]);
      assert !Mentions(c.tasks[i], id);
      assert !Mentions(c'.tasks[i], id) by {
        if c.tasks[i].Remove? {
          assert !Owns(c.shared, c.tasks[i].c, id);
        }
      }
      forall d
        ensures !Owns(c'.shared, d, id)
      {
        assert !Owns(c.shared, d, id);
      }
    } else {
      assert forall d :: Index(d, id) in c.tasks ==> Index(d, id) in c'.tasks;
    }
  }

  lemma {:induction false} RunStaysDoomed(c: Config, actions: seq<Action>, id: SocketId)
    requires Doomed(c, id)
    ensures Doomed(Run(c, actions), id)
    decreases actions
  {
    hide Doomed, Step;
    if actions != [] {
      StepStaysDoomed(c, actions[0], id);
      RunStaysDoomed(Step(c, actions[0]), actions[1..], id);
    }
  }

  /** A step out of place dooms a socket: one of the overwritten connection, or the one that
      is entered. */
  lemma OutOfPlace(c: Config, action: Action) returns (id: SocketId)
    requires Invariant(c) && Stocked(c) && !InPlace(c, action)
    ensures Doomed(Step(c, action), id)
  {
    var i, c' := action.i, Step(c, action);
    TasksAfter(c, i, c'.tasks[i]);
    assert TaskTrue(c.shared, c.tasks[i]);
    var d := c.tasks[i].c;
    if c.tasks[i].PutConnection? {
      id :| id in c.shared.connections[d];
      assert Owns(c.shared, d, id) && CreatedFor(c.shared, d, id);
      assert Mentions(c.tasks[i], c.tasks[i].id) && !Mentions(c.tasks[i], id);
      assert forall e :: Owns(c.shared, e, id) ==> CreatedFor(c.shared, e, id);
    } else {
      id := c.tasks[i].id;
      assert forall e :: Owns(c.shared, e, id) ==> CreatedFor(c.shared, e, id) && e == d;
    }
    forall e
      ensures !Owns(c'.shared, e, id)
    {
      assert Owns(c.shared, e, id) ==> CreatedFor(c.shared, e, id);
      assert c.tasks[i].PutConnection? && e == d ==> c'.shared.connections[d] == {c.tasks[i].id};
    }
  }

  lemma {:induction false} OwnedOrSweptFrom(c: Config, actions: seq<Action>)
    requires Invariant(c) && Joined(c) && Stocked(c) && OwnedOrSwept(c)
    ensures EachStep(InPlace, c, actions) ==> OwnedOrSwept(Run(c, actions))
    ensures !EachStep(InPlace, c, actions) ==> exists id: SocketId :: Doomed(Run(c, actions), id)
    decreases actions
  {
    hide Invariant, Joined, Stocked, OwnedOrSwept, InPlace, Doomed, Step;
    if actions != [] {
      var next := Step(c, actions[0]);
      assert Run(c, actions) == Run(next, actions[1..]);
      StepKeeps(c, actions[0]);
      StepStocks(c, actions[0]);
      if InPlace(c, actions[0]) {
        StepInPlace(c, actions[0]);
        OwnedOrSweptFrom(next, actions[1..]);
        if !EachStep(InPlace, next, actions[1..]) {
          var id: SocketId :| Doomed(Run(next, actions[1..]), id);
          assert Doomed(Run(c, actions), id);
        }
      } else {
        var id := OutOfPlace(c, actions[0]);
        RunStaysDoomed(next, actions[1..], id);
        assert Doomed(Run(c, actions), id);
      }
    }
  }

  /** When all handlers are through, the lookup is exactly the inverse of the socket sets if
      and only if no connection was stored over another one and no socket was entered into the
      lookup after its connection had gone and been swept. */
  lemma InverseIff(actions: seq<Action>)
    requires AtRest(Run(BEGIN, actions))
    ensures IsInverse(Run(BEGIN, actions).shared) <==> EachStep(InPlace, BEGIN, actions)
  {
    hide Run, InPlace;
    var c := Run(BEGIN, actions);
    LookupAtRest(actions);
    OwnedOrSweptFrom(BEGIN, actions);
    if !EachStep(InPlace, BEGIN, actions) {
      var id: SocketId :| Doomed(c, id);
      assert !Owns(c.shared, c.shared.lookup[id], id);
    }
  }

  // When every namespace is filed.

  predicate IsFiled(s: Shared, n: NamespaceRef) {
    exists name :: name in s.namespaces && s.namespaces[name] == n
  }

  /** No namespace has been made that cannot be found under its name any more. */
  predicate AllFiled(s: Shared) {
    forall n :: 0 <= n < |s.members| ==> IsFiled(s, n)
  }

  /** A namespace is filed only where there is none of its name. */
  predicate FilesAnew(c: Config, action: Action) {
    action.Advance? && action.i < |c.tasks| && c.tasks[action.i].PutNamespace? ==>
      c.tasks[action.i].name !in c.shared.namespaces
  }

  lemma StepFilesAnew(c: Config, action: Action)
    requires AllFiled(c.shared) && FilesAnew(c, action)
    ensures AllFiled(Step(c, action).shared)
  {
    var s, s' := c.shared, Step(c, action).shared;
    forall n | 0 <= n < |s'.members|
      ensures IsFiled(s', n)
    {
      if n < |s.members| {
        assert IsFiled(s, n);
        var name :| name in s.namespaces && s.namespaces[name] == n;
        assert name in s'.namespaces && s'.namespaces[name] == n;
      } else {
        assert s'.namespaces[c.tasks[action.i].name] == n;
      }
    }
  }

  /** A namespace filed over another one takes that one's only name. */
  lemma StepFilesOver(c: Config, action: Action) returns (n: NamespaceRef)
    requires Filed(c.shared) && !FilesAnew(c, action)
    ensures n < |Step(c, action).shared.members| && !IsFiled(Step(c, action).shared, n)
  {
    n := c.shared.namespaces[c.tasks[action.i].name];
  }

  lemma StepStaysUnfiled(c: Config, action: Action, n: NamespaceRef)
    requires n < |c.shared.members| && !IsFiled(c.shared, n)
    ensures n < |Step(c, action).shared.members| && !IsFiled(Step(c, action).shared, n)
  {
    var s, s' := c.shared, Step(c, action).shared;
    assert forall name :: name in s'.namespaces && s'.namespaces[name] == n ==> name in s.namespaces;
  }

  lemma {:induction false} RunStaysUnfiled(c: Config, actions: seq<Action>, n: NamespaceRef)
    requires n < |c.shared.members| && !IsFiled(c.shared, n)
    ensures !AllFiled(Run(c, actions).shared)
    decreases actions
  {
    hide IsFiled, Step;
    if actions != [] {
      StepStaysUnfiled(c, actions[0], n);
      RunStaysUnfiled(Step(c, actions[0]), actions[1..], n);
    }
  }

  lemma {:induction false} AllFiledFrom(c: Config, actions: seq<Action>)
    requires Invariant(c) && Joined(c) && AllFiled(c.shared)
    ensures AllFiled(Run(c, actions).shared) <==> EachStep(FilesAnew, c, actions)
    decreases actions
  {
    hide Invariant, Joined, AllFiled, FilesAnew, Step, IsFiled;
    if actions != [] {
      StepKeeps(c, actions[0]);
      if FilesAnew(c, actions[0]) {
        StepFilesAnew(c, actions[0]);
        AllFiledFrom(Step(c, actions[0]), actions[1..]);
      } else {
        JoinedFiled(c);
        var n := StepFilesOver(c, actions[0]);
        RunStaysUnfiled(Step(c, actions[0]), actions[1..], n);
      }
    }
  }

  lemma JoinedFiled(c: Config)
    requires Joined(c)
    ensures Filed(c.shared)
  {
  }

  /** Every namespace ever made can be found under its name if and only if none was put where
      another had been put since its name was looked for. */
  lemma AllFiledIff(actions: seq<Action>)
    ensures AllFiled(Run(BEGIN, actions).shared) <==> EachStep(FilesAnew, BEGIN, actions)
  {
    AllFiledFrom(BEGIN, actions);
  }

  // Runs that miss the conditions.

  lemma SpawnBoth(first: Task, second: Task) returns (actions: seq<Action>)
    requires IsEntry(first) && IsEntry(second)
    ensures Run(BEGIN, actions) == Config(START, [first, second])
  {
    hide IsEntry;
    actions := [Spawn(first)] + [Spawn(second)];
    assert [Spawn(first)][1..] == [];
    assert [] + [first] == [first] && [first] + [second] == [first, second];
    RunSnoc(BEGIN, [Spawn(first)], Spawn(second));
  }

  /** The first of two tasks takes its next step. */
  lemma First(actions: seq<Action>, s: Shared, first: Task, second: Task)
    returns (actions': seq<Action>, s': Shared, first': Task)
    requires Run(BEGIN, actions) == Config(s, [first, second])
    ensures Run(BEGIN, actions') == Config(s', [first', second]) && (s', first') == TaskStep(s, first, 0)
  {
    hide Run, TaskStep;
    RunSnoc(BEGIN, actions, Advance(0, 0));
    actions' := actions + [Advance(0, 0)];
    s', first' := TaskStep(s, first, 0).0, TaskStep(s, first, 0).1;
    assert [first, second][0 := first'] == [first', second];
  }

  lemma Second(actions: seq<Action>, s: Shared, first: Task, second: Task)
    returns (actions': seq<Action>, s': Shared, second': Task)
    requires Run(BEGIN, actions) == Config(s, [first, second])
    ensures Run(BEGIN, actions') == Config(s', [first, second']) && (s', second') == TaskStep(s, second, 0)
  {
    hide Run, TaskStep;
    RunSnoc(BEGIN, actions, Advance(1, 0));
    actions' := actions + [Advance(1, 0)];
    s', second' := TaskStep(s, second, 0).0, TaskStep(s, second, 0).1;
    assert [first, second][1 := second'] == [first, second'];
  }

  /** A client whose first two joins race: both make a connection, the second overwrites the
      first, and the first's socket is left in the lookup with nobody to have it. */
  lemma FirstConnectsRace(d: ConnectionId, name: string)
    ensures exists actions :: AtRest(Run(BEGIN, actions)) && Stale(Run(BEGIN, actions), 0)
  {
    hide Run;
    var s, first, second := START, FindNamespace(d, name), FindNamespace(d, name);
    var actions := SpawnBoth(first, second);
    actions, s, first := First(actions, s, first, second);
    actions, s, first := First(actions, s, first, second);
    actions, s, first := First(actions, s, first, second);
    assert first == PutConnection(d, 0);
    actions, s, second := Second(actions, s, first, second);
    actions, s, second := Second(actions, s, first, second);
    assert second == PutConnection(d, 1);
    actions, s, first := First(actions, s, first, second);
    actions, s, second := Second(actions, s, first, second);
    assert s.connections == map[d := {1}];
    actions, s, first := First(actions, s, first, second);
    actions, s, second := Second(actions, s, first, second);
    assert AtRest(Config(s, [first, second])) && Stale(Config(s, [first, second]), 0);
  }

  /** A close between a join's two writes: the socket is entered into the lookup after the
      close has swept it. */
  lemma CloseOvertakesIndex(d: ConnectionId, name: string)
    ensures exists actions :: AtRest(Run(BEGIN, actions)) && Stale(Run(BEGIN, actions), 0)
                              && Run(BEGIN, actions).shared.connections == map[]
  {
    hide Run;
    var s, first, second := START, FindNamespace(d, name), Remove(d);
    var actions := SpawnBoth(first, second);
    actions, s, first := First(actions, s, first, second);
    actions, s, first := First(actions, s, first, second);
    actions, s, first := First(actions, s, first, second);
    actions, s, first := First(actions, s, first, second);
    assert first == Index(d, 0) && s.connections == map[d := {0}];
    actions, s, second := Second(actions, s, first, second);
    assert second == Unindex({0}) && s.connections == map[];
    actions, s, second := Second(actions, s, first, second);
    actions, s, second := Second(actions, s, first, second);
    actions, s, first := First(actions, s, first, second);
    assert AtRest(Config(s, [first, second])) && Stale(Config(s, [first, second]), 0);
  }

  /** Two clients that are the first to join a namespace: each makes one of that name, and the
      first client's socket is in the one that is no longer filed. */
  lemma FirstJoinsRace(d: ConnectionId, e: ConnectionId, name: string)
    requires d != e
    ensures exists actions :: AtRest(Run(BEGIN, actions)) && Parted(Run(BEGIN, actions).shared, d, e, name)
  {
    hide Run;
    var s, first, second := START, FindNamespace(d, name), FindNamespace(e, name);
    var actions := SpawnBoth(first, second);
    actions, s, first := First(actions, s, first, second);
    actions, s, second := Second(actions, s, first, second);
    actions, s, first := First(actions, s, first, second);
    actions, s, second := Second(actions, s, first, second);
    assert first == Join(d, 0) && second == Join(e, 1) && s.namespaces == map[name := 1];
    assert s.members == [{}, {}];
    actions, s, first := First(actions, s, first, second);
    actions, s, first := First(actions, s, first, second);
    actions, s, first := First(actions, s, first, second);
    assert s.members[0] == {0} && s.connections == map[d := {0}];
    actions, s, second := Second(actions, s, first, second);
    actions, s, second := Second(actions, s, first, second);
    actions, s, second := Second(actions, s, first, second);
    assert s.members[1] == {1} && s.connections == map[d := {0}, e := {1}];
    assert AtRest(Config(s, [first, second])) && Parted(s, d, e, name);
  }

  /** Both sockets have joined the name and can be looked up, but only one is in its namespace. */
  predicate Parted(s: Shared, d: ConnectionId, e: ConnectionId, name: string) {
    && Owns(s, d, 0) && Owns(s, e, 1) && s.lookup == map[0 := d, 1 := e]
    && s.namespaces == map[name := 1] && |s.members| == 2 && s.members[1] == {1}
  }
}
