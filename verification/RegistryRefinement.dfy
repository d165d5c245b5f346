/** A handler of the registry that is let run without interruption does, step by step, what
    the module `Registry` says that it does in one go. */
module RegistryRefinement {
  import opened RegistryInterleaving
  import Registry
  import RegistryLaws

  /** The interleaved state tells the same as the other one. */
  ghost predicate Models(s: Shared, r: Registry.State) {
    && s.connections.Keys == r.connections.Keys
    && (forall d :: d in s.connections ==> s.connections[d] == r.connections[d].sockets.Keys)
    && s.lookup == r.lookup
    && NamespacesAgree(s, r)
    && |s.origins| == r.next
  }

  ghost predicate NamespacesAgree(s: Shared, r: Registry.State) {
    && s.namespaces.Keys == r.namespaces.Keys
    && forall name :: name in s.namespaces ==>
         s.namespaces[name] < |s.members| && s.members[s.namespaces[name]] == r.namespaces[name].socketIds
  }

  /** Task `i` takes its next step. */
  lemma Go(start: Config, actions: seq<Action>, c: Config, i: nat, pick: SocketId)
    returns (actions': seq<Action>, c': Config)
    requires Run(start, actions) == c && i < |c.tasks|
    ensures Run(start, actions') == c' && actions' == actions + [Advance(i, pick)]
    ensures |c'.tasks| == |c.tasks| && c'.tasks == c.tasks[i := c'.tasks[i]]
    ensures (c'.shared, c'.tasks[i]) == TaskStep(c.shared, c.tasks[i], pick)
  {
    hide Run, TaskStep;
    RunSnoc(start, actions, Advance(i, pick));
    actions' := actions + [Advance(i, pick)];
    c' := Step(c, Advance(i, pick));
  }

  /** Only task `i` takes steps. */
  predicate Only(actions: seq<Action>, i: nat) {
    forall k :: 0 <= k < |actions| ==> actions[k].Advance? && actions[k].i == i
  }

  /** The first steps find the namespace or make it. */
  lemma FindAlone(c: Config, i: nat, name: string, r: Registry.State) returns (actions: seq<Action>, c': Config)
    requires i < |c.tasks| && c.tasks[i].FindNamespace? && c.tasks[i].name == name == Registry.WithSlash(name)
    requires Filed(c.shared) && Models(c.shared, r)
    ensures Run(c, actions) == c' && Only(actions, i)
    ensures |c'.tasks| == |c.tasks| && c'.tasks == c.tasks[i := c'.tasks[i]]
    ensures Filed(c'.shared) && Models(c'.shared, Registry.GetOrCreate(r, name, Registry.TopLevel))
    ensures name in c'.shared.namespaces && c'.tasks[i] == Join(c.tasks[i].c, c'.shared.namespaces[name])
  {
    hide Run, Filed, Registry.WithSlash, Models;
    TaskStepFiles(c.shared, c.tasks[i], 0);
    RunNothing(c);
    actions, c' := Go(c, [], c, i, 0);
    SameNames(c.shared, r);
    if name !in c.shared.namespaces {
      TaskStepFiles(c'.shared, c'.tasks[i], 0);
      PutAgrees(c.shared, r, c.tasks[i].c, name);
      actions, c' := Go(c, actions, c', i, 0);
    }
  }

  lemma SameNames(s: Shared, r: Registry.State)
    requires Models(s, r)
    ensures s.namespaces.Keys == r.namespaces.Keys
  {
  }

  /** What the making of a namespace does to them. */
  lemma PutAgrees(s: Shared, r: Registry.State, d: ConnectionId, name: string)
    requires Models(s, r) && name !in s.namespaces && name == Registry.WithSlash(name)
    ensures Models(TaskStep(s, PutNamespace(d, name), 0).0, Registry.GetOrCreate(r, name, Registry.TopLevel))
  {
  }

  lemma RunNothing(c: Config)
    ensures Run(c, []) == c
  {
  }

  /** What a join does to the namespaces. */
  lemma CreateAgrees(s: Shared, r: Registry.State, name: string, d: ConnectionId)
    requires Filed(s) && NamespacesAgree(s, r) && |s.origins| == r.next && name in s.namespaces
    ensures NamespacesAgree(CreateSocket(s, d, s.namespaces[name]), Registry.CreateSocket(r, name, d))
  {
  }

  /** The state after a join's last three steps. */
  function AfterJoin(s: Shared, d: ConnectionId, namespace: NamespaceRef): Shared {
    var id := |s.origins|;
    var sockets := if d in s.connections then s.connections[d] + {id} else {id};
    CreateSocket(s, d, namespace).(connections := s.connections[d := sockets], lookup := s.lookup[id := d])
  }

  lemma JoinAlone(start: Config, before: seq<Action>, c: Config, i: nat, d: ConnectionId, namespace: NamespaceRef)
    returns (actions: seq<Action>)
    requires Run(start, before) == c && Only(before, i) && i < |c.tasks| && c.tasks[i] == Join(d, namespace)
    ensures Only(actions, i) && Run(start, actions) == Config(AfterJoin(c.shared, d, namespace), c.tasks[i := Finished])
  {
    hide Run, CreateSocket;
    var c';
    CreateLeaves(c.shared, d, namespace);
    actions, c' := Go(start, before, c, i, 0);
    if d !in c.shared.connections {
      actions, c' := Go(start, actions, c', i, 0);
    }
    actions, c' := Go(start, actions, c', i, 0);
  }

  lemma CreateLeaves(s: Shared, d: ConnectionId, namespace: NamespaceRef)
    ensures CreateSocket(s, d, namespace).lookup == s.lookup
    ensures CreateSocket(s, d, namespace).connections == s.connections
  {
  }

  lemma JoinAgrees(s: Shared, r: Registry.State, name: string, d: ConnectionId)
    requires Filed(s) && Models(s, r) && RegistryLaws.NoRecords(r) && name in s.namespaces
    ensures Models(AfterJoin(s, d, s.namespaces[name]), Registry.AddConnection(r, name, d).0)
  {
    hide Filed;
    CreateAgrees(s, r, name, d);
    SameNamespaces(CreateSocket(s, d, s.namespaces[name]), AfterJoin(s, d, s.namespaces[name]),
                   Registry.CreateSocket(r, name, d), Registry.AddConnection(r, name, d).0);
  }

  /** A client's joining, uninterrupted. */
  lemma ConnectAlone(c: Config, i: nat, name: string, r: Registry.State) returns (actions: seq<Action>)
    requires i < |c.tasks| && c.tasks[i].FindNamespace? && c.tasks[i].name == name == Registry.WithSlash(name)
    requires Filed(c.shared) && Models(c.shared, r) && RegistryLaws.NoRecords(r)
    ensures Only(actions, i)
    ensures Run(c, actions).tasks == c.tasks[i := Finished]
    ensures Models(Run(c, actions).shared, Registry.ConnectClient(r, name, c.tasks[i].c).0)
  {
    hide Run, Filed, Models, AfterJoin;
    var found := Registry.GetOrCreate(r, name, Registry.TopLevel);
    var c';
    actions, c' := FindAlone(c, i, name, r);
    actions := JoinAlone(c, actions, c', i, c.tasks[i].c, c'.shared.namespaces[name]);
    JoinAgrees(c'.shared, found, name, c.tasks[i].c);
    assert c'.tasks[i := Finished] == c.tasks[i := Finished];
  }

  lemma SameNamespaces(s: Shared, s': Shared, r: Registry.State, r': Registry.State)
    requires NamespacesAgree(s, r)
    requires s'.namespaces == s.namespaces && s'.members == s.members && r'.namespaces == r.namespaces
    ensures NamespacesAgree(s', r')
  {
  }

  /** The sweep over the lookup takes its sockets in any order. */
  lemma {:induction false} SweepAlone(start: Config, before: seq<Action>, c: Config, i: nat, ids: set<SocketId>)
    returns (actions: seq<Action>)
    requires Run(start, before) == c && Only(before, i) && i < |c.tasks| && c.tasks[i] == Unindex(ids)
    ensures Only(actions, i)
    ensures Run(start, actions) == Config(c.shared.(lookup := c.shared.lookup - ids), c.tasks[i := Finished])
    decreases ids
  {
    hide Run;
    if ids == {} {
      var c';
      actions, c' := Go(start, before, c, i, 0);
      assert c.shared.lookup - ids == c.shared.lookup;
    } else {
      var pick :| pick in ids;
      var next, c' := Go(start, before, c, i, pick);
      actions := SweepAlone(start, next, c', i, ids - {pick});
      assert c.shared.lookup - {pick} - (ids - {pick}) == c.shared.lookup - ids;
      assert c.tasks[i := c'.tasks[i]][i := Finished] == c.tasks[i := Finished];
    }
  }

  /** The closing of a connection, uninterrupted. */
  lemma CloseAlone(c: Config, i: nat, r: Registry.State) returns (actions: seq<Action>)
    requires i < |c.tasks| && c.tasks[i].Remove?
    requires Models(c.shared, r) && RegistryLaws.NoRecords(r)
    ensures Only(actions, i)
    ensures Run(c, actions).tasks == c.tasks[i := Finished]
    ensures Models(Run(c, actions).shared, Registry.RemoveConnection(r, c.tasks[i].c))
  {
    hide Run;
    var d := c.tasks[i].c;
    RunNothing(c);
    var c';
    actions, c' := Go(c, [], c, i, 0);
    if d in c.shared.connections {
      RegistryLaws.DropDoesNothing(r.namespaces);
      actions := SweepAlone(c, actions, c', i, c.shared.connections[d]);
    }
  }
}
