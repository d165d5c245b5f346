/** What every run of the registry keeps. */
module RegistryLaws {
  import opened Wrappers
  import opened Registry

  // The invariant.

  predicate Owns(s: State, c: ConnectionId, id: SocketId) {
    c in s.connections && id in s.connections[c].sockets
  }

  ghost predicate Indexed(s: State) {
    forall c, id :: Owns(s, c, id) <==> id in s.lookup && s.lookup[id] == c
  }

  ghost predicate BornHere(s: State) {
    forall c, id :: Owns(s, c, id) ==> id in s.created && s.created[id] == Birth(c, s.connections[c].sockets[id])
  }

  predicate NoRecords(s: State) {
    forall c :: c in s.connections ==> s.connections[c].records == map[]
  }

  ghost predicate Joined(s: State) {
    && (forall id :: id in s.created ==> id < s.next && s.created[id].namespace in s.namespaces)
    && (forall name, id :: name in s.namespaces ==>
          (id in s.namespaces[name].socketIds <==> id in s.created && s.created[id].namespace == name))
  }

  predicate Named(s: State) {
    forall name :: name in s.namespaces ==> name != "" && name[0] == '/' && s.namespaces[name].name == name
  }

  ghost predicate Parented(s: State) {
    && s.parents.Keys == s.namespaces.Keys
    && (forall name :: name in s.parents ==> ProperParent(s, name))
    && (forall i, name :: 0 <= i < |s.dynamics| ==>
          (name in s.dynamics[i].members <==> IsChild(s, i, name)))
  }

  predicate IsChild(s: State, i: nat, name: string) {
    name in s.parents && s.parents[name].ChildOf? && s.parents[name].index == i
  }

  predicate ProperParent(s: State, name: string)
    requires name in s.parents
  {
    var parent := s.parents[name];
    parent.ChildOf? ==>
      WithSlash(parent.asked) == name && FirstMatch(s.dynamics, parent.asked, parent.auth) == Some(parent.index)
  }

  ghost predicate Invariant(s: State) {
    Indexed(s) && BornHere(s) && NoRecords(s) && Joined(s) && Named(s) && Parented(s)
  }

  // Each handler keeps it.

  lemma GetOrCreateKeeps(s: State, name: string)
    requires Invariant(s)
    ensures Invariant(GetOrCreate(s, name, TopLevel)) && WithSlash(name) in GetOrCreate(s, name, TopLevel).namespaces
  {
    hide Parented;
    var t := GetOrCreate(s, name, TopLevel);
    GetOrCreateParents(s, name);
    if WithSlash(name) !in s.namespaces {
      assert forall c, id :: Owns(t, c, id) <==> Owns(s, c, id);
    }
  }

  lemma GetOrCreateParents(s: State, name: string)
    requires Parented(s)
    ensures Parented(GetOrCreate(s, name, TopLevel))
  {
    hide FirstMatch;
    var t := GetOrCreate(s, name, TopLevel);
    if WithSlash(name) !in s.namespaces {
      forall n | n in t.parents
        ensures ProperParent(t, n)
      {
        assert n != WithSlash(name) ==> ProperParent(s, n);
      }
      forall i, n | 0 <= i < |t.dynamics|
        ensures n in t.dynamics[i].members <==> IsChild(t, i, n)
      {
        assert n in s.dynamics[i].members <==> IsChild(s, i, n);
      }
    }
  }

  /** A descriptor only looks at the matching functions. */
  lemma {:induction false} FirstMatchIgnoresMembers(
    a: seq<DynamicNamespace>, b: seq<DynamicNamespace>, name: string, auth: Auth)
    requires |a| <= |b| && forall i :: 0 <= i < |a| ==> a[i].matches == b[i].matches
    requires FirstMatch(a, name, auth).Some?
    ensures FirstMatch(b, name, auth) == FirstMatch(a, name, auth)
  {
    if !a[0].matches(name, auth) {
      FirstMatchIgnoresMembers(a[1..], b[1..], name, auth);
    }
  }

  lemma ParentsStayProper(s: State, dynamics: seq<DynamicNamespace>)
    requires Invariant(s)
    requires |s.dynamics| <= |dynamics|
    requires forall i :: 0 <= i < |s.dynamics| ==> s.dynamics[i].matches == dynamics[i].matches
    ensures forall name :: name in s.parents ==> ProperParent(s.(dynamics := dynamics), name)
  {
    forall name | name in s.parents
      ensures ProperParent(s.(dynamics := dynamics), name)
    {
      var parent := s.parents[name];
      assert ProperParent(s, name);
      if parent.ChildOf? {
        FirstMatchIgnoresMembers(s.dynamics, dynamics, parent.asked, parent.auth);
      }
    }
  }

  lemma AddDescriptorKeeps(s: State, matches: NameMatch)
    requires Invariant(s)
    ensures Invariant(HandleInput(s, AddDescriptor(matches)))
  {
    hide FirstMatch;
    var dynamics := s.dynamics + [DynamicNamespace(matches, {})];
    var t := s.(dynamics := dynamics);
    ParentsStayProper(s, dynamics);
    assert forall c, id :: Owns(t, c, id) <==> Owns(s, c, id);
    forall i, name | 0 <= i < |dynamics|
      ensures name in dynamics[i].members <==> IsChild(t, i, name)
    {
      if i < |s.dynamics| {
        assert name in s.dynamics[i].members <==> IsChild(s, i, name);
      } else if IsChild(t, i, name) {
        assert ProperParent(s, name);
        FirstMatchInRange(s.dynamics, s.parents[name].asked, s.parents[name].auth);
        assert false;
      }
    }
  }

  lemma MatchDynamicKeeps(s: State, i: nat, name: string, auth: Auth)
    requires Invariant(s) && FirstMatch(s.dynamics, name, auth) == Some(i)
    ensures Invariant(MatchDynamic(s, i, name, auth)) && WithSlash(name) in MatchDynamic(s, i, name, auth).namespaces
  {
    hide Parented, FirstMatch;
    var t := MatchDynamic(s, i, name, auth);
    assert forall c, id :: Owns(t, c, id) <==> Owns(s, c, id);
    if WithSlash(name) !in s.namespaces {
      FirstMatchInRange(s.dynamics, name, auth);
      MatchDynamicParents(s, i, name, auth);
    }
  }

  lemma MatchDynamicParents(s: State, i: nat, name: string, auth: Auth)
    requires Invariant(s) && FirstMatch(s.dynamics, name, auth) == Some(i) && i < |s.dynamics|
    requires WithSlash(name) !in s.namespaces
    ensures Parented(MatchDynamic(s, i, name, auth))
  {
    hide FirstMatch;
    var t := MatchDynamic(s, i, name, auth);
    ParentsStayProper(s, t.dynamics);
    FirstMatchIgnoresMembers(s.dynamics, t.dynamics, name, auth);
    assert t.parents == s.parents[WithSlash(name) := ChildOf(i, name, auth)];
    forall n | n in t.parents
      ensures ProperParent(t, n)
    {
      assert n != WithSlash(name) ==> ProperParent(s.(dynamics := t.dynamics), n);
    }
    forall k, n | 0 <= k < |t.dynamics|
      ensures n in t.dynamics[k].members <==> IsChild(t, k, n)
    {
      assert n in s.dynamics[k].members <==> IsChild(s, k, n);
    }
  }

  lemma AddConnectionKeeps(s: State, namespace: string, c: ConnectionId)
    requires Invariant(s) && namespace in s.namespaces
    ensures Invariant(AddConnection(s, namespace, c).0)
  {
    hide Parented;
    var t := AddConnection(s, namespace, c).0;
    AddConnectionIndexes(s, namespace, c);
    AddConnectionJoins(s, namespace, c);
    assert t.namespaces.Keys == s.namespaces.Keys;
    SameParents(s, t);
  }

  lemma SameParents(s: State, t: State)
    requires Parented(s)
    requires s.parents == t.parents && s.dynamics == t.dynamics && s.namespaces.Keys == t.namespaces.Keys
    ensures Parented(t)
  {
    hide FirstMatch;
    assert forall n :: n in t.parents ==> ProperParent(s, n);
    assert forall i, n :: IsChild(t, i, n) <==> IsChild(s, i, n);
  }

  lemma AddConnectionIndexes(s: State, namespace: string, c: ConnectionId)
    requires Indexed(s) && BornHere(s) && NoRecords(s) && Joined(s) && namespace in s.namespaces
    ensures var t := AddConnection(s, namespace, c).0; Indexed(t) && BornHere(t) && NoRecords(t)
  {
    var (t, id) := AddConnection(s, namespace, c);
    assert id == s.next && id !in s.created;
    assert forall d, i: SocketId :: Owns(t, d, i) <==> Owns(s, d, i) || (d == c && i == id);
  }

  lemma AddConnectionJoins(s: State, namespace: string, c: ConnectionId)
    requires NoRecords(s) && Joined(s) && Named(s) && namespace in s.namespaces
    ensures Joined(AddConnection(s, namespace, c).0) && Named(AddConnection(s, namespace, c).0)
  {
    var t := AddConnection(s, namespace, c).0;
    forall name, id: SocketId | name in t.namespaces
      ensures id in t.namespaces[name].socketIds <==> id in t.created && t.created[id].namespace == name
    {
      assert id in s.namespaces[name].socketIds <==> id in s.created && s.created[id].namespace == name;
    }
  }

  lemma RemoveConnectionKeeps(s: State, c: ConnectionId)
    requires Invariant(s)
    ensures Invariant(RemoveConnection(s, c))
  {
    hide Parented;
    var t := RemoveConnection(s, c);
    if c in s.connections {
      DropDoesNothing(s.namespaces);
      assert forall d, id :: Owns(t, d, id) <==> Owns(s, d, id) && d != c;
      assert forall id :: id in t.lookup <==> id in s.lookup && !Owns(s, c, id);
      SameParents(s, t);
    }
  }

  /** Dropping a connection takes each recorded socket out of its namespace, and nothing else:
      it would do, if there ever were records. */
  lemma DropTakesOutRecorded(
    namespaces: map<string, SimpleNamespace>, records: map<string, SocketId>, name: string, id: SocketId)
    requires name in namespaces
    ensures var dropped := Dropped(namespaces, records);
            && dropped.Keys == namespaces.Keys && dropped[name].name == namespaces[name].name
            && (id in dropped[name].socketIds <==>
                  id in namespaces[name].socketIds && !(name in records && records[name] == id))
  {
  }

  lemma DropDoesNothing(namespaces: map<string, SimpleNamespace>)
    ensures Dropped(namespaces, map[]) == namespaces
  {
  }

  lemma HandleConnectKeeps(s: State, c: ConnectionId, name: string, auth: Auth)
    requires Invariant(s)
    ensures Invariant(HandleConnect(s, c, name, auth).0)
  {
    hide Invariant, GetOrCreate, MatchDynamic, AddConnection;
    if name in s.namespaces {
      ConnectClientKeeps(s, name, c);
    } else if FirstMatch(s.dynamics, name, auth).Some? {
      var i := FirstMatch(s.dynamics, name, auth).value;
      MatchDynamicKeeps(s, i, name, auth);
      ConnectClientKeeps(MatchDynamic(s, i, name, auth), name, c);
    }
  }

  lemma ConnectClientKeeps(s: State, name: string, c: ConnectionId)
    requires Invariant(s)
    ensures Invariant(ConnectClient(s, name, c).0)
  {
    hide Invariant, GetOrCreate, AddConnection;
    GetOrCreateKeeps(s, name);
    AddConnectionKeeps(GetOrCreate(s, name, TopLevel), WithSlash(name), c);
  }

  lemma HandleKeeps(s: State, input: Input)
    requires Invariant(s)
    ensures Invariant(HandleInput(s, input))
  {
    hide Invariant, GetOrCreate, HandleConnect, RemoveConnection;
    match input
    case GetNamespace(name) => GetOrCreateKeeps(s, name);
    case AddDescriptor(matches) => AddDescriptorKeeps(s, matches);
    case Connect(c, name, auth) => HandleConnectKeeps(s, c, name, auth);
    case Close(c) => RemoveConnectionKeeps(s, c);
  }

  lemma {:induction false} RunKeeps(s: State, inputs: seq<Input>)
    requires Invariant(s)
    ensures Invariant(Run(s, inputs))
    decreases |inputs|
  {
    hide Invariant, HandleInput;
    if inputs != [] {
      HandleKeeps(s, inputs[0]);
      RunKeeps(HandleInput(s, inputs[0]), inputs[1..]);
    }
  }

  lemma Reachable(inputs: seq<Input>)
    ensures Invariant(Run(START, inputs))
  {
    RunKeeps(START, inputs);
  }

  // What a user of the server can rely on.

  /** The lookup is exactly the inverse of the connections' socket sets, no socket belongs to
      two connections, and every socket of a connection is in the namespace it joined. */
  lemma LookupIsInverse(inputs: seq<Input>)
    ensures var s := Run(START, inputs);
            && (forall c, id :: Owns(s, c, id) <==> id in s.lookup && s.lookup[id] == c)
            && (forall c, d, id :: Owns(s, c, id) && Owns(s, d, id) ==> c == d)
            && (forall c, id :: Owns(s, c, id) ==>
                  var namespace := s.connections[c].sockets[id];
                  namespace in s.namespaces && id in s.namespaces[namespace].socketIds)
  {
    Reachable(inputs);
    var s := Run(START, inputs);
    assert forall c, id :: Owns(s, c, id) ==> s.created[id] == Birth(c, s.connections[c].sockets[id]);
  }

  /** Namespaces are kept under their own names, which start with a slash, and one that was
      made for a descriptor is a member of the first descriptor that matched, and of no other;
      descriptors have no other members. */
  lemma NamespacesAreFiled(inputs: seq<Input>)
    ensures var s := Run(START, inputs);
            && (forall name :: name in s.namespaces ==> name != "" && name[0] == '/' && s.namespaces[name].name == name)
            && (forall i, name :: 0 <= i < |s.dynamics| && name in s.dynamics[i].members ==>
                  name in s.namespaces && FirstMatched(s, i, name))
            && (forall i, j :: 0 <= i < j < |s.dynamics| ==> s.dynamics[i].members !! s.dynamics[j].members)
            && s.parents.Keys == s.namespaces.Keys
            && (forall name :: name in s.parents && s.parents[name].ChildOf? ==>
                  s.parents[name].index < |s.dynamics| && name in s.dynamics[s.parents[name].index].members)
  {
    Reachable(inputs);
    var s := Run(START, inputs);
    forall name | name in s.parents && s.parents[name].ChildOf?
      ensures s.parents[name].index < |s.dynamics| && name in s.dynamics[s.parents[name].index].members
    {
      assert ProperParent(s, name) && IsChild(s, s.parents[name].index, name);
      FirstMatchInRange(s.dynamics, s.parents[name].asked, s.parents[name].auth);
    }
    forall i, name | 0 <= i < |s.dynamics| && name in s.dynamics[i].members
      ensures name in s.namespaces && FirstMatched(s, i, name)
    {
      assert IsChild(s, i, name) && ProperParent(s, name);
      var parent := s.parents[name];
      FirstMatchInRange(s.dynamics, parent.asked, parent.auth);
    }
    forall i, j | 0 <= i < j < |s.dynamics|
      ensures s.dynamics[i].members !! s.dynamics[j].members
    {
      assert forall name :: name in s.dynamics[i].members ==> IsChild(s, i, name) && !IsChild(s, j, name);
    }
  }

  /** Descriptor `i` matches what the namespace was asked for by, and none before it does. */
  predicate FirstMatched(s: State, i: nat, name: string)
    requires i < |s.dynamics|
  {
    && name in s.parents && s.parents[name].ChildOf?
    && var (asked, auth) := (s.parents[name].asked, s.parents[name].auth);
    && WithSlash(asked) == name && s.dynamics[i].matches(asked, auth)
    && forall k :: 0 <= k < i ==> !s.dynamics[k].matches(asked, auth)
  }

  /** A client is refused exactly when the name as it was given is unknown and no descriptor
      matches it, and then nothing changes. Otherwise it gets a new socket, even where its
      connection has joined that namespace before. */
  lemma ConnectOutcome(inputs: seq<Input>, c: ConnectionId, name: string, auth: Auth)
    ensures var s := Run(START, inputs);
            var (t, reply) := HandleConnect(s, c, name, auth);
            && (reply.ConnectError? <==>
                  name !in s.namespaces && forall i :: 0 <= i < |s.dynamics| ==> !s.dynamics[i].matches(name, auth))
            && (reply.ConnectError? ==> t == s)
            && (reply.Connected? ==>
                  var n := reply.namespace;
                  && n == (if name != "" && name[0] == '/' then name else "/" + name)
                  && NewSocketOnly(s, t, c, reply.socket, n)
                  && FirstMatchAdopts(s.dynamics, t.dynamics, n !in s.namespaces, n, name, auth))
  {
    hide Invariant, FirstMatch, Run, HandleConnect;
    Reachable(inputs);
    HandleConnectOutcome(Run(START, inputs), c, name, auth);
  }

  lemma HandleConnectOutcome(s: State, c: ConnectionId, name: string, auth: Auth)
    requires Invariant(s)
    ensures var (t, reply) := HandleConnect(s, c, name, auth);
            && (reply.ConnectError? <==>
                  name !in s.namespaces && forall i :: 0 <= i < |s.dynamics| ==> !s.dynamics[i].matches(name, auth))
            && (reply.ConnectError? ==> t == s)
            && (reply.Connected? ==>
                  var n := reply.namespace;
                  && n == (if name != "" && name[0] == '/' then name else "/" + name)
                  && NewSocketOnly(s, t, c, reply.socket, n)
                  && FirstMatchAdopts(s.dynamics, t.dynamics, n !in s.namespaces, n, name, auth))
  {
    hide Invariant, FirstMatch, FirstMatchAdopts, ConnectClient, MatchDynamic, NewSocketOnly;
    FirstMatchInRange(s.dynamics, name, auth);
    if name in s.namespaces {
      ConnectClientOutcome(s, name, c);
      ConnectClientDynamics(s, name, c);
      KnownNamesHaveSlashes(s, name);
      NothingAdopted(s.dynamics, WithSlash(name), name, auth);
    } else if FirstMatch(s.dynamics, name, auth).Some? {
      var i := FirstMatch(s.dynamics, name, auth).value;
      var matched := MatchDynamic(s, i, name, auth);
      MatchDynamicKeeps(s, i, name, auth);
      ConnectClientOutcome(matched, name, c);
      ConnectClientDynamics(matched, name, c);
      InvariantNames(s);
      MatchDynamicAdopts(s, i, name, auth);
      MatchedOutcome(s, matched, ConnectClient(matched, name, c).0, c, ConnectClient(matched, name, c).1);
    }
  }

  lemma KnownNamesHaveSlashes(s: State, name: string)
    requires Invariant(s) && name in s.namespaces
    ensures WithSlash(name) == name
  {
  }

  /** Joining leaves the descriptors alone. */
  lemma ConnectClientDynamics(s: State, name: string, c: ConnectionId)
    ensures ConnectClient(s, name, c).0.dynamics == s.dynamics
  {
    var found := GetOrCreate(s, name, TopLevel);
    assert found.dynamics == s.dynamics;
  }

  lemma NothingAdopted(dynamics: seq<DynamicNamespace>, namespace: string, asked: string, auth: Auth)
    ensures FirstMatchAdopts(dynamics, dynamics, false, namespace, asked, auth)
  {
  }

  lemma MatchDynamicAdopts(s: State, i: nat, name: string, auth: Auth)
    requires Named(s) && i < |s.dynamics| && IsFirst(s.dynamics, i, name, auth)
    ensures var n := WithSlash(name);
            FirstMatchAdopts(s.dynamics, MatchDynamic(s, i, name, auth).dynamics, n !in s.namespaces, n, name, auth)
    ensures MeansTheSame(s, MatchDynamic(s, i, name, auth), WithSlash(name))
  {
    assert forall k :: 0 <= k < |s.dynamics| && k != i ==> !IsFirst(s.dynamics, k, name, auth);
  }

  /** The two differ for a client at most by the namespace having been made, still empty. */
  predicate MeansTheSame(s: State, t: State, namespace: string) {
    && t.connections == s.connections && t.lookup == s.lookup && t.created == s.created
    && t.namespaces == s.namespaces[namespace := SimpleNamespace(namespace, MembersOf(s, namespace))]
  }

  function MembersOf(s: State, namespace: string): set<SocketId> {
    if namespace in s.namespaces then s.namespaces[namespace].socketIds else {}
  }

  function SocketsOf(s: State, c: ConnectionId): map<SocketId, string> {
    if c in s.connections then s.connections[c].sockets else map[]
  }

  /** What is a new socket after the match was one before it. */
  lemma MatchedOutcome(s: State, matched: State, t: State, c: ConnectionId, reply: Reply)
    requires reply.Connected? && MeansTheSame(s, matched, reply.namespace)
    requires NewSocketOnly(matched, t, c, reply.socket, reply.namespace)
    ensures NewSocketOnly(s, t, c, reply.socket, reply.namespace)
  {
  }

  /** A new namespace is a new member of the first descriptor that matches what was asked for,
      and of no other; otherwise the descriptors stay as they are. */
  ghost predicate FirstMatchAdopts(
    before: seq<DynamicNamespace>, after: seq<DynamicNamespace>, isNew: bool, namespace: string, asked: string,
    auth: Auth)
  {
    && |after| == |before|
    && (forall i :: 0 <= i < |before| ==> after[i].matches == before[i].matches)
    && (forall i :: 0 <= i < |before| ==>
          after[i].members == before[i].members + if isNew && IsFirst(before, i, asked, auth) then {namespace} else {})
    && (isNew ==> exists i :: 0 <= i < |before| && IsFirst(before, i, asked, auth))
  }

  predicate IsFirst(dynamics: seq<DynamicNamespace>, i: nat, asked: string, auth: Auth)
    requires i < |dynamics|
  {
    dynamics[i].matches(asked, auth) && forall k :: 0 <= k < i ==> !dynamics[k].matches(asked, auth)
  }

  /** The socket is new, it is the only change to the connections and the lookup, and it is
      a member of its namespace. */
  ghost predicate NewSocketOnly(s: State, t: State, c: ConnectionId, id: SocketId, namespace: string) {
    && id !in s.created && id !in s.lookup && t.lookup == s.lookup[id := c]
    && t.created == s.created[id := Birth(c, namespace)]
    && t.connections == s.connections[c := Connection(SocketsOf(s, c)[id := namespace], map[])]
    && (forall d, i :: Owns(t, d, i) <==> Owns(s, d, i) || (d == c && i == id))
    && t.namespaces == s.namespaces[namespace := SimpleNamespace(namespace, MembersOf(s, namespace) + {id})]
  }

  lemma ConnectClientOutcome(s: State, name: string, c: ConnectionId)
    requires Invariant(s)
    ensures var (t, reply) := ConnectClient(s, name, c);
            && reply.Connected? && reply.namespace == WithSlash(name)
            && NewSocketOnly(s, t, c, reply.socket, reply.namespace)
  {
    hide Invariant, AddConnection, WithSlash;
    var found := GetOrCreate(s, name, TopLevel);
    GetOrCreateKeeps(s, name);
    AddConnectionOutcome(found, WithSlash(name), c);
    assert MembersOf(found, WithSlash(name)) == MembersOf(s, WithSlash(name));
    assert found.connections == s.connections && found.lookup == s.lookup && found.created == s.created;
  }

  lemma AddConnectionOutcome(s: State, namespace: string, c: ConnectionId)
    requires Invariant(s) && namespace in s.namespaces
    ensures var (t, id) := AddConnection(s, namespace, c); NewSocketOnly(s, t, c, id, namespace)
  {
    hide Invariant;
    NextIsNew(s);
    InvariantRecords(s);
    InvariantNames(s);
    var (t, id) := AddConnection(s, namespace, c);
    assert forall d, i: SocketId :: Owns(t, d, i) <==> Owns(s, d, i) || (d == c && i == id);
  }

  lemma InvariantNames(s: State)
    requires Invariant(s)
    ensures Named(s)
  {
  }

  lemma NextIsNew(s: State)
    requires Invariant(s)
    ensures s.next !in s.created && s.next !in s.lookup
  {
    hide Parented, Named;
    assert forall i :: i in s.lookup ==> Owns(s, s.lookup[i], i);
  }

  /** Closing a connection takes exactly its sockets out of the lookup, but leaves them in
      their namespaces. */
  lemma CloseLeavesMembers(inputs: seq<Input>, c: ConnectionId, id: SocketId)
    requires Owns(Run(START, inputs), c, id)
    ensures var s := Run(START, inputs);
            var t := RemoveConnection(s, c);
            && t.connections == s.connections - {c} && id !in t.lookup
            && (forall d, i :: Owns(t, d, i) <==> Owns(s, d, i) && d != c)
            && (forall i :: i in t.lookup <==> i in s.lookup && s.lookup[i] != c)
            && t.namespaces == s.namespaces
            && var namespace := s.connections[c].sockets[id];
            && namespace in t.namespaces && id in t.namespaces[namespace].socketIds
  {
    hide Run, RemoveConnection, Invariant;
    Reachable(inputs);
    LookupIsInverse(inputs);
    RemoveConnectionOutcome(Run(START, inputs), c);
  }

  lemma RemoveConnectionOutcome(s: State, c: ConnectionId)
    requires Invariant(s) && c in s.connections
    ensures var t := RemoveConnection(s, c);
            && t.connections == s.connections - {c} && t.namespaces == s.namespaces && t.dynamics == s.dynamics
            && (forall d, i :: Owns(t, d, i) <==> Owns(s, d, i) && d != c)
            && (forall i :: i in t.lookup <==> i in s.lookup && s.lookup[i] != c)
  {
    hide Parented, Named, Joined, BornHere;
    DropDoesNothing(s.namespaces);
    assert forall i :: i in s.lookup ==> (s.lookup[i] == c <==> Owns(s, c, i));
  }

  // When the namespaces are up to date.

  /** The namespaces hold only sockets that are connected. */
  ghost predicate MembersAreLive(s: State) {
    forall name, id: SocketId :: name in s.namespaces && id in s.namespaces[name].socketIds ==> id in s.lookup
  }

  /** No input closes a connection that is there to be closed. */
  predicate NobodyLeaves(s: State, inputs: seq<Input>)
    decreases |inputs|
  {
    inputs == [] || (!Leaves(s, inputs[0]) && NobodyLeaves(HandleInput(s, inputs[0]), inputs[1..]))
  }

  predicate Leaves(s: State, input: Input) {
    input.Close? && input.c in s.connections
  }

  /** Every socket ever created is connected, and every connection has sockets. */
  ghost predicate AllConnected(s: State) {
    forall id: SocketId :: id in s.created ==> id in s.lookup
  }

  predicate Stocked(s: State) {
    forall c :: c in s.connections ==> s.connections[c].sockets != map[]
  }

  lemma LiveIffConnected(s: State)
    requires Invariant(s)
    ensures MembersAreLive(s) <==> AllConnected(s)
  {
    if MembersAreLive(s) {
      forall id: SocketId | id in s.created
        ensures id in s.lookup
      {
        assert id in s.namespaces[s.created[id].namespace].socketIds;
      }
    }
  }

  lemma StepStocks(s: State, input: Input)
    requires Invariant(s) && Stocked(s)
    ensures Stocked(HandleInput(s, input))
  {
    hide Invariant, HandleConnect;
    var t := HandleInput(s, input);
    if input.Connect? {
      HandleConnectOutcome(s, input.c, input.name, input.auth);
      forall d | d in t.connections
        ensures t.connections[d].sockets != map[]
      {
        if d in s.connections {
          var id :| id in s.connections[d].sockets;
          assert Owns(s, d, id);
          assert Owns(t, d, id);
        } else {
          assert Owns(t, d, HandleConnect(s, input.c, input.name, input.auth).1.socket);
        }
      }
    }
  }

  /** Only a close disconnects a socket, and a disconnected one stays so. */
  lemma StepConnects(s: State, input: Input)
    requires Invariant(s)
    ensures var t := HandleInput(s, input);
            && (!Leaves(s, input) && AllConnected(s) ==> AllConnected(t))
            && (forall id: SocketId :: id in s.created && id !in s.lookup ==> id in t.created && id !in t.lookup)
  {
    hide Invariant, HandleConnect;
    if input.Connect? {
      HandleConnectOutcome(s, input.c, input.name, input.auth);
    }
  }

  lemma LeavingDisconnects(s: State, input: Input) returns (id: SocketId)
    requires Invariant(s) && Stocked(s) && Leaves(s, input)
    ensures id in HandleInput(s, input).created && id !in HandleInput(s, input).lookup
  {
    hide Parented, Joined, Named;
    id :| id in s.connections[input.c].sockets;
    assert Owns(s, input.c, id);
  }

  lemma {:induction false} RunStaysDisconnected(s: State, inputs: seq<Input>, id: SocketId)
    requires Invariant(s) && id in s.created && id !in s.lookup
    ensures !AllConnected(Run(s, inputs))
    decreases |inputs|
  {
    hide Invariant, HandleInput;
    if inputs != [] {
      HandleKeeps(s, inputs[0]);
      StepConnects(s, inputs[0]);
      RunStaysDisconnected(HandleInput(s, inputs[0]), inputs[1..], id);
    }
  }

  lemma {:induction false} AllConnectedFrom(s: State, inputs: seq<Input>)
    requires Invariant(s) && Stocked(s) && AllConnected(s)
    ensures AllConnected(Run(s, inputs)) <==> NobodyLeaves(s, inputs)
    decreases |inputs|
  {
    hide Invariant, Stocked, AllConnected, HandleInput, Leaves;
    if inputs != [] {
      var t := HandleInput(s, inputs[0]);
      HandleKeeps(s, inputs[0]);
      StepStocks(s, inputs[0]);
      StepConnects(s, inputs[0]);
      if Leaves(s, inputs[0]) {
        var id := LeavingDisconnects(s, inputs[0]);
        RunStaysDisconnected(t, inputs[1..], id);
      } else {
        AllConnectedFrom(t, inputs[1..]);
      }
    }
  }

  /** The namespaces hold only sockets that are connected if and only if no connection that
      was there has been closed. */
  lemma MembersAreLiveIff(inputs: seq<Input>)
    ensures MembersAreLive(Run(START, inputs)) <==> NobodyLeaves(START, inputs)
  {
    Reachable(inputs);
    LiveIffConnected(Run(START, inputs));
    AllConnectedFrom(START, inputs);
  }

  /** The records are never written, so no packet from a client is ever passed to a socket. */
  lemma NoPacketIsRouted(inputs: seq<Input>, c: ConnectionId, namespace: string)
    ensures Addressee(Run(START, inputs), c, namespace) == None
  {
    Reachable(inputs);
  }

  // Namespaces are for good.

  /** No namespace goes away, loses a member or changes its parent, and no descriptor gains
      or loses a namespace that is there already. */
  ghost predicate Extends(s: State, t: State) {
    && (forall name :: name in s.namespaces ==>
          name in t.namespaces && s.namespaces[name].socketIds <= t.namespaces[name].socketIds)
    && |s.dynamics| <= |t.dynamics|
    && (forall i :: 0 <= i < |s.dynamics| ==>
          s.dynamics[i].matches == t.dynamics[i].matches && s.dynamics[i].members <= t.dynamics[i].members)
    && (forall i, name :: 0 <= i < |s.dynamics| && name in t.dynamics[i].members && name in s.namespaces ==>
          name in s.dynamics[i].members)
  }

  lemma {:induction false} NamespacesAreForGood(before: seq<Input>, after: seq<Input>)
    ensures Extends(Run(START, before), Run(Run(START, before), after))
  {
    Reachable(before);
    RunExtends(Run(START, before), after);
  }

  lemma {:induction false} RunExtends(s: State, inputs: seq<Input>)
    requires Invariant(s)
    ensures Extends(s, Run(s, inputs))
    decreases |inputs|
  {
    hide Invariant, HandleInput, Extends;
    if inputs == [] {
      ExtendsItself(s);
    } else {
      var t := HandleInput(s, inputs[0]);
      HandleKeeps(s, inputs[0]);
      HandleExtends(s, inputs[0]);
      RunExtends(t, inputs[1..]);
      ExtendsTransitive(s, t, Run(t, inputs[1..]));
    }
  }

  lemma ExtendsItself(s: State)
    ensures Extends(s, s)
  {
  }

  lemma ExtendsTransitive(s: State, t: State, u: State)
    requires Extends(s, t) && Extends(t, u)
    ensures Extends(s, u)
  {
    forall i, name | 0 <= i < |s.dynamics| && name in u.dynamics[i].members && name in s.namespaces
      ensures name in s.dynamics[i].members
    {
      assert name in t.dynamics[i].members;
    }
  }

  lemma HandleExtends(s: State, input: Input)
    requires Invariant(s)
    ensures Extends(s, HandleInput(s, input))
  {
    hide Invariant;
    match input
    case GetNamespace(name) =>
    case AddDescriptor(matches) =>
    case Connect(c, name, auth) => ConnectExtends(s, c, name, auth);
    case Close(c) =>
      assert c in s.connections ==> s.connections[c].records == map[] by { InvariantRecords(s); }
      DropDoesNothing(s.namespaces);
  }

  lemma InvariantRecords(s: State)
    requires Invariant(s)
    ensures NoRecords(s)
  {
  }

  lemma ConnectExtends(s: State, c: ConnectionId, name: string, auth: Auth)
    requires Invariant(s)
    ensures Extends(s, HandleConnect(s, c, name, auth).0)
  {
    hide Invariant, FirstMatch, Extends, ConnectClient, MatchDynamic;
    if name in s.namespaces {
      ConnectClientExtends(s, name, c);
    } else if FirstMatch(s.dynamics, name, auth).Some? {
      var i := FirstMatch(s.dynamics, name, auth).value;
      var t := MatchDynamic(s, i, name, auth);
      MatchDynamicExtends(s, i, name, auth);
      ConnectClientExtends(t, name, c);
      ExtendsTransitive(s, t, ConnectClient(t, name, c).0);
    } else {
      ExtendsItself(s);
    }
  }

  lemma MatchDynamicExtends(s: State, i: nat, name: string, auth: Auth)
    ensures Extends(s, MatchDynamic(s, i, name, auth))
  {
  }

  lemma ConnectClientExtends(s: State, name: string, c: ConnectionId)
    ensures Extends(s, ConnectClient(s, name, c).0)
  {
    var found := GetOrCreate(s, name, TopLevel);
    assert found.dynamics == s.dynamics;
  }
}
