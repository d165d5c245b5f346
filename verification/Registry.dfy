/** The Socket.IO server's registry: its connections, the lookup from sockets to connections
    and the namespaces, when each handler runs to its end before the next one starts. */
module Registry {
  import opened Wrappers
  import opened PacketValue

  type ConnectionId = string

  /** The source draws random identifiers; here they are counted up. */
  type SocketId = nat

  type Auth = PacketDataValue

  type NameMatch = (string, Auth) -> bool

  datatype SimpleNamespace = SimpleNamespace(name: string, socketIds: set<SocketId>)

  /** The names of the namespaces that a descriptor gave rise to. */
  datatype DynamicNamespace = DynamicNamespace(matches: NameMatch, members: set<string>)

  /** The sockets of one client, each with its namespace, and the records by namespace that
      are there to find them again. */
  datatype Connection = Connection(sockets: map<SocketId, string>, records: map<string, SocketId>)

  /** Who asked for a namespace. */
  datatype Parent = TopLevel | ChildOf(index: nat, asked: string, auth: Auth)

  datatype Birth = Birth(connection: ConnectionId, namespace: string)

  /** The maps, then the history that they are measured by. */
  datatype State = State(
    connections: map<ConnectionId, Connection>,
    lookup: map<SocketId, ConnectionId>,
    namespaces: map<string, SimpleNamespace>,
    dynamics: seq<DynamicNamespace>,
    next: SocketId,
    created: map<SocketId, Birth>,
    parents: map<string, Parent>)

  const START := State(map[], map[], map[], [], 0, map[], map[])

  datatype Reply = Connected(namespace: string, socket: SocketId) | ConnectError(namespace: string)

  // The handlers on values.

  function WithSlash(name: string): string {
    if name != "" && name[0] == '/' then name else "/" + name
  }

  function GetOrCreate(s: State, name: string, parent: Parent): State {
    var name := WithSlash(name);
    if name in s.namespaces then s
    else s.(namespaces := s.namespaces[name := SimpleNamespace(name, {})], parents := s.parents[name := parent])
  }

  function FirstMatch(dynamics: seq<DynamicNamespace>, name: string, auth: Auth): Option<nat> {
    if dynamics == [] then None
    else if dynamics[0].matches(name, auth) then Some(0)
    else
      match FirstMatch(dynamics[1..], name, auth)
      case None => None
      case Some(i) => Some(i + 1)
  }

  function Adopt(dynamics: seq<DynamicNamespace>, i: nat, name: string): seq<DynamicNamespace> {
    if i < |dynamics| then dynamics[i := dynamics[i].(members := dynamics[i].members + {name})] else dynamics
  }

  /** The namespace for a name that descriptor `i` is the first to match. */
  function MatchDynamic(s: State, i: nat, name: string, auth: Auth): State {
    var found := GetOrCreate(s, name, ChildOf(i, name, auth));
    if WithSlash(name) in s.namespaces then found
    else found.(dynamics := Adopt(found.dynamics, i, WithSlash(name)))
  }

  /** The namespace takes the socket in. */
  function CreateSocket(s: State, namespace: string, connection: ConnectionId): State
    requires namespace in s.namespaces
  {
    var joined := s.namespaces[namespace].(socketIds := s.namespaces[namespace].socketIds + {s.next});
    s.(namespaces := s.namespaces[namespace := joined],
       created := s.created[s.next := Birth(connection, namespace)],
       next := s.next + 1)
  }

  function AddConnection(s: State, namespace: string, c: ConnectionId): (State, SocketId)
    requires namespace in s.namespaces
  {
    var connection := if c in s.connections then s.connections[c] else Connection(map[], map[]);
    if namespace in connection.records then
      var id := connection.records[namespace];
      (s.(lookup := s.lookup[id := c]), id)
    else
      var id := s.next;
      (CreateSocket(s, namespace, c).(
         connections := s.connections[c := connection.(sockets := connection.sockets[id := namespace])],
         lookup := s.lookup[id := c]),
       id)
  }

  function ConnectClient(s: State, name: string, c: ConnectionId): (State, Reply) {
    var found := GetOrCreate(s, name, TopLevel);
    var (added, id) := AddConnection(found, WithSlash(name), c);
    (added, Connected(WithSlash(name), id))
  }

  function HandleConnect(s: State, c: ConnectionId, name: string, auth: Auth): (State, Reply) {
    if name in s.namespaces then ConnectClient(s, name, c)
    else
      match FirstMatch(s.dynamics, name, auth)
      case None => (s, ConnectError(name))
      case Some(i) => ConnectClient(MatchDynamic(s, i, name, auth), name, c)
  }

  /** What dropping a connection does to the namespaces on its records. */
  function Dropped(namespaces: map<string, SimpleNamespace>, records: map<string, SocketId>)
    : map<string, SimpleNamespace>
  {
    map name | name in namespaces ::
      if name in records then namespaces[name].(socketIds := namespaces[name].socketIds - {records[name]})
      else namespaces[name]
  }

  function RemoveConnection(s: State, c: ConnectionId): State {
    if c in s.connections then
      s.(connections := s.connections - {c},
         lookup := s.lookup - s.connections[c].sockets.Keys,
         namespaces := Dropped(s.namespaces, s.connections[c].records))
    else
      s
  }

  /** The socket that a packet from a client is for. */
  function Addressee(s: State, c: ConnectionId, namespace: string): Option<SocketId> {
    if c in s.connections && namespace in s.connections[c].records
       && s.connections[c].records[namespace] in s.connections[c].sockets
    then Some(s.connections[c].records[namespace])
    else None
  }

  // The object.

  class Shared {
    var connections: map<ConnectionId, Connection>
    var lookup: map<SocketId, ConnectionId>
    var namespaces: map<string, SimpleNamespace>
    var dynamics: seq<DynamicNamespace>
    var next: SocketId

    ghost var created: map<SocketId, Birth>
    ghost var parents: map<string, Parent>

    ghost function Now(): State
      reads this
    {
      State(connections, lookup, namespaces, dynamics, next, created, parents)
    }

    constructor ()
      ensures Now() == START
    {
      connections, lookup, namespaces, dynamics, next := map[], map[], map[], [], 0;
      created, parents := map[], map[];
    }

    method DoGetOrCreate(asked: string, ghost parent: Parent) returns (name: string, isNew: bool)
      modifies this
      ensures Now() == GetOrCreate(old(Now()), asked, parent)
      ensures name == WithSlash(asked) && name in namespaces && (isNew <==> name !in old(namespaces))
    {
      name := if asked != "" && asked[0] == '/' then asked else "/" + asked;
      if name in namespaces {
        isNew := false;
      } else {
        namespaces := namespaces[name := SimpleNamespace(name, {})];
        parents := parents[name := parent];
        isNew := true;
      }
    }

    method MakeDynamic(matches: NameMatch)
      modifies this
      ensures Now() == old(Now()).(dynamics := old(dynamics) + [DynamicNamespace(matches, {})])
    {
      dynamics := dynamics + [DynamicNamespace(matches, {})];
    }

    method FindMatch(name: string, auth: Auth) returns (found: Option<nat>)
      ensures found == FirstMatch(dynamics, name, auth)
    {
      var i := 0;
      while i < |dynamics| && !dynamics[i].matches(name, auth)
        invariant i <= |dynamics|
        invariant FirstMatch(dynamics, name, auth) == Shifted(i, FirstMatch(dynamics[i..], name, auth))
      {
        assert dynamics[i..][1..] == dynamics[i + 1..];
        i := i + 1;
      }
      found := if i < |dynamics| then Some(i) else None;
    }

    method DoMatchDynamic(asked: string, auth: Auth) returns (found: Option<nat>)
      modifies this
      ensures found == FirstMatch(old(dynamics), asked, auth)
      ensures Now() == if found.None? then old(Now()) else MatchDynamic(old(Now()), found.value, asked, auth)
    {
      found := FindMatch(asked, auth);
      if found.Some? {
        FirstMatchInRange(dynamics, asked, auth);
        var name, isNew := DoGetOrCreate(asked, ChildOf(found.value, asked, auth));
        if isNew {
          var i := found.value;
          dynamics := dynamics[i := dynamics[i].(members := dynamics[i].members + {name})];
        }
      }
    }

    method DoAddConnection(namespace: string, c: ConnectionId) returns (id: SocketId)
      requires namespace in namespaces
      modifies this
      ensures (Now(), id) == AddConnection(old(Now()), namespace, c)
    {
      var connection := if c in connections then connections[c] else Connection(map[], map[]);
      if namespace in connection.records {
        id := connection.records[namespace];
      } else {
        id := next;
        next := next + 1;
        connections := connections[c := connection.(sockets := connection.sockets[id := namespace])];
        var joined := namespaces[namespace];
        namespaces := namespaces[namespace := joined.(socketIds := joined.socketIds + {id})];
        created := created[id := Birth(c, namespace)];
      }
      lookup := lookup[id := c];
    }

    method DoConnect(c: ConnectionId, asked: string, auth: Auth) returns (reply: Reply)
      modifies this
      ensures (Now(), reply) == HandleConnect(old(Now()), c, asked, auth)
    {
      if asked !in namespaces {
        var found := DoMatchDynamic(asked, auth);
        if found.None? {
          return ConnectError(asked);
        }
      }
      var name, _ := DoGetOrCreate(asked, TopLevel);
      var id := DoAddConnection(name, c);
      reply := Connected(name, id);
    }

    method DoRemoveConnection(c: ConnectionId) returns (removed: bool)
      modifies this
      ensures Now() == RemoveConnection(old(Now()), c) && (removed <==> c in old(connections))
    {
      if c !in connections {
        return false;
      }
      var connection := connections[c];
      connections := connections - {c};
      var sockets := connection.sockets.Keys;
      while sockets != {}
        invariant sockets <= connection.sockets.Keys
        invariant lookup == old(lookup) - (connection.sockets.Keys - sockets)
        invariant unchanged(`namespaces, `dynamics, `next, `created, `parents)
        invariant connections == old(connections) - {c}
      {
        var id :| id in sockets;
        lookup := lookup - {id};
        sockets := sockets - {id};
      }
      Drop(connection.records);
      removed := true;
    }

    method Drop(records: map<string, SocketId>)
      modifies `namespaces
      ensures namespaces == Dropped(old(namespaces), records)
    {
      var names := records.Keys;
      while names != {}
        invariant names <= records.Keys
        invariant namespaces == Dropped(old(namespaces), records - names)
      {
        var name :| name in names;
        if name in namespaces {
          var left := namespaces[name];
          namespaces := namespaces[name := left.(socketIds := left.socketIds - {records[name]})];
        }
        names := names - {name};
      }
      assert records - {} == records;
    }

    /** One call from the application or one event from the engine. */
    method Handle(input: Input)
      modifies this
      ensures Now() == HandleInput(old(Now()), input)
    {
      match input {
        case GetNamespace(name) => var _, _ := DoGetOrCreate(name, TopLevel);
        case AddDescriptor(matches) => MakeDynamic(matches);
        case Connect(c, name, auth) => var _ := DoConnect(c, name, auth);
        case Close(c) => var _ := DoRemoveConnection(c);
      }
    }
  }

  function Shifted(n: nat, found: Option<nat>): Option<nat> {
    if found.Some? then Some(n + found.value) else None
  }

  // The runs.

  datatype Input =
    | GetNamespace(name: string)
    | AddDescriptor(matches: NameMatch)
    | Connect(c: ConnectionId, name: string, auth: Auth)
    | Close(c: ConnectionId)

  function HandleInput(s: State, input: Input): State {
    match input
    case GetNamespace(name) => GetOrCreate(s, name, TopLevel)
    case AddDescriptor(matches) => s.(dynamics := s.dynamics + [DynamicNamespace(matches, {})])
    case Connect(c, name, auth) => HandleConnect(s, c, name, auth).0
    case Close(c) => RemoveConnection(s, c)
  }

  function Run(s: State, inputs: seq<Input>): State
    decreases |inputs|
  {
    if inputs == [] then s else Run(HandleInput(s, inputs[0]), inputs[1..])
  }

  /** The first match is a match, and nothing before it is. */
  lemma {:induction false} FirstMatchInRange(dynamics: seq<DynamicNamespace>, name: string, auth: Auth)
    ensures match FirstMatch(dynamics, name, auth) {
              case None => forall i :: 0 <= i < |dynamics| ==> !dynamics[i].matches(name, auth)
              case Some(k) =>
                && k < |dynamics| && dynamics[k].matches(name, auth)
                && forall i :: 0 <= i < k ==> !dynamics[i].matches(name, auth)
            }
  {
    if dynamics != [] {
      FirstMatchInRange(dynamics[1..], name, auth);
      forall i | 0 <= i < |dynamics|
        ensures dynamics[i] == if i == 0 then dynamics[0] else dynamics[1..][i - 1]
      {
      }
    }
  }
}
