/**
 * The connection hub's registry as a value: room id -> entry, entry = optional room
 * metadata + client id -> client state.  Each function is one atomic hub operation of
 * hub/hub.go; the class in module Hub is proved to follow these functions step by step.
 */
module HubSpec {
  import opened Common

  /**
   * A snapshot of one model.Client: its identity, its Send channel as a bounded queue
   * (`queue`, capacity `cap`, `closed`), and whether its connection was closed.
   */
  datatype ClientState = ClientState(
    id: int, room: int, user: int,
    queue: seq<string>, cap: nat, closed: bool,
    connClosed: bool)

  /** A RoomEntry: the room metadata, if the room was created administratively, and its clients. */
  datatype EntryState = EntryState(room: Option<Room>, clients: map<int, ClientState>)

  type Registry = map<int, EntryState>

  /** A client the hub may accept: an open Send channel holding no more than its capacity. */
  predicate Admissible(c: ClientState)
  {
    !c.closed && |c.queue| <= c.cap
  }

  /**
   * The registry invariant: every stored client sits under its own room and id and has an
   * open channel within capacity.
   */
  predicate Healthy(s: Registry)
  {
    forall r, cid :: r in s && cid in s[r].clients ==>
      s[r].clients[cid].room == r && s[r].clients[cid].id == cid && Admissible(s[r].clients[cid])
  }

  // ---------------------------------------------------------------- queries

  const Empty: Registry := map[]

  /** Hub.HasRoom: an unknown room has neither metadata nor clients. */
  function HasRoom(s: Registry, roomId: int): (b: bool)
    ensures !b ==> GetRoom(s, roomId) == None && ClientsCount(s, roomId) == 0
  {
    roomId in s
  }

  /** Hub.GetRoom: the metadata of a known room, nil for an unknown or bare one. */
  function GetRoom(s: Registry, roomId: int): (r: Option<Room>)
    ensures r.Some? ==> roomId in s && s[roomId].room == r
  {
    if roomId in s then s[roomId].room else None
  }

  /** Hub.GetRoomClientsCount: the number of client ids stored, 0 for an unknown room. */
  function ClientsCount(s: Registry, roomId: int): (n: nat)
    ensures roomId in s ==> n == |s[roomId].clients.Keys|
    ensures n > 0 ==> roomId in s
  {
    if roomId in s then
      assert |s[roomId].clients| == |s[roomId].clients.Keys|;
      |s[roomId].clients|
    else 0
  }

  // ---------------------------------------------------------------- operations

  /** Hub.CreateRoom: add an empty entry with the metadata, unless the id is taken. */
  function CreateRoom(s: Registry, room: Room): (r: Registry)
    ensures r.Keys == s.Keys + {room.id}
    ensures forall k :: k in s ==> r[k] == s[k]
    ensures room.id !in s ==> r[room.id] == EntryState(Some(room), map[])
  {
    if room.id in s then s else s[room.id := EntryState(Some(room), map[])]
  }

  /** Hub.registerClient: store the client under its room (made bare if absent) and its id. */
  function Register(s: Registry, c: ClientState): (r: Registry)
    ensures r.Keys == s.Keys + {c.room}
    ensures c.id in r[c.room].clients && r[c.room].clients[c.id] == c
  {
    var e := if c.room in s then s[c.room] else EntryState(None, map[]);
    s[c.room := e.(clients := e.clients[c.id := c])]
  }

  /** The first half of Hub.unregisterClient: delete the client's id from its room. */
  function Detach(s: Registry, c: ClientState): (r: Registry)
    requires c.room in s
    ensures r.Keys == s.Keys && r[c.room].room == s[c.room].room
    ensures r[c.room].clients.Keys == s[c.room].clients.Keys - {c.id}
  {
    s[c.room := s[c.room].(clients := s[c.room].clients - {c.id})]
  }

  /** Hub.unregisterClient: detach the id, and drop the room once it has no clients left. */
  function Unregister(s: Registry, c: ClientState): (r: Registry)
    ensures r.Keys <= s.Keys && s.Keys - r.Keys <= {c.room}
    ensures c.room in r ==> c.id !in r[c.room].clients
  {
    if c.room !in s then s
    else
      var detached := Detach(s, c);
      if |detached[c.room].clients| == 0 then detached - {c.room} else detached
  }

  /** unregisterClient closes the client's channel; Go panics if it is closed already. */
  predicate UnregisterPanics(s: Registry, c: ClientState)
  {
    c.room in s && c.closed
  }

  predicate HasSpace(c: ClientState)
  {
    |c.queue| < c.cap
  }

  /** One fan-out over an entry: clients with space get the content, full ones are dropped. */
  function Deliver(e: EntryState, content: string): (r: EntryState)
    ensures r.room == e.room && r.clients.Keys <= e.clients.Keys
    ensures forall cid :: cid in r.clients ==> |r.clients[cid].queue| == |e.clients[cid].queue| + 1
  {
    e.(clients := map cid | cid in e.clients && HasSpace(e.clients[cid]) ::
                   e.clients[cid].(queue := e.clients[cid].queue + [content]))
  }

  /** Hub.broadcastMessage: no room appears or disappears. */
  function Broadcast(s: Registry, m: Message): (r: Registry)
    ensures r.Keys == s.Keys
  {
    if m.room in s then s[m.room := Deliver(s[m.room], m.content)] else s
  }

  /** Hub.RemoveRoom (the clients it closes leave the registry with the entry). */
  function RemoveRoom(s: Registry, roomId: int): (r: Registry)
    ensures r.Keys == s.Keys - {roomId}
  {
    s - {roomId}
  }

  // ---------------------------------------------------------------- the event loop

  /** What arrives on the Register, Unregister and Broadcast channels of Hub.Run. */
  datatype Event =
    | RegisterEvent(client: ClientState)
    | UnregisterEvent(client: ClientState)
    | BroadcastEvent(message: Message)

  /**
   * broadcastMessage's select sends on each client's channel; a send on a closed channel
   * panics in Go (it does not fall through to the default branch).
   */
  predicate BroadcastPanics(s: Registry, m: Message)
  {
    m.room in s && exists cid :: cid in s[m.room].clients && s[m.room].clients[cid].closed
  }

  /** One iteration of Hub.Run's select loop; None when it panics, which ends the process. */
  function Step(s: Registry, e: Event): (r: Option<Registry>)
    ensures r.None? <==>
      (e.UnregisterEvent? && UnregisterPanics(s, e.client))
      || (e.BroadcastEvent? && BroadcastPanics(s, e.message))
  {
    match e
    case RegisterEvent(c) => Some(Register(s, c))
    case UnregisterEvent(c) => if UnregisterPanics(s, c) then None else Some(Unregister(s, c))
    case BroadcastEvent(m) => if BroadcastPanics(s, m) then None else Some(Broadcast(s, m))
  }

  /** Events processed in order from `s`; None once one of them panicked. */
  function Run(s: Registry, evs: seq<Event>): Option<Registry>
    decreases |evs|
  {
    if evs == [] then Some(s)
    else
      match Run(s, evs[..|evs| - 1])
      case None => None
      case Some(t) => Step(t, evs[|evs| - 1])
  }

  /**
   * The loop panics exactly when some event panics on the registry the events before it
   * left behind; nothing after a panic is processed.
   */
  lemma {:induction false} RunPanics(s: Registry, evs: seq<Event>)
    ensures Run(s, evs).None? <==> exists i :: PanicsAt(s, evs, i)
    decreases |evs|
  {
    if evs != [] {
      var n := |evs| - 1;
      var init := evs[..n];
      RunPanics(s, init);
      PanicsAtPrefix(s, evs);
      if Run(s, init).None? {
        var i :| PanicsAt(s, init, i);
        assert PanicsAt(s, evs, i);
      } else if Run(s, evs).None? {
        assert PanicsAt(s, evs, n);
      }
    }
  }

  /** Below the last event, panicking at i is the same with or without the last event. */
  lemma PanicsAtPrefix(s: Registry, evs: seq<Event>)
    requires evs != []
    ensures forall i :: 0 <= i < |evs| - 1 ==> (PanicsAt(s, evs, i) <==> PanicsAt(s, evs[..|evs| - 1], i))
    ensures PanicsAt(s, evs, |evs| - 1) <==>
      Run(s, evs[..|evs| - 1]).Some? && Step(Run(s, evs[..|evs| - 1]).value, evs[|evs| - 1]).None?
  {
    var init := evs[..|evs| - 1];
    forall i | 0 <= i < |evs| - 1
      ensures evs[..i] == init[..i] && evs[i] == init[i]
    {
    }
  }

  /** Event i of `evs` is reached from `s` and panics. */
  predicate PanicsAt(s: Registry, evs: seq<Event>, i: int)
  {
    0 <= i < |evs| && Run(s, evs[..i]).Some? && Step(Run(s, evs[..i]).value, evs[i]).None?
  }

  // ---------------------------------------------------------------- properties

  /** CreateRoom keeps an existing entry as it is and otherwise adds an empty one; twice is once. */
  lemma CreateRoomIdempotent(s: Registry, room: Room)
    ensures room.id in s ==> CreateRoom(s, room) == s
    ensures room.id !in s ==>
      GetRoom(CreateRoom(s, room), room.id) == Some(room) && ClientsCount(CreateRoom(s, room), room.id) == 0
    ensures CreateRoom(CreateRoom(s, room), room) == CreateRoom(s, room)
  {
  }

  /**
   * Registering makes the room visible (bare, without metadata, if it was absent), stores
   * the client under its id (replacing an earlier one), and leaves other rooms alone.
   */
  lemma RegisterEffect(s: Registry, c: ClientState, other: int)
    ensures HasRoom(Register(s, c), c.room)
    ensures GetRoom(Register(s, c), c.room) == GetRoom(s, c.room)
    ensures c.room !in s ==> GetRoom(Register(s, c), c.room) == None
    ensures Register(s, c)[c.room].clients[c.id] == c
    ensures Register(s, c)[c.room].clients
            == (if c.room in s then s[c.room].clients else map[])[c.id := c]
    ensures ClientsCount(Register(s, c), c.room)
            == ClientsCount(s, c.room) + (if c.room in s && c.id in s[c.room].clients then 0 else 1)
    ensures other != c.room ==> (other in Register(s, c) <==> other in s)
    ensures other != c.room && other in s ==> Register(s, c)[other] == s[other]
  {
  }

  /**
   * Unregistering from an absent room changes nothing; otherwise the id leaves the room and
   * the room is deleted exactly when no client remains, even a room made by CreateRoom.
   */
  lemma UnregisterEffect(s: Registry, c: ClientState, other: int)
    ensures c.room !in s ==> Unregister(s, c) == s
    ensures c.room in s ==>
      (HasRoom(Unregister(s, c), c.room) <==> s[c.room].clients.Keys - {c.id} != {})
    ensures c.room in Unregister(s, c) ==>
      Unregister(s, c)[c.room].clients == s[c.room].clients - {c.id}
      && GetRoom(Unregister(s, c), c.room) == GetRoom(s, c.room)
    ensures other != c.room ==> (other in Unregister(s, c) <==> other in s)
    ensures other != c.room && other in s ==> Unregister(s, c)[other] == s[other]
  {
    if c.room in s {
      var rest := s[c.room].clients - {c.id};
      assert rest.Keys == s[c.room].clients.Keys - {c.id};
      if rest.Keys == {} {
        assert |rest| == 0;
      }
    }
  }

  /**
   * Broadcast delivers to exactly the clients of the message's room that have space, appends
   * the content to their queues, drops the full ones, keeps the entry (even when emptied),
   * and touches no other room.
   */
  lemma BroadcastEffect(s: Registry, m: Message, cid: int, other: int)
    ensures m.room !in s ==> Broadcast(s, m) == s
    ensures m.room in s ==>
      m.room in Broadcast(s, m) && Broadcast(s, m)[m.room].room == s[m.room].room
    ensures m.room in s && cid in s[m.room].clients ==>
      (cid in Broadcast(s, m)[m.room].clients <==> HasSpace(s[m.room].clients[cid]))
    ensures m.room in s && cid in Broadcast(s, m)[m.room].clients ==>
      cid in s[m.room].clients
      && Broadcast(s, m)[m.room].clients[cid]
         == s[m.room].clients[cid].(queue := s[m.room].clients[cid].queue + [m.content])
    ensures other != m.room ==> (other in Broadcast(s, m) <==> other in s)
    ensures other != m.room && other in s ==> Broadcast(s, m)[other] == s[other]
  {
  }

  /** RemoveRoom deletes the entry, after which the room reads as absent with no clients. */
  lemma RemoveRoomEffect(s: Registry, roomId: int, other: int)
    ensures !HasRoom(RemoveRoom(s, roomId), roomId)
    ensures GetRoom(RemoveRoom(s, roomId), roomId) == None
    ensures ClientsCount(RemoveRoom(s, roomId), roomId) == 0
    ensures other != roomId ==> (other in RemoveRoom(s, roomId) <==> other in s)
    ensures other != roomId && other in s ==> RemoveRoom(s, roomId)[other] == s[other]
  {
  }

  /** Creating a room keeps the registry invariant. */
  lemma CreateRoomKeepsHealthy(s: Registry, room: Room)
    requires Healthy(s)
    ensures Healthy(CreateRoom(s, room))
  {
  }

  /** Registering an admissible client keeps the registry invariant. */
  lemma RegisterKeepsHealthy(s: Registry, c: ClientState)
    requires Healthy(s) && Admissible(c)
    ensures Healthy(Register(s, c))
  {
  }

  /** Detaching and unregistering keep the registry invariant. */
  lemma UnregisterKeepsHealthy(s: Registry, c: ClientState)
    requires Healthy(s)
    ensures c.room in s ==> Healthy(Detach(s, c))
    ensures Healthy(Unregister(s, c))
  {
  }

  /**
   * A broadcast into a healthy registry does not panic, and it keeps the registry invariant:
   * a client only receives while it has space.
   */
  lemma BroadcastKeepsHealthy(s: Registry, m: Message)
    requires Healthy(s)
    ensures !BroadcastPanics(s, m)
    ensures Healthy(Broadcast(s, m))
  {
    var t := Broadcast(s, m);
    forall r, cid | r in t && cid in t[r].clients
      ensures t[r].clients[cid].room == r && t[r].clients[cid].id == cid && Admissible(t[r].clients[cid])
    {
      assert cid in s[r].clients;
    }
  }

  /** Removing a room keeps the registry invariant. */
  lemma RemoveRoomKeepsHealthy(s: Registry, roomId: int)
    requires Healthy(s)
    ensures Healthy(RemoveRoom(s, roomId))
  {
  }

  /** An event the hub can receive from a live connection. */
  predicate Wellformed(e: Event)
  {
    match e
    case RegisterEvent(c) => Admissible(c)
    case UnregisterEvent(c) => !c.closed
    case BroadcastEvent(_) => true
  }

  /** Runs of well-formed events never panic and keep the invariant. */
  lemma {:induction false} RunKeepsHealthy(s: Registry, evs: seq<Event>)
    requires Healthy(s)
    requires forall i :: 0 <= i < |evs| ==> Wellformed(evs[i])
    ensures Run(s, evs).Some? && Healthy(Run(s, evs).value)
    decreases |evs|
  {
    if evs != [] {
      var init := evs[..|evs| - 1];
      RunKeepsHealthy(s, init);
      var t := Run(s, init).value;
      var e := evs[|evs| - 1];
      assert Wellformed(e);
      match e
      case RegisterEvent(c) => RegisterKeepsHealthy(t, c);
      case UnregisterEvent(c) => UnregisterKeepsHealthy(t, c);
      case BroadcastEvent(m) => BroadcastKeepsHealthy(t, m);
    }
  }

  /** Ids joined to room `r` and not yet left, after a run of register/unregister events. */
  function Members(evs: seq<Event>, r: int): set<int>
    decreases |evs|
  {
    if evs == [] then {}
    else
      var m := Members(evs[..|evs| - 1], r);
      match evs[|evs| - 1]
      case RegisterEvent(c) => if c.room == r then m + {c.id} else m
      case UnregisterEvent(c) => if c.room == r then m - {c.id} else m
      case BroadcastEvent(_) => m
  }

  predicate MembershipOnly(evs: seq<Event>)
  {
    forall i :: 0 <= i < |evs| ==> !evs[i].BroadcastEvent? && Wellformed(evs[i])
  }

  /** Room r holds exactly the ids m, and exists only while m is non-empty, without metadata. */
  predicate Tracks(s: Registry, r: int, m: set<int>)
  {
    (r in s <==> m != {}) && (r in s ==> s[r].clients.Keys == m && s[r].room == None)
  }

  lemma RegisterTracks(s: Registry, c: ClientState, r: int, m: set<int>)
    requires Tracks(s, r, m)
    ensures Tracks(Register(s, c), r, if c.room == r then m + {c.id} else m)
  {
  }

  lemma UnregisterTracks(s: Registry, c: ClientState, r: int, m: set<int>)
    requires Tracks(s, r, m)
    ensures Tracks(Unregister(s, c), r, if c.room == r then m - {c.id} else m)
  {
    UnregisterEffect(s, c, r);
  }

  /**
   * From a fresh hub, any run of registrations and unregistrations never panics and leaves
   * each room holding exactly the ids registered to it and not unregistered since.
   */
  lemma {:induction false} RunTracks(evs: seq<Event>, r: int)
    requires MembershipOnly(evs)
    ensures Run(Empty, evs).Some? && Tracks(Run(Empty, evs).value, r, Members(evs, r))
    decreases |evs|
  {
    if evs != [] {
      var init := evs[..|evs| - 1];
      assert MembershipOnly(init) by {
        forall i | 0 <= i < |init| ensures !init[i].BroadcastEvent? && Wellformed(init[i]) {
          assert init[i] == evs[i];
        }
      }
      RunTracks(init, r);
      var t := Run(Empty, init).value;
      var e := evs[|evs| - 1];
      assert !e.BroadcastEvent? && Wellformed(e);
      match e
      case RegisterEvent(c) =>
        RegisterTracks(t, c, r, Members(init, r));
      case UnregisterEvent(c) =>
        UnregisterTracks(t, c, r, Members(init, r));
    }
  }

  /**
   * So a room exists exactly when some client id is joined to it, such a room was made by a
   * registration (no metadata), and its client count is the number of ids joined.
   */
  lemma RunTracksMembers(evs: seq<Event>, r: int)
    requires MembershipOnly(evs)
    ensures Run(Empty, evs).Some?
    ensures HasRoom(Run(Empty, evs).value, r) <==> Members(evs, r) != {}
    ensures HasRoom(Run(Empty, evs).value, r) ==>
      Run(Empty, evs).value[r].clients.Keys == Members(evs, r)
      && GetRoom(Run(Empty, evs).value, r) == None
    ensures ClientsCount(Run(Empty, evs).value, r) == |Members(evs, r)|
  {
    RunTracks(evs, r);
    var s := Run(Empty, evs).value;
    if r in s {
      assert |s[r].clients| == |s[r].clients.Keys|;
    }
  }

  // The walk-through of the hub: C1 and C2 join room 5, "hi" reaches both, C1 leaves and the
  // room stays with C2, C2 leaves and the room is gone.

  const C1 := ClientState(1, 5, 1, [], 10, false, false)
  const C2 := ClientState(2, 5, 2, [], 10, false, false)
  const Joined: Registry := map[5 := EntryState(None, map[1 := C1, 2 := C2])]
  const Greeted: Registry :=
    map[5 := EntryState(None, map[1 := C1.(queue := ["hi"]), 2 := C2.(queue := ["hi"])])]
  const Left: Registry := map[5 := EntryState(None, map[2 := C2.(queue := ["hi"])])]

  lemma ScenarioJoin()
    ensures Register(Register(Empty, C1), C2) == Joined
  {
  }

  lemma ScenarioGreet()
    ensures Broadcast(Joined, Message(1, 5, 1, "hi")) == Greeted
  {
    var d := map[1 := C1.(queue := ["hi"]), 2 := C2.(queue := ["hi"])];
    var e := Deliver(Joined[5], "hi").clients;
    assert HasSpace(C1) && HasSpace(C2);
    assert e.Keys == {1, 2};
    assert e[1] == d[1] && e[2] == d[2];
    assert e == d;
  }

  lemma ScenarioLeave()
    ensures Unregister(Greeted, C1) == Left
    ensures Unregister(Left, C2) == Empty
  {
    var rest := Greeted[5].clients - {1};
    assert rest == map[2 := C2.(queue := ["hi"])];
    assert |rest| == 1;
    assert Detach(Greeted, C1) == Left;
    assert Left[5].clients - {2} == map[];
  }

  /** The whole walk-through, from a fresh hub back to a hub without rooms. */
  lemma TwoClientScenario()
    ensures Broadcast(Register(Register(Empty, C1), C2), Message(1, 5, 1, "hi")) == Greeted
    ensures Unregister(Unregister(Greeted, C1), C2) == Empty
  {
    ScenarioJoin();
    ScenarioGreet();
    ScenarioLeave();
  }

  /**
   * unregisterClient deletes by id only: a stale client that was replaced under its id
   * (the same user connecting twice) removes its successor when it leaves.
   */
  lemma StaleUnregisterDropsSuccessor(s: Registry, stale: ClientState, successor: ClientState)
    requires stale.id == successor.id && stale.room == successor.room && stale != successor
    ensures var t := Unregister(Register(s, successor), stale);
            !HasRoom(t, successor.room) || successor.id !in t[successor.room].clients
  {
  }

  /**
   * A broadcast that finds a client's channel full closes it and deletes it from the room;
   * when that client's connection then ends, unregisterClient closes the channel a second
   * time, which panics (the room still exists, kept by the broadcast).
   */
  lemma EvictThenUnregisterPanics(s: Registry, m: Message, cid: int)
    requires Healthy(s)
    requires m.room in s && cid in s[m.room].clients && !HasSpace(s[m.room].clients[cid])
    ensures var evicted := s[m.room].clients[cid].(closed := true);
            && Run(s, [BroadcastEvent(m)]) == Some(Broadcast(s, m))
            && cid !in Broadcast(s, m)[m.room].clients
            && Run(s, [BroadcastEvent(m), UnregisterEvent(evicted)]) == None
  {
    BroadcastKeepsHealthy(s, m);
    var evs := [BroadcastEvent(m), UnregisterEvent(s[m.room].clients[cid].(closed := true))];
    assert evs[..1] == [BroadcastEvent(m)];
    assert [BroadcastEvent(m)][..0] == [];
  }
}
