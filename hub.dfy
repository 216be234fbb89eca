/**
 * hub/hub.go: the connection hub.  Each method is one atomic step of the hub (the Go code
 * gets that atomicity from its mutexes and from the single goroutine of Run), and each is
 * proved to move the abstract registry View() exactly as the matching function of HubSpec.
 */
module Hub {
  import opened Common
  import opened HubSpec

  /** model.Client: a connection with its outbound Send channel. */
  class Client {
    const id: int
    const room: int
    const user: int
    const cap: nat               // cap(Send)
    var queue: seq<string>       // the payloads buffered in Send, oldest first
    var closed: bool             // close(Send) has run
    var connClosed: bool         // Conn.Close() has run

    /** A client as a connection handler makes it: an empty, open channel of capacity `cap`. */
    constructor (id: int, room: int, user: int, cap: nat)
      ensures this.id == id && this.room == room && this.user == user && this.cap == cap
      ensures queue == [] && !closed && !connClosed
    {
      this.id, this.room, this.user, this.cap := id, room, user, cap;
      queue, closed, connClosed := [], false, false;
    }

    /**
     * The select of broadcastMessage: a send on Send when its buffer has room, otherwise the
     * default branch, which closes Send.  The channel must be open: Go panics on a send to a
     * closed channel.
     */
    method Offer(content: string) returns (sent: bool)
      requires !closed
      modifies this
      ensures sent <==> |old(queue)| < cap
      ensures queue == if sent then old(queue) + [content] else old(queue)
      ensures closed == !sent
      ensures connClosed == old(connClosed)
    {
      sent := |queue| < cap;
      if sent {
        queue := queue + [content];
      } else {
        closed := true;
      }
    }

    ghost function State(): ClientState
      reads this
    {
      ClientState(id, room, user, queue, cap, closed, connClosed)
    }
  }

  /** close(client.Send) on a client no longer stored in `rs`: the registry value of `rs` stays. */
  method CloseDetached(client: Client, ghost rs: map<int, RoomEntry>)
    requires client !in ClientsOf(rs)
    modifies client
    ensures client.closed && client.queue == old(client.queue) && client.connClosed == old(client.connClosed)
    ensures ViewOf(rs) == old(ViewOf(rs))
  {
    client.closed := true;
    ViewOfUnchanged(rs);
  }

  /** RoomEntry: the room metadata (nil for a room made by a registration) and its clients. */
  datatype RoomEntry = RoomEntry(room: Option<Room>, clients: map<int, Client>)

  /** The client objects of one client map. */
  ghost function ClientObjects(m: map<int, Client>): set<Client>
  {
    set cid | cid in m :: m[cid]
  }

  ghost function EntryView(e: RoomEntry): EntryState
    reads ClientObjects(e.clients)
  {
    EntryState(e.room, map cid | cid in e.clients :: e.clients[cid].State())
  }

  /** The client objects stored in a rooms map. */
  ghost function ClientsOf(rs: map<int, RoomEntry>): set<Client>
  {
    set r, cid | r in rs && cid in rs[r].clients :: rs[r].clients[cid]
  }

  /** A rooms map as a registry value. */
  ghost function ViewOf(rs: map<int, RoomEntry>): Registry
    reads ClientsOf(rs)
  {
    map r | r in rs :: EntryView(rs[r])
  }

  /** The registry value of a rooms map depends only on the state of its clients. */
  twostate lemma ViewOfUnchanged(rs: map<int, RoomEntry>)
    requires forall c :: c in ClientsOf(rs) ==> unchanged(c)
    ensures ViewOf(rs) == old(ViewOf(rs))
  {
  }

  /** Replacing entry k of a map whose other entries read as `before` gives `before` updated at k. */
  lemma ReplacedView(rs: map<int, RoomEntry>, k: int, e: RoomEntry, before: Registry)
    requires ViewOf(rs - {k}) == before - {k}
    ensures ViewOf(rs[k := e]) == before[k := EntryView(e)]
  {
    ViewOfUpdate(rs - {k}, k, e);
    assert rs[k := e] == (rs - {k})[k := e];
  }

  /** With every client stored under its own room, the other rooms hold none of room k's clients. */
  lemma OtherRooms(rs: map<int, RoomEntry>, k: int)
    requires k in rs
    requires forall r, cid :: r in rs && cid in rs[r].clients ==> rs[r].clients[cid].room == r
    ensures forall c :: c in ClientsOf(rs - {k}) ==> c.room != k && c !in ClientObjects(rs[k].clients)
  {
  }

  lemma ViewOfUpdate(rs: map<int, RoomEntry>, k: int, e: RoomEntry)
    ensures ViewOf(rs[k := e]) == ViewOf(rs)[k := EntryView(e)]
  {
    var u := rs[k := e];
    forall r | r in u && r != k
      ensures ViewOf(u)[r] == ViewOf(rs)[r]
    {
      assert u[r] == rs[r];
    }
  }

  lemma ViewOfRemove(rs: map<int, RoomEntry>, k: int)
    ensures ViewOf(rs - {k}) == ViewOf(rs) - {k}
  {
    var u := rs - {k};
    forall r | r in u
      ensures ViewOf(u)[r] == ViewOf(rs)[r]
    {
      assert u[r] == rs[r];
    }
  }

  /** Once its own key is deleted, a client stored only under that key is stored nowhere. */
  lemma DetachedNotStored(rs: map<int, RoomEntry>, c: Client)
    requires c.room in rs
    requires forall r, cid :: r in rs && cid in rs[r].clients && rs[r].clients[cid] == c ==>
               r == c.room && cid == c.id
    ensures c !in ClientsOf(rs[c.room := rs[c.room].(clients := rs[c.room].clients - {c.id})])
  {
  }

  /** The rooms map after unregisterClient's deletes: the client's key, then the room once empty. */
  function Unregistered(rs: map<int, RoomEntry>, room: int, id: int): map<int, RoomEntry>
    requires room in rs
  {
    var u := rs[room := rs[room].(clients := rs[room].clients - {id})];
    if |u[room].clients| == 0 then u - {room} else u
  }

  /**
   * Deleting a client's own key from its room detaches it in the registry value and leaves
   * the client object stored nowhere; deleting the emptied room as well is Unregister.
   */
  lemma DetachView(rs: map<int, RoomEntry>, c: Client)
    requires c.room in rs && Healthy(ViewOf(rs))
    ensures var u := rs[c.room := rs[c.room].(clients := rs[c.room].clients - {c.id})];
            ViewOf(u) == Detach(ViewOf(rs), c.State()) && c !in ClientsOf(u) && Healthy(ViewOf(u))
    ensures ViewOf(Unregistered(rs, c.room, c.id)) == HubSpec.Unregister(ViewOf(rs), c.State())
    ensures Healthy(ViewOf(Unregistered(rs, c.room, c.id)))
    ensures c !in ClientsOf(Unregistered(rs, c.room, c.id))
  {
    forall r, cid | r in rs && cid in rs[r].clients && rs[r].clients[cid] == c
      ensures r == c.room && cid == c.id
    {
      assert ViewOf(rs)[r].clients[cid] == c.State();
    }
    var e := rs[c.room];
    var rest := e.(clients := e.clients - {c.id});
    ViewOfUpdate(rs, c.room, rest);
    EntryViewWithout(e, c.id);
    EntryViewSize(rest);
    DetachedNotStored(rs, c);
    var u := rs[c.room := rest];
    ViewOfRemove(u, c.room);
    assert ClientsOf(u - {c.room}) <= ClientsOf(u);
    UnregisterKeepsHealthy(ViewOf(rs), c.State());
  }

  lemma EntryViewSize(e: RoomEntry)
    ensures EntryView(e).clients.Keys == e.clients.Keys
    ensures |EntryView(e).clients| == |e.clients|
  {
    assert |EntryView(e).clients| == |EntryView(e).clients.Keys|;
    assert |e.clients| == |e.clients.Keys|;
  }

  lemma EntryViewWithout(e: RoomEntry, id: int)
    ensures EntryView(e.(clients := e.clients - {id}))
         == EntryView(e).(clients := EntryView(e).clients - {id})
  {
  }

  lemma EntryViewWith(e: RoomEntry, c: Client)
    ensures EntryView(e.(clients := e.clients[c.id := c]))
         == EntryView(e).(clients := EntryView(e).clients[c.id := c.State()])
  {
  }

  /** What Hub.Run receives on its three channels. */
  datatype HubEvent =
    | Register(client: Client)
    | Unregister(client: Client)
    | Broadcast(message: Message)

  ghost function EventClients(e: HubEvent): set<Client>
  {
    if e.Broadcast? then {} else {e.client}
  }

  ghost function Snapshot(e: HubEvent): Event
    reads EventClients(e)
  {
    match e
    case Register(c) => RegisterEvent(c.State())
    case Unregister(c) => UnregisterEvent(c.State())
    case Broadcast(m) => BroadcastEvent(m)
  }

  /**
   * The loop of broadcastMessage over one room's clients: a non-blocking send of `content` to
   * each; a client whose channel is full is closed and deleted from the entry.
   */
  method Fanout(entry: RoomEntry, content: string) returns (delivered: RoomEntry)
    requires forall cid :: cid in entry.clients ==> entry.clients[cid].id == cid
    requires forall cid :: cid in entry.clients ==> !entry.clients[cid].closed
    modifies ClientObjects(entry.clients)
    ensures delivered.room == entry.room
    ensures forall cid :: cid in delivered.clients ==>
              cid in entry.clients && delivered.clients[cid] == entry.clients[cid]
    ensures EntryView(delivered) == Deliver(old(EntryView(entry)), content)
    ensures forall cid :: cid in entry.clients && cid !in delivered.clients ==>
              entry.clients[cid].closed
    ensures forall c :: c in ClientObjects(entry.clients) ==> c.connClosed == old(c.connClosed)
  {
    var todo := entry.clients.Keys;
    var kept := entry.clients;
    while todo != {}
      invariant todo <= entry.clients.Keys
      invariant forall cid :: cid in kept ==> cid in entry.clients && kept[cid] == entry.clients[cid]
      invariant forall cid :: cid in entry.clients ==>
        (cid in kept <==> cid in todo || |old(entry.clients[cid].queue)| < entry.clients[cid].cap)
      invariant forall cid :: cid in entry.clients ==>
        Offered(entry.clients[cid], old(entry.clients[cid].queue), old(entry.clients[cid].closed),
                old(entry.clients[cid].connClosed), content, cid !in todo)
      decreases todo
    {
      NonEmpty(todo);
      var cid :| cid in todo;
      var sent := entry.clients[cid].Offer(content);
      if !sent {
        kept := kept - {cid};
      }
      todo := todo - {cid};
    }
    delivered := entry.(clients := kept);
    ghost var e0 := old(EntryView(entry));
    forall cid | cid in entry.clients
      ensures e0.clients[cid] == old(entry.clients[cid].State())
    {
    }
    FanoutView(entry, kept, e0, content);
  }

  /** The state Fanout leaves behind reads as Deliver of the entry it started from. */
  lemma FanoutView(entry: RoomEntry, kept: map<int, Client>, e0: EntryState, content: string)
    requires e0.room == entry.room && e0.clients.Keys == entry.clients.Keys
    requires forall cid :: cid in kept ==> cid in entry.clients && kept[cid] == entry.clients[cid]
    requires forall cid :: cid in entry.clients ==>
      var c, c0 := entry.clients[cid], e0.clients[cid];
      c.id == c0.id && c.room == c0.room && c.user == c0.user && c.cap == c0.cap
      && (cid in kept <==> HasSpace(c0))
      && Offered(c, c0.queue, c0.closed, c0.connClosed, content, true)
    ensures EntryView(entry.(clients := kept)) == Deliver(e0, content)
  {
    var d := Deliver(e0, content);
    var v := EntryView(entry.(clients := kept));
    forall cid
      ensures cid in v.clients <==> cid in d.clients
    {
    }
    forall cid | cid in d.clients
      ensures v.clients[cid] == d.clients[cid]
    {
    }
  }

  /** A client's fields once Offer(content) has run on it (`done`), or as they were (`!done`). */
  ghost predicate Offered(c: Client, queue0: seq<string>, closed0: bool, connClosed0: bool,
                          content: string, done: bool)
    reads c
  {
    c.connClosed == connClosed0
    && if !done then c.queue == queue0 && c.closed == closed0
       else if |queue0| < c.cap then c.queue == queue0 + [content] && c.closed == closed0
       else c.queue == queue0 && c.closed
  }

  /** The loop of RemoveRoom: close each client's channel and connection. */
  method Disconnect(entry: RoomEntry)
    requires forall cid :: cid in entry.clients ==> entry.clients[cid].id == cid
    modifies ClientObjects(entry.clients)
    ensures forall cid :: cid in entry.clients ==>
              entry.clients[cid].closed && entry.clients[cid].connClosed
    ensures forall c :: c in ClientObjects(entry.clients) ==> c.queue == old(c.queue)
  {
    var todo := entry.clients.Keys;
    while todo != {}
      invariant todo <= entry.clients.Keys
      invariant forall cid :: cid in entry.clients && cid !in todo ==>
        entry.clients[cid].closed && entry.clients[cid].connClosed
      invariant forall cid :: cid in entry.clients ==>
        entry.clients[cid].queue == old(entry.clients[cid].queue)
      decreases todo
    {
      NonEmpty(todo);
      var cid :| cid in todo;
      var client := entry.clients[cid];
      client.closed := true;
      client.connClosed := true;
      todo := todo - {cid};
    }
  }

  class Hub {
    var rooms: map<int, RoomEntry>

    /** Every client object stored in the registry. */
    ghost function Clients(): set<Client>
      reads this
    {
      ClientsOf(rooms)
    }

    /** The registry as a value. */
    ghost function View(): Registry
      reads this, Clients()
    {
      ViewOf(rooms)
    }

    ghost predicate Valid()
      reads this, Clients()
    {
      Healthy(View())
    }

    /** NewHub: an empty registry. */
    constructor ()
      ensures Valid() && View() == Empty
      ensures forall roomId :: !HasRoom(roomId) && GetRoomClientsCount(roomId) == 0
    {
      rooms := map[];
    }

    /** A stored client sits under its own room and id and is open and within capacity. */
    lemma Stored(r: int, cid: int)
      requires Valid() && r in rooms && cid in rooms[r].clients
      ensures rooms[r].clients[cid].room == r && rooms[r].clients[cid].id == cid
      ensures !rooms[r].clients[cid].closed
      ensures |rooms[r].clients[cid].queue| <= rooms[r].clients[cid].cap
    {
      assert View()[r].clients[cid] == rooms[r].clients[cid].State();
    }

    /** GetRoom: the room metadata, or None (Go's nil) for an unknown id or a bare room. */
    function GetRoom(roomId: int): (r: Option<Room>)
      reads this, Clients()
      ensures r == HubSpec.GetRoom(View(), roomId)
    {
      if roomId in rooms then rooms[roomId].room else None
    }

    /** HasRoom. */
    function HasRoom(roomId: int): (b: bool)
      reads this, Clients()
      ensures b == HubSpec.HasRoom(View(), roomId)
    {
      roomId in rooms
    }

    /** GetRoomClientsCount: the size of the room's client map, 0 for an unknown room. */
    function GetRoomClientsCount(roomId: int): (n: nat)
      reads this, Clients()
      ensures n == ClientsCount(View(), roomId)
    {
      if roomId in rooms then
        assert View()[roomId].clients.Keys == rooms[roomId].clients.Keys;
        assert |View()[roomId].clients| == |View()[roomId].clients.Keys|;
        |rooms[roomId].clients|
      else 0
    }

    /** CreateRoom: a no-op when the id exists, otherwise a new entry with no clients. */
    method CreateRoom(room: Room)
      requires Valid()
      modifies this
      ensures Valid()
      ensures View() == HubSpec.CreateRoom(old(View()), room)
    {
      ghost var before := View();
      if room.id !in rooms {
        ViewOfUpdate(rooms, room.id, RoomEntry(Some(room), map[]));
        var next := rooms[room.id := RoomEntry(Some(room), map[])];
        rooms := next;
        ViewOfUnchanged(next);
      }
      CreateRoomKeepsHealthy(before, room);
    }

    /** registerClient: create a bare entry if needed, then map client.Id to the client. */
    method RegisterClient(client: Client)
      requires Valid() && Admissible(client.State())
      modifies this
      ensures Valid()
      ensures View() == HubSpec.Register(old(View()), client.State())
    {
      if client.room !in rooms {
        rooms := rooms[client.room := RoomEntry(None, map[])];
      }
      var entry := rooms[client.room];
      rooms := rooms[client.room := entry.(clients := entry.clients[client.id := client])];
      assert rooms == old(rooms)[client.room := rooms[client.room]];
      ViewOfUnchanged(old(rooms));
      ViewOfUnchanged(rooms);
      ViewOfUpdate(old(rooms), client.room, rooms[client.room]);
      EntryViewWith(entry, client);
      assert EntryView(entry) == if client.room in old(View()) then old(View())[client.room]
                                 else EntryState(None, map[]);
      assert View() == HubSpec.Register(old(View()), client.State());
      RegisterKeepsHealthy(old(View()), client.State());
    }

    /**
     * unregisterClient: when the client's room exists, delete client.Id from it, close the
     * client's channel, and delete the room once it has no clients.  Closing an already
     * closed channel panics in Go (`panicked`); the delete has happened by then.
     */
    method UnregisterClient(client: Client) returns (panicked: bool)
      requires Valid()
      modifies this, client
      ensures Valid()
      ensures panicked <==> UnregisterPanics(old(View()), old(client.State()))
      ensures !panicked ==> View() == HubSpec.Unregister(old(View()), old(client.State()))
      ensures panicked ==>
        client.room in old(View()) && View() == Detach(old(View()), old(client.State()))
      ensures client.closed == (old(client.closed) || client.room in old(rooms))
      ensures client.queue == old(client.queue) && client.connClosed == old(client.connClosed)
    {
      panicked := false;
      if client.room in rooms {
        ghost var before, c0 := View(), client.State();
        UnregisterKeepsHealthy(before, c0);
        var emptied := DeleteClient(client);
        ghost var detached := Detach(before, c0);
        if client.closed {
          panicked := true;
          return;
        }
        CloseDetached(client, rooms);
        if emptied {
          DeleteEntry(client.room);
        }
      }
    }

    /** The first delete of unregisterClient: the client's key leaves its room's map. */
    method DeleteClient(client: Client) returns (emptied: bool)
      requires Valid() && client.room in rooms
      modifies this
      ensures client.room in rooms && client !in Clients()
      ensures View() == Detach(old(View()), client.State())
      ensures emptied <==> |View()[client.room].clients| == 0
    {
      DetachView(rooms, client);
      var entry := rooms[client.room];
      var detached := rooms[client.room := entry.(clients := entry.clients - {client.id})];
      EntryViewSize(detached[client.room]);
      emptied := |detached[client.room].clients| == 0;
      rooms := detached;
      ViewOfUnchanged(detached);
    }

    /** The second delete of unregisterClient: the emptied entry leaves the rooms map. */
    method DeleteEntry(roomId: int)
      modifies this
      ensures View() == old(View()) - {roomId}
      ensures Clients() <= old(Clients())
    {
      var next := rooms - {roomId};
      ViewOfRemove(rooms, roomId);
      assert ClientsOf(next) <= ClientsOf(rooms);
      label Deleted:
      rooms := next;
      ViewOfUnchanged@Deleted(next);
    }

    /**
     * broadcastMessage: for each client of the message's room, push the content when the
     * channel has space; otherwise close the channel and delete the client.  The entry stays.
     */
    method BroadcastMessage(message: Message)
      requires Valid()
      modifies this, Clients()
      ensures Valid()
      ensures View() == HubSpec.Broadcast(old(View()), message)
      ensures message.room in old(rooms) ==>
        message.room in rooms &&
        forall cid :: cid in old(rooms)[message.room].clients && cid !in rooms[message.room].clients ==>
          old(rooms)[message.room].clients[cid].closed
      ensures forall c :: c in old(Clients()) ==> c.connClosed == old(c.connClosed)
    {
      if message.room in rooms {
        ghost var before := View();
        var entry := rooms[message.room];
        RoomClients(message.room);
        Homed();
        OtherRooms(rooms, message.room);
        ViewOfRemove(rooms, message.room);
        ghost var e0 := EntryView(entry);
        assert e0 == before[message.room];
        var delivered := Fanout(entry, message.content);
        assert EntryView(delivered) == Deliver(e0, message.content);
        ViewOfUnchanged(rooms - {message.room});
        ReplacedView(rooms, message.room, delivered, before);
        var next := rooms[message.room := delivered];
        label Delivered:
        rooms := next;
        ViewOfUnchanged@Delivered(next);
        BroadcastKeepsHealthy(before, message);
      }
    }

    /** RemoveRoom: close every client's channel and connection, then delete the entry. */
    method RemoveRoom(roomId: int)
      requires Valid()
      modifies this, Clients()
      ensures Valid()
      ensures View() == HubSpec.RemoveRoom(old(View()), roomId)
      ensures roomId in old(rooms) ==>
        forall cid :: cid in old(rooms)[roomId].clients ==>
          old(rooms)[roomId].clients[cid].closed && old(rooms)[roomId].clients[cid].connClosed
      ensures forall c :: c in old(Clients()) ==> c.queue == old(c.queue)
    {
      if roomId in rooms {
        ghost var before := View();
        var entry := rooms[roomId];
        RoomClients(roomId);
        Homed();
        OtherRooms(rooms, roomId);
        ViewOfRemove(rooms, roomId);
        Disconnect(entry);
        var next := rooms - {roomId};
        ViewOfUnchanged(next);
        label Disconnected:
        rooms := next;
        ViewOfUnchanged@Disconnected(next);
        RemoveRoomKeepsHealthy(before, roomId);
      }
    }

    /**
     * One iteration of Run's select loop: the event received is handled by the matching
     * method, and the registry moves as HubSpec.Step says for the event as it was received.
     */
    method Dispatch(e: HubEvent) returns (panicked: bool)
      requires Valid()
      requires e.Register? ==> Admissible(e.client.State())
      modifies this, Clients(), EventClients(e)
      ensures Valid()
      ensures HubSpec.Step(old(View()), old(Snapshot(e))) == if panicked then None else Some(View())
    {
      panicked := false;
      match e
      case Register(c) =>
        RegisterClient(c);
      case Unregister(c) =>
        panicked := UnregisterClient(c);
      case Broadcast(m) =>
        BroadcastKeepsHealthy(View(), m);
        BroadcastMessage(m);
    }

    /** The clients of one room are registry objects, each under its own id and that room. */
    lemma RoomClients(r: int)
      requires Valid() && r in rooms
      ensures ClientObjects(rooms[r].clients) <= Clients()
      ensures forall cid :: cid in rooms[r].clients ==>
                rooms[r].clients[cid].id == cid && rooms[r].clients[cid].room == r
      ensures forall cid :: cid in rooms[r].clients ==> !rooms[r].clients[cid].closed
    {
      forall cid | cid in rooms[r].clients
        ensures rooms[r].clients[cid].id == cid && rooms[r].clients[cid].room == r
        ensures !rooms[r].clients[cid].closed
      {
        Stored(r, cid);
      }
    }

    /** Every stored client object carries the id of the room it is stored under. */
    lemma Homed()
      requires Valid()
      ensures forall r, cid :: r in rooms && cid in rooms[r].clients ==> rooms[r].clients[cid].room == r
    {
      forall r, cid | r in rooms && cid in rooms[r].clients
        ensures rooms[r].clients[cid].room == r
      {
        Stored(r, cid);
      }
    }
  }
}
