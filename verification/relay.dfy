/** The socket relay of the collaboration server: room membership as a map
    from room id to the set of member sockets, and one translation per
    inbound event into an outbound event for the room's other members.
    As socket.io does, every socket is also a member of a room named by its
    own id, and a broadcast leaves out every member of the sender's id
    room. */
module RoomRelay {
  import opened Basics
  import opened Models

  type SocketId = string
  type RoomId = string

  /** Room membership. A room with no members is not kept in the map. */
  type Rooms = map<RoomId, set<SocketId>>

  predicate NoEmptyRooms(rs: Rooms)
  {
    forall room :: room in rs ==> rs[room] != {}
  }

  function Members(rs: Rooms, room: RoomId): set<SocketId>
  {
    if room in rs then rs[room] else {}
  }

  /** `socket.join(room)`: the socket becomes a member of that room only. */
  function Join(rs: Rooms, room: RoomId, s: SocketId): (r: Rooms)
    ensures Members(r, room) == Members(rs, room) + {s}
    ensures forall other :: other != room ==> Members(r, other) == Members(rs, other)
    ensures NoEmptyRooms(rs) ==> NoEmptyRooms(r)
  {
    rs[room := Members(rs, room) + {s}]
  }

  /** `socket.leave(room)`: the socket stops being a member of that room
      only; a room left empty disappears. */
  function Leave(rs: Rooms, room: RoomId, s: SocketId): (r: Rooms)
    ensures Members(r, room) == Members(rs, room) - {s}
    ensures forall other :: other != room ==> Members(r, other) == Members(rs, other)
    ensures NoEmptyRooms(rs) ==> NoEmptyRooms(r)
  {
    var rest := Members(rs, room) - {s};
    if rest == {} then rs - {room} else rs[room := rest]
  }

  /** What socket.io does when a socket connects: it joins the room named by
      its own id. */
  function Connect(rs: Rooms, s: SocketId): (r: Rooms)
    ensures s in Members(r, s)
    ensures forall room :: room != s ==> Members(r, room) == Members(rs, room)
    ensures NoEmptyRooms(rs) ==> NoEmptyRooms(r)
  {
    Join(rs, s, s)
  }

  /** The usual state of a connected socket: it is in its own id room and no
      other socket has joined a room of that name. */
  predicate OwnRoomOnly(rs: Rooms, s: SocketId)
  {
    Members(rs, s) == {s}
  }

  /** A socket whose id names no room yet is, once connected, alone in its id
      room. */
  lemma ConnectOwnRoomOnly(rs: Rooms, s: SocketId)
    requires Members(rs, s) == {}
    ensures OwnRoomOnly(Connect(rs, s), s)
  {
  }

  /** What socket.io does when a socket disconnects: it leaves every room,
      and rooms left empty disappear. */
  function DisconnectAll(rs: Rooms, s: SocketId): (r: Rooms)
    ensures forall room :: Members(r, room) == Members(rs, room) - {s}
    ensures NoEmptyRooms(r)
  {
    map room | room in rs && rs[room] - {s} != {} :: rs[room] - {s}
  }

  /** Two maps without empty rooms are equal when every room has the same
      members. */
  lemma MembersDetermineRooms(a: Rooms, b: Rooms)
    requires NoEmptyRooms(a) && NoEmptyRooms(b)
    requires forall room :: Members(a, room) == Members(b, room)
    ensures a == b
  {
    forall room | room in a ensures room in b && a[room] == b[room] {
      assert Members(a, room) == a[room];
    }
    forall room | room in b ensures room in a {
      assert Members(b, room) == b[room];
    }
  }

  lemma JoinIdempotent(rs: Rooms, room: RoomId, s: SocketId)
    requires NoEmptyRooms(rs)
    ensures Join(Join(rs, room, s), room, s) == Join(rs, room, s)
  {
    MembersDetermineRooms(Join(Join(rs, room, s), room, s), Join(rs, room, s));
  }

  lemma LeaveIdempotent(rs: Rooms, room: RoomId, s: SocketId)
    requires NoEmptyRooms(rs)
    ensures Leave(Leave(rs, room, s), room, s) == Leave(rs, room, s)
  {
    MembersDetermineRooms(Leave(Leave(rs, room, s), room, s), Leave(rs, room, s));
  }

  /** Joining a room one was not in and leaving it again restores the
      membership exactly. */
  lemma LeaveUndoesJoin(rs: Rooms, room: RoomId, s: SocketId)
    requires NoEmptyRooms(rs) && s !in Members(rs, room)
    ensures Leave(Join(rs, room, s), room, s) == rs
  {
    MembersDetermineRooms(Leave(Join(rs, room, s), room, s), rs);
  }

  /** Events a client sends, with the payload fields the handlers read. */
  datatype Inbound =
    | JoinRoom(room: RoomId)
    | LeaveRoom(room: RoomId)
    | CodeChange(room: RoomId, code: string, fileId: string)
    | SendMessage(room: RoomId, message: string, username: string)
    | FileCreated(room: RoomId, file: CodeFile)
    | FileRenamed(room: RoomId, fileId: string, newName: string)
    | FileDeleted(room: RoomId, fileId: string)
    | ConsoleOutput(room: RoomId, output: string)
    | Disconnect

  /** Events the server emits, with the payload it sends. */
  datatype Outbound =
    | CodeUpdate(code: string)
    | ReceiveMessage(text: string)
    | FileAdded(file: CodeFile)
    | FileNameChanged(fileId: string, newName: string)
    | FileRemoved(fileId: string)
    | ConsoleText(output: string)

  /** The event name on the wire. */
  function EventName(o: Outbound): string
  {
    match o
    case CodeUpdate(_) => "code-update"
    case ReceiveMessage(_) => "receive-message"
    case FileAdded(_) => "file-created"
    case FileNameChanged(_, _) => "file-renamed"
    case FileRemoved(_) => "file-deleted"
    case ConsoleText(_) => "console-output"
  }

  /** The chat line the server builds from a message and its author. */
  function ChatLine(username: string, message: string): (line: string)
    ensures |line| == |username| + 2 + |message|
    ensures line[..|username|] == username
    ensures line[|username|..|username| + 2] == ": "
    ensures line[|username| + 2..] == message
  {
    username + ": " + message
  }

  predicate IsRelayed(ev: Inbound)
  {
    !(ev.JoinRoom? || ev.LeaveRoom? || ev.Disconnect?)
  }

  /** The outbound event a relayed inbound event becomes. */
  function Translate(ev: Inbound): (o: Outbound)
    requires IsRelayed(ev)
  {
    match ev
    case CodeChange(_, code, _) => CodeUpdate(code)
    case SendMessage(_, message, username) => ReceiveMessage(ChatLine(username, message))
    case FileCreated(_, file) => FileAdded(file)
    case FileRenamed(_, fileId, newName) => FileNameChanged(fileId, newName)
    case FileDeleted(_, fileId) => FileRemoved(fileId)
    case ConsoleOutput(_, output) => ConsoleText(output)
  }

  /** One delivery of an outbound event to one socket. */
  datatype Delivery = Delivery(to: SocketId, event: Outbound)

  /** `socket.to(room).emit(...)`: every member of the room receives the
      event once, except the members of the room named by the sender's id
      (the sender itself, as long as it has not left that room). */
  function Broadcast(rs: Rooms, sender: SocketId, room: RoomId, o: Outbound): (ds: set<Delivery>)
    ensures forall d :: d in ds <==>
      (d.to in Members(rs, room) && d.to !in Members(rs, sender) && d.event == o)
  {
    set s | s in Members(rs, room) && s !in Members(rs, sender) :: Delivery(s, o)
  }

  datatype Step = Step(rooms: Rooms, deliveries: set<Delivery>)

  /** The effect of one inbound event from socket `sender`. */
  function Handle(rs: Rooms, sender: SocketId, ev: Inbound): (st: Step)
    ensures ev.JoinRoom? ==> st.rooms == Join(rs, ev.room, sender)
    ensures ev.LeaveRoom? ==> st.rooms == Leave(rs, ev.room, sender)
    ensures ev.Disconnect? ==> st.rooms == DisconnectAll(rs, sender)
    ensures IsRelayed(ev) ==> st.rooms == rs
    ensures !IsRelayed(ev) ==> st.deliveries == {}
    ensures IsRelayed(ev) ==>
      forall d :: d in st.deliveries <==>
        (d.to in Members(rs, ev.room) && d.to !in Members(rs, sender) && d.event == Translate(ev))
  {
    match ev
    case JoinRoom(room) => Step(Join(rs, room, sender), {})
    case LeaveRoom(room) => Step(Leave(rs, room, sender), {})
    case Disconnect => Step(DisconnectAll(rs, sender), {})
    case _ => Step(rs, Broadcast(rs, sender, ev.room, Translate(ev)))
  }

  /** A relayed event reaches only members of the room it names: a socket
      that is in other rooms but not that one receives nothing. */
  lemma RoomIsolation(rs: Rooms, sender: SocketId, ev: Inbound, s: SocketId)
    requires IsRelayed(ev) && s !in Members(rs, ev.room)
    ensures forall d :: d in Handle(rs, sender, ev).deliveries ==> d.to != s
  {
  }

  /** A sender still in its own id room never receives its own event; one
      that has left that room and is in the target room does. */
  lemma SenderExcluded(rs: Rooms, sender: SocketId, ev: Inbound)
    ensures sender in Members(rs, sender) ==>
      forall d :: d in Handle(rs, sender, ev).deliveries ==> d.to != sender
    ensures IsRelayed(ev) && sender !in Members(rs, sender) && sender in Members(rs, ev.room) ==>
      Delivery(sender, Translate(ev)) in Handle(rs, sender, ev).deliveries
  {
  }

  /** A socket that joined the room named by the sender's id receives nothing
      from that sender, even in a room they share. */
  lemma IdRoomMembersExcluded(rs: Rooms, sender: SocketId, ev: Inbound, s: SocketId)
    requires s in Members(rs, sender)
    ensures forall d :: d in Handle(rs, sender, ev).deliveries ==> d.to != s
  {
  }

  /** A relayed event whose room is another socket's id reaches that socket
      directly: the id rooms are rooms like any other. */
  lemma IdRoomReachesSocket(rs: Rooms, sender: SocketId, target: SocketId, ev: Inbound)
    requires IsRelayed(ev) && ev.room == target
    requires target in Members(rs, target) && target !in Members(rs, sender)
    ensures Delivery(target, Translate(ev)) in Handle(rs, sender, ev).deliveries
  {
  }

  /** No handler checks membership: a socket outside the room reaches every
      member of it just as a member would. */
  lemma OutsiderReachesRoom(rs: Rooms, outsider: SocketId, member: SocketId, ev: Inbound)
    requires IsRelayed(ev) && outsider !in Members(rs, ev.room) && member in Members(rs, ev.room)
    requires OwnRoomOnly(rs, outsider) && OwnRoomOnly(rs, member)
    ensures Handle(rs, outsider, ev).deliveries == Handle(rs, member, ev).deliveries + {Delivery(member, Translate(ev))}
  {
    var a := Handle(rs, outsider, ev).deliveries;
    var b := Handle(rs, member, ev).deliveries + {Delivery(member, Translate(ev))};
    assert forall d :: d in a <==> d in b;
  }

  /** A chat message reaches each other member of its room as its chat line. */
  lemma ChatLineDelivered(rs: Rooms, sender: SocketId, peer: SocketId, room: RoomId, message: string, username: string)
    requires peer in Members(rs, room) && peer !in Members(rs, sender)
    ensures Delivery(peer, ReceiveMessage(ChatLine(username, message))) in Handle(rs, sender, SendMessage(room, message, username)).deliveries
  {
    assert Translate(SendMessage(room, message, username)) == ReceiveMessage(ChatLine(username, message));
  }

  /** code-change forwards only the code: the file id does not reach the
      other clients. */
  lemma CodeChangeDropsFileId(rs: Rooms, sender: SocketId, room: RoomId, code: string, f1: string, f2: string)
    ensures Handle(rs, sender, CodeChange(room, code, f1)) == Handle(rs, sender, CodeChange(room, code, f2))
  {
    var a := Handle(rs, sender, CodeChange(room, code, f1)).deliveries;
    var b := Handle(rs, sender, CodeChange(room, code, f2)).deliveries;
    assert forall d :: d in a <==> d in b;
  }

  /** The event name each relayed inbound event is emitted under. */
  lemma TranslatedNames(ev: Inbound)
    requires IsRelayed(ev)
    ensures EventName(Translate(ev)) ==
      match ev
      case CodeChange(_, _, _) => "code-update"
      case SendMessage(_, _, _) => "receive-message"
      case FileCreated(_, _) => "file-created"
      case FileRenamed(_, _, _) => "file-renamed"
      case FileDeleted(_, _) => "file-deleted"
      case ConsoleOutput(_, _) => "console-output"
  {
  }

  /** Events from several sockets, handled in order. */
  function Run(rs: Rooms, events: seq<(SocketId, Inbound)>): (r: Rooms)
    decreases |events|
  {
    if |events| == 0 then rs
    else Run(Handle(rs, events[0].0, events[0].1).rooms, events[1..])
  }

  /** No sequence of events ever leaves an empty room in the map. */
  lemma {:induction false} RunKeepsNoEmptyRooms(rs: Rooms, events: seq<(SocketId, Inbound)>)
    requires NoEmptyRooms(rs)
    ensures NoEmptyRooms(Run(rs, events))
    decreases |events|
  {
    if |events| > 0 {
      RunKeepsNoEmptyRooms(Handle(rs, events[0].0, events[0].1).rooms, events[1..]);
    }
  }

  /** Only join-room and leave-room events change membership, and only for
      the socket that sent them. */
  lemma {:induction false} RunOnlyMovesSenders(rs: Rooms, events: seq<(SocketId, Inbound)>, s: SocketId, room: RoomId)
    requires forall k :: 0 <= k < |events| ==> events[k].0 != s
    ensures (s in Members(Run(rs, events), room)) == (s in Members(rs, room))
    decreases |events|
  {
    if |events| > 0 {
      var next := Handle(rs, events[0].0, events[0].1).rooms;
      assert s in Members(next, room) <==> s in Members(rs, room);
      RunOnlyMovesSenders(next, events[1..], s, room);
    }
  }
}
