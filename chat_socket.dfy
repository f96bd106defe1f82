/** The socket server: a handshake gate that authenticates each connection,
    then the `join_room`, `send_message`, `leave_room` and `disconnect`
    handlers, each one atomic step over room presence, room membership,
    the message store and the stream of emitted events. */
module ChatSocket {
  import opened Api
  import opened JsText
  import opened Identity
  import opened RoomController
  import opened MessageController
  import AuthMiddleware

  /** A connection's `socket.id`. */
  type SocketId = nat

  /** What a socket receives. */
  datatype Event =
    | ConnectError(reason: string)
    | SystemMessage(text: string)
    | UserJoined(message: string)
    | ReceiveMessage(record: Message)
    | UserLeft(message: string)

  /** One `emit`: the sockets it reaches and the event they receive. */
  datatype Emission = Emission(to: set<SocketId>, event: Event)

  datatype Admission = Admit(user: Principal) | Refuse(reason: string)

  /** The `io.use` gate on `socket.handshake.auth.token`. */
  function Handshake(token: Option<string>, verify: string -> Verdict, users: seq<User>): (r: Admission)
    ensures r.Admit? <==> Truthy(token) && verify(token.value).Verified?
                          && FindById(users, verify(token.value).sub).Some?
    ensures r.Admit? ==> r.user == WithoutPassword(FindById(users, verify(token.value).sub).value)
    ensures !Truthy(token) ==> r == Refuse("Authentication token missing")
    ensures Truthy(token) && verify(token.value).Verified? && FindById(users, verify(token.value).sub).None?
            ==> r == Refuse("User not found")
    ensures Truthy(token) && !verify(token.value).Verified? ==> r == Refuse("Authentication failed")
  {
    if !Truthy(token) then Refuse("Authentication token missing")
    else match Resolve(token.value, verify, users)
      case Resolved(u) => Admit(u)
      case NoSuchUser => Refuse("User not found")
      case TokenExpired => Refuse("Authentication failed")
      case TokenRejected => Refuse("Authentication failed")
  }

  /** The socket gate and the HTTP gate agree: a token admitted on the
      handshake is admitted as a bearer header, with the same user, and
      the other way round. */
  lemma GatesAgree(token: string, verify: string -> Verdict, users: seq<User>)
    requires token != "" && ' ' !in token
    ensures var header := Some(AuthMiddleware.Bearer + token);
      && (Handshake(Some(token), verify, users).Admit? <==> AuthMiddleware.Protect(header, verify, users).Admitted?)
      && (Handshake(Some(token), verify, users).Admit? ==>
            Handshake(Some(token), verify, users).user == AuthMiddleware.Protect(header, verify, users).user)
  {
    var h := AuthMiddleware.Bearer + token;
    assert h[..|AuthMiddleware.Bearer|] == AuthMiddleware.Bearer;
    assert h[|AuthMiddleware.Bearer|..] == token;
    var t := AuthMiddleware.TokenOf(h);
    assert forall k :: 0 <= k < |t| ==> t[k] == token[k];
    assert t == token;
  }

  class ChatServer {
    /** The room collection the handlers read and the message collection
        they write. */
    const registry: RoomRegistry
    const store: MessageStore
    /** `socket.user` of each admitted connection. */
    var sessions: map<SocketId, Principal>
    /** The sockets `socket.join` has put in each room. */
    var presence: map<RoomId, set<SocketId>>
    /** `socket.currentRoom`. */
    var currentRoom: map<SocketId, RoomId>
    /** Every event emitted so far, in order. */
    var outbox: seq<Emission>

    /** Only admitted sockets are present anywhere, and only existing rooms
        have sockets in them. */
    ghost predicate Valid()
      reads this`sessions, this`presence, this`currentRoom, registry, store
    {
      && registry.Valid() && store.Valid()
      && (forall r :: r in presence ==> r < |registry.rooms| && presence[r] <= sessions.Keys)
      && (forall s :: s in currentRoom ==> s in sessions && currentRoom[s] < |registry.rooms|)
    }

    /** The sockets present in room `r`. */
    function Present(r: RoomId): set<SocketId>
      reads this`presence
    {
      if r in presence then presence[r] else {}
    }

    constructor (registry: RoomRegistry, store: MessageStore)
      requires registry.Valid() && store.Valid()
      ensures Valid()
      ensures this.registry == registry && this.store == store
      ensures sessions == map[] && presence == map[] && currentRoom == map[] && outbox == []
    {
      this.registry := registry;
      this.store := store;
      sessions := map[];
      presence := map[];
      currentRoom := map[];
      outbox := [];
    }

    /** A new connection `sid` runs the handshake gate; a refused one
        receives the reason as a connection error. */
    method Connect(sid: SocketId, token: Option<string>, verify: string -> Verdict, users: seq<User>)
      returns (r: Admission)
      requires Valid() && sid !in sessions
      modifies this`sessions, this`outbox
      ensures Valid()
      ensures r == Handshake(token, verify, users)
      ensures r.Admit? ==> sessions == old(sessions)[sid := r.user] && outbox == old(outbox)
      ensures r.Refuse? ==> sessions == old(sessions) && outbox == old(outbox) + [Emission({sid}, ConnectError(r.reason))]
      ensures presence == old(presence) && currentRoom == old(currentRoom)
    {
      r := Handshake(token, verify, users);
      if r.Admit? {
        sessions := sessions[sid := r.user];
      } else {
        outbox := outbox + [Emission({sid}, ConnectError(r.reason))];
      }
    }

    /** The second half of `join_room`, after the socket has entered the
        room: add the user to the members if absent, then announce the
        join to everyone present; a failed save is reported to the sender
        only. */
    method Enrolment(sid: SocketId, roomId: RoomId, saveOk: bool)
      requires Valid() && sid in sessions && roomId < |registry.rooms|
      modifies this`outbox, registry
      ensures Valid()
      ensures sessions[sid].id in old(registry.rooms)[roomId].members || saveOk ==>
        && registry.rooms == old(registry.rooms)[roomId := old(registry.rooms)[roomId].(members := Enrol(old(registry.rooms)[roomId].members, sessions[sid].id))]
        && outbox == old(outbox) + [Emission(Present(roomId), UserJoined(sessions[sid].username + " joined the room."))]
      ensures sessions[sid].id !in old(registry.rooms)[roomId].members && !saveOk ==>
        && registry.rooms == old(registry.rooms)
        && outbox == old(outbox) + [Emission({sid}, SystemMessage("Error joining room"))]
    {
      var user := sessions[sid];
      if user.id !in registry.rooms[roomId].members {
        if !saveOk {
          outbox := outbox + [Emission({sid}, SystemMessage("Error joining room"))];
          return;
        }
        registry.AddMember(roomId, user.id);
      }
      outbox := outbox + [Emission(Present(roomId), UserJoined(user.username + " joined the room."))];
    }

    /** `join_room`. `saveOk` says whether `room.save()` succeeds when the
        user has to be added to the members. Joining leaves every other
        room's presence as it was. */
    method JoinRoom(sid: SocketId, roomId: RoomId, saveOk: bool)
      requires Valid() && sid in sessions
      modifies this`presence, this`currentRoom, this`outbox, registry
      ensures Valid()
      ensures roomId >= |old(registry.rooms)| ==>
        && presence == old(presence) && currentRoom == old(currentRoom)
        && registry.rooms == old(registry.rooms)
        && outbox == old(outbox) + [Emission({sid}, SystemMessage("Room not found"))]
      ensures roomId < |old(registry.rooms)| ==>
        && presence == old(presence)[roomId := old(Present(roomId)) + {sid}]
        && currentRoom == old(currentRoom)[sid := roomId]
      ensures roomId < |old(registry.rooms)| && (sessions[sid].id in old(registry.rooms)[roomId].members || saveOk) ==>
        && registry.rooms == old(registry.rooms)[roomId := old(registry.rooms)[roomId].(members := Enrol(old(registry.rooms)[roomId].members, sessions[sid].id))]
        && outbox == old(outbox) + [Emission(Present(roomId), UserJoined(sessions[sid].username + " joined the room."))]
      ensures roomId < |old(registry.rooms)| && sessions[sid].id !in old(registry.rooms)[roomId].members && !saveOk ==>
        && registry.rooms == old(registry.rooms)
        && outbox == old(outbox) + [Emission({sid}, SystemMessage("Error joining room"))]
    {
      if roomId >= |registry.rooms| {
        outbox := outbox + [Emission({sid}, SystemMessage("Room not found"))];
        return;
      }
      presence := presence[roomId := Present(roomId) + {sid}];
      currentRoom := currentRoom[sid := roomId];
      Enrolment(sid, roomId, saveOk);
    }

    /** The body of `send_message` once its guard has passed: save the
        record, then broadcast it to the room; a failed save is reported
        to the sender only. */
    method Publish(sid: SocketId, roomId: RoomId, body: string, saveOk: bool, now: int)
      requires Valid() && sid in sessions && body != ""
      modifies this`outbox, store
      ensures Valid()
      ensures !saveOk ==> outbox == old(outbox) + [Emission({sid}, SystemMessage("Failed to send message"))]
                          && store.records == old(store.records)
      ensures saveOk ==>
        var m := Message(|old(store.records)|, roomId, sessions[sid].id, body, now);
        && store.records == old(store.records) + [m]
        && outbox == old(outbox) + [Emission(Present(roomId), ReceiveMessage(m))]
    {
      if !saveOk {
        outbox := outbox + [Emission({sid}, SystemMessage("Failed to send message"))];
        return;
      }
      var saved := store.SaveMessage(roomId, sessions[sid].id, body, now);
      outbox := outbox + [Emission(Present(roomId), ReceiveMessage(saved.value))];
    }

    /** `send_message`. `saveOk` says whether the database accepts the
        record; `now` is its creation time. A missing body makes `trim`
        throw, which the handler reports to the sender. The room is not
        checked: neither that it exists nor that the sender is in it. */
    method SendMessage(sid: SocketId, roomId: Option<RoomId>, message: Option<string>, saveOk: bool, now: int)
      requires Valid() && sid in sessions
      modifies this`outbox, store
      ensures Valid()
      ensures roomId.None? || (message.Some? && Trim(message.value) == "") ==>
        outbox == old(outbox) && store.records == old(store.records)
      ensures roomId.Some? && (message.None? || (Trim(message.value) != "" && !saveOk)) ==>
        && outbox == old(outbox) + [Emission({sid}, SystemMessage("Failed to send message"))]
        && store.records == old(store.records)
      ensures roomId.Some? && message.Some? && Trim(message.value) != "" && saveOk ==>
        var m := Message(|old(store.records)|, roomId.value, sessions[sid].id, Trim(message.value), now);
        && store.records == old(store.records) + [m]
        && outbox == old(outbox) + [Emission(Present(roomId.value), ReceiveMessage(m))]
    {
      if roomId.None? {
        return;
      }
      if message.None? {
        outbox := outbox + [Emission({sid}, SystemMessage("Failed to send message"))];
        return;
      }
      var body := Trim(message.value);
      if body != "" {
        Publish(sid, roomId.value, body, saveOk, now);
      }
    }

    /** `leave_room`: the socket leaves the room's presence; the stored
        members and `socket.currentRoom` stay as they were. */
    method LeaveRoom(sid: SocketId, roomId: RoomId)
      requires Valid() && sid in sessions
      modifies this`presence, this`outbox
      ensures Valid()
      ensures sessions == old(sessions) && currentRoom == old(currentRoom)
      ensures registry.rooms == old(registry.rooms)
      ensures presence == if roomId in old(presence) then old(presence)[roomId := old(presence)[roomId] - {sid}] else old(presence)
      ensures outbox == old(outbox) + [Emission(old(Present(roomId)) - {sid}, UserLeft(sessions[sid].username + " left the room."))]
    {
      var remaining := Present(roomId) - {sid};
      if roomId in presence {
        presence := presence[roomId := remaining];
      }
      outbox := outbox + [Emission(remaining, UserLeft(sessions[sid].username + " left the room."))];
    }

    /** `disconnect`: the handler only logs, so the socket stays in the
        rooms it joined and keeps its session. */
    method Disconnect(sid: SocketId)
      requires Valid() && sid in sessions
      ensures Valid() && sid in sessions
    {
    }
  }
}
