/** The message controller: storing a chat message, and a room's history
    newest first. */
module MessageController {
  import opened Api
  import opened Identity
  import opened RoomController

  /** A stored message; `createdAt` is the time the `timestamps` option
      records when the document is created. */
  datatype Message = Message(id: nat, roomId: RoomId, sender: UserId, body: string, createdAt: int)

  /** Why `Message.create` can refuse a record: its `message` path is
      required, so an empty body fails validation. */
  datatype SaveError = BodyRequired

  /** The messages of `records` that belong to room `roomId`, in stored order. */
  function InRoom(records: seq<Message>, roomId: RoomId): (r: seq<Message>)
    ensures forall m :: m in r <==> m in records && m.roomId == roomId
    ensures |r| <= |records|
  {
    if |records| == 0 then []
    else
      var rest := InRoom(records[1..], roomId);
      assert forall m :: m in records <==> m == records[0] || m in records[1..];
      if records[0].roomId == roomId then [records[0]] + rest else rest
  }

  /** Storing a message of another room leaves a room's messages as they
      were; storing one of this room adds it at the end. */
  lemma {:induction false} InRoomAppend(records: seq<Message>, m: Message, roomId: RoomId)
    ensures InRoom(records + [m], roomId) == InRoom(records, roomId) + (if m.roomId == roomId then [m] else [])
  {
    if |records| > 0 {
      assert (records + [m])[1..] == records[1..] + [m];
      InRoomAppend(records[1..], m, roomId);
    } else {
      assert [m][1..] == [];
    }
  }

  /** Ordered newest first by `createdAt`. */
  predicate NewestFirst(ms: seq<Message>) {
    forall i, j :: 0 <= i < j < |ms| ==> ms[i].createdAt >= ms[j].createdAt
  }

  /** A message no older than any of a newest-first list can go in front of it. */
  lemma NewestFirstCons(a: Message, rest: seq<Message>)
    requires NewestFirst(rest)
    requires forall x :: x in rest ==> x.createdAt <= a.createdAt
    ensures NewestFirst([a] + rest)
  {
    var r := [a] + rest;
    forall i, j | 0 <= i < j < |r|
      ensures r[i].createdAt >= r[j].createdAt
    {
      assert r[j] == rest[j - 1] && r[j] in rest;
      if i > 0 {
        assert r[i] == rest[i - 1];
      }
    }
  }

  /** Puts `m` in front of the first message that is not newer than it. */
  function InsertNewest(m: Message, ms: seq<Message>): (r: seq<Message>)
    requires NewestFirst(ms)
    ensures NewestFirst(r)
    ensures forall x :: x in r ==> x == m || x in ms
  {
    if |ms| == 0 || ms[0].createdAt <= m.createdAt then
      assert forall x :: x in ms ==> x.createdAt <= ms[0].createdAt;
      NewestFirstCons(m, ms);
      [m] + ms
    else
      var rest := InsertNewest(m, ms[1..]);
      assert forall x :: x in ms[1..] ==> x in ms;
      NewestFirstCons(ms[0], rest);
      [ms[0]] + rest
  }

  /** Inserting adds exactly the one message. */
  lemma {:induction false} InsertNewestAddsOne(m: Message, ms: seq<Message>)
    requires NewestFirst(ms)
    ensures multiset(InsertNewest(m, ms)) == multiset(ms) + multiset{m}
  {
    if |ms| > 0 && ms[0].createdAt > m.createdAt {
      InsertNewestAddsOne(m, ms[1..]);
      assert ms == [ms[0]] + ms[1..];
    }
  }

  /** `.sort({ createdAt: -1 })`: the same messages, newest first. */
  function SortNewestFirst(ms: seq<Message>): (r: seq<Message>)
    ensures NewestFirst(r)
    ensures multiset(r) == multiset(ms)
  {
    if |ms| == 0 then []
    else
      assert ms == [ms[0]] + ms[1..];
      InsertNewestAddsOne(ms[0], SortNewestFirst(ms[1..]));
      InsertNewest(ms[0], SortNewestFirst(ms[1..]))
  }

  /** The message collection, in insertion order; a message's id is its
      position. */
  class MessageStore {
    var records: seq<Message>

    ghost predicate Valid()
      reads this
    {
      forall i :: 0 <= i < |records| ==> records[i].id == i
    }

    constructor ()
      ensures Valid() && records == []
    {
      records := [];
    }

    /** `saveMessage`: `Message.create` at time `now`. A record with an
        empty body fails validation and nothing is stored. */
    method SaveMessage(roomId: RoomId, sender: UserId, body: string, now: int)
      returns (r: Result<Message, SaveError>)
      requires Valid()
      modifies this
      ensures Valid()
      ensures body == "" ==> r == Failure(BodyRequired) && records == old(records)
      ensures body != "" ==> r == Success(Message(|old(records)|, roomId, sender, body, now))
                             && records == old(records) + [r.value]
    {
      if body == "" {
        return Failure(BodyRequired);
      }
      var m := Message(|records|, roomId, sender, body, now);
      records := records + [m];
      r := Success(m);
    }

    /** `getMessagesByRoom`: exactly the messages of the room, newest first. */
    function History(roomId: Option<RoomId>): (r: Result<seq<Message>, ApiError>)
      reads this
      ensures roomId.None? <==> r == Failure(ApiError(400, "Room ID is required"))
      ensures r.Success? <==> roomId.Some?
      ensures r.Success? ==> forall m :: m in r.value <==> m in records && m.roomId == roomId.value
      ensures r.Success? ==> multiset(r.value) == multiset(InRoom(records, roomId.value))
      ensures r.Success? ==> NewestFirst(r.value)
    {
      if roomId.None? then Failure(ApiError(400, "Room ID is required"))
      else
        var r := SortNewestFirst(InRoom(records, roomId.value));
        assert forall m :: m in r <==> m in multiset(InRoom(records, roomId.value));
        Success(r)
    }
  }
}
