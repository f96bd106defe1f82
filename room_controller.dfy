/** The room controller: creating a room under a fresh name with its
    creator as the only member, and listing every room with its members
    looked up. */
module RoomController {
  import opened Api
  import opened Identity

  /** A room's `_id`; rooms are numbered in the order they were created. */
  type RoomId = nat

  datatype Room = Room(name: string, members: seq<UserId>)

  /** No user id occurs twice in `xs`. */
  predicate NoDup(xs: seq<UserId>) {
    forall i, j :: 0 <= i < j < |xs| ==> xs[i] != xs[j]
  }

  /** No two rooms share a name. */
  predicate NamesDistinct(rooms: seq<Room>) {
    forall i, j :: 0 <= i < j < |rooms| ==> rooms[i].name != rooms[j].name
  }

  /** `Room.findOne({ RoomName })` finds a room. */
  predicate NameTaken(rooms: seq<Room>, name: string) {
    exists i :: 0 <= i < |rooms| && rooms[i].name == name
  }

  /** `members.includes(user)` followed by a push when it is absent: the
      user is added at the end, once. */
  function Enrol(members: seq<UserId>, user: UserId): (r: seq<UserId>)
    ensures user in r
    ensures forall x :: x in r <==> x in members || x == user
    ensures IsPrefix(r, members) && |r| <= |members| + 1
    ensures NoDup(members) ==> NoDup(r)
  {
    if user in members then members else members + [user]
  }

  predicate IsPrefix(xs: seq<UserId>, prefix: seq<UserId>) {
    |prefix| <= |xs| && xs[..|prefix|] == prefix
  }

  /** Enrolling is idempotent: joining twice leaves the members as one join does. */
  lemma EnrolIdempotent(members: seq<UserId>, user: UserId)
    ensures Enrol(Enrol(members, user), user) == Enrol(members, user)
  {
  }

  /** A room as `populate("members", "-password")` returns it. */
  datatype RoomView = RoomView(id: RoomId, name: string, members: seq<Principal>)

  /** Populating an array of references: each id is replaced by its user,
      without the password, and ids that match no user are dropped. */
  function Populate(ids: seq<UserId>, users: seq<User>): (r: seq<Principal>)
    ensures |r| <= |ids|
    ensures forall p :: p in r ==> exists u :: u in users && u.id in ids && p == WithoutPassword(u)
    ensures (forall x :: x in ids ==> FindById(users, x).Some?) ==> |r| == |ids|
    ensures (forall x :: x in ids ==> FindById(users, x).Some?)
      ==> forall k :: 0 <= k < |ids| ==> r[k] == WithoutPassword(FindById(users, ids[k]).value)
  {
    if |ids| == 0 then []
    else
      var rest := Populate(ids[1..], users);
      assert forall x :: x in ids[1..] ==> x in ids;
      match FindById(users, ids[0])
      case None => rest
      case Some(u) => [WithoutPassword(u)] + rest
  }

  /** The room collection; a room's id is its position. */
  class RoomRegistry {
    var rooms: seq<Room>

    /** Names stay distinct and member lists hold no repeats. */
    ghost predicate Valid()
      reads this
    {
      NamesDistinct(rooms) && forall i :: 0 <= i < |rooms| ==> NoDup(rooms[i].members)
    }

    constructor ()
      ensures Valid() && rooms == []
    {
      rooms := [];
    }

    /** `createRoom`, called by the user `creator`. */
    method CreateRoom(name: Option<string>, creator: UserId) returns (r: Result<RoomId, ApiError>)
      requires Valid()
      modifies this
      ensures Valid()
      ensures !Truthy(name) ==> r == Failure(ApiError(400, "RoomName is required"))
      ensures Truthy(name) && NameTaken(old(rooms), name.value)
              ==> r == Failure(ApiError(400, "Room with this name already exists"))
      ensures r.Success? <==> Truthy(name) && !NameTaken(old(rooms), name.value)
      ensures r.Failure? ==> rooms == old(rooms)
      ensures r.Success? ==> r.value == |old(rooms)| && rooms == old(rooms) + [Room(name.value, [creator])]
    {
      if !Truthy(name) {
        return Failure(ApiError(400, "RoomName is required"));
      }
      if NameTaken(rooms, name.value) {
        return Failure(ApiError(400, "Room with this name already exists"));
      }
      r := Success(|rooms|);
      rooms := rooms + [Room(name.value, [creator])];
    }

    /** `room.members.push(user)` and `room.save()` when `user` is not yet a
        member of an existing room. */
    method AddMember(id: RoomId, user: UserId)
      requires Valid() && id < |rooms|
      modifies this
      ensures Valid()
      ensures rooms == old(rooms)[id := old(rooms)[id].(members := Enrol(old(rooms)[id].members, user))]
    {
      rooms := rooms[id := rooms[id].(members := Enrol(rooms[id].members, user))];
    }

    /** `getRooms`: every room, in creation order, with its members looked
        up in `users`. */
    function Listing(users: seq<User>): (r: seq<RoomView>)
      reads this
      ensures |r| == |rooms|
      ensures forall i :: 0 <= i < |r| ==> r[i].id == i && r[i].name == rooms[i].name
      ensures forall i :: 0 <= i < |r| ==> |r[i].members| <= |rooms[i].members|
      ensures forall i :: 0 <= i < |r| ==> r[i].members == Populate(rooms[i].members, users)
    {
      seq(|rooms|, i requires 0 <= i < |rooms| reads this => RoomView(i, rooms[i].name, Populate(rooms[i].members, users)))
    }
  }
}
