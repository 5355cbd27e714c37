/**
 * The in-memory room store (app/api/room/repository/impl.ts, `InMemoryRoomRepository`): rooms
 * by id in insertion order, plus a handle-to-id index. Stored rooms are values; the shallow
 * copies the store hands out are modelled as plain copies.
 */
module RoomRepository {
  import opened Wrappers
  import opened OrderedMap
  import opened RoomModel

  /** `rooms` (id to room, insertion-ordered) and `roomHandles` (handle to id). */
  datatype Repo = Repo(rooms: OrdMap<string, MetaRoom>, handles: map<string, string>)

  /** The store after an operation, and what the operation returned or threw. */
  datatype Outcome<+T> = Outcome(repo: Repo, result: Result<T, Failure>)

  /**
   * The two indexes agree: rooms are stored under their own ids, every handle names a stored
   * room carrying that handle, and every stored room's handle is indexed to it.
   */
  ghost predicate Consistent(r: Repo) {
    && Valid(r.rooms)
    && (forall id | id in r.rooms.entries :: r.rooms.entries[id].id == id)
    && (forall h | h in r.handles :: r.handles[h] in r.rooms.entries && r.rooms.entries[r.handles[h]].handle == h)
    && (forall id | id in r.rooms.entries :: r.rooms.entries[id].handle in r.handles && r.handles[r.rooms.entries[id].handle] == id)
  }

  function EmptyRepo(): (r: Repo)
    ensures Consistent(r) && r.rooms.entries == map[] && r.handles == map[]
  {
    Repo(Empty(), map[])
  }

  /**
   * `create(room)`: a taken handle is refused first, then a taken id, both with
   * `RoomAlreadyExistsError` and no change; otherwise the room is stored under both indexes.
   */
  function Create(repo: Repo, room: MetaRoom): (o: Outcome<MetaRoom>)
    ensures room.handle in repo.handles ==>
      o == Outcome(repo, Err(RoomAlreadyExists("Room with handle '" + room.handle + "' already exists")))
    ensures room.handle !in repo.handles && room.id in repo.rooms.entries ==>
      o == Outcome(repo, Err(RoomAlreadyExists("Room with ID '" + room.id + "' already exists")))
    ensures o.result.Ok? <==> room.handle !in repo.handles && room.id !in repo.rooms.entries
    ensures o.result.Ok? ==>
      && o.result.value == room
      && o.repo.rooms.entries == repo.rooms.entries[room.id := room]
      && o.repo.handles == repo.handles[room.handle := room.id]
    ensures Consistent(repo) ==> Consistent(o.repo)
    // the stored room is found again by id, and by handle unless its id is empty (a falsy id)
    ensures o.result.Ok? ==> FindById(o.repo, room.id) == Some(room) && HandleExists(o.repo, room.handle)
    ensures o.result.Ok? ==> (FindByHandle(o.repo, room.handle) == Some(room) <==> room.id != "")
  {
    if room.handle in repo.handles then
      Outcome(repo, Err(RoomAlreadyExists("Room with handle '" + room.handle + "' already exists")))
    else if room.id in repo.rooms.entries then
      Outcome(repo, Err(RoomAlreadyExists("Room with ID '" + room.id + "' already exists")))
    else
      Outcome(Repo(Put(repo.rooms, room.id, room), repo.handles[room.handle := room.id]), Ok(room))
  }

  /** `findById(roomId)`: the stored room, or null. */
  function FindById(repo: Repo, id: string): (r: Option<MetaRoom>)
    ensures r.Some? <==> id in repo.rooms.entries
    ensures r.Some? ==> r.value == repo.rooms.entries[id]
    ensures Consistent(repo) && r.Some? ==> r.value.id == id
  {
    if id in repo.rooms.entries then Some(repo.rooms.entries[id]) else None
  }

  /**
   * `findByHandle(handle)`: look the id up in the handle index; a missing or empty id gives
   * null, as does an id with no stored room.
   */
  function FindByHandle(repo: Repo, handle: string): (r: Option<MetaRoom>)
    ensures handle !in repo.handles || repo.handles[handle] == "" ==> r.None?
    ensures r.Some? ==> r == FindById(repo, repo.handles[handle])
    ensures Consistent(repo) ==>
      (r.Some? <==> handle in repo.handles && repo.handles[handle] != "")
    ensures Consistent(repo) && r.Some? ==> r.value.handle == handle
  {
    if handle !in repo.handles || repo.handles[handle] == "" then None
    else FindById(repo, repo.handles[handle])
  }

  /** `handleExists(handle)`. */
  function HandleExists(repo: Repo, handle: string): (b: bool)
    ensures b <==> handle in repo.handles
    ensures Consistent(repo) ==> (b <==> exists id | id in repo.rooms.entries :: repo.rooms.entries[id].handle == handle)
  {
    handle in repo.handles
  }

  /** The `RoomNotFoundError` the participant operations throw for an unknown id. */
  function NotFoundById(id: string): Failure {
    RoomNotFound("Room with ID '" + id + "' not found")
  }

  /**
   * `addParticipant(roomId, userId)`: unknown room fails; a user already listed is not added
   * again; otherwise the user is appended.
   */
  function AddParticipant(repo: Repo, id: string, user: string): (o: Outcome<bool>)
    ensures id !in repo.rooms.entries ==> o == Outcome(repo, Err(NotFoundById(id)))
    ensures id in repo.rooms.entries ==>
      var before := repo.rooms.entries[id].participants;
      && o.result == Ok(true)
      && o.repo.handles == repo.handles
      && o.repo.rooms.entries.Keys == repo.rooms.entries.Keys
      && (forall k | k in repo.rooms.entries && k != id :: o.repo.rooms.entries[k] == repo.rooms.entries[k])
      && o.repo.rooms.entries[id] == repo.rooms.entries[id].(participants := o.repo.rooms.entries[id].participants)
      && o.repo.rooms.entries[id].participants == (if user in before then before else before + [user])
    ensures id in repo.rooms.entries && NoDuplicates(repo.rooms.entries[id].participants) ==>
      NoDuplicates(o.repo.rooms.entries[id].participants) && user in o.repo.rooms.entries[id].participants
    ensures Consistent(repo) ==> Consistent(o.repo)
  {
    if id !in repo.rooms.entries then Outcome(repo, Err(NotFoundById(id)))
    else
      var room := repo.rooms.entries[id];
      if user in room.participants then Outcome(repo, Ok(true))
      else
        var room' := room.(participants := room.participants + [user]);
        Outcome(Repo(Put(repo.rooms, id, room'), repo.handles), Ok(true))
  }

  /** `removeParticipant(roomId, userId)`: unknown room fails; otherwise the first occurrence goes. */
  function RemoveParticipant(repo: Repo, id: string, user: string): (o: Outcome<bool>)
    ensures id !in repo.rooms.entries ==> o == Outcome(repo, Err(NotFoundById(id)))
    ensures id in repo.rooms.entries ==>
      && o.result == Ok(true)
      && o.repo.handles == repo.handles
      && o.repo.rooms.entries.Keys == repo.rooms.entries.Keys
      && (forall k | k in repo.rooms.entries && k != id :: o.repo.rooms.entries[k] == repo.rooms.entries[k])
      && o.repo.rooms.entries[id] == repo.rooms.entries[id].(participants := RemoveFirst(repo.rooms.entries[id].participants, user))
    ensures Consistent(repo) ==> Consistent(o.repo)
  {
    if id !in repo.rooms.entries then Outcome(repo, Err(NotFoundById(id)))
    else
      var room := repo.rooms.entries[id];
      Outcome(Repo(Put(repo.rooms, id, room.(participants := RemoveFirst(room.participants, user))), repo.handles), Ok(true))
  }

  /** `getAll()`: every stored room once, in creation order, and nothing else. */
  function GetAll(repo: Repo): (rs: seq<MetaRoom>)
    ensures Valid(repo.rooms) ==> |rs| == |repo.rooms.keys| == |repo.rooms.entries|
    ensures Valid(repo.rooms) ==> forall i | 0 <= i < |rs| :: rs[i] == repo.rooms.entries[repo.rooms.keys[i]]
    ensures Valid(repo.rooms) ==> forall id | id in repo.rooms.entries :: repo.rooms.entries[id] in rs
  {
    var rs := Values(repo.rooms);
    assert Valid(repo.rooms) ==> |rs| == |repo.rooms.keys| == |repo.rooms.entries| && forall id | id in repo.rooms.entries :: repo.rooms.entries[id] in rs by {
      if Valid(repo.rooms) {
        KeysCount(repo.rooms);
        forall id | id in repo.rooms.entries
          ensures repo.rooms.entries[id] in rs
        {
          ValueListed(repo.rooms, id);
        }
      }
    }
    rs
  }
}
