/**
 * The room HTTP endpoints (app/api/room/route.ts): `POST` creates a room, `GET` looks one up,
 * and `handleError` turns whatever a layer threw into a status and an error body.
 */
module RoomRoute {
  import opened Wrappers
  import opened Text
  import opened RoomModel
  import opened RoomRepository
  import opened RoomService
  import opened RoomDto

  /** The JSON bodies the endpoints answer with. */
  datatype Body =
    | ErrorBody(error: string)
    | CreatedBody(roomId: string, roomHandle: string, userId: string, createdAt: int, participants: seq<string>)
    | RoomBody(roomId: string, roomHandle: string, createdBy: string, createdAt: int, participants: seq<string>)

  datatype Response = Response(status: nat, body: Body)

  /** The request body of a `POST`: text the JSON parser rejects (with its message), or a value. */
  datatype RequestBody = Unreadable(message: string) | Readable(json: Json)

  /**
   * `handleError(error)`: the three room errors map to 400, 409 and 404, any other `Error` to
   * 400, each with its message as the body; a non-`Error` maps to 500 with a fixed message.
   */
  function HandleError(f: Failure): (r: Response)
    ensures r.body.ErrorBody?
    ensures r.status == 500 <==> f.NonError?
    ensures f.NonError? ==> r.body.error == "Internal server error"
    ensures !f.NonError? ==> r.body.error == f.message
    ensures f.RoomAlreadyExists? <==> r.status == 409
    ensures f.RoomNotFound? <==> r.status == 404
    ensures f.RoomValidation? || f.PlainError? <==> r.status == 400
  {
    match f
    case RoomValidation(m) => Response(400, ErrorBody(m))
    case RoomAlreadyExists(m) => Response(409, ErrorBody(m))
    case RoomNotFound(m) => Response(404, ErrorBody(m))
    case PlainError(m) => Response(400, ErrorBody(m))
    case NonError => Response(500, ErrorBody("Internal server error"))
  }

  /** The success body of `POST`: the created room, its creator reported as `userId`. */
  function CreatedResponse(room: MetaRoom): (r: Response)
    ensures r.status == 201
    ensures r.body == CreatedBody(room.id, room.handle, room.createdBy, room.createdAt, room.participants)
  {
    Response(201, CreatedBody(room.id, room.handle, room.createdBy, room.createdAt, room.participants))
  }

  /** The success body of `GET`. */
  function RoomResponse(room: MetaRoom): (r: Response)
    ensures r.status == 200
    ensures r.body == RoomBody(room.id, room.handle, room.createdBy, room.createdAt, room.participants)
  {
    Response(200, RoomBody(room.id, room.handle, room.createdBy, room.createdAt, room.participants))
  }

  /**
   * `POST /api/room`: parse, validate, create under the generated id `roomId` at time `now`.
   * Only a 201 changes the store; then the reply echoes a new room whose only member is its creator.
   */
  function Post(repo: Repo, body: RequestBody, roomId: string, now: int): (r: (Repo, Response))
    ensures r.1.status == 201 || r.1.body.ErrorBody?
    ensures r.1.status != 201 ==> r.0 == repo
    ensures body.Unreadable? ==> r.1 == HandleError(PlainError(body.message))
    ensures body.Readable? && ValidateCreateRoomRequest(body.json).Err? ==>
      r.1 == HandleError(ValidateCreateRoomRequest(body.json).error)
    ensures r.1.status == 201 ==>
      && body.Readable? && ValidateCreateRoomRequest(body.json).Ok?
      && var req := ValidateCreateRoomRequest(body.json).value;
         && r.1.body == CreatedBody(roomId, req.roomHandle, req.userId, now, [req.userId])
         && req.roomHandle !in repo.handles && roomId !in repo.rooms.entries
         && MatchesHandlePattern(req.roomHandle)
         && r.0 == Create(repo, MetaRoom(roomId, req.roomHandle, req.userId, now, [req.userId])).repo
    // a valid body goes to the service: its failure is classified, its success is a 201
    ensures body.Readable? && ValidateCreateRoomRequest(body.json).Ok? ==>
      var req := ValidateCreateRoomRequest(body.json).value;
      var o := CreateRoom(repo, req.userId, req.roomHandle, roomId, now);
      && (o.result.Err? ==> r.1 == HandleError(o.result.error))
      && (o.result.Ok? ==> r.1.status == 201)
    ensures Consistent(repo) ==> Consistent(r.0)
  {
    match body
    case Unreadable(m) => (repo, HandleError(PlainError(m)))
    case Readable(json) =>
      match ValidateCreateRoomRequest(json)
      case Err(f) => (repo, HandleError(f))
      case Ok(req) =>
        var o := CreateRoom(repo, req.userId, req.roomHandle, roomId, now);
        match o.result
        case Err(f) => (repo, HandleError(f))
        case Ok(room) => (o.repo, CreatedResponse(room))
  }

  /**
   * The status of a `POST` whose body passes validation: 400 when the service rules refuse the
   * user or handle, otherwise 409 when the handle or the generated id is taken, otherwise 201.
   */
  lemma PostStatus(repo: Repo, body: Json, roomId: string, now: int)
    requires ValidateCreateRoomRequest(body).Ok?
    ensures var req := ValidateCreateRoomRequest(body).value;
      var status := Post(repo, Readable(body), roomId, now).1.status;
      && (ValidateCreateRoomData(req.userId, req.roomHandle).Some? ==> status == 400)
      && (ValidateCreateRoomData(req.userId, req.roomHandle).None? ==>
            (status == 409 <==> req.roomHandle in repo.handles || roomId in repo.rooms.entries)
            && (status == 201 <==> req.roomHandle !in repo.handles && roomId !in repo.rooms.entries))
  {
    var req := ValidateCreateRoomRequest(body).value;
    CreateRoomFailures(repo, req.userId, req.roomHandle, roomId, now);
  }

  /** `GET /api/room?roomId=…&roomHandle=…`: validate the query, find the room, echo it. */
  function Get(repo: Repo, roomId: Option<string>, roomHandle: Option<string>): (r: Response)
    ensures ValidateGetRoomRequest(roomId, roomHandle).Err? ==>
      r == HandleError(PlainError("Either roomId or roomHandle parameter is required"))
    ensures ValidateGetRoomRequest(roomId, roomHandle).Ok? ==>
      r == (match FindRoom(repo, roomId, roomHandle)
            case Ok(room) => RoomResponse(room)
            case Err(f) => HandleError(f))
    ensures r.status == 200 || r.body.ErrorBody?
  {
    match ValidateGetRoomRequest(roomId, roomHandle)
    case Err(f) => HandleError(f)
    case Ok(q) =>
      match FindRoom(repo, q.roomId, q.roomHandle)
      case Err(f) => HandleError(f)
      case Ok(room) => RoomResponse(room)
  }

  /** The fields a successful create validation returns are already trimmed. */
  lemma ValidatedFieldsTrimmed(body: Json)
    requires ValidateCreateRoomRequest(body).Ok?
    ensures Trim(ValidateCreateRoomRequest(body).value.roomHandle) == ValidateCreateRoomRequest(body).value.roomHandle
    ensures Trim(ValidateCreateRoomRequest(body).value.userId) == ValidateCreateRoomRequest(body).value.userId
  {
    TrimIdempotent(StringField(body, "roomHandle").value);
    TrimIdempotent(StringField(body, "userId").value);
  }

  /** A room the service finds by handle is what `GET ?roomHandle=` serves. */
  lemma ServedByHandle(repo: Repo, room: MetaRoom)
    requires room.handle != "" && GetRoomByHandle(repo, room.handle) == Ok(room)
    ensures Get(repo, None, Some(room.handle)) == RoomResponse(room)
  {
    assert FindRoom(repo, None, Some(room.handle)) == Ok(room);
    ServesFound(repo, None, Some(room.handle), room);
  }

  /** A room the service finds by id is what `GET ?roomId=` serves. */
  lemma ServedById(repo: Repo, room: MetaRoom)
    requires room.id != "" && GetRoomById(repo, room.id) == Ok(room)
    ensures Get(repo, Some(room.id), None) == RoomResponse(room)
  {
    assert FindRoom(repo, Some(room.id), None) == Ok(room);
    ServesFound(repo, Some(room.id), None, room);
  }

  /** A valid query whose room is found is answered with that room. */
  lemma ServesFound(repo: Repo, roomId: Option<string>, roomHandle: Option<string>, room: MetaRoom)
    requires (Present(roomId) || Present(roomHandle)) && FindRoom(repo, roomId, roomHandle) == Ok(room)
    ensures Get(repo, roomId, roomHandle) == RoomResponse(room)
  {
  }

  /** A stored room is served by `GET ?roomHandle=` given its (trimmed, non-empty) handle. */
  lemma GetByHandleAfterCreate(repo: Repo, room: MetaRoom)
    requires Consistent(repo) && Create(repo, room).result.Ok?
    requires room.id != "" && room.handle != "" && Trim(room.handle) == room.handle
    ensures Get(Create(repo, room).repo, None, Some(room.handle)) == RoomResponse(room)
  {
    var repo' := Create(repo, room).repo;
    assert FindByHandle(repo', room.handle) == Some(room);
    TrimEmptyIffBlank(room.handle);
    assert GetRoomByHandle(repo', room.handle) == Ok(room);
    ServedByHandle(repo', room);
  }

  /** A stored room is served by `GET ?roomId=` given its (trimmed, non-empty) id. */
  lemma GetByIdAfterCreate(repo: Repo, room: MetaRoom)
    requires Consistent(repo) && Create(repo, room).result.Ok?
    requires room.id != "" && Trim(room.id) == room.id
    ensures Get(Create(repo, room).repo, Some(room.id), None) == RoomResponse(room)
  {
    var repo' := Create(repo, room).repo;
    assert FindById(repo', room.id) == Some(room);
    TrimEmptyIffBlank(room.id);
    assert GetRoomById(repo', room.id) == Ok(room);
    ServedById(repo', room);
  }

  /**
   * A room created through `POST` is then found by `GET` under its handle, and under its id
   * when the generated id is non-empty and has no surrounding whitespace.
   */
  lemma PostThenGet(repo: Repo, body: Json, roomId: string, now: int)
    requires Consistent(repo)
    requires Post(repo, Readable(body), roomId, now).1.status == 201
    requires roomId != "" && Trim(roomId) == roomId
    ensures var req := ValidateCreateRoomRequest(body).value;
      var repo' := Post(repo, Readable(body), roomId, now).0;
      var expected := RoomResponse(MetaRoom(roomId, req.roomHandle, req.userId, now, [req.userId]));
      && Get(repo', None, Some(req.roomHandle)) == expected
      && Get(repo', Some(roomId), None) == expected
  {
    var req := ValidateCreateRoomRequest(body).value;
    var room := MetaRoom(roomId, req.roomHandle, req.userId, now, [req.userId]);
    ValidatedFieldsTrimmed(body);
    assert Post(repo, Readable(body), roomId, now).0 == Create(repo, room).repo;
    GetByHandleAfterCreate(repo, room);
    GetByIdAfterCreate(repo, room);
  }
}
