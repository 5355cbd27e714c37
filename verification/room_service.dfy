/**
 * The business layer of the REST side (app/api/room/service/impl.ts, `RoomService`): argument
 * checks with their exact messages, then a call into the store.
 */
module RoomService {
  import opened Wrappers
  import opened Text
  import opened RoomModel
  import opened RoomRepository

  /** The handle alphabet `[a-zA-Z0-9-_]`. */
  predicate IsHandleChar(c: char) {
    ('a' <= c <= 'z') || ('A' <= c <= 'Z') || ('0' <= c <= '9') || c == '-' || c == '_'
  }

  /** `/^[a-zA-Z0-9-_]+$/`: one or more handle characters and nothing else. */
  predicate MatchesHandlePattern(s: string) {
    |s| > 0 && forall i | 0 <= i < |s| :: IsHandleChar(s[i])
  }

  /** Falsy or whitespace only: `!x || x.trim().length === 0`. */
  predicate Blank(s: string) {
    s == "" || |Trim(s)| == 0
  }

  /** The handle-length limit of the create rules. */
  const MaxHandleLength := 50

  /**
   * `validateCreateRoomData`: the first failing rule, in order — user id blank, handle blank,
   * handle over 50 characters, handle outside the alphabet.
   */
  function ValidateCreateRoomData(userId: string, roomHandle: string): (f: Option<Failure>)
    ensures f.None? <==> !IsBlank(userId) && MatchesHandlePattern(roomHandle) && |roomHandle| <= MaxHandleLength
    ensures f.Some? ==> f.value.RoomValidation?
    ensures IsBlank(userId) ==> f == Some(RoomValidation("User ID is required"))
    ensures !IsBlank(userId) && IsBlank(roomHandle) ==> f == Some(RoomValidation("Room handle is required"))
    ensures !IsBlank(userId) && !IsBlank(roomHandle) && |roomHandle| > MaxHandleLength ==>
      f == Some(RoomValidation("Room handle must be 50 characters or less"))
    ensures !IsBlank(userId) && !IsBlank(roomHandle) && |roomHandle| <= MaxHandleLength && !MatchesHandlePattern(roomHandle) ==>
      f == Some(RoomValidation("Room handle can only contain letters, numbers, hyphens, and underscores"))
  {
    TrimEmptyIffBlank(userId);
    TrimEmptyIffBlank(roomHandle);
    assert MatchesHandlePattern(roomHandle) ==> !IsBlank(roomHandle) by {
      if MatchesHandlePattern(roomHandle) {
        assert !IsSpace(roomHandle[0]);
      }
    }
    if Blank(userId) then Some(RoomValidation("User ID is required"))
    else if Blank(roomHandle) then Some(RoomValidation("Room handle is required"))
    else if |roomHandle| > MaxHandleLength then Some(RoomValidation("Room handle must be 50 characters or less"))
    else if !MatchesHandlePattern(roomHandle) then
      Some(RoomValidation("Room handle can only contain letters, numbers, hyphens, and underscores"))
    else None
  }

  /**
   * `createRoom(data)`: validate, then store a room created by the user, listing only the user,
   * under the generated id and the clock reading (both parameters); handle clashes are the
   * store's to report.
   */
  function CreateRoom(repo: Repo, userId: string, roomHandle: string, roomId: string, now: int): (o: Outcome<MetaRoom>)
    ensures ValidateCreateRoomData(userId, roomHandle).Some? ==>
      o == Outcome(repo, Err(ValidateCreateRoomData(userId, roomHandle).value))
    ensures ValidateCreateRoomData(userId, roomHandle).None? ==>
      o == Create(repo, MetaRoom(roomId, roomHandle, userId, now, [userId]))
    ensures o.result.Ok? ==>
      && o.result.value == MetaRoom(roomId, roomHandle, userId, now, [userId])
      && MatchesHandlePattern(roomHandle) && |roomHandle| <= MaxHandleLength
      && roomHandle !in repo.handles && roomId !in repo.rooms.entries
    ensures Consistent(repo) ==> Consistent(o.repo)
  {
    match ValidateCreateRoomData(userId, roomHandle)
    case Some(f) => Outcome(repo, Err(f))
    case None => Create(repo, MetaRoom(roomId, roomHandle, userId, now, [userId]))
  }

  /** `getRoomById(roomId)`: blank is refused; the trimmed id is looked up; the error quotes it untrimmed. */
  function GetRoomById(repo: Repo, roomId: string): (r: Result<MetaRoom, Failure>)
    ensures IsBlank(roomId) ==> r == Err(RoomValidation("Room ID is required"))
    ensures !IsBlank(roomId) && Trim(roomId) !in repo.rooms.entries ==>
      r == Err(RoomNotFound("Room with ID '" + roomId + "' not found"))
    ensures r.Ok? <==> !IsBlank(roomId) && Trim(roomId) in repo.rooms.entries
    ensures r.Ok? ==> r.value == repo.rooms.entries[Trim(roomId)]
  {
    TrimEmptyIffBlank(roomId);
    if Blank(roomId) then Err(RoomValidation("Room ID is required"))
    else
      match FindById(repo, Trim(roomId))
      case None => Err(RoomNotFound("Room with ID '" + roomId + "' not found"))
      case Some(room) => Ok(room)
  }

  /** `getRoomByHandle(handle)`: blank is refused; the trimmed handle is looked up. */
  function GetRoomByHandle(repo: Repo, handle: string): (r: Result<MetaRoom, Failure>)
    ensures IsBlank(handle) ==> r == Err(RoomValidation("Room handle is required"))
    ensures !IsBlank(handle) && FindByHandle(repo, Trim(handle)).None? ==>
      r == Err(RoomNotFound("Room with handle '" + handle + "' not found"))
    ensures r.Ok? <==> !IsBlank(handle) && FindByHandle(repo, Trim(handle)).Some?
    ensures Consistent(repo) && r.Ok? ==> r.value.handle == Trim(handle)
  {
    TrimEmptyIffBlank(handle);
    if Blank(handle) then Err(RoomValidation("Room handle is required"))
    else
      match FindByHandle(repo, Trim(handle))
      case None => Err(RoomNotFound("Room with handle '" + handle + "' not found"))
      case Some(room) => Ok(room)
  }

  /** JavaScript truthiness of an optional string. */
  predicate Given(o: Option<string>) {
    o.Some? && o.value != ""
  }

  /** `findRoom(criteria)`: by id when an id is given (the handle is then ignored), else by handle. */
  function FindRoom(repo: Repo, roomId: Option<string>, roomHandle: Option<string>): (r: Result<MetaRoom, Failure>)
    ensures Given(roomId) ==> r == GetRoomById(repo, roomId.value)
    ensures !Given(roomId) && Given(roomHandle) ==> r == GetRoomByHandle(repo, roomHandle.value)
    ensures !Given(roomId) && !Given(roomHandle) ==> r == Err(RoomValidation("Either roomId or roomHandle must be provided"))
  {
    if Given(roomId) then GetRoomById(repo, roomId.value)
    else if Given(roomHandle) then GetRoomByHandle(repo, roomHandle.value)
    else Err(RoomValidation("Either roomId or roomHandle must be provided"))
  }

  /**
   * `addParticipantToRoom(roomId, userId)`: blank user refused; the trimmed user is added under
   * the id as given, then the room is re-read by `getRoomById`.
   */
  function AddParticipantToRoom(repo: Repo, roomId: string, userId: string): (o: Outcome<MetaRoom>)
    ensures IsBlank(userId) ==> o == Outcome(repo, Err(RoomValidation("User ID is required")))
    ensures !IsBlank(userId) && roomId !in repo.rooms.entries ==> o == Outcome(repo, Err(NotFoundById(roomId)))
    ensures !IsBlank(userId) && roomId in repo.rooms.entries ==>
      && o.repo == AddParticipant(repo, roomId, Trim(userId)).repo
      && o.result == GetRoomById(o.repo, roomId)
    ensures o.result.Ok? && Trim(roomId) == roomId ==> Trim(userId) in o.result.value.participants
    ensures Consistent(repo) ==> Consistent(o.repo)
  {
    TrimEmptyIffBlank(userId);
    if Blank(userId) then Outcome(repo, Err(RoomValidation("User ID is required")))
    else
      var added := AddParticipant(repo, roomId, Trim(userId));
      if added.result.Err? then Outcome(repo, Err(added.result.error))
      else Outcome(added.repo, GetRoomById(added.repo, roomId))
  }

  /** `removeParticipantFromRoom(roomId, userId)`: as adding, removing the first occurrence instead. */
  function RemoveParticipantFromRoom(repo: Repo, roomId: string, userId: string): (o: Outcome<MetaRoom>)
    ensures IsBlank(userId) ==> o == Outcome(repo, Err(RoomValidation("User ID is required")))
    ensures !IsBlank(userId) && roomId !in repo.rooms.entries ==> o == Outcome(repo, Err(NotFoundById(roomId)))
    ensures !IsBlank(userId) && roomId in repo.rooms.entries ==>
      && o.repo == RemoveParticipant(repo, roomId, Trim(userId)).repo
      && o.result == GetRoomById(o.repo, roomId)
    ensures o.result.Ok? && Trim(roomId) == roomId && NoDuplicates(repo.rooms.entries[roomId].participants) ==>
      Trim(userId) !in o.result.value.participants
    ensures Consistent(repo) ==> Consistent(o.repo)
  {
    TrimEmptyIffBlank(userId);
    if Blank(userId) then Outcome(repo, Err(RoomValidation("User ID is required")))
    else
      var removed := RemoveParticipant(repo, roomId, Trim(userId));
      if removed.result.Err? then Outcome(repo, Err(removed.result.error))
      else
        var o := Outcome(removed.repo, GetRoomById(removed.repo, roomId));
        assert o.result.Ok? && Trim(roomId) == roomId && NoDuplicates(repo.rooms.entries[roomId].participants) ==>
          Trim(userId) !in o.result.value.participants by {
          if o.result.Ok? && Trim(roomId) == roomId && NoDuplicates(repo.rooms.entries[roomId].participants) {
            RemoveFirstNoDuplicates(repo.rooms.entries[roomId].participants, Trim(userId));
          }
        }
        o
  }

  /** The service refuses a create with a validation error for a bad request, and with a clash error for a taken handle or id. */
  lemma CreateRoomFailures(repo: Repo, userId: string, roomHandle: string, roomId: string, now: int)
    ensures var o := CreateRoom(repo, userId, roomHandle, roomId, now);
      && (ValidateCreateRoomData(userId, roomHandle).Some? ==> o.result.Err? && o.result.error.RoomValidation?)
      && (ValidateCreateRoomData(userId, roomHandle).None? ==>
            (o.result.Err? <==> roomHandle in repo.handles || roomId in repo.rooms.entries)
            && (o.result.Err? ==> o.result.error.RoomAlreadyExists?))
  {
  }
}
