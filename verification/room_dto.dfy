/**
 * Request validation of the REST side (app/api/room/dto/validation.ts): the create body and
 * the get query are checked and normalised before the service sees them.
 */
module RoomDto {
  import opened Wrappers
  import opened Text
  import opened RoomModel

  /** A decoded JSON value (numbers restricted to integers). */
  datatype Json =
    | JNull
    | JBool(b: bool)
    | JNum(n: int)
    | JStr(s: string)
    | JArr(items: seq<Json>)
    | JObj(fields: map<string, Json>)

  /** The validated create request. */
  datatype CreateRoomRequest = CreateRoomRequest(userId: string, roomHandle: string)

  /** The validated get query. */
  datatype GetRoomRequest = GetRoomRequest(roomId: Option<string>, roomHandle: Option<string>)

  /** `!body || typeof body !== 'object'` fails exactly for everything but arrays and objects. */
  predicate IsObjectLike(body: Json) {
    body.JArr? || body.JObj?
  }

  /** The property `key` of a body, as a non-empty string when it is one. */
  function StringField(body: Json, key: string): (r: Option<string>)
    ensures r.Some? <==> body.JObj? && key in body.fields && body.fields[key].JStr? && body.fields[key].s != ""
    ensures r.Some? ==> r.value == body.fields[key].s
  {
    if body.JObj? && key in body.fields && body.fields[key].JStr? && body.fields[key].s != "" then
      Some(body.fields[key].s)
    else None
  }

  /**
   * The field checks of `validateCreateRoomRequest`, given each field as a non-empty string or
   * nothing: `userId` first, then `roomHandle`, which must also not be all whitespace; both come
   * back trimmed.
   */
  function CheckFields(userId: Option<string>, roomHandle: Option<string>): (r: Result<CreateRoomRequest, Failure>)
    ensures userId.None? ==> r == Err(PlainError("userId is required and must be a string"))
    ensures userId.Some? && roomHandle.None? ==> r == Err(PlainError("roomHandle is required and must be a string"))
    ensures userId.Some? && roomHandle.Some? && IsBlank(roomHandle.value) ==>
      r == Err(PlainError("roomHandle must be a non-empty string"))
    ensures r.Ok? <==> userId.Some? && roomHandle.Some? && !IsBlank(roomHandle.value)
    ensures r.Ok? ==> r.value.userId == Trim(userId.value) && r.value.roomHandle == Trim(roomHandle.value)
    ensures r.Ok? ==> r.value.roomHandle != ""
  {
    match userId
    case None => Err(PlainError("userId is required and must be a string"))
    case Some(u) =>
      match roomHandle
      case None => Err(PlainError("roomHandle is required and must be a string"))
      case Some(h) =>
        TrimEmptyIffBlank(h);
        if |Trim(h)| == 0 then Err(PlainError("roomHandle must be a non-empty string"))
        else Ok(CreateRoomRequest(Trim(u), Trim(h)))
  }

  /**
   * `validateCreateRoomRequest(body)`: anything but an object or array is refused first; then
   * the two fields are checked. A whitespace-only `userId` passes and comes back as "".
   */
  function ValidateCreateRoomRequest(body: Json): (r: Result<CreateRoomRequest, Failure>)
    ensures !IsObjectLike(body) ==> r == Err(PlainError("Request body is required"))
    ensures IsObjectLike(body) ==> r == CheckFields(StringField(body, "userId"), StringField(body, "roomHandle"))
    ensures body.JArr? ==> r == Err(PlainError("userId is required and must be a string"))
  {
    if !IsObjectLike(body) then Err(PlainError("Request body is required"))
    else CheckFields(StringField(body, "userId"), StringField(body, "roomHandle"))
  }

  /** JavaScript truthiness of an optional query parameter. */
  predicate Present(o: Option<string>) {
    o.Some? && o.value != ""
  }

  /**
   * `validateGetRoomRequest(roomId, roomHandle)`: fails when both are null or empty; otherwise
   * returns both unchanged (null and undefined are the same absent value here).
   */
  function ValidateGetRoomRequest(roomId: Option<string>, roomHandle: Option<string>): (r: Result<GetRoomRequest, Failure>)
    ensures r.Err? <==> !Present(roomId) && !Present(roomHandle)
    ensures r.Err? ==> r.error == PlainError("Either roomId or roomHandle parameter is required")
    ensures r.Ok? ==> r.value.roomId == roomId && r.value.roomHandle == roomHandle
  {
    if !Present(roomId) && !Present(roomHandle) then Err(PlainError("Either roomId or roomHandle parameter is required"))
    else Ok(GetRoomRequest(roomId, roomHandle))
  }
}
