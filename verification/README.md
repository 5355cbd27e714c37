# peer-chat relay and room registry, modelled in Dafny

peer-chat is a browser video-conference app. Its server side has two parts:

- a WebSocket **relay**: the `RoomManager` coordinator (`lib/room-manager.ts`) and its message
  handlers (`app/api/socket/route.ts`). It keeps live rooms and participants, and forwards
  WebRTC offers, answers and ICE candidates between them.
- a small REST **room registry** (`app/api/room/…`): request validation, business rules, an
  in-memory store with an id index and a handle index, and an error-to-HTTP-status mapping.

A slice of the browser hook `hooks/useWebRTC.ts` is also modelled. It reduces relay messages
into the participant list and the remote-stream list, and keeps one peer connection per remote
participant.

Every operation is a pure function:

- A relay operation takes a `RoomManager.State` and returns a `Step`: the next state plus the
  ordered outbox of `Send`s and `Ping`s.
  - The state holds the rooms, the registry and the connection objects. The registry maps a
    participant id to a connection.
  - A connection has an identity, so one connection can be bound under several participant ids.
  - A connection records whether it is open, whether it is alive, and the participant and room
    it last joined as.
- JavaScript `Map` iteration order decides snapshot, broadcast and sweep order. It is modelled
  by an insertion-ordered map (`OrderedMap.OrdMap`).
- The liveness sweep is a fold over a snapshot of the registry's keys. Keys already deleted
  earlier in the same sweep are skipped, as `Map.prototype.forEach` does.
- A REST operation takes the store (`RoomRepository.Repo`) and returns the new store with a
  `Result`. A thrown error becomes a `RoomModel.Failure`.
- Clock readings and generated ids are parameters.

Behaviour of the code that the contracts record as it is:

- The relay never passes `isCreator` to `joinRoom` (`SocketRoute.HandleJoinRoom` calls `Join` with
  `false`). So a room is created without a creator, and the first joiner of the empty room
  claims it.
- A departing creator is removed before the room is terminated. It therefore gets no
  `room-terminated` message; only the remaining participants do (`RoomManager.CreatorLeave`).
- A name that is present but blank is trimmed to `""` and kept. Only an absent name gets a
  guest name (`RoomManager.JoinName`).
- The joiner's `room-state` snapshot lists the joiner itself (`RoomManager.Join`).
- The guest-number walk stops at the first mismatch of the sorted numbers. When the numbers in
  use are distinct and positive, it returns the least unused number
  (`GuestNames.NextGuestNumberIsLeastUnused`). Otherwise it can return a number already held:
  `GuestNames.NextGuestNumberMayRepeat` shows names `Guest 0` and `Guest 1` yielding `Guest 1`
  again.
- `leave-room` removes the participant the message names, whichever connection sent it.
  Signaling is forwarded to the target without checking that sender and target share a room.
  The forwarded message is the sender's message unchanged.
- Nothing stops one socket from joining under two participant ids. The registry then binds it
  twice, and a broadcast or a termination sends that socket one copy per id. The exactly-once
  lemmas (`RoomManagerProofs.BroadcastOnce`, `LeaveNoticesOnce`, `TerminateOnce`,
  `CreatorLeaveNoticesOnce`) therefore assume that no two ids share a connection
  (`RoomManager.Injective`).
- The repository's `findByHandle` treats an empty room id as missing. So a room stored under
  id `""` is found by id but not by handle (`RoomRepository.Create`). Generated ids are never
  empty.
- The service trims a room id before looking it up. But `addParticipantToRoom` passes the
  untrimmed id to the repository first, so an id with surrounding spaces fails there with
  `RoomNotFoundError`.

Invariants:

- **Relay.** Each binding's connection names an existing room that lists the participant, and
  no room is kept empty (`RoomManager.Coherent`). Every handler preserves it, provided a
  `join-room` does not come from a connection already bound under a different id. Under it, two
  sweeps with no pong in between leave no participant bound.
- **Registry.** The id index and the handle index agree (`RoomRepository.Consistent`). Every
  operation preserves this.

## Model

| member | source | states |
|---|---|---|
| Text.Trim | lib/room-manager.ts:46 | `trim()` returns the infix of the input left after removing white space at both ends; what is removed is blank, and the result neither starts nor ends with white space |
| Text.TrimEmptyIffBlank | app/api/room/service/impl.ts:100 | `s.trim().length === 0` holds exactly when every character of `s` is white space |
| Text.TrimIdempotent | app/api/room/dto/validation.ts:24-27 | trimming an already trimmed string changes nothing |
| Text.ParseInt | lib/room-manager.ts:108 | `parseInt(s, 10)` skips leading white space, takes an optional sign and the longest digit run, and is `NaN` exactly when that run is empty |
| Text.NatToString | lib/room-manager.ts:122 | `toString()` of a non-negative integer is a digit string with no leading zero whose decimal value is the number |
| Text.ParseIntOfNatToString | lib/room-manager.ts:108-122 | reading back a number's decimal spelling with `parseInt` gives the number |
| GuestNames.GuestNumbersMembers | lib/room-manager.ts:104-109 | a number is among the collected guest numbers exactly when some participant's name is `Guest ` followed by text that `parseInt` reads as that number |
| GuestNames.SortAscending | lib/room-manager.ts:110 | the numeric sort returns an ascending permutation of its input |
| GuestNames.FirstGap | lib/room-manager.ts:113-120 | the walk starting from a candidate only passes numbers that are present in the sorted list |
| GuestNames.NextGuestNumber | lib/room-manager.ts:99-123 | the chosen number is at least 1 and every number from 1 below it is held by some guest |
| GuestNames.NextGuestNumberIsLeastUnused | lib/room-manager.ts:99-123 | when the guest numbers in use are distinct and positive, the chosen number is the least positive number not in use |
| GuestNames.NextGuestNumberExample | lib/room-manager.ts:99-123 | with `Guest 1`, `Guest 2` and `Guest 4` present, the next guest is number 3 |
| GuestNames.NextGuestNumberMayRepeat | lib/room-manager.ts:110-120 | with `Guest 0` and `Guest 1` present, the walk stops at once and hands out 1, which is already held |
| GuestNames.GuestNameRoundTrip | lib/room-manager.ts:122 | a generated `Guest k` name is read back as number k |
| OrderedMap.Put | lib/room-manager.ts:58-59 | `Map.set` updates the entry; an existing key keeps its position, a new key goes last; key-order validity is kept |
| OrderedMap.Remove | lib/room-manager.ts:138-139 | `Map.delete` removes exactly that key from entries and key order, keeping the other keys in their relative order; validity is kept |
| OrderedMap.Values | lib/room-manager.ts:245 | `values()` lists the entries in key order, one per key |
| OrderedMap.ValueListed | lib/room-manager.ts:245 | every stored value appears in `values()` |
| RoomManager.SendIfOpen | lib/room-manager.ts:255-257 | a send happens exactly when the connection is open, and then it is the one message to that connection |
| RoomManager.Deliver | lib/room-manager.ts:269-276 | every send carries the message to the open connection of a non-excluded participant; every non-excluded participant with an open connection gets it |
| RoomManager.Broadcast | lib/room-manager.ts:261-277 | an absent room gets nothing; otherwise exactly the open, non-excluded members are reached with the message |
| RoomManager.GenerateGuestName | lib/room-manager.ts:99-123 | the name is `Guest k` with k at least 1 and every number from 1 below k held by a participant of the room; when the room's guest numbers are distinct and positive, k itself is not held, so it is the least unused number |
| RoomManager.JoinName | lib/room-manager.ts:46-47 | a given name is recorded trimmed, and a blank one stays as the empty string rather than falling back; only a missing name becomes a guest name `Guest k`, with k at least 1 and every number from 1 below k held, and k itself free when the room's guest numbers are distinct and positive |
| RoomManager.RoomForJoin | lib/room-manager.ts:28-35 | an existing room is reused; an absent one is created empty, with the joiner as creator only when `isCreator` |
| RoomManager.ClaimCreator | lib/room-manager.ts:40-43 | the joiner becomes creator only of an empty room without a creator; a set creator is never overwritten |
| RoomManager.AddMember | lib/room-manager.ts:58 | the participant is recorded under its id, replacing an earlier record; the room stays well formed |
| RoomManager.AdmitRoom | lib/room-manager.ts:27-58 | a room created by the join, or an existing empty room without a creator, gets the joiner as creator; any other existing room keeps its creator; the joiner is recorded under its id and no other member changes; the room stays well formed |
| RoomManager.Admit | lib/room-manager.ts:26-65 | only the joined room changes, to the admitted room; the participant is bound to the connection and no other binding changes; the connection now records the participant and room and is alive |
| RoomManager.JoinOutbox | lib/room-manager.ts:73-87 | a snapshot goes first to the joiner exactly when its id is non-empty and its connection is open; every other send is `participant-joined` to an open member other than the joiner, and every such member gets one |
| RoomManager.Join | lib/room-manager.ts:19-96 | a join is the admission followed by its outbox; the joiner's snapshot lists the joiner itself |
| RoomManager.TerminateLoop | lib/room-manager.ts:191-198 | every visited participant's binding is dropped; each send is the notice to a visited participant's open connection, and every visited participant with an open connection gets it |
| RoomManager.Terminate | lib/room-manager.ts:171-206 | an absent room is left alone; otherwise the room is deleted, all its members' bindings are dropped, and every member with an open connection is sent `room-terminated` from `system` |
| RoomManager.BoundRoom | lib/room-manager.ts:128-133 | a leave acts only when the participant is bound and its connection names a non-empty, existing room |
| RoomManager.RemoveMember | lib/room-manager.ts:138 | exactly the participant's entry is deleted from the room |
| RoomManager.Unbind | lib/room-manager.ts:137-139 | the participant leaves its room and the registry; other participants' open connections are unaffected |
| RoomManager.CreatorLeaveNotices | lib/room-manager.ts:180-194 | every send is `room-terminated` from `system` with reason `creator-left`, to the open connection of a member other than the creator; every such member gets it, and the creator, already removed, gets nothing |
| RoomManager.CreatorLeave | lib/room-manager.ts:135-149 | the room is deleted, the creator's and every remaining member's bindings are dropped, connections are untouched, and the outbox is exactly the creator-left notices |
| RoomManager.LeaveNotices | lib/room-manager.ts:151-157 | every send is `participant-left` naming the leaver, to the open connection of a remaining member; every remaining member with an open connection gets it |
| RoomManager.MemberLeave | lib/room-manager.ts:150-164 | the room keeps existing exactly when someone is left in it, without the leaver; other rooms are unchanged; only the participant's binding is dropped; the outbox is exactly the leave notices |
| RoomManager.Leave | lib/room-manager.ts:126-168 | nothing happens unless the participant is bound into an existing room; otherwise the creator's leave terminates the room and anybody else's is announced; connections are untouched, bindings only shrink, and a second leave of the same id finds nothing to do |
| RoomManager.HandleDisconnection | lib/room-manager.ts:209-213 | a connection that joined as a participant leaves as that participant; any other connection changes nothing |
| RoomManager.Forward | lib/room-manager.ts:216-238 | at most one send; it happens exactly for an offer, answer or ICE candidate whose target is bound to an open connection, and it carries the message unchanged to that connection |
| RoomManager.ParticipantCount | lib/room-manager.ts:307-310 | the room's size, 0 for an absent room; under the coherence invariant it is positive exactly when the room exists |
| RoomManager.SweepOne | lib/room-manager.ts:314-323 | an already removed binding is skipped; a dead or closed connection leaves; a live open one is marked not alive and pinged; afterwards the visited binding, if still present, is dead or closed |
| RoomManager.SweepKeys | lib/room-manager.ts:313-324 | the sweep never revives a connection, never changes which connections are open, only shrinks the bindings, and leaves every visited binding dead or closed |
| RoomManager.Cleanup | lib/room-manager.ts:313-324 | after a sweep every surviving binding's connection is closed or marked not alive |
| RoomManagerProofs.JoinCoherent | lib/room-manager.ts:19-96 | a join with a non-empty handle from a connection not bound under another id keeps the coherence invariant |
| RoomManagerProofs.CreatorLeaveCoherent | lib/room-manager.ts:135-149 | a creator's leave keeps the coherence invariant |
| RoomManagerProofs.MemberLeaveCoherent | lib/room-manager.ts:150-164 | a non-creator's leave keeps the coherence invariant |
| RoomManagerProofs.LeaveCoherent | lib/room-manager.ts:126-168 | every leave keeps the coherence invariant |
| RoomManagerProofs.ConnFlagsCoherent | lib/room-manager.ts:318 | changing a connection's open or alive flag keeps the coherence invariant |
| RoomManagerProofs.SweepOneCoherent | lib/room-manager.ts:314-323 | one sweep visit keeps the coherence invariant |
| RoomManagerProofs.CleanupCoherent | lib/room-manager.ts:313-324 | a whole sweep keeps the coherence invariant |
| RoomManagerProofs.StaleStep | lib/room-manager.ts:314-316 | when every binding is dead or closed, visiting one removes it and keeps the invariant and the staleness |
| RoomManagerProofs.StaleSweepReaps | lib/room-manager.ts:314-316 | when every binding is dead or closed, a sweep removes every binding it visits |
| RoomManagerProofs.TwoSweepsReapAll | lib/room-manager.ts:313-324 | from a coherent state, two sweeps with no pong in between leave no participant bound |
| RoomManagerProofs.DeliverOnce | lib/room-manager.ts:269-276 | with distinct ids and no shared connections, an eligible participant's connection is sent the message exactly once |
| RoomManagerProofs.BroadcastOnce | lib/room-manager.ts:261-277 | in a well-formed room without shared connections, each open, non-excluded member gets exactly one copy |
| RoomManagerProofs.LeaveNoticesOnce | lib/room-manager.ts:151-157 | without shared connections, each remaining member with an open connection is sent exactly one `participant-left` |
| RoomManagerProofs.TerminateLoopOnce | lib/room-manager.ts:191-198 | with distinct ids and no shared connections, each visited participant with an open connection is sent exactly one notice |
| RoomManagerProofs.TerminateOnce | lib/room-manager.ts:171-206 | without shared connections, each member of a terminated room with an open connection is sent exactly one `room-terminated` |
| RoomManagerProofs.CreatorLeaveNoticesOnce | lib/room-manager.ts:180-194 | without shared connections, each member other than the leaving creator is sent exactly one `room-terminated` with reason `creator-left` |
| SocketRoute.ErrorFor | app/api/socket/route.ts:159-166 | the error message carries the connection's participant and room, each `unknown` when never set, and the given error text |
| SocketRoute.SendError | app/api/socket/route.ts:154-171 | one error message exactly when the connection is open, and only to that connection |
| SocketRoute.HandleJoinRoom | app/api/socket/route.ts:94-108 | an empty participant id or room handle gets `Missing participantId or roomHandle` and no state change; otherwise the join runs with the name and with `isCreator` false |
| SocketRoute.HandleLeaveRoom | app/api/socket/route.ts:111-125 | an empty participant id gets `Missing participantId`; otherwise the named participant leaves |
| SocketRoute.HandleSignaling | app/api/socket/route.ts:128-151 | no state change; an unjoined connection gets `Must join room before WebRTC signaling` before any target check; a missing target gets `Missing targetParticipantId in signaling message`; otherwise the message is forwarded |
| SocketRoute.HandleMessage | app/api/socket/route.ts:64-91 | the three request families go to their handlers; every other type, the server-to-client ones included, gets `Unknown message type` and no state change |
| SocketRoute.OnMessage | app/api/socket/route.ts:20-30 | an unparseable frame gets `Invalid message format` and changes nothing, so the connection stays registered; a decoded one is dispatched |
| SocketRoute.UntypedPayloadIsUnknown | app/api/socket/route.ts:72-90 | a payload without a `type` gets `Unknown message type` and nothing else changes, which differs from an unparseable frame's reply exactly when the connection is open |
| SocketRoute.OnConnection | app/api/socket/route.ts:49 | a new connection starts open, alive and unjoined; nothing else changes |
| SocketRoute.OnClose | app/api/socket/route.ts:38-41 | closing marks the connection not open and then disconnects it; the closed connection itself is sent nothing |
| SocketRoute.ClosedGetsNothing | app/api/socket/route.ts:38-41 | a disconnection never sends to the closed connection |
| SocketRoute.OnPong | app/api/socket/route.ts:44-46 | a pong marks the connection alive and changes nothing else |
| SocketRoute.OnMessageCoherent | app/api/socket/route.ts:20-30 | every frame keeps the coherence invariant, provided a join comes from a connection not bound under another id |
| SocketRoute.OnCloseCoherent | app/api/socket/route.ts:38-41 | closing a connection keeps the coherence invariant |
| SocketRoute.OnPongCoherent | app/api/socket/route.ts:44-46 | a pong keeps the coherence invariant |
| SocketRoute.OnConnectionCoherent | app/api/socket/route.ts:49 | a new connection keeps the coherence invariant |
| RoomModel.IndexOf | app/api/room/repository/impl.ts:63 | `indexOf` is -1 exactly when the element is absent, else the position of its first occurrence |
| RoomModel.RemoveFirst | app/api/room/repository/impl.ts:63-66 | an absent element leaves the list unchanged; otherwise exactly its first occurrence is cut out |
| RoomModel.RemoveFirstNoDuplicates | app/api/room/repository/impl.ts:57-68 | removing from a duplicate-free list keeps it duplicate-free and removes the element entirely |
| RoomRepository.EmptyRepo | app/api/room/repository/impl.ts:5-6 | the empty store is consistent |
| RoomRepository.Create | app/api/room/repository/impl.ts:8-28 | a taken handle is refused first, then a taken id, with `RoomAlreadyExistsError` and no change; otherwise the room is stored under both indexes; consistency is kept; the new room is found by id, and by handle exactly when its id is non-empty |
| RoomRepository.FindById | app/api/room/repository/impl.ts:30-33 | the stored room under that id, or null |
| RoomRepository.FindByHandle | app/api/room/repository/impl.ts:35-43 | an unknown handle or an empty id gives null; in a consistent store a found room carries the handle asked for |
| RoomRepository.HandleExists | app/api/room/repository/impl.ts:76-78 | true exactly when the handle is indexed, which in a consistent store means some stored room has it |
| RoomRepository.AddParticipant | app/api/room/repository/impl.ts:45-55 | an unknown room fails with `RoomNotFoundError`; otherwise the user is appended unless already listed, nothing else changes, and a duplicate-free list stays so and contains the user |
| RoomRepository.RemoveParticipant | app/api/room/repository/impl.ts:57-68 | an unknown room fails; otherwise only that room's list changes, losing the first occurrence of the user |
| RoomRepository.GetAll | app/api/room/repository/impl.ts:70-74 | every stored room once, in creation order |
| RoomService.ValidateCreateRoomData | app/api/room/service/impl.ts:99-120 | creation is allowed exactly for a non-blank user and a handle of 1 to 50 letters, digits, `-` or `_`; otherwise the first failed rule's message, in the order user, blank handle, length, alphabet |
| RoomService.CreateRoom | app/api/room/service/impl.ts:14-32 | an invalid request changes nothing; a valid one stores a room with the given handle and creator whose only member is the creator; a clash is the store's refusal |
| RoomService.CreateRoomFailures | app/api/room/service/impl.ts:14-32 | a request failing validation is refused with a validation error; a valid one is refused exactly when the handle or the id is taken, and then with a clash error |
| RoomService.GetRoomById | app/api/room/service/impl.ts:34-45 | a blank id is a validation error; the trimmed id is looked up; a miss is `RoomNotFoundError` quoting the id as given |
| RoomService.GetRoomByHandle | app/api/room/service/impl.ts:47-58 | a blank handle is a validation error; the trimmed handle is looked up; a found room carries that handle |
| RoomService.FindRoom | app/api/room/service/impl.ts:60-72 | a given id wins over a handle; with neither, `Either roomId or roomHandle must be provided` |
| RoomService.AddParticipantToRoom | app/api/room/service/impl.ts:74-81 | a blank user is refused; the trimmed user is added and the room re-read; a successful result lists the user |
| RoomService.RemoveParticipantFromRoom | app/api/room/service/impl.ts:83-93 | a blank user is refused; the trimmed user's first occurrence is removed and the room re-read; from a duplicate-free list the user is gone |
| RoomDto.StringField | app/api/room/dto/validation.ts:10-18 | a field counts as given only when it is a non-empty string |
| RoomDto.CheckFields | app/api/room/dto/validation.ts:12-27 | `userId` is checked before `roomHandle`; a whitespace-only handle is refused, a whitespace-only user id is not; the result holds both fields trimmed |
| RoomDto.ValidateCreateRoomRequest | app/api/room/dto/validation.ts:5-28 | anything but an object or array is refused with `Request body is required`; an array passes that check and fails on `userId` |
| RoomDto.ValidateGetRoomRequest | app/api/room/dto/validation.ts:30-42 | fails exactly when both parameters are null or empty; otherwise returns both unchanged |
| RoomRoute.HandleError | app/api/room/route.ts:73-96 | validation and plain errors give 400, a clash 409, a miss 404, each with its message; only a non-`Error` gives 500, with `Internal server error` |
| RoomRoute.CreatedResponse | app/api/room/route.ts:27-38 | status 201 echoing the room's id, handle, creator as `userId`, creation time and members |
| RoomRoute.RoomResponse | app/api/room/route.ts:55-66 | status 200 echoing the room's fields |
| RoomRoute.Post | app/api/room/route.ts:20-42 | only a 201 changes the store; a 201 echoes a new room under the generated id with the trimmed handle and user, the user as its only member; every failure is classified |
| RoomRoute.PostStatus | app/api/room/route.ts:20-42 | for a well-formed body: invalid data gives 400; valid data gives 409 exactly when the handle or the id is taken and 201 exactly when both are free |
| RoomRoute.Get | app/api/room/route.ts:45-70 | the query is validated, then the room is found by id or else by handle; success is 200, anything else an error body |
| RoomRoute.ValidatedFieldsTrimmed | app/api/room/dto/validation.ts:24-27 | the fields a successful validation returns are already trimmed |
| RoomRoute.GetByHandleAfterCreate | app/api/room/route.ts:48-66 | a stored room is served by a handle query |
| RoomRoute.GetByIdAfterCreate | app/api/room/route.ts:48-66 | a stored room is served by an id query |
| RoomRoute.PostThenGet | app/api/room/route.ts:20-70 | a room created by `POST` is then served by `GET` under its handle and under its id |
| ClientWebRtc.DropParticipant | hooks/useWebRTC.ts:393-395 | the filter keeps exactly the participants with another id, each as many times as the input lists it |
| ClientWebRtc.DropParticipantAppend | hooks/useWebRTC.ts:393-395 | the filter works element by element in order: filtering a concatenation concatenates the filtered parts |
| ClientWebRtc.DropStream | hooks/useWebRTC.ts:396-398 | the filter keeps exactly the streams of other participants, each as many times as the input lists it |
| ClientWebRtc.DropStreamAppend | hooks/useWebRTC.ts:194-196 | the stream filter works element by element in order: filtering a concatenation concatenates the filtered parts |
| ClientWebRtc.DropStreamKeepsOneEach | hooks/useWebRTC.ts:194-196 | filtering keeps at most one stream per participant |
| ClientWebRtc.OnTrack | hooks/useWebRTC.ts:160-170 | the new stream goes last and is the participant's only stream; other participants' streams are kept; at most one stream per participant is preserved |
| ClientWebRtc.OnConnectionStateChange | hooks/useWebRTC.ts:186-198 | `failed` and `disconnected` apply the stream filter, dropping exactly that participant's streams and keeping the others in order; every other state changes nothing; one stream per participant is preserved |
| ClientWebRtc.EnsurePeer | hooks/useWebRTC.ts:153-214 | an existing connection is returned unchanged; otherwise a fresh one is recorded under the target; distinct targets keep distinct connections |
| ClientWebRtc.EnsurePeerIdempotent | hooks/useWebRTC.ts:155-157 | asking twice for a target's connection returns the same connection and state |
| ClientWebRtc.HandleMessage | hooks/useWebRTC.ts:366-460 | `room-state` replaces the list (empty when missing); `participant-joined` appends once and offers, recording a connection for the newcomer; `participant-left` removes everything of that id and keeps every other participant and stream in order; an offer without a payload, an answer or ICE candidate without a connection is ignored; `error` and `room-terminated` set the error; other types change nothing; the media flags are untouched |
| ClientWebRtc.HandleMessageKeepsInvariant | hooks/useWebRTC.ts:366-460 | the reducer keeps one stream per participant and distinct connections per remote participant |
| ClientWebRtc.ToggleVideo | hooks/useWebRTC.ts:526-540 | only the video flag changes, to its negation, so toggling twice restores it |
| ClientWebRtc.ToggleAudio | hooks/useWebRTC.ts:543-557 | only the audio flag changes, to its negation, so toggling twice restores it |

## Left out

- The WebSocket server bootstrap, port 8080, the 30-second cleanup timer and the socket
  route's `GET` (app/api/socket/route.ts:10-61 and 174-190). They are I/O. A sweep is
  `RoomManager.Cleanup` applied by the caller.
- JSON encoding and decoding. Relay messages are the `Protocol.Message` datatype and request
  bodies the `RoomDto.Json` datatype. A frame that does not parse, or whose payload is `null`,
  is the single input `SocketRoute.Frame.Unparseable`: both throw inside the same `try` and get
  `Invalid message format`. Any other non-object payload (a number, a string, a boolean, an
  array) has no `type`, so it decodes to `Protocol.Message.Unrecognized` and gets
  `Unknown message type` (`SocketRoute.UntypedPayloadIsUnknown`).
- Fields of the wrong JSON type in relay messages, for example a numeric `participantId` or a
  non-string `name`. Fields are typed strings. A missing envelope field is `""`, because the
  relay only tests these fields for falsiness.
- The `try/catch` around `joinRoom` and the coordinator's private `sendError`
  (lib/room-manager.ts:88-95, 280-299). No modelled input throws there.
- Timestamps in messages, and `new Date()`. Clock readings are the `now` parameters; message
  timestamps are dropped.
- Generated ids. The room id is a parameter of `RoomService.CreateRoom` and `RoomRoute.Post`.
  The client's participant id is not modelled.
- Logging, the `ws.name` field (written, never read), `getRoomInfo` and the service's
  `getAllRooms` pass-through.
- Shallow-copy aliasing in the repository. Stored rooms are values.
- Browser media, SDP and ICE work in hooks/useWebRTC.ts. The reducer returns them as
  `ClientWebRtc.Action`s:
  - `SendOffer` stands for the whole asynchronous `createOffer`, including its
    open-socket check.
  - Socket setup, `leaveRoom`, local-stream handling and device switching are not modelled.
- GuestNames.GuestNumberOf: reads guest numbers as unbounded integers. JavaScript numbers lose
  precision above 2^53, which this does not model.
- RoomService.ValidateCreateRoomData: measures a handle in characters, not UTF-16 code units. A
  handle with characters outside the Basic Multilingual Plane can therefore get the alphabet
  message where the code gives the length message.
- RoomManagerProofs.TwoSweepsReapAll: proved only from a coherent state.
  - Suppose a connection joins under a second participant id. Its earlier binding then points
    at a connection that names the second room.
  - If that second room has since been deleted, `leaveRoom` returns before deleting anything
    (lib/room-manager.ts:132-133). The binding stays, and no sweep ever removes it. While the
    second room still exists, `leaveRoom` does delete the binding.
- RoomManagerProofs.JoinCoherent: needs the joining connection to be free of other bindings, for
  the same reason.
