/**
 * The relay's WebSocket handlers (app/api/socket/route.ts): decode a frame, validate its fields,
 * and either answer with an `error` message or hand the request to the room coordinator.
 */
module SocketRoute {
  import opened Wrappers
  import opened Protocol
  import opened RoomManager
  import opened RoomManagerProofs

  /**
   * A received frame. `Unparseable` is text that is not JSON, or the JSON `null`: both throw
   * inside the handler's `try`. Any other JSON value is decoded; a number, string, boolean or
   * array has no `type` and decodes to `Unrecognized("", "", "")`.
   */
  datatype Frame = Unparseable | Decoded(msg: Message)

  /** The `error` message a connection is sent: its own ids, each `unknown` when never set. */
  function ErrorFor(conn: Conn, error: string): (m: Message)
    ensures m.Error? && m.error == error && m.details.None?
    ensures m.participantId == (if conn.participantId.Some? then conn.participantId.value else "unknown")
    ensures m.roomHandle == (if conn.roomHandle.Some? then conn.roomHandle.value else "unknown")
  {
    Error(conn.participantId.GetOr("unknown"), conn.roomHandle.GetOr("unknown"), error, None)
  }

  /** `sendError(ws, error)`: one `error` message, and only to an open connection. */
  function SendError(s: State, c: ConnId, error: string): (out: seq<Effect>)
    ensures |out| <= 1
    ensures |out| == 1 <==> c in s.conns && s.conns[c].open
    ensures forall e | e in out :: e.Send? && e.to == c && e.msg == ErrorFor(s.conns[c], error)
  {
    if c in s.conns then SendIfOpen(s, c, ErrorFor(s.conns[c], error)) else []
  }

  /** `handleJoinRoom`: both ids are required; `isCreator` is never passed on. */
  function HandleJoinRoom(s: State, c: ConnId, msg: Message, now: int): (r: Step)
    requires c in s.conns && msg.JoinRoom?
    ensures msg.participantId == "" || msg.roomHandle == "" ==>
      r == Step(s, SendError(s, c, "Missing participantId or roomHandle"))
    ensures msg.participantId != "" && msg.roomHandle != "" ==>
      r == Join(s, c, msg.roomHandle, msg.participantId, msg.name, false, now)
  {
    if msg.participantId == "" || msg.roomHandle == "" then
      Step(s, SendError(s, c, "Missing participantId or roomHandle"))
    else Join(s, c, msg.roomHandle, msg.participantId, msg.name, false, now)
  }

  /** `handleLeaveRoom`: removes the participant the message names, whichever connection sent it. */
  function HandleLeaveRoom(s: State, c: ConnId, msg: Message): (r: Step)
    requires msg.LeaveRoom?
    ensures msg.participantId == "" ==> r == Step(s, SendError(s, c, "Missing participantId"))
    ensures msg.participantId != "" ==> r == Leave(s, msg.participantId)
  {
    if msg.participantId == "" then Step(s, SendError(s, c, "Missing participantId"))
    else Leave(s, msg.participantId)
  }

  /**
   * `handleWebRTCSignaling`: the sending connection must have joined, then the message must
   * name a target; only then is it forwarded. No state changes either way.
   */
  function HandleSignaling(s: State, c: ConnId, msg: Message): (r: Step)
    requires c in s.conns && IsSignaling(msg)
    ensures r.state == s
    ensures !Truthy(s.conns[c].participantId) ==> r.out == SendError(s, c, "Must join room before WebRTC signaling")
    ensures Truthy(s.conns[c].participantId) && msg.targetParticipantId == "" ==>
      r.out == SendError(s, c, "Missing targetParticipantId in signaling message")
    ensures Truthy(s.conns[c].participantId) && msg.targetParticipantId != "" ==>
      r.out == Forward(s, s.conns[c].participantId.value, msg)
  {
    if !Truthy(s.conns[c].participantId) then Step(s, SendError(s, c, "Must join room before WebRTC signaling"))
    else if msg.targetParticipantId == "" then Step(s, SendError(s, c, "Missing targetParticipantId in signaling message"))
    else Step(s, Forward(s, s.conns[c].participantId.value, msg))
  }

  /** The request kinds the relay accepts from clients. */
  predicate IsRequest(msg: Message) {
    msg.JoinRoom? || msg.LeaveRoom? || IsSignaling(msg)
  }

  /**
   * `handleMessage`: dispatch on the message type. Anything but the five request kinds
   * (server-to-client kinds included) gets `Unknown message type` and changes nothing.
   */
  function HandleMessage(s: State, c: ConnId, msg: Message, now: int): (r: Step)
    requires c in s.conns
    ensures msg.JoinRoom? ==> r == HandleJoinRoom(s, c, msg, now)
    ensures msg.LeaveRoom? ==> r == HandleLeaveRoom(s, c, msg)
    ensures IsSignaling(msg) ==> r == HandleSignaling(s, c, msg)
    ensures !IsRequest(msg) ==> r == Step(s, SendError(s, c, "Unknown message type"))
  {
    if msg.JoinRoom? then HandleJoinRoom(s, c, msg, now)
    else if msg.LeaveRoom? then HandleLeaveRoom(s, c, msg)
    else if IsSignaling(msg) then HandleSignaling(s, c, msg)
    else Step(s, SendError(s, c, "Unknown message type"))
  }

  /** The `message` handler: an unparseable frame gets `Invalid message format` and changes nothing. */
  function OnMessage(s: State, c: ConnId, frame: Frame, now: int): (r: Step)
    requires c in s.conns
    ensures frame.Unparseable? ==> r == Step(s, SendError(s, c, "Invalid message format"))
    ensures frame.Decoded? ==> r == HandleMessage(s, c, frame.msg, now)
  {
    match frame
    case Unparseable => Step(s, SendError(s, c, "Invalid message format"))
    case Decoded(m) => HandleMessage(s, c, m, now)
  }

  /** A JSON value without a `type` (a number, a string, an array) is answered as an unknown type, not as a parse failure. */
  lemma UntypedPayloadIsUnknown(s: State, c: ConnId, now: int)
    requires c in s.conns
    ensures OnMessage(s, c, Decoded(Unrecognized("", "", "")), now) == Step(s, SendError(s, c, "Unknown message type"))
    ensures OnMessage(s, c, Decoded(Unrecognized("", "", "")), now) != OnMessage(s, c, Unparseable, now) <==> s.conns[c].open
  {
    var e := ErrorFor(s.conns[c], "Unknown message type");
    var f := ErrorFor(s.conns[c], "Invalid message format");
    assert e.error != f.error;
  }

  /** The `connection` handler: a fresh open connection, alive, not yet joined. */
  function OnConnection(s: State, c: ConnId): (r: State)
    requires c !in s.conns
    ensures r.conns == s.conns[c := Conn(true, true, None, None)]
    ensures r.rooms == s.rooms && r.registry == s.registry
  {
    s.(conns := s.conns[c := Conn(true, true, None, None)])
  }

  /** The `close` handler: the connection is no longer open, then it is disconnected. */
  function OnClose(s: State, c: ConnId): (r: Step)
    requires c in s.conns
    ensures var closed := s.(conns := s.conns[c := s.conns[c].(open := false)]);
      r == HandleDisconnection(closed, c)
    ensures forall e | e in r.out :: e.to != c
  {
    var closed := s.(conns := s.conns[c := s.conns[c].(open := false)]);
    var r := HandleDisconnection(closed, c);
    assert forall e | e in r.out :: e.to != c by {
      ClosedGetsNothing(closed, c);
    }
    r
  }

  /** A closed connection is never sent anything by a disconnection. */
  lemma ClosedGetsNothing(s: State, c: ConnId)
    requires c in s.conns && !s.conns[c].open
    ensures forall e | e in HandleDisconnection(s, c).out :: e.to != c
  {
    if Truthy(s.conns[c].participantId) {
      var pid := s.conns[c].participantId.value;
      match BoundRoom(s, pid)
      case None =>
      case Some(h) =>
        forall e | e in HandleDisconnection(s, c).out
          ensures e.to != c
        {
          var out := HandleDisconnection(s, c).out;
          var i :| 0 <= i < |out| && out[i] == e;
          if s.rooms[h].createdBy == Some(pid) {
            var p :| p in Members(RemoveMember(s.rooms[h], pid)) && p.id != pid && OpenConnOf(s, p.id) == Some(out[i].to);
          } else {
            var p :| p in Members(RemoveMember(s.rooms[h], pid)) && p.id != pid && OpenConnOf(s, p.id) == Some(out[i].to);
          }
        }
    }
  }

  /** The `pong` handler: the connection is alive again. */
  function OnPong(s: State, c: ConnId): (r: State)
    requires c in s.conns
    ensures r.conns == s.conns[c := s.conns[c].(isAlive := true)]
    ensures r.rooms == s.rooms && r.registry == s.registry
  {
    s.(conns := s.conns[c := s.conns[c].(isAlive := true)])
  }

  /**
   * Every handler keeps the coordinator's invariant, provided a `join-room` comes from a
   * connection not already bound under a different participant id.
   */
  lemma OnMessageCoherent(s: State, c: ConnId, frame: Frame, now: int)
    requires Coherent(s) && c in s.conns
    requires frame.Decoded? && frame.msg.JoinRoom? ==> ConnFreeFor(s, c, frame.msg.participantId)
    ensures Coherent(OnMessage(s, c, frame, now).state)
  {
    if frame.Decoded? {
      var m := frame.msg;
      if m.JoinRoom? && m.participantId != "" && m.roomHandle != "" {
        JoinCoherent(s, c, m.roomHandle, m.participantId, m.name, false, now);
      } else if m.LeaveRoom? && m.participantId != "" {
        LeaveCoherent(s, m.participantId);
      }
    }
  }

  lemma OnCloseCoherent(s: State, c: ConnId)
    requires Coherent(s) && c in s.conns
    ensures Coherent(OnClose(s, c).state)
  {
    var closed := s.(conns := s.conns[c := s.conns[c].(open := false)]);
    ConnFlagsCoherent(s, c, false, s.conns[c].isAlive);
    assert s.conns[c].(open := false, isAlive := s.conns[c].isAlive) == s.conns[c].(open := false);
    if Truthy(closed.conns[c].participantId) {
      LeaveCoherent(closed, closed.conns[c].participantId.value);
    }
  }

  lemma OnPongCoherent(s: State, c: ConnId)
    requires Coherent(s) && c in s.conns
    ensures Coherent(OnPong(s, c))
  {
    ConnFlagsCoherent(s, c, s.conns[c].open, true);
    assert s.conns[c].(open := s.conns[c].open, isAlive := true) == s.conns[c].(isAlive := true);
  }

  lemma OnConnectionCoherent(s: State, c: ConnId)
    requires Coherent(s) && c !in s.conns
    ensures Coherent(OnConnection(s, c))
  {
    var r := OnConnection(s, c);
    forall q | q in r.registry.entries
      ensures BindingOk(r, q)
    {
      assert BindingOk(s, q);
    }
  }
}
