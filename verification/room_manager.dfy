/**
 * The relay's room coordinator (lib/room-manager.ts, class `RoomManager`) as pure transitions:
 * every operation takes the coordinator state and returns the next state together with the
 * outbox of sends and pings it performs, in the order it performs them.
 */
module RoomManager {
  import opened Wrappers
  import opened Text
  import opened OrderedMap
  import opened GuestNames
  import opened Protocol

  /** The identity of one WebSocket connection object. */
  type ConnId = nat

  /**
   * The fields the relay keeps on a connection: whether its `readyState` is `OPEN`, the
   * liveness flag, and the participant and room it last joined as (never cleared on leave).
   */
  datatype Conn = Conn(open: bool, isAlive: bool, participantId: Option<string>, roomHandle: Option<string>)

  /** A live room: its participants keyed by id in join order, and its creator. */
  datatype Room = Room(handle: string, participants: OrdMap<string, Participant>, createdBy: Option<string>, createdAt: int)

  /**
   * `rooms` (handle to room), the registry `participants` (participant id to connection, in
   * binding order), and the connection objects themselves.
   */
  datatype State = State(rooms: map<string, Room>, registry: OrdMap<string, ConnId>, conns: map<ConnId, Conn>)

  /** One observable effect on a connection: a `send` of a message, or a `ping`. */
  datatype Effect = Send(to: ConnId, msg: Message) | Ping(to: ConnId)

  datatype Step = Step(state: State, out: seq<Effect>)

  /** JavaScript truthiness of an optional string: present and non-empty. */
  predicate Truthy(o: Option<string>) {
    o.Some? && o.value != ""
  }

  /** The participants of a room in the order `forEach`/`values()` visits them. */
  function Members(room: Room): seq<Participant> {
    Values(room.participants)
  }

  /** Participants are stored under their own id, each id once. */
  ghost predicate WellFormedRoom(room: Room) {
    && Valid(room.participants)
    && forall k | k in room.participants.entries :: room.participants.entries[k].id == k
  }

  /** Every binding in `a` is also a binding in `b`. */
  ghost predicate SubBinding(a: map<string, ConnId>, b: map<string, ConnId>) {
    forall k | k in a :: k in b && a[k] == b[k]
  }

  /**
   * The bindings agree with the rooms: each bound participant's connection names, through its
   * `roomHandle` field, an existing room that lists the participant; rooms store participants
   * under their own ids.
   */
  ghost predicate BindingsCoherent(s: State) {
    && Valid(s.registry)
    && (forall h | h in s.rooms :: WellFormedRoom(s.rooms[h]))
    && forall p | p in s.registry.entries :: BindingOk(s, p)
  }

  /** The binding of `p` leads to an existing room that lists `p`. */
  ghost predicate BindingOk(s: State, p: string)
    requires p in s.registry.entries
  {
    && s.registry.entries[p] in s.conns
    && Truthy(s.conns[s.registry.entries[p]].roomHandle)
    && s.conns[s.registry.entries[p]].roomHandle.value in s.rooms
    && p in s.rooms[s.conns[s.registry.entries[p]].roomHandle.value].participants.entries
  }

  /** The coordinator's invariant: coherent bindings, and no room is kept once empty. */
  ghost predicate Coherent(s: State) {
    && BindingsCoherent(s)
    && forall h | h in s.rooms :: |s.rooms[h].participants.entries| > 0
  }

  /** No participant other than `pid` is bound to connection `c`. */
  ghost predicate ConnFreeFor(s: State, c: ConnId, pid: string) {
    forall q | q in s.registry.entries && s.registry.entries[q] == c :: q == pid
  }

  /** No two participants share a connection. */
  ghost predicate Injective(m: map<string, ConnId>) {
    forall a, b | a in m && b in m && a != b :: m[a] != m[b]
  }

  /** The connection a participant is bound to, when its `readyState` is `OPEN`. */
  function OpenConnOf(s: State, pid: string): Option<ConnId> {
    if pid in s.registry.entries && s.registry.entries[pid] in s.conns && s.conns[s.registry.entries[pid]].open
    then Some(s.registry.entries[pid])
    else None
  }

  /** `ws.send(...)` guarded by `ws.readyState === WebSocket.OPEN`. */
  function SendIfOpen(s: State, c: ConnId, msg: Message): (out: seq<Effect>)
    ensures |out| <= 1
    ensures |out| == 1 <==> c in s.conns && s.conns[c].open
    ensures forall e | e in out :: e == Send(c, msg)
  {
    if c in s.conns && s.conns[c].open then [Send(c, msg)] else []
  }

  /** Some participant of `ps` other than the excluded one is bound to the open connection `c`. */
  ghost predicate Reaches(s: State, ps: seq<Participant>, exclude: Option<string>, c: ConnId) {
    exists p | p in ps :: Some(p.id) != exclude && OpenConnOf(s, p.id) == Some(c)
  }

  /** The `forEach` of `broadcastToRoom` over a list of participants. */
  function Deliver(s: State, ps: seq<Participant>, msg: Message, exclude: Option<string>): (out: seq<Effect>)
    ensures |out| <= |ps|
    ensures forall i | 0 <= i < |out| :: out[i].Send? && out[i].msg == msg && Reaches(s, ps, exclude, out[i].to)
    ensures forall p | p in ps && Some(p.id) != exclude && OpenConnOf(s, p.id).Some? ::
      Send(OpenConnOf(s, p.id).value, msg) in out
  {
    if ps == [] then []
    else
      var p := ps[0];
      var head := if Some(p.id) != exclude && OpenConnOf(s, p.id).Some? then [Send(OpenConnOf(s, p.id).value, msg)] else [];
      var rest := Deliver(s, ps[1..], msg, exclude);
      assert ps == [p] + ps[1..];
      assert forall c | Reaches(s, ps[1..], exclude, c) :: Reaches(s, ps, exclude, c);
      head + rest
  }

  /**
   * `broadcastToRoom(roomHandle, message, excludeParticipantId?)`: every participant of the room
   * other than the excluded one whose connection is open receives the message; nothing else is sent.
   */
  function Broadcast(s: State, handle: string, msg: Message, exclude: Option<string>): (out: seq<Effect>)
    ensures handle !in s.rooms ==> out == []
    ensures handle in s.rooms ==>
      && (forall i | 0 <= i < |out| :: out[i].Send? && out[i].msg == msg && Reaches(s, Members(s.rooms[handle]), exclude, out[i].to))
      && (forall p | p in Members(s.rooms[handle]) && Some(p.id) != exclude && OpenConnOf(s, p.id).Some? ::
            Send(OpenConnOf(s, p.id).value, msg) in out)
  {
    if handle in s.rooms then Deliver(s, Members(s.rooms[handle]), msg, exclude) else []
  }

  /** The display names of the participants of `handle` (none when the room is absent). */
  function NamesIn(s: State, handle: string): seq<string> {
    if handle in s.rooms then
      var ms := Members(s.rooms[handle]);
      seq(|ms|, i requires 0 <= i < |ms| => ms[i].name)
    else []
  }

  /**
   * `generateGuestName(roomHandle)`: `Guest 1` for an absent room, otherwise `Guest k` where
   * every number below k is held by some participant named `Guest <n>`. When the numbers held
   * are distinct and positive, k itself is free, so it is the least unused number; otherwise
   * k may be one already held (see `GuestNames.NextGuestNumberMayRepeat`).
   */
  function GenerateGuestName(s: State, handle: string): (name: string)
    ensures exists k: nat | k >= 1 :: name == GuestName(k) && forall j | 1 <= j < k :: j in GuestNumbers(NamesIn(s, handle))
    ensures GuestNumbersProper(NamesIn(s, handle)) ==>
      exists k: nat | k >= 1 :: name == GuestName(k) && k !in GuestNumbers(NamesIn(s, handle))
  {
    var k := if handle in s.rooms then NextGuestNumber(NamesIn(s, handle)) else 1;
    assert GuestNumbersProper(NamesIn(s, handle)) ==> k !in GuestNumbers(NamesIn(s, handle)) by {
      if handle in s.rooms && GuestNumbersProper(NamesIn(s, handle)) {
        NextGuestNumberIsLeastUnused(NamesIn(s, handle));
      }
    }
    GuestName(k)
  }

  /** The guest numbers held are distinct and positive: the case where the walk finds a free number. */
  ghost predicate GuestNumbersProper(names: seq<string>) {
    Distinct(GuestNumbers(names)) && forall n | n in GuestNumbers(names) :: n >= 1
  }

  /** A `room-state` send. */
  predicate IsSnapshot(e: Effect) {
    e.Send? && e.msg.RoomState?
  }

  /** `room.createdBy` after a join: set to the joiner only when falsy and the room is empty. */
  function ClaimCreator(room: Room, pid: string): (r: Room)
    ensures r.participants == room.participants && r.handle == room.handle && r.createdAt == room.createdAt
    ensures Truthy(room.createdBy) ==> r.createdBy == room.createdBy
    ensures |room.participants.entries| > 0 ==> r.createdBy == room.createdBy
    ensures !Truthy(room.createdBy) && |room.participants.entries| == 0 ==> r.createdBy == Some(pid)
  {
    if !Truthy(room.createdBy) && |room.participants.entries| == 0 then room.(createdBy := Some(pid)) else room
  }

  /** The room a join works on: the existing one, or a fresh one whose creator is set only when `isCreator`. */
  function RoomForJoin(s: State, handle: string, pid: string, isCreator: bool, now: int): (room: Room)
    ensures handle in s.rooms ==> room == s.rooms[handle]
    ensures handle !in s.rooms ==>
      && |room.participants.entries| == 0 && WellFormedRoom(room)
      && room.createdBy == (if isCreator then Some(pid) else None)
  {
    if handle in s.rooms then s.rooms[handle]
    else Room(handle, Empty(), if isCreator then Some(pid) else None, now)
  }

  /** The display name a join records: the trimmed name when one is given (even if blank), otherwise a guest name. */
  function JoinName(s: State, handle: string, name: Option<string>): (r: string)
    ensures name.Some? ==> r == Trim(name.value) && (r == "" <==> IsBlank(name.value))
    ensures name.None? ==> exists k: nat | k >= 1 :: r == GuestName(k) && forall j | 1 <= j < k :: j in GuestNumbers(NamesIn(s, handle))
    ensures name.None? && GuestNumbersProper(NamesIn(s, handle)) ==>
      exists k: nat | k >= 1 :: r == GuestName(k) && k !in GuestNumbers(NamesIn(s, handle))
  {
    if name.Some? then TrimEmptyIffBlank(name.value); Trim(name.value) else GenerateGuestName(s, handle)
  }

  /** `room.participants.set(p.id, p)`. */
  function AddMember(room: Room, p: Participant): (r: Room)
    ensures r.handle == room.handle && r.createdBy == room.createdBy && r.createdAt == room.createdAt
    ensures r.participants.entries == room.participants.entries[p.id := p]
    ensures WellFormedRoom(room) ==> WellFormedRoom(r)
  {
    room.(participants := Put(room.participants, p.id, p))
  }

  /** The participant record a join stores and announces. */
  function Joiner(s: State, handle: string, pid: string, name: Option<string>, now: int): Participant {
    Participant(pid, JoinName(s, handle, name), handle, now)
  }

  /** The room a join leaves behind: created lazily, creator claimed if free, the joiner recorded under its id. */
  function AdmitRoom(s: State, handle: string, joiner: Participant, isCreator: bool, now: int): (room: Room)
    ensures handle !in s.rooms ==> room.createdBy == Some(joiner.id)
    ensures handle in s.rooms && (Truthy(s.rooms[handle].createdBy) || |s.rooms[handle].participants.entries| > 0) ==>
      room.createdBy == s.rooms[handle].createdBy
    ensures handle in s.rooms && !Truthy(s.rooms[handle].createdBy) && |s.rooms[handle].participants.entries| == 0 ==>
      room.createdBy == Some(joiner.id)
    ensures handle !in s.rooms ==> room.participants.entries == map[joiner.id := joiner]
    ensures handle in s.rooms ==>
      room.participants.entries == s.rooms[handle].participants.entries[joiner.id := joiner]
    ensures (handle in s.rooms ==> WellFormedRoom(s.rooms[handle])) ==> WellFormedRoom(room)
  {
    var room0 := RoomForJoin(s, handle, joiner.id, isCreator, now);
    var room1 := ClaimCreator(room0, joiner.id);
    assert handle !in s.rooms ==> room0.participants.entries == map[];
    AddMember(room1, joiner)
  }

  /**
   * The state half of `joinRoom`: create the room lazily, let the first joiner of an empty
   * creatorless room become its creator, record the participant under its id (replacing an
   * earlier record of the same id in place) and bind it to the connection.
   */
  function Admit(s: State, c: ConnId, handle: string, joiner: Participant, isCreator: bool, now: int): (r: State)
    requires c in s.conns
    // the room store: only `handle` changes, to the admitted room
    ensures r.rooms == s.rooms[handle := AdmitRoom(s, handle, joiner, isCreator, now)]
    // binding of the participant to the connection
    ensures r.registry.entries == s.registry.entries[joiner.id := c]
    ensures Valid(s.registry) ==> Valid(r.registry)
    ensures r.conns == s.conns[c := s.conns[c].(participantId := Some(joiner.id), roomHandle := Some(handle), isAlive := true)]
  {
    var room := AdmitRoom(s, handle, joiner, isCreator, now);
    var conn := s.conns[c].(participantId := Some(joiner.id), roomHandle := Some(handle), isAlive := true);
    State(s.rooms[handle := room], Put(s.registry, joiner.id, c), s.conns[c := conn])
  }

  /**
   * The sends of `joinRoom`: `sendRoomState` to the joiner (skipped when its id is empty or its
   * connection is not open), then `participant-joined` to every other open participant.
   */
  function JoinOutbox(s: State, c: ConnId, handle: string, joiner: Participant): (out: seq<Effect>)
    requires handle in s.rooms
    ensures |out| >= 1 && IsSnapshot(out[0]) <==> joiner.id != "" && c in s.conns && s.conns[c].open
    ensures joiner.id != "" && c in s.conns && s.conns[c].open ==>
      out[0] == Send(c, RoomState(joiner.id, handle, Members(s.rooms[handle])))
    ensures forall i | 0 <= i < |out| && !(i == 0 && IsSnapshot(out[0])) ::
      && out[i].Send?
      && out[i].msg == ParticipantJoined(joiner.id, handle, joiner)
      && Reaches(s, Members(s.rooms[handle]), Some(joiner.id), out[i].to)
    ensures forall p | p in Members(s.rooms[handle]) && p.id != joiner.id && OpenConnOf(s, p.id).Some? ::
      Send(OpenConnOf(s, p.id).value, ParticipantJoined(joiner.id, handle, joiner)) in out
  {
    var snapshot := if joiner.id != "" then SendIfOpen(s, c, RoomState(joiner.id, handle, Members(s.rooms[handle]))) else [];
    snapshot + Broadcast(s, handle, ParticipantJoined(joiner.id, handle, joiner), Some(joiner.id))
  }

  /**
   * `joinRoom(ws, roomHandle, participantId, name?, isCreator?)`: admit the participant, then
   * send the snapshot (which lists the joiner itself) and the announcements.
   */
  function Join(s: State, c: ConnId, handle: string, pid: string, name: Option<string>, isCreator: bool, now: int): (r: Step)
    requires c in s.conns
    ensures r.state == Admit(s, c, handle, Joiner(s, handle, pid, name, now), isCreator, now)
    ensures r.out == JoinOutbox(r.state, c, handle, Joiner(s, handle, pid, name, now))
    ensures pid != "" && s.conns[c].open && (handle in s.rooms ==> WellFormedRoom(s.rooms[handle])) ==>
      |r.out| > 0 && IsSnapshot(r.out[0]) && Joiner(s, handle, pid, name, now) in r.out[0].msg.participants
  {
    var p := Joiner(s, handle, pid, name, now);
    var s2 := Admit(s, c, handle, p, isCreator, now);
    AdmitListsJoiner(s, c, handle, p, isCreator, now);
    Step(s2, JoinOutbox(s2, c, handle, p))
  }

  /** After an admission the room lists the joiner, and the joiner's connection is as open as before. */
  lemma AdmitListsJoiner(s: State, c: ConnId, handle: string, joiner: Participant, isCreator: bool, now: int)
    requires c in s.conns
    ensures var r := Admit(s, c, handle, joiner, isCreator, now);
      && handle in r.rooms && c in r.conns && r.conns[c].open == s.conns[c].open
      && ((handle in s.rooms ==> WellFormedRoom(s.rooms[handle])) ==> joiner in Members(r.rooms[handle]))
  {
    var room := AdmitRoom(s, handle, joiner, isCreator, now);
    if handle in s.rooms ==> WellFormedRoom(s.rooms[handle]) {
      ValueListed(room.participants, joiner.id);
    }
  }

  /** The ids of a list of participants. */
  function IdsOf(ps: seq<Participant>): set<string> {
    set p | p in ps :: p.id
  }

  /** What one step of `TerminateLoop` keeps true about the participants still to be visited. */
  lemma TerminateLoopStep(s: State, ps: seq<Participant>)
    requires ps != []
    ensures IdsOf(ps) == {ps[0].id} + IdsOf(ps[1..])
    ensures forall c: ConnId | Reaches(s.(registry := Remove(s.registry, ps[0].id)), ps[1..], None, c) :: Reaches(s, ps, None, c)
    ensures forall q | q in ps[1..] && q.id != ps[0].id ::
      OpenConnOf(s.(registry := Remove(s.registry, ps[0].id)), q.id) == OpenConnOf(s, q.id)
  {
    var s1 := s.(registry := Remove(s.registry, ps[0].id));
    assert ps == [ps[0]] + ps[1..];
    forall c: ConnId | Reaches(s1, ps[1..], None, c)
      ensures Reaches(s, ps, None, c)
    {
      var q :| q in ps[1..] && OpenConnOf(s1, q.id) == Some(c);
      assert OpenConnOf(s, q.id) == Some(c);
    }
  }

  /**
   * The `forEach` of `terminateRoom`: send the termination notice to each participant whose
   * connection is open, and drop each participant's binding as it is visited.
   */
  function TerminateLoop(s: State, ps: seq<Participant>, msg: Message): (r: Step)
    ensures r.state.rooms == s.rooms && r.state.conns == s.conns
    ensures r.state.registry.entries == s.registry.entries - IdsOf(ps)
    ensures Valid(s.registry) ==> Valid(r.state.registry)
    ensures forall i | 0 <= i < |r.out| :: r.out[i].Send? && r.out[i].msg == msg && Reaches(s, ps, None, r.out[i].to)
    ensures forall p | p in ps && OpenConnOf(s, p.id).Some? :: Send(OpenConnOf(s, p.id).value, msg) in r.out
    decreases |ps|
  {
    if ps == [] then Step(s, [])
    else
      var p := ps[0];
      var head := if OpenConnOf(s, p.id).Some? then [Send(OpenConnOf(s, p.id).value, msg)] else [];
      var s1 := s.(registry := Remove(s.registry, p.id));
      var rest := TerminateLoop(s1, ps[1..], msg);
      TerminateLoopStep(s, ps);
      Step(rest.state, head + rest.out)
  }

  /**
   * `terminateRoom(roomHandle, reason)`: every participant still in the room whose connection is
   * open gets one `room-terminated` notice from `system`, every participant's binding is dropped,
   * and the room is deleted whatever its size. An absent room is left alone.
   */
  function Terminate(s: State, handle: string, reason: TerminationReason): (r: Step)
    ensures handle !in s.rooms ==> r == Step(s, [])
    ensures handle in s.rooms ==>
      && r.state.rooms == s.rooms - {handle}
      && r.state.conns == s.conns
      && r.state.registry.entries == s.registry.entries - IdsOf(Members(s.rooms[handle]))
      && (forall i | 0 <= i < |r.out| ::
            r.out[i].Send? && r.out[i].msg == RoomTerminated("system", handle, reason)
            && Reaches(s, Members(s.rooms[handle]), None, r.out[i].to))
      && (forall p | p in Members(s.rooms[handle]) && OpenConnOf(s, p.id).Some? ::
            Send(OpenConnOf(s, p.id).value, RoomTerminated("system", handle, reason)) in r.out)
    ensures Valid(s.registry) ==> Valid(r.state.registry)
  {
    if handle !in s.rooms then Step(s, [])
    else
      var loop := TerminateLoop(s, Members(s.rooms[handle]), RoomTerminated("system", handle, reason));
      Step(loop.state.(rooms := loop.state.rooms - {handle}), loop.out)
  }

  /**
   * The room `leaveRoom(participantId)` acts on: the room named by the participant's connection,
   * provided the participant is bound, that name is non-empty and the room exists.
   */
  function BoundRoom(s: State, pid: string): (h: Option<string>)
    ensures h.Some? ==> h.value in s.rooms && h.value != ""
  {
    if pid in s.registry.entries && s.registry.entries[pid] in s.conns then
      var rh := s.conns[s.registry.entries[pid]].roomHandle;
      if Truthy(rh) && rh.value in s.rooms then rh else None
    else None
  }

  /** `room.participants.delete(pid)`. */
  function RemoveMember(room: Room, pid: string): (r: Room)
    ensures r.handle == room.handle && r.createdBy == room.createdBy && r.createdAt == room.createdAt
    ensures r.participants.entries == room.participants.entries - {pid}
    ensures WellFormedRoom(room) ==> WellFormedRoom(r)
  {
    room.(participants := Remove(room.participants, pid))
  }

  /** The first two deletions of `leaveRoom`: the participant leaves its room and the registry. */
  function Unbind(s: State, pid: string, handle: string): (r: State)
    requires handle in s.rooms
    ensures r.rooms == s.rooms[handle := RemoveMember(s.rooms[handle], pid)]
    ensures r.registry.entries == s.registry.entries - {pid} && r.conns == s.conns
    ensures Valid(s.registry) ==> Valid(r.registry)
    ensures forall q | q != pid :: OpenConnOf(r, q) == OpenConnOf(s, q)
  {
    State(s.rooms[handle := RemoveMember(s.rooms[handle], pid)], Remove(s.registry, pid), s.conns)
  }

  /** A connection an unbound state's broadcast reaches belonged, before the unbinding, to somebody else. */
  lemma ReachesAfterUnbind(s: State, pid: string, handle: string, ps: seq<Participant>, c: ConnId)
    requires handle in s.rooms && Reaches(Unbind(s, pid, handle), ps, None, c)
    ensures Reaches(s, ps, Some(pid), c)
  {
    var s1 := Unbind(s, pid, handle);
    var p :| p in ps && OpenConnOf(s1, p.id) == Some(c);
    assert pid !in s1.registry.entries;
    assert p.id != pid && OpenConnOf(s, p.id) == Some(c);
  }

  /**
   * The `room-terminated` notices of a creator's departure. The room is terminated after the
   * creator is unbound, so they reach exactly the remaining members with open connections.
   */
  function CreatorLeaveNotices(s: State, pid: string, handle: string): (out: seq<Effect>)
    requires handle in s.rooms
    ensures forall i | 0 <= i < |out| ::
      && out[i].Send?
      && out[i].msg == RoomTerminated("system", handle, CreatorLeft)
      && Reaches(s, Members(RemoveMember(s.rooms[handle], pid)), Some(pid), out[i].to)
    ensures forall p | p in Members(RemoveMember(s.rooms[handle], pid)) && p.id != pid && OpenConnOf(s, p.id).Some? ::
      Send(OpenConnOf(s, p.id).value, RoomTerminated("system", handle, CreatorLeft)) in out
  {
    var s1 := Unbind(s, pid, handle);
    var ms := Members(s1.rooms[handle]);
    var out := Terminate(s1, handle, CreatorLeft).out;
    assert forall i | 0 <= i < |out| :: Reaches(s, ms, Some(pid), out[i].to) by {
      forall i | 0 <= i < |out|
        ensures Reaches(s, ms, Some(pid), out[i].to)
      {
        ReachesAfterUnbind(s, pid, handle, ms, out[i].to);
      }
    }
    out
  }

  /**
   * `leaveRoom` for the room's creator: after the creator's own removal, the room is terminated
   * with reason `creator-left`, so the creator itself is not among those notified.
   */
  function CreatorLeave(s: State, pid: string, handle: string): (r: Step)
    requires handle in s.rooms
    ensures r.state.rooms == s.rooms - {handle}
    ensures r.state.registry.entries == s.registry.entries - {pid} - IdsOf(Members(RemoveMember(s.rooms[handle], pid)))
    ensures r.out == CreatorLeaveNotices(s, pid, handle)
    ensures r.state.conns == s.conns
    ensures Valid(s.registry) ==> Valid(r.state.registry)
  {
    var s1 := Unbind(s, pid, handle);
    var r := Terminate(s1, handle, CreatorLeft);
    assert s1.rooms - {handle} == s.rooms - {handle};
    r
  }

  /**
   * The `participant-left` broadcast of a non-creator's departure. It runs after the participant
   * is unbound, so it reaches exactly the remaining members with open connections.
   */
  function LeaveNotices(s: State, pid: string, handle: string): (out: seq<Effect>)
    requires handle in s.rooms
    ensures forall i | 0 <= i < |out| ::
      && out[i].Send?
      && out[i].msg == ParticipantLeft(pid, handle)
      && Reaches(s, Members(RemoveMember(s.rooms[handle], pid)), Some(pid), out[i].to)
    ensures forall p | p in Members(RemoveMember(s.rooms[handle], pid)) && p.id != pid && OpenConnOf(s, p.id).Some? ::
      Send(OpenConnOf(s, p.id).value, ParticipantLeft(pid, handle)) in out
  {
    var s1 := Unbind(s, pid, handle);
    var ms := Members(s1.rooms[handle]);
    var out := Broadcast(s1, handle, ParticipantLeft(pid, handle), None);
    assert forall i | 0 <= i < |out| :: Reaches(s, ms, Some(pid), out[i].to) by {
      forall i | 0 <= i < |out|
        ensures Reaches(s, ms, Some(pid), out[i].to)
      {
        ReachesAfterUnbind(s, pid, handle, ms, out[i].to);
      }
    }
    out
  }

  /**
   * `leaveRoom` for anybody but the creator: the remaining participants with open connections
   * each get `participant-left`, and the room is deleted exactly when nobody is left in it.
   */
  function MemberLeave(s: State, pid: string, handle: string): (r: Step)
    requires handle in s.rooms
    ensures handle in r.state.rooms <==> |s.rooms[handle].participants.entries - {pid}| > 0
    ensures handle in r.state.rooms ==> r.state.rooms[handle] == RemoveMember(s.rooms[handle], pid)
    ensures forall h | h in s.rooms && h != handle :: h in r.state.rooms && r.state.rooms[h] == s.rooms[h]
    ensures r.state.rooms.Keys <= s.rooms.Keys
    ensures r.state.registry.entries == s.registry.entries - {pid}
    ensures r.out == LeaveNotices(s, pid, handle)
    ensures r.state.conns == s.conns
    ensures Valid(s.registry) ==> Valid(r.state.registry)
  {
    var s1 := Unbind(s, pid, handle);
    var room := s1.rooms[handle];
    Step(s1.(rooms := if |room.participants.entries| == 0 then s1.rooms - {handle} else s1.rooms), LeaveNotices(s, pid, handle))
  }

  /**
   * `leaveRoom(participantId)`: nothing happens unless the participant is bound to a connection
   * naming an existing room; otherwise the creator's departure terminates the room and anybody
   * else's is announced to the rest.
   */
  function Leave(s: State, pid: string): (r: Step)
    ensures BoundRoom(s, pid).None? ==> r == Step(s, [])
    ensures BoundRoom(s, pid).Some? ==> pid !in r.state.registry.entries
    ensures BoundRoom(s, pid).Some? && s.rooms[BoundRoom(s, pid).value].createdBy == Some(pid) ==>
      r == CreatorLeave(s, pid, BoundRoom(s, pid).value)
    ensures BoundRoom(s, pid).Some? && s.rooms[BoundRoom(s, pid).value].createdBy != Some(pid) ==>
      r == MemberLeave(s, pid, BoundRoom(s, pid).value)
    ensures r.state.conns == s.conns
    ensures SubBinding(r.state.registry.entries, s.registry.entries)
    ensures Valid(s.registry) ==> Valid(r.state.registry)
    ensures r.state.rooms.Keys <= s.rooms.Keys
    ensures BoundRoom(r.state, pid).None?
  {
    match BoundRoom(s, pid)
    case None => Step(s, [])
    case Some(h) =>
      if s.rooms[h].createdBy == Some(pid) then CreatorLeave(s, pid, h) else MemberLeave(s, pid, h)
  }

  /** `handleDisconnection(ws)`: a connection that joined as somebody leaves as that participant. */
  function HandleDisconnection(s: State, c: ConnId): (r: Step)
    ensures !(c in s.conns && Truthy(s.conns[c].participantId)) ==> r == Step(s, [])
    ensures c in s.conns && Truthy(s.conns[c].participantId) ==> r == Leave(s, s.conns[c].participantId.value)
  {
    if c in s.conns && Truthy(s.conns[c].participantId) then Leave(s, s.conns[c].participantId.value) else Step(s, [])
  }

  /**
   * `forwardSignalingMessage(from, message)`: an offer, answer or ICE candidate goes, unchanged,
   * to the target's connection when the target is bound and its connection is open; no check
   * that sender and target share a room. Anything else is dropped.
   */
  function Forward(s: State, from: string, msg: Message): (out: seq<Effect>)
    ensures |out| <= 1
    ensures |out| == 1 <==> IsSignaling(msg) && OpenConnOf(s, msg.targetParticipantId).Some?
    ensures forall e | e in out :: e == Send(s.registry.entries[msg.targetParticipantId], msg)
  {
    if IsSignaling(msg) && OpenConnOf(s, msg.targetParticipantId).Some? then
      [Send(OpenConnOf(s, msg.targetParticipantId).value, msg)]
    else []
  }

  /** `getParticipantCount(roomHandle)`: the room's size, 0 for an absent room. */
  function ParticipantCount(s: State, handle: string): (n: nat)
    ensures handle !in s.rooms ==> n == 0
    ensures handle in s.rooms ==> n == |s.rooms[handle].participants.entries|
    ensures Coherent(s) ==> (n > 0 <==> handle in s.rooms)
  {
    if handle in s.rooms then |s.rooms[handle].participants.entries| else 0
  }

  /** `pid` is bound to a connection that is open and has answered the last ping. */
  ghost predicate LiveBinding(s: State, pid: string) {
    && pid in s.registry.entries && s.registry.entries[pid] in s.conns
    && s.conns[s.registry.entries[pid]].isAlive && s.conns[s.registry.entries[pid]].open
  }

  /**
   * One visit of the `cleanup` sweep: a binding deleted earlier in the sweep is skipped; a dead
   * or closed connection leaves through `leaveRoom`; a live open one is marked not alive and pinged.
   */
  function SweepOne(s: State, pid: string): (r: Step)
    ensures pid !in s.registry.entries ==> r == Step(s, [])
    ensures pid in s.registry.entries && !LiveBinding(s, pid) ==> r == Leave(s, pid)
    ensures LiveBinding(s, pid) ==>
      var c := s.registry.entries[pid];
      && r.state.rooms == s.rooms && r.state.registry == s.registry
      && r.state.conns == s.conns[c := s.conns[c].(isAlive := false)]
      && r.out == [Ping(c)]
    ensures r.state.conns.Keys == s.conns.Keys
    ensures forall c | c in s.conns :: r.state.conns[c].open == s.conns[c].open
    ensures forall c | c in s.conns && !s.conns[c].isAlive :: !r.state.conns[c].isAlive
    ensures SubBinding(r.state.registry.entries, s.registry.entries)
    ensures Valid(s.registry) ==> Valid(r.state.registry)
    ensures !LiveBinding(r.state, pid)
  {
    if pid !in s.registry.entries then Step(s, [])
    else
      var c := s.registry.entries[pid];
      if c in s.conns && s.conns[c].isAlive && s.conns[c].open then
        Step(s.(conns := s.conns[c := s.conns[c].(isAlive := false)]), [Ping(c)])
      else Leave(s, pid)
  }

  /** The sweep over a snapshot of registry keys, in order. */
  function SweepKeys(s: State, ks: seq<string>): (r: Step)
    ensures r.state.conns.Keys == s.conns.Keys
    ensures forall c | c in s.conns :: r.state.conns[c].open == s.conns[c].open
    ensures forall c | c in s.conns && !s.conns[c].isAlive :: !r.state.conns[c].isAlive
    ensures SubBinding(r.state.registry.entries, s.registry.entries)
    ensures Valid(s.registry) ==> Valid(r.state.registry)
    ensures forall k | k in ks :: !LiveBinding(r.state, k)
    decreases |ks|
  {
    if ks == [] then Step(s, [])
    else
      var first := SweepOne(s, ks[0]);
      var rest := SweepKeys(first.state, ks[1..]);
      assert ks == [ks[0]] + ks[1..];
      Step(rest.state, first.out + rest.out)
  }

  /**
   * `cleanup()`: sweep every binding in registry order. Afterwards every surviving binding's
   * connection is closed or marked not alive, so one that stays silent is a candidate for the
   * next sweep.
   */
  function Cleanup(s: State): (r: Step)
    ensures SubBinding(r.state.registry.entries, s.registry.entries)
    ensures r.state.conns.Keys == s.conns.Keys
    ensures Valid(s.registry) ==> forall k | k in r.state.registry.entries :: !LiveBinding(r.state, k)
  {
    SweepKeys(s, s.registry.keys)
  }
}
