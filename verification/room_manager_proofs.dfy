/**
 * Properties of the room coordinator that relate several of its operations: the coherence
 * invariant is kept by joins, leaves and sweeps; two sweeps with no pong in between reap every
 * binding; a broadcast reaches each eligible participant exactly once.
 */
module RoomManagerProofs {
  import opened Wrappers
  import opened OrderedMap
  import opened Protocol
  import opened RoomManager

  /** A room lists participant `q` exactly when one of its members carries id `q`. */
  lemma ListedIffMember(room: Room, q: string)
    requires WellFormedRoom(room)
    ensures q in room.participants.entries <==> q in IdsOf(Members(room))
  {
    if q in room.participants.entries {
      ValueListed(room.participants, q);
    }
    if q in IdsOf(Members(room)) {
      var p :| p in Members(room) && p.id == q;
      ValuesMembers(room.participants, p);
    }
  }

  /** Under coherence, a bound participant's room is the one its connection names. */
  lemma BoundRoomOfBound(s: State, pid: string)
    requires BindingsCoherent(s) && pid in s.registry.entries
    ensures BoundRoom(s, pid) == s.conns[s.registry.entries[pid]].roomHandle
    ensures pid in s.rooms[BoundRoom(s, pid).value].participants.entries
  {
  }

  /** The creator's departure keeps the invariant: the whole room goes, with every binding into it. */
  lemma CreatorLeaveCoherent(s: State, pid: string, h: string)
    requires Coherent(s) && h in s.rooms
    ensures Coherent(CreatorLeave(s, pid, h).state)
  {
    var r := CreatorLeave(s, pid, h).state;
    forall q | q in r.registry.entries
      ensures BindingOk(r, q)
    {
      CreatorLeaveBinding(s, pid, h, q);
    }
  }

  lemma CreatorLeaveBinding(s: State, pid: string, h: string, q: string)
    requires BindingsCoherent(s) && h in s.rooms
    requires q in CreatorLeave(s, pid, h).state.registry.entries
    ensures BindingOk(CreatorLeave(s, pid, h).state, q)
  {
    var r := CreatorLeave(s, pid, h).state;
    OutsideTerminatedRoom(s, pid, h, q);
    TerminatedBindingOk(s, r, h, q);
  }

  /** A binding into a room other than the deleted one stays intact when only that room goes. */
  lemma TerminatedBindingOk(s: State, r: State, h: string, q: string)
    requires q in s.registry.entries && BindingOk(s, q) && s.conns[s.registry.entries[q]].roomHandle.value != h
    requires r.rooms == s.rooms - {h} && r.conns == s.conns
    requires q in r.registry.entries && r.registry.entries[q] == s.registry.entries[q]
    ensures BindingOk(r, q)
  {
    var g := s.conns[s.registry.entries[q]].roomHandle.value;
    assert g in r.rooms && r.rooms[g] == s.rooms[g];
  }

  /** A binding that survives the creator's departure led to a room other than the terminated one. */
  lemma OutsideTerminatedRoom(s: State, pid: string, h: string, q: string)
    requires BindingsCoherent(s) && h in s.rooms
    requires q in s.registry.entries - {pid} - IdsOf(Members(RemoveMember(s.rooms[h], pid)))
    ensures q in s.registry.entries && BindingOk(s, q) && s.conns[s.registry.entries[q]].roomHandle.value != h
  {
    var rest := RemoveMember(s.rooms[h], pid);
    assert BindingOk(s, q);
    assert WellFormedRoom(s.rooms[h]);
    ListedIffMember(rest, q);
  }

  /** Anybody else's departure keeps the invariant: the room shrinks, and goes once empty. */
  lemma MemberLeaveCoherent(s: State, pid: string, h: string)
    requires Coherent(s) && h in s.rooms
    ensures Coherent(MemberLeave(s, pid, h).state)
  {
    var r := MemberLeave(s, pid, h).state;
    MemberLeaveRooms(s, pid, h);
    forall q | q in r.registry.entries
      ensures BindingOk(r, q)
    {
      MemberLeaveBinding(s, pid, h, q);
    }
  }

  lemma MemberLeaveRooms(s: State, pid: string, h: string)
    requires Coherent(s) && h in s.rooms
    ensures forall g | g in MemberLeave(s, pid, h).state.rooms ::
      && WellFormedRoom(MemberLeave(s, pid, h).state.rooms[g])
      && |MemberLeave(s, pid, h).state.rooms[g].participants.entries| > 0
  {
  }

  lemma MemberLeaveBinding(s: State, pid: string, h: string, q: string)
    requires Coherent(s) && h in s.rooms
    requires q in MemberLeave(s, pid, h).state.registry.entries
    ensures BindingOk(MemberLeave(s, pid, h).state, q)
  {
    var r := MemberLeave(s, pid, h).state;
    assert q in s.registry.entries && BindingOk(s, q);
    var g := s.conns[s.registry.entries[q]].roomHandle.value;
    if g == h {
      assert q in s.rooms[h].participants.entries - {pid};
    }
  }

  /** `leaveRoom` keeps the coordinator's invariant. */
  lemma LeaveCoherent(s: State, pid: string)
    requires Coherent(s)
    ensures Coherent(Leave(s, pid).state)
  {
    match BoundRoom(s, pid)
    case None =>
    case Some(h) =>
      if s.rooms[h].createdBy == Some(pid) {
        CreatorLeaveCoherent(s, pid, h);
      } else {
        MemberLeaveCoherent(s, pid, h);
      }
  }

  /**
   * `joinRoom` keeps the invariant when the room handle is non-empty and the connection is not
   * already bound under a different participant id.
   */
  lemma JoinCoherent(s: State, c: ConnId, handle: string, pid: string, name: Option<string>, isCreator: bool, now: int)
    requires Coherent(s) && c in s.conns && handle != "" && ConnFreeFor(s, c, pid)
    ensures Coherent(Join(s, c, handle, pid, name, isCreator, now).state)
  {
    var joiner := Joiner(s, handle, pid, name, now);
    var r := Admit(s, c, handle, joiner, isCreator, now);
    AdmitRooms(s, c, handle, joiner, isCreator, now);
    forall q | q in r.registry.entries
      ensures BindingOk(r, q)
    {
      AdmitBinding(s, c, handle, joiner, isCreator, now, q);
    }
  }

  lemma AdmitRooms(s: State, c: ConnId, handle: string, joiner: Participant, isCreator: bool, now: int)
    requires Coherent(s) && c in s.conns
    ensures forall g | g in Admit(s, c, handle, joiner, isCreator, now).rooms ::
      && WellFormedRoom(Admit(s, c, handle, joiner, isCreator, now).rooms[g])
      && |Admit(s, c, handle, joiner, isCreator, now).rooms[g].participants.entries| > 0
  {
  }

  lemma AdmitBinding(s: State, c: ConnId, handle: string, joiner: Participant, isCreator: bool, now: int, q: string)
    requires Coherent(s) && c in s.conns && handle != "" && ConnFreeFor(s, c, joiner.id)
    requires q in Admit(s, c, handle, joiner, isCreator, now).registry.entries
    ensures BindingOk(Admit(s, c, handle, joiner, isCreator, now), q)
  {
    if q == joiner.id {
      AdmitBindsJoiner(s, c, handle, joiner, isCreator, now);
    } else {
      assert BindingOk(s, q) && s.registry.entries[q] != c;
      AdmitKeepsBinding(s, c, handle, joiner, isCreator, now, q);
    }
  }

  lemma AdmitBindsJoiner(s: State, c: ConnId, handle: string, joiner: Participant, isCreator: bool, now: int)
    requires c in s.conns && handle != ""
    ensures joiner.id in Admit(s, c, handle, joiner, isCreator, now).registry.entries
    ensures BindingOk(Admit(s, c, handle, joiner, isCreator, now), joiner.id)
  {
    var r := Admit(s, c, handle, joiner, isCreator, now);
    assert r.registry.entries[joiner.id] == c && r.conns[c].roomHandle == Some(handle);
    assert joiner.id in r.rooms[handle].participants.entries;
  }

  lemma AdmitKeepsBinding(s: State, c: ConnId, handle: string, joiner: Participant, isCreator: bool, now: int, q: string)
    requires c in s.conns && q != joiner.id
    requires q in s.registry.entries && BindingOk(s, q) && s.registry.entries[q] != c
    ensures q in Admit(s, c, handle, joiner, isCreator, now).registry.entries
    ensures BindingOk(Admit(s, c, handle, joiner, isCreator, now), q)
  {
    var r := Admit(s, c, handle, joiner, isCreator, now);
    var c' := s.registry.entries[q];
    var g := s.conns[c'].roomHandle.value;
    assert r.registry.entries[q] == c' && r.conns[c'] == s.conns[c'];
    if g == handle {
      assert r.rooms[g] == AdmitRoom(s, handle, joiner, isCreator, now);
    } else {
      assert r.rooms[g] == s.rooms[g];
    }
  }

  /** Changing a connection's `readyState` or liveness flag keeps the invariant. */
  lemma ConnFlagsCoherent(s: State, c: ConnId, open: bool, alive: bool)
    requires Coherent(s) && c in s.conns
    ensures Coherent(s.(conns := s.conns[c := s.conns[c].(open := open, isAlive := alive)]))
  {
    var r := s.(conns := s.conns[c := s.conns[c].(open := open, isAlive := alive)]);
    forall q | q in r.registry.entries
      ensures BindingOk(r, q)
    {
      FlagsKeepBinding(s, c, open, alive, q);
    }
  }

  /** Changing a connection's flags leaves every binding's route intact. */
  lemma FlagsKeepBinding(s: State, c: ConnId, open: bool, alive: bool, q: string)
    requires c in s.conns && q in s.registry.entries && BindingOk(s, q)
    ensures BindingOk(s.(conns := s.conns[c := s.conns[c].(open := open, isAlive := alive)]), q)
  {
    var r := s.(conns := s.conns[c := s.conns[c].(open := open, isAlive := alive)]);
    var d := s.registry.entries[q];
    assert d in r.conns && r.conns[d].roomHandle == s.conns[d].roomHandle;
  }

  /** One visit of the sweep keeps the invariant. */
  lemma SweepOneCoherent(s: State, pid: string)
    requires Coherent(s)
    ensures Coherent(SweepOne(s, pid).state)
  {
    if pid in s.registry.entries {
      var c := s.registry.entries[pid];
      if !(c in s.conns && s.conns[c].isAlive && s.conns[c].open) {
        LeaveCoherent(s, pid);
      } else {
        ConnFlagsCoherent(s, c, s.conns[c].open, false);
        assert s.conns[c].(open := s.conns[c].open, isAlive := false) == s.conns[c].(isAlive := false);
      }
    }
  }

  lemma {:induction false} SweepKeysCoherent(s: State, ks: seq<string>)
    requires Coherent(s)
    ensures Coherent(SweepKeys(s, ks).state)
    decreases |ks|
  {
    if ks != [] {
      SweepOneCoherent(s, ks[0]);
      SweepKeysCoherent(SweepOne(s, ks[0]).state, ks[1..]);
    }
  }

  /** `cleanup()` keeps the coordinator's invariant. */
  lemma CleanupCoherent(s: State)
    requires Coherent(s)
    ensures Coherent(Cleanup(s).state)
  {
    SweepKeysCoherent(s, s.registry.keys);
  }

  /** Every binding's connection is closed or was not seen alive since the last ping. */
  ghost predicate AllStale(s: State) {
    forall k | k in s.registry.entries :: !LiveBinding(s, k)
  }

  /** One visit of a sweep over stale bindings removes the visited binding and keeps the rest stale. */
  lemma StaleStep(s: State, k: string)
    requires Coherent(s) && AllStale(s)
    ensures Coherent(SweepOne(s, k).state) && AllStale(SweepOne(s, k).state)
    ensures k !in SweepOne(s, k).state.registry.entries
  {
    var first := SweepOne(s, k);
    SweepOneCoherent(s, k);
    if k in s.registry.entries {
      assert !LiveBinding(s, k);
      BoundRoomOfBound(s, k);
      assert first == Leave(s, k);
    }
    forall q | q in first.state.registry.entries
      ensures !LiveBinding(first.state, q)
    {
      assert !LiveBinding(s, q);
    }
  }

  /** A sweep over stale bindings removes every binding it visits. */
  lemma {:induction false} StaleSweepReaps(s: State, ks: seq<string>)
    requires Coherent(s) && AllStale(s)
    ensures Coherent(SweepKeys(s, ks).state) && AllStale(SweepKeys(s, ks).state)
    ensures forall k | k in ks :: k !in SweepKeys(s, ks).state.registry.entries
    decreases |ks|
  {
    if ks != [] {
      var first := SweepOne(s, ks[0]).state;
      StaleStep(s, ks[0]);
      StaleSweepReaps(first, ks[1..]);
      var last := SweepKeys(s, ks).state;
      assert last == SweepKeys(first, ks[1..]).state;
      forall k | k in ks
        ensures k !in last.registry.entries
      {
        if k != ks[0] {
          assert k in ks[1..];
        }
      }
    }
  }

  /**
   * The liveness reaper: starting from a coherent state, two consecutive `cleanup()` sweeps with
   * no pong in between leave no participant bound.
   */
  lemma TwoSweepsReapAll(s: State)
    requires Coherent(s)
    ensures Cleanup(Cleanup(s).state).state.registry.entries == map[]
  {
    var s1 := Cleanup(s).state;
    FirstSweepLeavesStale(s);
    var s2 := Cleanup(s1).state;
    StaleSweepReaps(s1, s1.registry.keys);
    SweptKeysEmpty(s1.registry, s2.registry.entries);
  }

  /** After one sweep of a coherent state the invariant holds and no binding is live. */
  lemma FirstSweepLeavesStale(s: State)
    requires Coherent(s)
    ensures Coherent(Cleanup(s).state) && AllStale(Cleanup(s).state)
  {
    CleanupCoherent(s);
  }

  /** A sub-map of a registry that lacks every listed key is empty. */
  lemma SweptKeysEmpty(reg: OrdMap<string, ConnId>, after: map<string, ConnId>)
    requires Valid(reg) && SubBinding(after, reg.entries)
    requires forall k | k in reg.keys :: k !in after
    ensures after == map[]
  {
  }

  /** The members of a well-formed room carry pairwise distinct ids. */
  lemma MemberIdsDistinct(room: Room)
    requires WellFormedRoom(room)
    ensures DistinctIds(Members(room))
  {
  }

  /** No two entries of a participant list carry the same id. */
  ghost predicate DistinctIds(ps: seq<Participant>) {
    forall a, b | 0 <= a < b < |ps| :: ps[a].id != ps[b].id
  }

  /** Dropping the first participant keeps the ids distinct, and the first id occurs nowhere else. */
  lemma DistinctIdsTail(ps: seq<Participant>, i: nat)
    requires DistinctIds(ps) && 0 < i < |ps|
    ensures DistinctIds(ps[1..]) && ps[1..][i - 1] == ps[i] && ps[0].id != ps[i].id
  {
  }

  /** Two different participants bound to open connections are bound to different ones. */
  lemma OpenConnsDiffer(s: State, a: string, b: string)
    requires Injective(s.registry.entries) && a != b
    requires OpenConnOf(s, a).Some? && OpenConnOf(s, b).Some?
    ensures OpenConnOf(s, a).value != OpenConnOf(s, b).value
  {
  }

  /** With distinct ids and no shared connections, the first participant's connection is reached by nobody after it. */
  lemma HeadNotReachedByTail(s: State, ps: seq<Participant>, exclude: Option<string>)
    requires DistinctIds(ps)
    requires Injective(s.registry.entries)
    requires |ps| > 0 && OpenConnOf(s, ps[0].id).Some?
    ensures !Reaches(s, ps[1..], exclude, OpenConnOf(s, ps[0].id).value)
  {
    var tail := ps[1..];
    forall q | q in tail && OpenConnOf(s, q.id).Some?
      ensures OpenConnOf(s, q.id).value != OpenConnOf(s, ps[0].id).value
    {
      var j :| 0 <= j < |tail| && tail[j] == q;
      assert ps[j + 1] == q;
      OpenConnsDiffer(s, q.id, ps[0].id);
    }
  }

  /** The first participant's message does not occur again in the rest of the delivery. */
  lemma HeadSentOnce(s: State, ps: seq<Participant>, msg: Message, exclude: Option<string>)
    requires DistinctIds(ps)
    requires Injective(s.registry.entries)
    requires |ps| > 0 && OpenConnOf(s, ps[0].id).Some?
    ensures multiset(Deliver(s, ps[1..], msg, exclude))[Send(OpenConnOf(s, ps[0].id).value, msg)] == 0
  {
    var c := OpenConnOf(s, ps[0].id).value;
    var rest := Deliver(s, ps[1..], msg, exclude);
    HeadNotReachedByTail(s, ps, exclude);
    assert Send(c, msg) !in rest;
  }

  /** How often an effect occurs in a delivery: once for the first participant if it is sent to, plus the rest. */
  lemma DeliverCount(s: State, ps: seq<Participant>, msg: Message, exclude: Option<string>, e: Effect)
    requires |ps| > 0
    ensures multiset(Deliver(s, ps, msg, exclude))[e] ==
      (if Some(ps[0].id) != exclude && OpenConnOf(s, ps[0].id).Some? && e == Send(OpenConnOf(s, ps[0].id).value, msg) then 1 else 0)
      + multiset(Deliver(s, ps[1..], msg, exclude))[e]
  {
    var head := if Some(ps[0].id) != exclude && OpenConnOf(s, ps[0].id).Some? then [Send(OpenConnOf(s, ps[0].id).value, msg)] else [];
    assert Deliver(s, ps, msg, exclude) == head + Deliver(s, ps[1..], msg, exclude);
  }

  /**
   * With distinct ids and no shared connections, the `forEach` of `broadcastToRoom` sends the
   * message to an eligible participant's connection exactly once.
   */
  lemma {:induction false} DeliverOnce(s: State, ps: seq<Participant>, msg: Message, exclude: Option<string>, i: nat)
    requires DistinctIds(ps)
    requires Injective(s.registry.entries)
    requires i < |ps| && Some(ps[i].id) != exclude && OpenConnOf(s, ps[i].id).Some?
    ensures multiset(Deliver(s, ps, msg, exclude))[Send(OpenConnOf(s, ps[i].id).value, msg)] == 1
    decreases |ps|
  {
    var c := OpenConnOf(s, ps[i].id).value;
    DeliverCount(s, ps, msg, exclude, Send(c, msg));
    if i == 0 {
      HeadSentOnce(s, ps, msg, exclude);
    } else {
      DistinctIdsTail(ps, i);
      DeliverOnce(s, ps[1..], msg, exclude, i - 1);
      if OpenConnOf(s, ps[0].id).Some? {
        OpenConnsDiffer(s, ps[0].id, ps[i].id);
      }
    }
  }

  /**
   * `broadcastToRoom` on a well-formed room in which no two participants share a connection:
   * each participant other than the excluded one whose connection is open gets the message once.
   */
  lemma BroadcastOnce(s: State, handle: string, msg: Message, exclude: Option<string>, p: Participant)
    requires handle in s.rooms && WellFormedRoom(s.rooms[handle]) && Injective(s.registry.entries)
    requires p in Members(s.rooms[handle]) && Some(p.id) != exclude && OpenConnOf(s, p.id).Some?
    ensures multiset(Broadcast(s, handle, msg, exclude))[Send(OpenConnOf(s, p.id).value, msg)] == 1
  {
    var ms := Members(s.rooms[handle]);
    MemberIdsDistinct(s.rooms[handle]);
    var i :| 0 <= i < |ms| && ms[i] == p;
    DeliverOnce(s, ms, msg, exclude, i);
  }

  /** Dropping one binding keeps the registry free of shared connections. */
  lemma InjectiveWithout(m: map<string, ConnId>, k: string)
    requires Injective(m)
    ensures Injective(m - {k})
  {
  }

  /** How often an effect occurs in a termination loop: once for the first participant if it is sent to, plus the rest. */
  lemma TerminateLoopCount(s: State, ps: seq<Participant>, msg: Message, e: Effect)
    requires |ps| > 0
    ensures multiset(TerminateLoop(s, ps, msg).out)[e] ==
      (if OpenConnOf(s, ps[0].id).Some? && e == Send(OpenConnOf(s, ps[0].id).value, msg) then 1 else 0)
      + multiset(TerminateLoop(s.(registry := Remove(s.registry, ps[0].id)), ps[1..], msg).out)[e]
  {
    var head := if OpenConnOf(s, ps[0].id).Some? then [Send(OpenConnOf(s, ps[0].id).value, msg)] else [];
    assert TerminateLoop(s, ps, msg).out == head + TerminateLoop(s.(registry := Remove(s.registry, ps[0].id)), ps[1..], msg).out;
  }

  /** The first participant's notice does not occur again in the rest of the termination loop. */
  lemma TerminateHeadSentOnce(s: State, ps: seq<Participant>, msg: Message)
    requires DistinctIds(ps) && Injective(s.registry.entries)
    requires |ps| > 0 && OpenConnOf(s, ps[0].id).Some?
    ensures multiset(TerminateLoop(s.(registry := Remove(s.registry, ps[0].id)), ps[1..], msg).out)[Send(OpenConnOf(s, ps[0].id).value, msg)] == 0
  {
    var c := OpenConnOf(s, ps[0].id).value;
    var s1 := s.(registry := Remove(s.registry, ps[0].id));
    var rest := TerminateLoop(s1, ps[1..], msg).out;
    TerminateLoopStep(s, ps);
    HeadNotReachedByTail(s, ps, None);
    forall i | 0 <= i < |rest|
      ensures rest[i] != Send(c, msg)
    {
      assert Reaches(s, ps, None, rest[i].to);
      var q :| q in ps[1..] && OpenConnOf(s1, q.id) == Some(rest[i].to);
    }
    assert Send(c, msg) !in rest;
  }

  /**
   * With distinct ids and no shared connections, the `forEach` of `terminateRoom` sends the
   * notice to each visited participant's open connection exactly once.
   */
  lemma {:induction false} TerminateLoopOnce(s: State, ps: seq<Participant>, msg: Message, i: nat)
    requires DistinctIds(ps) && Injective(s.registry.entries)
    requires i < |ps| && OpenConnOf(s, ps[i].id).Some?
    ensures multiset(TerminateLoop(s, ps, msg).out)[Send(OpenConnOf(s, ps[i].id).value, msg)] == 1
    decreases |ps|
  {
    var c := OpenConnOf(s, ps[i].id).value;
    TerminateLoopCount(s, ps, msg, Send(c, msg));
    if i == 0 {
      TerminateHeadSentOnce(s, ps, msg);
    } else {
      var s1 := s.(registry := Remove(s.registry, ps[0].id));
      DistinctIdsTail(ps, i);
      TerminateLoopStep(s, ps);
      InjectiveWithout(s.registry.entries, ps[0].id);
      assert OpenConnOf(s1, ps[i].id) == OpenConnOf(s, ps[i].id);
      TerminateLoopOnce(s1, ps[1..], msg, i - 1);
      if OpenConnOf(s, ps[0].id).Some? {
        OpenConnsDiffer(s, ps[0].id, ps[i].id);
      }
    }
  }

  /**
   * `terminateRoom` on a well-formed room in which no two participants share a connection: each
   * member whose connection is open gets exactly one `room-terminated` notice.
   */
  lemma TerminateOnce(s: State, handle: string, reason: TerminationReason, p: Participant)
    requires handle in s.rooms && WellFormedRoom(s.rooms[handle]) && Injective(s.registry.entries)
    requires p in Members(s.rooms[handle]) && OpenConnOf(s, p.id).Some?
    ensures multiset(Terminate(s, handle, reason).out)[Send(OpenConnOf(s, p.id).value, RoomTerminated("system", handle, reason))] == 1
  {
    var ms := Members(s.rooms[handle]);
    MemberIdsDistinct(s.rooms[handle]);
    var i :| 0 <= i < |ms| && ms[i] == p;
    TerminateLoopOnce(s, ms, RoomTerminated("system", handle, reason), i);
  }

  /** A member left in a well-formed room after `pid`'s removal is somebody else. */
  lemma RemainingMemberIsOther(room: Room, pid: string, p: Participant)
    requires WellFormedRoom(room) && p in Members(RemoveMember(room, pid))
    ensures p.id != pid
  {
    var rest := RemoveMember(room, pid);
    ListedIffMember(rest, p.id);
    assert p.id in IdsOf(Members(rest));
  }

  /**
   * A creator's departure, in a well-formed room without shared connections: each remaining
   * member whose connection is open gets exactly one `room-terminated` notice.
   */
  lemma CreatorLeaveNoticesOnce(s: State, pid: string, handle: string, p: Participant)
    requires handle in s.rooms && WellFormedRoom(s.rooms[handle]) && Injective(s.registry.entries)
    requires p in Members(RemoveMember(s.rooms[handle], pid)) && OpenConnOf(s, p.id).Some?
    ensures multiset(CreatorLeaveNotices(s, pid, handle))[Send(OpenConnOf(s, p.id).value, RoomTerminated("system", handle, CreatorLeft))] == 1
  {
    var s1 := Unbind(s, pid, handle);
    RemainingMemberIsOther(s.rooms[handle], pid, p);
    InjectiveWithout(s.registry.entries, pid);
    assert OpenConnOf(s1, p.id) == OpenConnOf(s, p.id);
    TerminateOnce(s1, handle, CreatorLeft, p);
  }

  /**
   * A member's departure, in a well-formed room without shared connections: each remaining
   * member whose connection is open gets exactly one `participant-left`.
   */
  lemma LeaveNoticesOnce(s: State, pid: string, handle: string, p: Participant)
    requires handle in s.rooms && WellFormedRoom(s.rooms[handle]) && Injective(s.registry.entries)
    requires p in Members(RemoveMember(s.rooms[handle], pid)) && OpenConnOf(s, p.id).Some?
    ensures multiset(LeaveNotices(s, pid, handle))[Send(OpenConnOf(s, p.id).value, ParticipantLeft(pid, handle))] == 1
  {
    var s1 := Unbind(s, pid, handle);
    RemainingMemberIsOther(s.rooms[handle], pid, p);
    InjectiveWithout(s.registry.entries, pid);
    assert OpenConnOf(s1, p.id) == OpenConnOf(s, p.id);
    BroadcastOnce(s1, handle, ParticipantLeft(pid, handle), None, p);
  }
}
