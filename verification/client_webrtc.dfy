/**
 * The browser side's bookkeeping (hooks/useWebRTC.ts): the reducer over relay messages, the
 * remote-stream list kept by the peer-connection callbacks, the one-connection-per-peer map,
 * and the media toggles. Browser work (media, SDP, ICE) is reported as actions, not performed.
 */
module ClientWebRtc {
  import opened Wrappers
  import opened Protocol

  /** A remote media stream and the participant it comes from; `stream` is the stream's identity. */
  datatype RemoteStream = RemoteStream(participantId: string, stream: nat)

  /**
   * The hook's state (`WebRTCState`) together with the peer-connection map it keeps in a ref:
   * remote id to connection identity, and the next fresh identity.
   */
  datatype ClientState = ClientState(
    remoteStreams: seq<RemoteStream>,
    participants: seq<Participant>,
    error: Option<string>,
    videoEnabled: bool,
    audioEnabled: bool,
    peers: map<string, nat>,
    nextPeer: nat)

  /** A message as the client reads it: every payload field optional. */
  datatype ClientMessage = ClientMessage(
    kind: string,
    participantId: string,
    participant: Option<Participant>,
    participants: Option<seq<Participant>>,
    offer: Option<string>,
    answer: Option<string>,
    candidate: Option<string>,
    error: Option<string>,
    reason: Option<string>)

  /** Browser and socket work the reducer starts: each names the peer connection it uses. */
  datatype Action =
    | SendOffer(target: string, peer: nat)
    | AnswerOffer(from: string, peer: nat, offer: string)
    | ApplyAnswer(peer: nat, answer: string)
    | AddIceCandidate(peer: nat, candidate: string)
    | ClosePeer(peer: nat)
    | CloseSocket
    | Redirect(url: string)

  /** The peer-connection states reported to `onConnectionStateChange`. */
  datatype PeerState = New | Connecting | Connected | Disconnected | Failed | Closed

  /** The message types the reducer acts on. */
  const HandledKinds: set<string> := {"room-state", "participant-joined", "participant-left", "webrtc-offer",
                                      "webrtc-answer", "webrtc-ice-candidate", "error", "room-terminated"}

  /** The mount-time state: no streams, no participants, both media on. */
  function Initial(): (st: ClientState)
    ensures st.videoEnabled && st.audioEnabled && st.peers == map[] && PeersDistinct(st)
  {
    ClientState([], [], None, true, true, map[], 0)
  }

  /** Distinct remote ids have distinct connections, each older than the next fresh identity. */
  ghost predicate PeersDistinct(st: ClientState) {
    && (forall t | t in st.peers :: st.peers[t] < st.nextPeer)
    && (forall t, u | t in st.peers && u in st.peers && t != u :: st.peers[t] != st.peers[u])
  }

  /** At most one remote stream per participant. */
  predicate OneStreamEach(rs: seq<RemoteStream>) {
    forall i, j | 0 <= i < j < |rs| :: rs[i].participantId != rs[j].participantId
  }

  /** `participants.filter(p => p.id !== id)`. */
  function DropParticipant(ps: seq<Participant>, id: string): (r: seq<Participant>)
    ensures |r| <= |ps|
    ensures forall p | p in r :: p in ps && p.id != id
    ensures forall p | p in ps && p.id != id :: p in r
    ensures (forall p | p in ps :: p.id != id) ==> r == ps
    ensures forall p :: multiset(r)[p] == if p.id == id then 0 else multiset(ps)[p]
  {
    if ps == [] then []
    else
      assert ps == [ps[0]] + ps[1..];
      (if ps[0].id != id then [ps[0]] else []) + DropParticipant(ps[1..], id)
  }

  /** Dropping the head of a concatenation with a non-empty front drops the front's head. */
  lemma TailOfAppend<T>(xs: seq<T>, ys: seq<T>)
    requires xs != []
    ensures (xs + ys)[0] == xs[0] && (xs + ys)[1..] == xs[1..] + ys
  {
  }

  /** Concatenation is associative. */
  lemma AppendAssoc<T>(a: seq<T>, b: seq<T>, c: seq<T>)
    ensures a + (b + c) == (a + b) + c
  {
  }

  /** The filter works element by element, left to right: filtering a concatenation concatenates the filtered parts. */
  lemma {:induction false} DropParticipantAppend(xs: seq<Participant>, ys: seq<Participant>, id: string)
    ensures DropParticipant(xs + ys, id) == DropParticipant(xs, id) + DropParticipant(ys, id)
  {
    if xs == [] {
      assert xs + ys == ys;
    } else {
      var head := if xs[0].id != id then [xs[0]] else [];
      var a, b := DropParticipant(xs[1..], id), DropParticipant(ys, id);
      TailOfAppend(xs, ys);
      DropParticipantAppend(xs[1..], ys, id);
      assert DropParticipant(xs + ys, id) == head + (a + b);
      assert DropParticipant(xs, id) == head + a;
      AppendAssoc(head, a, b);
    }
  }

  /** `remoteStreams.filter(rs => rs.participantId !== id)`, preserving order. */
  function DropStream(rs: seq<RemoteStream>, id: string): (r: seq<RemoteStream>)
    ensures |r| <= |rs|
    ensures forall x | x in r :: x in rs && x.participantId != id
    ensures forall x | x in rs && x.participantId != id :: x in r
    ensures (forall x | x in rs :: x.participantId != id) ==> r == rs
    ensures forall x :: multiset(r)[x] == if x.participantId == id then 0 else multiset(rs)[x]
  {
    if rs == [] then []
    else
      assert rs == [rs[0]] + rs[1..];
      (if rs[0].participantId != id then [rs[0]] else []) + DropStream(rs[1..], id)
  }

  /** The stream filter works element by element, left to right, like the participant filter. */
  lemma {:induction false} DropStreamAppend(xs: seq<RemoteStream>, ys: seq<RemoteStream>, id: string)
    ensures DropStream(xs + ys, id) == DropStream(xs, id) + DropStream(ys, id)
  {
    if xs == [] {
      assert xs + ys == ys;
    } else {
      var head := if xs[0].participantId != id then [xs[0]] else [];
      var a, b := DropStream(xs[1..], id), DropStream(ys, id);
      TailOfAppend(xs, ys);
      DropStreamAppend(xs[1..], ys, id);
      assert DropStream(xs + ys, id) == head + (a + b);
      assert DropStream(xs, id) == head + a;
      AppendAssoc(head, a, b);
    }
  }

  /** The tail of a one-stream-per-participant list is one too, and does not mention the head's participant. */
  lemma TailOneStreamEach(rs: seq<RemoteStream>)
    requires OneStreamEach(rs) && rs != []
    ensures OneStreamEach(rs[1..])
    ensures forall x | x in rs[1..] :: x.participantId != rs[0].participantId
  {
    var tail := rs[1..];
    forall x | x in tail
      ensures x.participantId != rs[0].participantId
    {
      var k :| 0 <= k < |tail| && tail[k] == x;
      assert rs[k + 1] == x;
    }
  }

  /** Putting a stream in front of a list that does not mention its participant keeps one stream each. */
  lemma ConsOneStreamEach(x: RemoteStream, t: seq<RemoteStream>)
    requires OneStreamEach(t) && forall y | y in t :: y.participantId != x.participantId
    ensures OneStreamEach([x] + t)
  {
    var r := [x] + t;
    forall i, j | 0 <= i < j < |r|
      ensures r[i].participantId != r[j].participantId
    {
      assert r[j] == t[j - 1];
      if i > 0 {
        assert r[i] == t[i - 1];
      }
    }
  }

  /** Filtering keeps a one-stream-per-participant list so. */
  lemma {:induction false} DropStreamKeepsOneEach(rs: seq<RemoteStream>, id: string)
    requires OneStreamEach(rs)
    ensures OneStreamEach(DropStream(rs, id))
  {
    if rs != [] {
      var rest := DropStream(rs[1..], id);
      TailOneStreamEach(rs);
      DropStreamKeepsOneEach(rs[1..], id);
      if rs[0].participantId != id {
        ConsOneStreamEach(rs[0], rest);
      } else {
        assert DropStream(rs, id) == [] + rest;
      }
    }
  }

  /**
   * `onTrack(participantId, stream)`: the participant's earlier streams are dropped and the new
   * one appended, so the list keeps at most one stream per participant.
   */
  function OnTrack(st: ClientState, pid: string, stream: nat): (r: ClientState)
    ensures r == st.(remoteStreams := r.remoteStreams)
    ensures |r.remoteStreams| >= 1 && r.remoteStreams[|r.remoteStreams| - 1] == RemoteStream(pid, stream)
    ensures forall x | x in r.remoteStreams && x.participantId == pid :: x == RemoteStream(pid, stream)
    ensures forall x | x in st.remoteStreams && x.participantId != pid :: x in r.remoteStreams
    ensures forall x | x in r.remoteStreams :: x in st.remoteStreams || x == RemoteStream(pid, stream)
    ensures OneStreamEach(st.remoteStreams) ==> OneStreamEach(r.remoteStreams)
  {
    var kept := DropStream(st.remoteStreams, pid);
    var rs := kept + [RemoteStream(pid, stream)];
    assert OneStreamEach(st.remoteStreams) ==> OneStreamEach(rs) by {
      if OneStreamEach(st.remoteStreams) {
        DropStreamKeepsOneEach(st.remoteStreams, pid);
        SnocOneStreamEach(kept, RemoteStream(pid, stream));
      }
    }
    st.(remoteStreams := rs)
  }

  /** Appending a stream to a list that does not mention its participant keeps one stream each. */
  lemma SnocOneStreamEach(t: seq<RemoteStream>, x: RemoteStream)
    requires OneStreamEach(t) && forall y | y in t :: y.participantId != x.participantId
    ensures OneStreamEach(t + [x])
  {
    var rs := t + [x];
    forall i, j | 0 <= i < j < |rs|
      ensures rs[i].participantId != rs[j].participantId
    {
      assert rs[i] == t[i];
      if j == |rs| - 1 {
        assert rs[i] in t;
      } else {
        assert rs[j] == t[j];
      }
    }
  }

  /** `onConnectionStateChange(participantId, state)`: only `failed` and `disconnected` drop the stream. */
  function OnConnectionStateChange(st: ClientState, pid: string, state: PeerState): (r: ClientState)
    ensures state != Failed && state != Disconnected ==> r == st
    ensures r == st.(remoteStreams := r.remoteStreams)
    ensures state == Failed || state == Disconnected ==>
      && (forall x :: x in r.remoteStreams <==> x in st.remoteStreams && x.participantId != pid)
      && r.remoteStreams == DropStream(st.remoteStreams, pid)
    ensures OneStreamEach(st.remoteStreams) ==> OneStreamEach(r.remoteStreams)
  {
    if state == Failed || state == Disconnected then
      assert OneStreamEach(st.remoteStreams) ==> OneStreamEach(DropStream(st.remoteStreams, pid)) by {
        if OneStreamEach(st.remoteStreams) { DropStreamKeepsOneEach(st.remoteStreams, pid); }
      }
      st.(remoteStreams := DropStream(st.remoteStreams, pid))
    else st
  }

  /**
   * `createPeerConnection(target)`: the existing connection when there is one, otherwise a
   * fresh one recorded under the target.
   */
  function EnsurePeer(st: ClientState, target: string): (r: (ClientState, nat))
    ensures target in r.0.peers && r.0.peers[target] == r.1
    ensures target in st.peers ==> r == (st, st.peers[target])
    ensures target !in st.peers ==>
      && r.0 == st.(peers := st.peers[target := st.nextPeer], nextPeer := st.nextPeer + 1)
      && r.1 == st.nextPeer
    ensures PeersDistinct(st) ==> PeersDistinct(r.0)
  {
    if target in st.peers then (st, st.peers[target])
    else
      var id := st.nextPeer;
      (st.(peers := st.peers[target := id], nextPeer := id + 1), id)
  }

  /** Asking twice for the same target's connection gives the same connection and no new state. */
  lemma EnsurePeerIdempotent(st: ClientState, target: string)
    ensures EnsurePeer(EnsurePeer(st, target).0, target) == EnsurePeer(st, target)
  {
  }

  /**
   * `handleWebSocketMessage(message)`: update the state and start the browser work the message
   * calls for; unknown types change nothing.
   */
  function HandleMessage(st: ClientState, msg: ClientMessage, socketOpen: bool): (r: (ClientState, seq<Action>))
    // room-state replaces the list wholesale
    ensures msg.kind == "room-state" ==>
      r == (st.(participants := if msg.participants.Some? then msg.participants.value else []), [])
    // participant-joined appends once (no dedup) and offers to it
    ensures msg.kind == "participant-joined" && msg.participant.None? ==> r == (st, [])
    ensures msg.kind == "participant-joined" && msg.participant.Some? ==>
      && r.0.participants == st.participants + [msg.participant.value]
      && r.0 == EnsurePeer(st.(participants := st.participants + [msg.participant.value]), msg.participant.value.id).0
      && r.1 == [SendOffer(msg.participant.value.id, EnsurePeer(st, msg.participant.value.id).1)]
    // participant-left drops everything of that participant and keeps everything of the others
    ensures msg.kind == "participant-left" ==>
      && (forall p | p in r.0.participants :: p.id != msg.participantId)
      && (forall x | x in r.0.remoteStreams :: x.participantId != msg.participantId)
      && (forall p | p in st.participants && p.id != msg.participantId :: p in r.0.participants)
      && (forall x | x in st.remoteStreams && x.participantId != msg.participantId :: x in r.0.remoteStreams)
      && msg.participantId !in r.0.peers
      && r.0.peers == st.peers - {msg.participantId}
      && r.0 == st.(participants := DropParticipant(st.participants, msg.participantId),
                    remoteStreams := DropStream(st.remoteStreams, msg.participantId),
                    peers := st.peers - {msg.participantId})
      && r.1 == (if msg.participantId in st.peers then [ClosePeer(st.peers[msg.participantId])] else [])
    // an offer always gets a connection; an answer or candidate needs one already
    ensures msg.kind == "webrtc-offer" && msg.offer.None? ==> r == (st, [])
    ensures msg.kind == "webrtc-offer" && msg.offer.Some? ==>
      r == (EnsurePeer(st, msg.participantId).0, [AnswerOffer(msg.participantId, EnsurePeer(st, msg.participantId).1, msg.offer.value)])
    ensures msg.kind == "webrtc-answer" ==>
      r.0 == st && (r.1 != [] <==> msg.answer.Some? && msg.participantId in st.peers)
    ensures msg.kind == "webrtc-answer" && msg.answer.Some? && msg.participantId in st.peers ==>
      r.1 == [ApplyAnswer(st.peers[msg.participantId], msg.answer.value)]
    ensures msg.kind == "webrtc-ice-candidate" ==>
      r.0 == st && (r.1 != [] <==> msg.candidate.Some? && msg.participantId in st.peers)
    ensures msg.kind == "webrtc-ice-candidate" && msg.candidate.Some? && msg.participantId in st.peers ==>
      r.1 == [AddIceCandidate(st.peers[msg.participantId], msg.candidate.value)]
    // errors and termination
    ensures msg.kind == "error" ==>
      r == (st.(error := Some(if msg.error.Some? then msg.error.value else "Unknown server error")), [])
    ensures msg.kind == "room-terminated" ==>
      && r.0 == st.(error := Some("Room has been terminated"))
      && r.1 == (if socketOpen then [CloseSocket] else [])
              + [Redirect("/room-terminated?reason=" + (if msg.reason.Some? then msg.reason.value else "unknown"))]
    ensures msg.kind !in HandledKinds ==> r == (st, [])
    // the media flags are the toggles' alone
    ensures r.0.videoEnabled == st.videoEnabled && r.0.audioEnabled == st.audioEnabled
    ensures PeersDistinct(st) ==> PeersDistinct(r.0)
  {
    if msg.kind == "room-state" then
      (st.(participants := msg.participants.GetOr([])), [])
    else if msg.kind == "participant-joined" then
      match msg.participant
      case None => (st, [])
      case Some(p) =>
        var st1 := st.(participants := st.participants + [p]);
        var (st2, peer) := EnsurePeer(st1, p.id);
        (st2, [SendOffer(p.id, peer)])
    else if msg.kind == "participant-left" then
      var id := msg.participantId;
      var st1 := st.(participants := DropParticipant(st.participants, id), remoteStreams := DropStream(st.remoteStreams, id));
      if id in st.peers then (st1.(peers := st.peers - {id}), [ClosePeer(st.peers[id])])
      else (st1.(peers := st.peers - {id}), [])
    else if msg.kind == "webrtc-offer" then
      match msg.offer
      case None => (st, [])
      case Some(o) =>
        var (st1, peer) := EnsurePeer(st, msg.participantId);
        (st1, [AnswerOffer(msg.participantId, peer, o)])
    else if msg.kind == "webrtc-answer" then
      if msg.answer.Some? && msg.participantId in st.peers then
        (st, [ApplyAnswer(st.peers[msg.participantId], msg.answer.value)])
      else (st, [])
    else if msg.kind == "webrtc-ice-candidate" then
      if msg.candidate.Some? && msg.participantId in st.peers then
        (st, [AddIceCandidate(st.peers[msg.participantId], msg.candidate.value)])
      else (st, [])
    else if msg.kind == "error" then
      (st.(error := Some(msg.error.GetOr("Unknown server error"))), [])
    else if msg.kind == "room-terminated" then
      (st.(error := Some("Room has been terminated")),
       (if socketOpen then [CloseSocket] else []) + [Redirect("/room-terminated?reason=" + msg.reason.GetOr("unknown"))])
    else (st, [])
  }

  /** `toggleVideo()`: flip the video flag and nothing else; flipping twice restores it. */
  function ToggleVideo(st: ClientState): (r: ClientState)
    ensures r.videoEnabled == !st.videoEnabled
    ensures r.(videoEnabled := st.videoEnabled) == st
  {
    st.(videoEnabled := !st.videoEnabled)
  }

  /** `toggleAudio()`: flip the audio flag and nothing else; flipping twice restores it. */
  function ToggleAudio(st: ClientState): (r: ClientState)
    ensures r.audioEnabled == !st.audioEnabled
    ensures r.(audioEnabled := st.audioEnabled) == st
  {
    st.(audioEnabled := !st.audioEnabled)
  }

  /**
   * The stream callbacks and the reducer keep at most one remote stream per participant, and
   * at most one peer connection per remote participant.
   */
  ghost predicate ClientInvariant(st: ClientState) {
    OneStreamEach(st.remoteStreams) && PeersDistinct(st)
  }

  lemma HandleMessageKeepsInvariant(st: ClientState, msg: ClientMessage, socketOpen: bool)
    requires ClientInvariant(st)
    ensures ClientInvariant(HandleMessage(st, msg, socketOpen).0)
  {
    if msg.kind == "participant-left" {
      DropStreamKeepsOneEach(st.remoteStreams, msg.participantId);
    }
  }
}
