/** The relay's wire vocabulary (types/websocket.ts): participants and the tagged message union. */
module Protocol {
  import opened Wrappers

  /** A participant as the relay stores and announces it. */
  datatype Participant = Participant(id: string, name: string, roomHandle: string, joinedAt: int)

  /** Why a room was torn down for everybody. */
  datatype TerminationReason = CreatorLeft | RoomClosed

  /**
   * One decoded message. Every message carries the envelope fields `participantId` and
   * `roomHandle`; an envelope field missing from the JSON is represented by "" (every check
   * the relay makes on them is a falsiness check, for which the two agree). `Unrecognized`
   * stands for a decoded JSON value whose `type` is none of the known ones: an object with another
   * or no `type`, and also a number, string, boolean or array, which have no `type` at all. The
   * type does not forbid an `Unrecognized` carrying a known kind; decoding never produces one
   * (`WellDecoded`), and the relay would answer it as an unknown type.
   */
  datatype Message =
    | JoinRoom(participantId: string, roomHandle: string, name: Option<string>, isCreator: Option<bool>)
    | LeaveRoom(participantId: string, roomHandle: string)
    | ParticipantJoined(participantId: string, roomHandle: string, participant: Participant)
    | ParticipantLeft(participantId: string, roomHandle: string)
    | RoomState(participantId: string, roomHandle: string, participants: seq<Participant>)
    | RoomTerminated(participantId: string, roomHandle: string, reason: TerminationReason)
    | Offer(participantId: string, roomHandle: string, targetParticipantId: string, offer: string)
    | Answer(participantId: string, roomHandle: string, targetParticipantId: string, answer: string)
    | IceCandidate(participantId: string, roomHandle: string, targetParticipantId: string, candidate: string)
    | Error(participantId: string, roomHandle: string, error: string, details: Option<string>)
    | Unrecognized(kind: string, participantId: string, roomHandle: string)

  /** The `type` strings of the message union (types/websocket.ts). */
  const KnownKinds: set<string> := {"join-room", "leave-room", "participant-joined", "participant-left", "room-state",
                                    "room-terminated", "webrtc-offer", "webrtc-answer", "webrtc-ice-candidate", "error"}

  /** What decoding guarantees: a message with a known `type` is never left `Unrecognized`. */
  predicate WellDecoded(m: Message) {
    m.Unrecognized? ==> m.kind !in KnownKinds
  }

  /** `webrtc-offer`, `webrtc-answer` and `webrtc-ice-candidate`: the messages the relay forwards. */
  predicate IsSignaling(m: Message) {
    m.Offer? || m.Answer? || m.IceCandidate?
  }
}
