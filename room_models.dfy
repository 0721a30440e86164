/**
 * The immutable records the room store hands out, with the factory functions that
 * build join and leave results. Java's null fields are `None`.
 */
module RoomModels {
  import opened Options

  /** A member of a room as the other members see it. */
  datatype Participant = Participant(userId: string, displayName: string, muted: bool)

  /** Binds one transport session to one room and one participant. */
  datatype ParticipantSession = ParticipantSession(roomId: string, sessionId: string, participant: Participant)

  /** A room's members in join order. */
  datatype RoomSnapshot = RoomSnapshot(roomId: string, participants: seq<Participant>)

  datatype JoinResult = JoinResult(
    accepted: bool,
    errorCode: Option<string>,
    errorMessage: Option<string>,
    snapshot: Option<RoomSnapshot>,
    self: Option<ParticipantSession>)

  datatype LeaveResult = LeaveResult(left: bool, roomId: Option<string>, participant: Option<Participant>)

  function Rejected(code: string, message: string): (r: JoinResult)
    ensures !r.accepted && r.errorCode == Some(code) && r.errorMessage == Some(message)
    ensures r.snapshot.None? && r.self.None?
  {
    JoinResult(false, Some(code), Some(message), None, None)
  }

  function Accepted(snapshot: RoomSnapshot, self: ParticipantSession): (r: JoinResult)
    ensures r.accepted && r.errorCode.None? && r.errorMessage.None?
    ensures r.snapshot == Some(snapshot) && r.self == Some(self)
  {
    JoinResult(true, None, None, Some(snapshot), Some(self))
  }

  function Noop(): (r: LeaveResult)
    ensures !r.left && r.roomId.None? && r.participant.None?
  {
    LeaveResult(false, None, None)
  }

  function Left(roomId: string, participant: Participant): (r: LeaveResult)
    ensures r.left && r.roomId == Some(roomId) && r.participant == Some(participant)
  {
    LeaveResult(true, Some(roomId), Some(participant))
  }

  /** The shape every join result of the store has: a rejection carries a code and a
      message and nothing else, an acceptance a snapshot and the new session and nothing else. */
  predicate WellFormedJoin(r: JoinResult) {
    if r.accepted then r.errorCode.None? && r.errorMessage.None? && r.snapshot.Some? && r.self.Some?
    else r.errorCode.Some? && r.errorMessage.Some? && r.snapshot.None? && r.self.None?
  }

  predicate WellFormedLeave(r: LeaveResult) {
    if r.left then r.roomId.Some? && r.participant.Some? else r.roomId.None? && r.participant.None?
  }

  /** The two factories build exactly the well-formed join results, and `accepted` tells
      which factory built one. */
  lemma JoinResultsAreFactoryBuilt(r: JoinResult)
    ensures WellFormedJoin(r) <==>
      (!r.accepted && r == Rejected(r.errorCode.GetOr(""), r.errorMessage.GetOr("")))
      || (r.accepted && r.snapshot.Some? && r.self.Some? && r == Accepted(r.snapshot.value, r.self.value))
  {
  }

  /** The two leave factories build exactly the well-formed leave results. */
  lemma LeaveResultsAreFactoryBuilt(r: LeaveResult)
    ensures WellFormedLeave(r) <==>
      r == Noop() || (r.roomId.Some? && r.participant.Some? && r == Left(r.roomId.value, r.participant.value))
  {
  }

  /** Each factory's arguments can be read back from its result. */
  lemma FactoriesAreInjective(c: string, m: string, c': string, m': string,
                              s: RoomSnapshot, p: ParticipantSession, s': RoomSnapshot, p': ParticipantSession)
    ensures Rejected(c, m) == Rejected(c', m') ==> c == c' && m == m'
    ensures Accepted(s, p) == Accepted(s', p') ==> s == s' && p == p'
    ensures Rejected(c, m) != Accepted(s, p)
  {
  }
}
