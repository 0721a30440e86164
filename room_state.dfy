/**
 * The room store as a value: the two maps the store keeps in step, and what `join`,
 * `leaveBySession`, `getSnapshot` and `findBySession` make of them. The class in
 * RoomStore runs the same steps in place and is proved equal to these functions;
 * the invariant is stated here and proved, once, in RoomStateLeave and RoomStateJoin.
 */
module RoomState {
  import opened Options
  import opened Text
  import opened LinkedMaps
  import opened RoomModels

  const MAX_ROOM_CAPACITY: nat := 5

  const INVALID_JOIN := "INVALID_JOIN"
  const INVALID_JOIN_MESSAGE := "Room ID and User ID are required."
  const ROOM_FULL := "ROOM_FULL"
  const ROOM_FULL_MESSAGE := "Room is full (max 5 participants)."
  const ANONYMOUS := "Anonymous"

  /** One room: session id to that session's membership, in join order. */
  type Room = LinkedMap<ParticipantSession>

  /** `roomSessions`: room id to room; `sessionToRoom`: session id to room id. */
  datatype Rooms = Rooms(roomSessions: map<string, Room>, sessionToRoom: map<string, string>)

  const Empty := Rooms(map[], map[])

  datatype JoinOutcome = JoinOutcome(state: Rooms, result: JoinResult)
  datatype LeaveOutcome = LeaveOutcome(state: Rooms, result: LeaveResult)

  /** The participants of a room in join order (`snapshotFrom`'s list). */
  function ParticipantsOf(room: Room): (ps: seq<Participant>)
    ensures |ps| == |room|
    ensures forall i :: 0 <= i < |room| ==> ps[i] == room[i].1.participant
  {
    if room == [] then [] else [room[0].1.participant] + ParticipantsOf(room[1..])
  }

  /** The stored room, or the empty room `computeIfAbsent` would create. */
  function MembersOf(st: Rooms, roomId: string): Room {
    if roomId in st.roomSessions then st.roomSessions[roomId] else []
  }

  predicate ValidJoinIds(roomId: Option<string>, userId: Option<string>) {
    roomId.Some? && !JavaBlank(roomId.value) && userId.Some? && !JavaBlank(userId.value)
  }

  function DisplayNameOrAnonymous(displayName: Option<string>): string {
    if displayName.None? || JavaBlank(displayName.value) then ANONYMOUS else displayName.value
  }

  /** `leaveBySession`, including its two defensive branches. */
  function Leave(st: Rooms, sessionId: string): (o: LeaveOutcome)
    ensures WellFormedLeave(o.result)
  {
    if sessionId !in st.sessionToRoom then LeaveOutcome(st, Noop())
    else
      var roomId := st.sessionToRoom[sessionId];
      var index := st.sessionToRoom - {sessionId};
      if roomId !in st.roomSessions then LeaveOutcome(Rooms(st.roomSessions, index), Noop())
      else
        var room := st.roomSessions[roomId];
        var removed := Get(room, sessionId);
        var rest := Remove(room, sessionId);
        var rooms := if rest == [] then st.roomSessions - {roomId} else st.roomSessions[roomId := rest];
        if removed.None? then LeaveOutcome(Rooms(rooms, index), Noop())
        else LeaveOutcome(Rooms(rooms, index), Left(roomId, removed.value.participant))
  }

  /** `join`: validate, leave any previous room, check capacity, insert. */
  function Join(st: Rooms, roomId: Option<string>, sessionId: string, userId: Option<string>,
                displayName: Option<string>): (o: JoinOutcome)
    ensures WellFormedJoin(o.result)
  {
    if !ValidJoinIds(roomId, userId) then JoinOutcome(st, Rejected(INVALID_JOIN, INVALID_JOIN_MESSAGE))
    else
      var left := Leave(st, sessionId).state;
      var room := MembersOf(left, roomId.value);
      if |room| >= MAX_ROOM_CAPACITY then JoinOutcome(left, Rejected(ROOM_FULL, ROOM_FULL_MESSAGE))
      else
        var self := ParticipantSession(roomId.value, sessionId,
                                       Participant(userId.value, DisplayNameOrAnonymous(displayName), false));
        var room' := Put(room, sessionId, self);
        var st' := Rooms(left.roomSessions[roomId.value := room'], left.sessionToRoom[sessionId := roomId.value]);
        JoinOutcome(st', Accepted(RoomSnapshot(roomId.value, ParticipantsOf(room')), self))
  }

  /** `getSnapshot`. */
  function Snapshot(st: Rooms, roomId: string): Option<RoomSnapshot> {
    if roomId in st.roomSessions then Some(RoomSnapshot(roomId, ParticipantsOf(st.roomSessions[roomId]))) else None
  }

  /** `findBySession`. */
  function Find(st: Rooms, sessionId: string): Option<ParticipantSession> {
    if sessionId !in st.sessionToRoom then None
    else if st.sessionToRoom[sessionId] !in st.roomSessions then None
    else Get(st.roomSessions[st.sessionToRoom[sessionId]], sessionId)
  }

  // ---------------------------------------------------------------- invariant

  /** What join stores about a participant: ids not blank, and `muted` never set. */
  ghost predicate StoredParticipant(p: Participant) {
    !JavaBlank(p.userId) && !JavaBlank(p.displayName) && !p.muted
  }

  /** A stored room: non-empty, at most five members, each keyed by its own session id
      and recording this room's id. */
  ghost predicate RoomValid(roomId: string, room: Room) {
    && 0 < |room| <= MAX_ROOM_CAPACITY
    && DistinctKeys(room)
    && !JavaBlank(roomId)
    && forall e :: e in room ==> e.1.sessionId == e.0 && e.1.roomId == roomId && StoredParticipant(e.1.participant)
  }

  /** Every indexed session is a member of the room the index names. */
  ghost predicate IndexAgrees(st: Rooms) {
    forall s :: s in st.sessionToRoom ==>
      st.sessionToRoom[s] in st.roomSessions && Get(st.roomSessions[st.sessionToRoom[s]], s).Some?
  }

  /** Every member of a room is indexed to that room. */
  ghost predicate RoomsAgree(st: Rooms) {
    forall r, s :: r in st.roomSessions && Get(st.roomSessions[r], s).Some? ==>
      s in st.sessionToRoom && st.sessionToRoom[s] == r
  }

  /** Every stored room is valid. */
  ghost predicate RoomsValid(rooms: map<string, Room>) {
    forall r :: r in rooms ==> RoomValid(r, rooms[r])
  }

  ghost predicate Valid(st: Rooms) {
    && RoomsValid(st.roomSessions)
    && IndexAgrees(st)
    && RoomsAgree(st)
  }

  lemma EmptyIsValid()
    ensures Valid(Empty)
  {
  }

  // ---------------------------------------------------------------- leaveBySession

  /** The rooms map after removing `sessionId` from room `roomId`. */
  function WithoutMember(rooms: map<string, Room>, roomId: string, sessionId: string): map<string, Room>
    requires roomId in rooms
  {
    var rest := Remove(rooms[roomId], sessionId);
    if rest == [] then rooms - {roomId} else rooms[roomId := rest]
  }

  // ---------------------------------------------------------------- join

  /** The state after an accepted join puts `self` into room `roomId`. */
  function Insert(st: Rooms, roomId: string, self: ParticipantSession): Rooms {
    Rooms(st.roomSessions[roomId := Put(MembersOf(st, roomId), self.sessionId, self)],
          st.sessionToRoom[self.sessionId := roomId])
  }

  /** What `Insert` needs to keep the invariant: a session in no room, a room with a free
      slot, and a membership record naming that room and session. */
  ghost predicate InsertAllowed(st: Rooms, roomId: string, self: ParticipantSession) {
    && self.sessionId !in st.sessionToRoom
    && |MembersOf(st, roomId)| < MAX_ROOM_CAPACITY
    && !JavaBlank(roomId)
    && self.roomId == roomId
    && StoredParticipant(self.participant)
  }

  // ---------------------------------------------------------------- serialised joins

  /** One joiner: a session id, a user id and an optional display name. */
  datatype Joiner = Joiner(sessionId: string, userId: string, displayName: Option<string>)

  /** Runs `join(roomId, ...)` for each joiner in turn and counts the accepted ones; every
      store method is `synchronized`, so concurrent joins take effect in some such order. */
  function JoinEach(st: Rooms, roomId: string, joiners: seq<Joiner>): (Rooms, nat)
    decreases |joiners|
  {
    if joiners == [] then (st, 0)
    else
      var o := Join(st, Some(roomId), joiners[0].sessionId, Some(joiners[0].userId), joiners[0].displayName);
      var rest := JoinEach(o.state, roomId, joiners[1..]);
      (rest.0, rest.1 + if o.result.accepted then 1 else 0)
  }

  /** Joiners with distinct, not yet joined sessions and non-blank user ids. */
  ghost predicate FreshJoiners(st: Rooms, joiners: seq<Joiner>) {
    && (forall i :: 0 <= i < |joiners| ==> joiners[i].sessionId !in st.sessionToRoom && !JavaBlank(joiners[i].userId))
    && (forall i, j :: 0 <= i < j < |joiners| ==> joiners[i].sessionId != joiners[j].sessionId)
  }
}
