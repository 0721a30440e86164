/**
 * What `join` does to the room store: it keeps the store's invariant, enforces the room
 * capacity, and records exactly the joining session; and what a sequence of joins into
 * one room amounts to.
 */
module RoomStateJoin {
  import opened Options
  import opened Numbers
  import opened Text
  import opened LinkedMaps
  import opened RoomModels
  import opened RoomState
  import opened RoomStateLeave

  // ---------------------------------------------------------------- join

  /** A session that is not indexed is not a member of any room. */
  lemma UnindexedIsNoMember(st: Rooms, sessionId: string)
    requires RoomsAgree(st) && sessionId !in st.sessionToRoom
    ensures forall r :: r in st.roomSessions ==> Get(st.roomSessions[r], sessionId).None?
  {
  }

  lemma InsertKeepsRoomsValid(st: Rooms, roomId: string, self: ParticipantSession)
    requires Valid(st) && InsertAllowed(st, roomId, self)
    ensures RoomsValid(Insert(st, roomId, self).roomSessions)
  {
    var room := MembersOf(st, roomId);
    UnindexedIsNoMember(st, self.sessionId);
    if roomId in st.roomSessions {
      assert RoomValid(roomId, room);
    }
    AddKeepsRoomValid(roomId, room, self);
    RoomsValidUpdate(st.roomSessions, roomId, Put(room, self.sessionId, self));
  }

  /** A new member with a free slot keeps a room valid, and makes an empty one valid. */
  lemma AddKeepsRoomValid(roomId: string, room: Room, self: ParticipantSession)
    requires room == [] || RoomValid(roomId, room)
    requires Get(room, self.sessionId).None? && |room| < MAX_ROOM_CAPACITY
    requires !JavaBlank(roomId) && self.roomId == roomId && StoredParticipant(self.participant)
    ensures RoomValid(roomId, Put(room, self.sessionId, self))
  {
    PutShape(room, self.sessionId, self);
    PutDistinct(room, self.sessionId, self);
  }

  /** Storing a valid room keeps every room valid. */
  lemma RoomsValidUpdate(rooms: map<string, Room>, roomId: string, room: Room)
    requires RoomsValid(rooms) && RoomValid(roomId, room)
    ensures RoomsValid(rooms[roomId := room])
  {
  }

  lemma InsertKeepsIndexAgrees(st: Rooms, roomId: string, self: ParticipantSession)
    requires IndexAgrees(st) && self.sessionId !in st.sessionToRoom
    ensures IndexAgrees(Insert(st, roomId, self))
  {
    var room := MembersOf(st, roomId);
    PutGet(room, self.sessionId, self);
  }

  lemma InsertKeepsRoomsAgree(st: Rooms, roomId: string, self: ParticipantSession)
    requires RoomsAgree(st) && self.sessionId !in st.sessionToRoom
    ensures RoomsAgree(Insert(st, roomId, self))
  {
    var room := MembersOf(st, roomId);
    PutGet(room, self.sessionId, self);
    UnindexedIsNoMember(st, self.sessionId);
    var st' := Insert(st, roomId, self);
    forall r, s | r in st'.roomSessions && Get(st'.roomSessions[r], s).Some?
      ensures s in st'.sessionToRoom && st'.sessionToRoom[s] == r
    {
      if r == roomId && s != self.sessionId {
        assert Get(room, s).Some?;
        assert roomId in st.roomSessions;
      }
    }
  }

  lemma InsertPreservesValid(st: Rooms, roomId: string, self: ParticipantSession)
    requires Valid(st) && InsertAllowed(st, roomId, self)
    ensures Valid(Insert(st, roomId, self))
  {
    InsertKeepsRoomsValid(st, roomId, self);
    InsertKeepsIndexAgrees(st, roomId, self);
    InsertKeepsRoomsAgree(st, roomId, self);
  }

  lemma AnonymousIsNotBlank()
    ensures !JavaBlank(ANONYMOUS)
  {
    assert !JavaWhitespace(ANONYMOUS[0]);
  }

  /** An accepted join is an `Insert` into the post-leave state, under the conditions that
      keep the invariant. */
  lemma JoinIsLeaveThenInsert(st: Rooms, roomId: Option<string>, sessionId: string, userId: Option<string>,
                              displayName: Option<string>)
    requires Valid(st)
    requires Join(st, roomId, sessionId, userId, displayName).result.accepted
    ensures var left, self := Leave(st, sessionId).state, Join(st, roomId, sessionId, userId, displayName).result.self.value;
      && ValidJoinIds(roomId, userId)
      && Valid(left)
      && self == ParticipantSession(roomId.value, sessionId,
                                    Participant(userId.value, DisplayNameOrAnonymous(displayName), false))
      && InsertAllowed(left, roomId.value, self)
      && Join(st, roomId, sessionId, userId, displayName).state == Insert(left, roomId.value, self)
  {
    LeavePreservesValid(st, sessionId);
    AnonymousIsNotBlank();
  }

  /** The store's central invariant survives every join. */
  lemma JoinPreservesValid(st: Rooms, roomId: Option<string>, sessionId: string, userId: Option<string>,
                           displayName: Option<string>)
    requires Valid(st)
    ensures Valid(Join(st, roomId, sessionId, userId, displayName).state)
  {
    var o := Join(st, roomId, sessionId, userId, displayName);
    if o.result.accepted {
      JoinIsLeaveThenInsert(st, roomId, sessionId, userId, displayName);
      InsertPreservesValid(Leave(st, sessionId).state, roomId.value, o.result.self.value);
    } else if ValidJoinIds(roomId, userId) {
      LeavePreservesValid(st, sessionId);
    }
  }

  /** A join without a room id or user id is rejected with INVALID_JOIN and changes
      nothing; with both ids it is never rejected that way. */
  lemma JoinInvalidIds(st: Rooms, roomId: Option<string>, sessionId: string, userId: Option<string>,
                       displayName: Option<string>)
    ensures var o := Join(st, roomId, sessionId, userId, displayName);
      (o.result.errorCode == Some(INVALID_JOIN) <==> !ValidJoinIds(roomId, userId))
      && (!ValidJoinIds(roomId, userId) ==> o.state == st && !o.result.accepted)
  {
  }

  /** With valid ids, the join is accepted exactly when the room has a free slot once the
      session has left its previous room; otherwise it is rejected with ROOM_FULL, and the
      session has still left its previous room. */
  lemma JoinCapacity(st: Rooms, roomId: string, sessionId: string, userId: string, displayName: Option<string>)
    requires ValidJoinIds(Some(roomId), Some(userId))
    ensures var o, left := Join(st, Some(roomId), sessionId, Some(userId), displayName), Leave(st, sessionId).state;
      && (o.result.accepted <==> |MembersOf(left, roomId)| < MAX_ROOM_CAPACITY)
      && (!o.result.accepted ==> o.result.errorCode == Some(ROOM_FULL) && o.state == left)
      && Find(o.state, sessionId).None? == !o.result.accepted
  {
    var o := Join(st, Some(roomId), sessionId, Some(userId), displayName);
    LeaveFind(st, sessionId);
    if o.result.accepted {
      PutGet(MembersOf(Leave(st, sessionId).state, roomId), sessionId, o.result.self.value);
    }
  }

  /** What an `Insert` of a session that is in no room looks like from outside: the room
      lists its previous members followed by the new one, the session is found there, and
      no other session or room changes. */
  lemma InsertObserved(st: Rooms, roomId: string, self: ParticipantSession)
    requires RoomsAgree(st) && self.sessionId !in st.sessionToRoom
    ensures var st' := Insert(st, roomId, self);
      && Snapshot(st', roomId) == Some(RoomSnapshot(roomId, ParticipantsOf(MembersOf(st, roomId)) + [self.participant]))
      && MembersOf(st', roomId) == MembersOf(st, roomId) + [(self.sessionId, self)]
      && Find(st', self.sessionId) == Some(self)
      && (forall s :: s != self.sessionId ==> Find(st', s) == Find(st, s))
      && (forall r :: r != roomId ==> MembersOf(st', r) == MembersOf(st, r))
  {
    InsertRooms(st, roomId, self);
    InsertFinds(st, roomId, self);
  }

  lemma InsertRooms(st: Rooms, roomId: string, self: ParticipantSession)
    requires RoomsAgree(st) && self.sessionId !in st.sessionToRoom
    ensures var st' := Insert(st, roomId, self);
      && Snapshot(st', roomId) == Some(RoomSnapshot(roomId, ParticipantsOf(MembersOf(st, roomId)) + [self.participant]))
      && MembersOf(st', roomId) == MembersOf(st, roomId) + [(self.sessionId, self)]
      && (forall r :: r != roomId ==> MembersOf(st', r) == MembersOf(st, r))
  {
    var room := MembersOf(st, roomId);
    UnindexedIsNoMember(st, self.sessionId);
    assert Get(room, self.sessionId).None?;
    PutShape(room, self.sessionId, self);
    assert ParticipantsOf(room + [(self.sessionId, self)]) == ParticipantsOf(room) + [self.participant];
  }

  lemma InsertFinds(st: Rooms, roomId: string, self: ParticipantSession)
    requires self.sessionId !in st.sessionToRoom
    ensures var st' := Insert(st, roomId, self);
      && Find(st', self.sessionId) == Some(self)
      && (forall s :: s != self.sessionId ==> Find(st', s) == Find(st, s))
  {
    var room := MembersOf(st, roomId);
    PutGet(room, self.sessionId, self);
  }

  /** An accepted join's snapshot is read off the state it leaves behind. */
  lemma JoinSnapshotIsStored(st: Rooms, roomId: Option<string>, sessionId: string, userId: Option<string>,
                             displayName: Option<string>)
    requires Join(st, roomId, sessionId, userId, displayName).result.accepted
    ensures var o := Join(st, roomId, sessionId, userId, displayName);
      o.result.snapshot == Snapshot(o.state, roomId.value)
  {
  }

  /** An accepted join stores the participant with the given ids, the display name or
      "Anonymous", and `muted = false`; its snapshot lists the room's previous members in
      join order followed by the new participant, and is what `getSnapshot` returns
      afterwards; every other session keeps its membership. */
  lemma JoinAccepted(st: Rooms, roomId: Option<string>, sessionId: string, userId: Option<string>,
                     displayName: Option<string>)
    requires Valid(st)
    requires Join(st, roomId, sessionId, userId, displayName).result.accepted
    ensures var o, left := Join(st, roomId, sessionId, userId, displayName), Leave(st, sessionId).state;
      && o.result.self == Some(ParticipantSession(roomId.value, sessionId,
                               Participant(userId.value, DisplayNameOrAnonymous(displayName), false)))
      && o.result.snapshot == Some(RoomSnapshot(roomId.value,
                                   ParticipantsOf(MembersOf(left, roomId.value)) + [o.result.self.value.participant]))
      && Snapshot(o.state, roomId.value) == o.result.snapshot
      && Find(o.state, sessionId) == o.result.self
      && (forall s :: s != sessionId ==> Find(o.state, s) == Find(st, s))
      && (forall r :: r != roomId.value ==> MembersOf(o.state, r) == MembersOf(left, r))
  {
    JoinIsLeaveThenInsert(st, roomId, sessionId, userId, displayName);
    JoinSnapshotIsStored(st, roomId, sessionId, userId, displayName);
    var o := Join(st, roomId, sessionId, userId, displayName);
    var left := Leave(st, sessionId).state;
    InsertObserved(left, roomId.value, o.result.self.value);
    LeaveFind(st, sessionId);
  }

  /** The valid-state invariant bounds every room: between one and five participants,
      none of them muted. */
  lemma CapacityBound(st: Rooms, roomId: string)
    requires Valid(st) && Snapshot(st, roomId).Some?
    ensures 0 < |Snapshot(st, roomId).value.participants| <= MAX_ROOM_CAPACITY
    ensures forall p :: p in Snapshot(st, roomId).value.participants ==> !p.muted
  {
    var room := st.roomSessions[roomId];
    assert RoomValid(roomId, room);
    forall p | p in Snapshot(st, roomId).value.participants ensures !p.muted {
      var i :| 0 <= i < |room| && Snapshot(st, roomId).value.participants[i] == p;
      assert room[i] in room;
    }
  }

  /** A new session cannot join a room that already has five members. */
  lemma SixthJoinRejected(st: Rooms, roomId: string, sessionId: string, userId: string, displayName: Option<string>)
    requires Valid(st) && sessionId !in st.sessionToRoom
    requires !JavaBlank(userId) && |MembersOf(st, roomId)| == MAX_ROOM_CAPACITY
    ensures Join(st, Some(roomId), sessionId, Some(userId), displayName).result == Rejected(ROOM_FULL, ROOM_FULL_MESSAGE)
  {
    assert RoomValid(roomId, st.roomSessions[roomId]);
  }

  /** A member of a full room that joins it again is accepted: leaving frees its slot, and
      it moves to the end of the join order. */
  lemma RejoinFullRoom(st: Rooms, sessionId: string, userId: string, displayName: Option<string>)
    requires Valid(st) && Find(st, sessionId).Some? && !JavaBlank(userId)
    requires |MembersOf(st, Find(st, sessionId).value.roomId)| == MAX_ROOM_CAPACITY
    ensures var roomId := Find(st, sessionId).value.roomId;
      var o := Join(st, Some(roomId), sessionId, Some(userId), displayName);
      o.result.accepted && |o.result.snapshot.value.participants| == MAX_ROOM_CAPACITY
      && o.result.snapshot.value.participants[MAX_ROOM_CAPACITY - 1] == o.result.self.value.participant
  {
    var roomId := Find(st, sessionId).value.roomId;
    FindAgreesWithIndex(st, sessionId);
    assert RoomValid(roomId, st.roomSessions[roomId]);
    LeaveMemberRooms(st, sessionId);
    RemoveGet(st.roomSessions[roomId], sessionId);
    JoinCapacity(st, roomId, sessionId, userId, displayName);
    JoinAccepted(st, Some(roomId), sessionId, Some(userId), displayName);
  }

  /** Inserting into a room that does not exist creates it with just the new member. */
  lemma InsertIntoAbsentRoom(st: Rooms, roomId: string, self: ParticipantSession)
    requires RoomsAgree(st) && self.sessionId !in st.sessionToRoom && roomId !in st.roomSessions
    ensures Snapshot(Insert(st, roomId, self), roomId) == Some(RoomSnapshot(roomId, [self.participant]))
    ensures Insert(st, roomId, self).roomSessions.Keys == st.roomSessions.Keys + {roomId}
  {
    InsertObserved(st, roomId, self);
    assert ParticipantsOf(MembersOf(st, roomId)) + [self.participant] == [self.participant];
  }

  /** The only member of one room that joins another, empty room moves: the first room
      disappears and the second holds just that participant. */
  lemma MoveSoleMember(st: Rooms, sessionId: string, origin: string, target: string, userId: string,
                       displayName: Option<string>)
    requires Valid(st) && Find(st, sessionId).Some? && Find(st, sessionId).value.roomId == origin
    requires |MembersOf(st, origin)| == 1 && target != origin && Snapshot(st, target).None?
    requires !JavaBlank(target) && !JavaBlank(userId)
    ensures var o := Join(st, Some(target), sessionId, Some(userId), displayName);
      && o.result.accepted
      && Snapshot(o.state, origin).None?
      && Snapshot(o.state, target)
         == Some(RoomSnapshot(target, [Participant(userId, DisplayNameOrAnonymous(displayName), false)]))
  {
    var left := Leave(st, sessionId).state;
    SoleMemberLeaves(st, sessionId, origin, target);
    JoinCapacity(st, target, sessionId, userId, displayName);
    JoinIsLeaveThenInsert(st, Some(target), sessionId, Some(userId), displayName);
    var o := Join(st, Some(target), sessionId, Some(userId), displayName);
    InsertIntoAbsentRoom(left, target, o.result.self.value);
  }

  /** The only member of a room that leaves it takes the room away, and no room appears. */
  lemma SoleMemberLeaves(st: Rooms, sessionId: string, origin: string, target: string)
    requires Valid(st) && Find(st, sessionId).Some? && Find(st, sessionId).value.roomId == origin
    requires |MembersOf(st, origin)| == 1 && target != origin && Snapshot(st, target).None?
    ensures origin !in Leave(st, sessionId).state.roomSessions && target !in Leave(st, sessionId).state.roomSessions
  {
    FindAgreesWithIndex(st, sessionId);
    LeaveIndexedRooms(st, sessionId);
    LeaveShape(st, sessionId);
  }

  // ---------------------------------------------------------------- serialised joins

  /** One fresh join: no previous room to leave; accepted exactly when the room has a free
      slot, and then the room grows by one. */
  lemma JoinFresh(st: Rooms, roomId: string, j: Joiner)
    requires Valid(st) && !JavaBlank(roomId) && j.sessionId !in st.sessionToRoom && !JavaBlank(j.userId)
    ensures var o := Join(st, Some(roomId), j.sessionId, Some(j.userId), j.displayName);
      && Valid(o.state)
      && (o.result.accepted <==> |MembersOf(st, roomId)| < MAX_ROOM_CAPACITY)
      && (o.result.accepted ==> |MembersOf(o.state, roomId)| == |MembersOf(st, roomId)| + 1
                                && o.state.sessionToRoom.Keys == st.sessionToRoom.Keys + {j.sessionId})
      && (!o.result.accepted ==> o.state == st)
  {
    var o := Join(st, Some(roomId), j.sessionId, Some(j.userId), j.displayName);
    assert Leave(st, j.sessionId) == LeaveOutcome(st, Noop());
    if |MembersOf(st, roomId)| < MAX_ROOM_CAPACITY {
      var self := ParticipantSession(roomId, j.sessionId,
                                     Participant(j.userId, DisplayNameOrAnonymous(j.displayName), false));
      assert o.state == Insert(st, roomId, self) && o.result.accepted;
      AnonymousIsNotBlank();
      InsertPreservesValid(st, roomId, self);
      InsertGrows(st, roomId, self);
    } else {
      assert o.state == st && !o.result.accepted;
    }
  }

  /** An insert adds one member to its room and one session to the index. */
  lemma InsertGrows(st: Rooms, roomId: string, self: ParticipantSession)
    requires RoomsAgree(st) && self.sessionId !in st.sessionToRoom
    ensures |MembersOf(Insert(st, roomId, self), roomId)| == |MembersOf(st, roomId)| + 1
    ensures Insert(st, roomId, self).sessionToRoom.Keys == st.sessionToRoom.Keys + {self.sessionId}
  {
    InsertRooms(st, roomId, self);
  }

  /** However many fresh sessions join one room, exactly as many are accepted as there are
      free slots (at most five participants in all), and the room then holds them. */
  lemma {:induction false} JoinEachAcceptsFreeSlots(st: Rooms, roomId: string, joiners: seq<Joiner>)
    requires Valid(st) && !JavaBlank(roomId) && FreshJoiners(st, joiners)
    ensures var (st', accepted) := JoinEach(st, roomId, joiners);
      && Valid(st')
      && accepted == Min(|joiners|, MAX_ROOM_CAPACITY - |MembersOf(st, roomId)|)
      && |MembersOf(st', roomId)| == |MembersOf(st, roomId)| + accepted
    decreases |joiners|
  {
    RoomBound(st, roomId);
    if joiners != [] {
      var o := JoinEachStep(st, roomId, joiners);
      JoinEachAcceptsFreeSlots(o.state, roomId, joiners[1..]);
    }
  }

  /** A room of a valid state has at most five members. */
  lemma RoomBound(st: Rooms, roomId: string)
    requires Valid(st)
    ensures |MembersOf(st, roomId)| <= MAX_ROOM_CAPACITY
  {
    if roomId in st.roomSessions {
      assert RoomValid(roomId, st.roomSessions[roomId]);
    }
  }

  /** The first join of a sequence of fresh joins, and what it leaves for the rest. */
  lemma JoinEachStep(st: Rooms, roomId: string, joiners: seq<Joiner>) returns (o: JoinOutcome)
    requires Valid(st) && !JavaBlank(roomId) && FreshJoiners(st, joiners) && joiners != []
    ensures o == Join(st, Some(roomId), joiners[0].sessionId, Some(joiners[0].userId), joiners[0].displayName)
    ensures Valid(o.state) && FreshJoiners(o.state, joiners[1..])
    ensures var rest := JoinEach(o.state, roomId, joiners[1..]);
      JoinEach(st, roomId, joiners) == (rest.0, rest.1 + if o.result.accepted then 1 else 0)
    ensures o.result.accepted <==> |MembersOf(st, roomId)| < MAX_ROOM_CAPACITY
    ensures o.result.accepted ==> |MembersOf(o.state, roomId)| == |MembersOf(st, roomId)| + 1
    ensures !o.result.accepted ==> o.state == st
  {
    o := Join(st, Some(roomId), joiners[0].sessionId, Some(joiners[0].userId), joiners[0].displayName);
    JoinFresh(st, roomId, joiners[0]);
    assert o.state.sessionToRoom.Keys <= st.sessionToRoom.Keys + {joiners[0].sessionId};
    FreshJoinersTail(st, o.state, joiners);
    JoinEachUnfold(st, roomId, joiners);
  }

  lemma JoinEachUnfold(st: Rooms, roomId: string, joiners: seq<Joiner>)
    requires joiners != []
    ensures var o := Join(st, Some(roomId), joiners[0].sessionId, Some(joiners[0].userId), joiners[0].displayName);
      var rest := JoinEach(o.state, roomId, joiners[1..]);
      JoinEach(st, roomId, joiners) == (rest.0, rest.1 + if o.result.accepted then 1 else 0)
  {
  }

  /** The joiners after the first are still fresh once the first has joined. */
  lemma FreshJoinersTail(st: Rooms, st': Rooms, joiners: seq<Joiner>)
    requires FreshJoiners(st, joiners) && joiners != []
    requires st'.sessionToRoom.Keys <= st.sessionToRoom.Keys + {joiners[0].sessionId}
    ensures FreshJoiners(st', joiners[1..])
  {
    forall i | 0 <= i < |joiners[1..]|
      ensures joiners[1..][i].sessionId !in st'.sessionToRoom
    {
      assert joiners[1..][i] == joiners[i + 1];
    }
  }

  /** Ten (or any number of at least five) fresh sessions joining a room that does not
      exist yet: exactly five are accepted and the room lists five participants. */
  lemma JoinEachIntoNewRoom(st: Rooms, roomId: string, joiners: seq<Joiner>)
    requires Valid(st) && !JavaBlank(roomId) && FreshJoiners(st, joiners)
    requires Snapshot(st, roomId).None? && |joiners| >= MAX_ROOM_CAPACITY
    ensures JoinEach(st, roomId, joiners).1 == MAX_ROOM_CAPACITY
    ensures Snapshot(JoinEach(st, roomId, joiners).0, roomId).Some?
    ensures |Snapshot(JoinEach(st, roomId, joiners).0, roomId).value.participants| == MAX_ROOM_CAPACITY
  {
    JoinEachAcceptsFreeSlots(st, roomId, joiners);
  }
}
