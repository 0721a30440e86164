/**
 * What `leaveBySession` does to the room store: it keeps the store's invariant, and it
 * removes exactly the leaving session.
 */
module RoomStateLeave {
  import opened Options
  import opened Text
  import opened LinkedMaps
  import opened RoomModels
  import opened RoomState

  // ---------------------------------------------------------------- leaveBySession

  /** A session in no room leaves nothing behind: state unchanged, `left = false`. */
  lemma LeaveNotJoined(st: Rooms, sessionId: string)
    requires Find(st, sessionId).None?
    requires Valid(st)
    ensures Leave(st, sessionId) == LeaveOutcome(st, Noop())
  {
  }

  /** Under the invariant the two defensive `noop` branches of `leaveBySession` (the
      indexed room missing, the session missing from it) are never taken. */
  lemma LeaveDefensiveBranchesUnreachable(st: Rooms, sessionId: string)
    requires Valid(st) && sessionId in st.sessionToRoom
    ensures st.sessionToRoom[sessionId] in st.roomSessions
    ensures Get(st.roomSessions[st.sessionToRoom[sessionId]], sessionId).Some?
    ensures Leave(st, sessionId).result.left
  {
  }

  lemma LeaveShape(st: Rooms, sessionId: string)
    requires sessionId in st.sessionToRoom && st.sessionToRoom[sessionId] in st.roomSessions
    ensures var roomId := st.sessionToRoom[sessionId];
      Leave(st, sessionId).state == Rooms(WithoutMember(st.roomSessions, roomId, sessionId), st.sessionToRoom - {sessionId})
  {
  }

  /** One lookup after a removal on distinct keys. */
  lemma RemoveGetAt(room: Room, sessionId: string, s: string)
    requires DistinctKeys(room)
    ensures Get(Remove(room, sessionId), s) == if s == sessionId then None else Get(room, s)
  {
    RemoveGet(room, sessionId);
  }

  /** A removal keeps a room valid as long as it leaves someone in it. */
  lemma RemoveKeepsRoomValid(roomId: string, room: Room, sessionId: string)
    requires RoomValid(roomId, room) && Remove(room, sessionId) != []
    ensures RoomValid(roomId, Remove(room, sessionId))
  {
    RemoveGet(room, sessionId);
  }

  lemma LeaveKeepsRoomsValid(st: Rooms, sessionId: string)
    requires RoomsValid(st.roomSessions) && sessionId in st.sessionToRoom && st.sessionToRoom[sessionId] in st.roomSessions
    ensures RoomsValid(WithoutMember(st.roomSessions, st.sessionToRoom[sessionId], sessionId))
  {
    var roomId := st.sessionToRoom[sessionId];
    var room := st.roomSessions[roomId];
    assert RoomValid(roomId, room);
    if Remove(room, sessionId) != [] {
      RemoveKeepsRoomValid(roomId, room, sessionId);
    }
  }

  lemma LeaveKeepsIndexAgrees(st: Rooms, sessionId: string)
    requires IndexAgrees(st) && sessionId in st.sessionToRoom
    requires DistinctKeys(st.roomSessions[st.sessionToRoom[sessionId]])
    ensures IndexAgrees(Rooms(WithoutMember(st.roomSessions, st.sessionToRoom[sessionId], sessionId),
                              st.sessionToRoom - {sessionId}))
  {
    var roomId := st.sessionToRoom[sessionId];
    var room := st.roomSessions[roomId];
    var rooms := WithoutMember(st.roomSessions, roomId, sessionId);
    var index := st.sessionToRoom - {sessionId};
    forall s | s in index ensures index[s] in rooms && Get(rooms[index[s]], s).Some? {
      var r := index[s];
      assert r in st.roomSessions && Get(st.roomSessions[r], s).Some?;
      if r == roomId {
        RemoveGetAt(room, sessionId, s);
      }
    }
  }

  /** Every member of `rooms` is indexed to its room, and none is `sessionId`. */
  ghost predicate MembersIndexedExcept(rooms: map<string, Room>, index: map<string, string>, sessionId: string) {
    forall r, s :: r in rooms && Get(rooms[r], s).Some? ==> s != sessionId && s in index && index[s] == r
  }

  /** Every member left after the removal is indexed to its room, and is not the
      session that left. */
  lemma LeaveKeepsMembersIndexed(st: Rooms, sessionId: string, rooms: map<string, Room>)
    requires RoomsAgree(st) && sessionId in st.sessionToRoom && st.sessionToRoom[sessionId] in st.roomSessions
    requires DistinctKeys(st.roomSessions[st.sessionToRoom[sessionId]])
    requires rooms == WithoutMember(st.roomSessions, st.sessionToRoom[sessionId], sessionId)
    ensures MembersIndexedExcept(rooms, st.sessionToRoom, sessionId)
  {
    forall r | r in rooms
      ensures forall s :: Get(rooms[r], s).Some? ==> s != sessionId && s in st.sessionToRoom && st.sessionToRoom[s] == r
    {
      forall s | Get(rooms[r], s).Some?
        ensures s != sessionId && s in st.sessionToRoom && st.sessionToRoom[s] == r
      {
        LeaveKeepsMemberIndexedUnder(st, sessionId, r, s);
      }
    }
  }

  lemma LeaveKeepsRoomsAgree(st: Rooms, sessionId: string)
    requires RoomsAgree(st) && sessionId in st.sessionToRoom && st.sessionToRoom[sessionId] in st.roomSessions
    requires DistinctKeys(st.roomSessions[st.sessionToRoom[sessionId]])
    ensures RoomsAgree(Rooms(WithoutMember(st.roomSessions, st.sessionToRoom[sessionId], sessionId),
                             st.sessionToRoom - {sessionId}))
  {
    var rooms := WithoutMember(st.roomSessions, st.sessionToRoom[sessionId], sessionId);
    LeaveKeepsMembersIndexed(st, sessionId, rooms);
    AgreesWithoutSession(sessionId, rooms, st.sessionToRoom);
  }

  lemma LeaveKeepsMemberIndexedUnder(st: Rooms, sessionId: string, r: string, s: string)
    requires RoomsAgree(st) && sessionId in st.sessionToRoom && st.sessionToRoom[sessionId] in st.roomSessions
    requires DistinctKeys(st.roomSessions[st.sessionToRoom[sessionId]])
    requires var rooms := WithoutMember(st.roomSessions, st.sessionToRoom[sessionId], sessionId);
      r in rooms && Get(rooms[r], s).Some?
    ensures s != sessionId && s in st.sessionToRoom && st.sessionToRoom[s] == r
  {
    RoomsAgreeAt(st, r, s);
    LeaveKeepsMemberIndexed(st, sessionId, r, s);
  }

  /** Rooms whose members are all indexed, none of them as `sessionId`, agree with the
      index once `sessionId` is dropped from it. */
  lemma AgreesWithoutSession(sessionId: string, rooms: map<string, Room>, index: map<string, string>)
    requires MembersIndexedExcept(rooms, index, sessionId)
    ensures RoomsAgree(Rooms(rooms, index - {sessionId}))
  {
    var index' := index - {sessionId};
    assert forall r, s :: r in rooms && Get(rooms[r], s).Some? ==> s in index' && index'[s] == r;
  }

  /** One instance of `RoomsAgree`. */
  lemma RoomsAgreeAt(st: Rooms, r: string, s: string)
    requires RoomsAgree(st)
    ensures r in st.roomSessions && Get(st.roomSessions[r], s).Some? ==> s in st.sessionToRoom && st.sessionToRoom[s] == r
  {
  }

  /** One member of a room after the removal is still indexed to that room. */
  lemma LeaveKeepsMemberIndexed(st: Rooms, sessionId: string, r: string, s: string)
    requires sessionId in st.sessionToRoom && st.sessionToRoom[sessionId] in st.roomSessions
    requires DistinctKeys(st.roomSessions[st.sessionToRoom[sessionId]])
    requires r in st.roomSessions && Get(st.roomSessions[r], s).Some? ==> s in st.sessionToRoom && st.sessionToRoom[s] == r
    requires var rooms := WithoutMember(st.roomSessions, st.sessionToRoom[sessionId], sessionId);
      r in rooms && Get(rooms[r], s).Some?
    ensures s != sessionId && s in st.sessionToRoom && st.sessionToRoom[s] == r
  {
    var roomId := st.sessionToRoom[sessionId];
    var room := st.roomSessions[roomId];
    if r == roomId {
      RemoveGetAt(room, sessionId, s);
    } else {
      assert WithoutMember(st.roomSessions, roomId, sessionId)[r] == st.roomSessions[r];
    }
  }

  lemma LeavePreservesValid(st: Rooms, sessionId: string)
    requires Valid(st)
    ensures Valid(Leave(st, sessionId).state)
  {
    if sessionId in st.sessionToRoom {
      LeaveShape(st, sessionId);
      LeaveKeepsRoomsValid(st, sessionId);
      assert RoomValid(st.sessionToRoom[sessionId], st.roomSessions[st.sessionToRoom[sessionId]]);
      LeaveKeepsIndexAgrees(st, sessionId);
      LeaveKeepsRoomsAgree(st, sessionId);
    }
  }

  /** Under the invariant a found membership records the indexed room and the session. */
  lemma FindAgreesWithIndex(st: Rooms, sessionId: string)
    requires Valid(st)
    ensures Find(st, sessionId).Some? <==> sessionId in st.sessionToRoom
    ensures Find(st, sessionId).Some? ==>
      Find(st, sessionId).value.roomId == st.sessionToRoom[sessionId]
      && Find(st, sessionId).value.sessionId == sessionId
      && StoredParticipant(Find(st, sessionId).value.participant)
  {
    if sessionId in st.sessionToRoom {
      var r := st.sessionToRoom[sessionId];
      assert RoomValid(r, st.roomSessions[r]);
    }
  }

  /** Leaving a member returns `left = true` with its room and participant. */
  lemma LeaveMemberResult(st: Rooms, sessionId: string)
    requires Valid(st) && Find(st, sessionId).Some?
    ensures Leave(st, sessionId).result == Left(Find(st, sessionId).value.roomId, Find(st, sessionId).value.participant)
  {
    FindAgreesWithIndex(st, sessionId);
  }

  /** After leaving, the session is in no room and every other session keeps its
      membership; this holds of every state, not only valid ones. */
  lemma LeaveFind(st: Rooms, sessionId: string)
    ensures Find(Leave(st, sessionId).state, sessionId).None?
    ensures forall s :: s != sessionId ==> Find(Leave(st, sessionId).state, s) == Find(st, s)
  {
    if sessionId in st.sessionToRoom && st.sessionToRoom[sessionId] in st.roomSessions {
      var roomId := st.sessionToRoom[sessionId];
      var room := st.roomSessions[roomId];
      RemoveGet(room, sessionId);
      var st' := Leave(st, sessionId).state;
      assert st'.roomSessions == WithoutMember(st.roomSessions, roomId, sessionId);
      forall s | s != sessionId ensures Find(st', s) == Find(st, s) {
        if s in st.sessionToRoom && st.sessionToRoom[s] == roomId {
          assert Get(Remove(room, sessionId), s) == Get(room, s);
        }
      }
    }
  }

  /** Leaving keeps the room's other members in their order, deletes the room exactly when
      the session was its only member, and touches no other room. */
  lemma LeaveMemberRooms(st: Rooms, sessionId: string)
    requires Valid(st) && Find(st, sessionId).Some?
    ensures var roomId, st' := Find(st, sessionId).value.roomId, Leave(st, sessionId).state;
      && MembersOf(st', roomId) == Remove(MembersOf(st, roomId), sessionId)
      && (Snapshot(st', roomId).None? <==> |MembersOf(st, roomId)| == 1)
      && (forall r :: r != roomId ==> MembersOf(st', r) == MembersOf(st, r))
  {
    FindAgreesWithIndex(st, sessionId);
    LeaveIndexedRooms(st, sessionId);
  }

  /** `LeaveMemberRooms` for the room the index names, in any state where that room holds
      the session. */
  lemma LeaveIndexedRooms(st: Rooms, sessionId: string)
    requires sessionId in st.sessionToRoom && st.sessionToRoom[sessionId] in st.roomSessions
    requires Get(st.roomSessions[st.sessionToRoom[sessionId]], sessionId).Some?
    ensures var roomId, st' := st.sessionToRoom[sessionId], Leave(st, sessionId).state;
      && MembersOf(st', roomId) == Remove(MembersOf(st, roomId), sessionId)
      && (Snapshot(st', roomId).None? <==> |MembersOf(st, roomId)| == 1)
      && (forall r :: r != roomId ==> MembersOf(st', r) == MembersOf(st, r))
  {
    var roomId := st.sessionToRoom[sessionId];
    var room := st.roomSessions[roomId];
    LeaveShape(st, sessionId);
    RemoveGet(room, sessionId);
  }
}
