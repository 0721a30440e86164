/**
 * `InMemoryRoomStateStore`: the two maps as fields updated in place. Every method is
 * proved to leave the fields where the matching RoomState function says, so the
 * invariant and behaviour lemmas of RoomState apply to the store.
 */
module RoomStore {
  import opened Options
  import opened Text
  import opened LinkedMaps
  import opened RoomModels
  import opened RoomState
  import opened RoomStateLeave
  import opened RoomStateJoin

  class InMemoryRoomStateStore {
    /** room id to its members, keyed by session id in join order */
    var roomSessions: map<string, Room>
    /** session id to the room it is in */
    var sessionToRoom: map<string, string>

    function State(): Rooms
      reads this
    {
      Rooms(roomSessions, sessionToRoom)
    }

    ghost predicate Valid()
      reads this
    {
      RoomState.Valid(State())
    }

    constructor()
      ensures State() == Empty && Valid()
    {
      roomSessions := map[];
      sessionToRoom := map[];
      EmptyIsValid();
    }

    /** `leaveBySession`: drop the index entry, then the room entry, then the room if it
        became empty. */
    method LeaveBySession(sessionId: string) returns (result: LeaveResult)
      modifies this
      ensures LeaveOutcome(State(), result) == Leave(old(State()), sessionId)
      ensures old(Valid()) ==> Valid()
    {
      ghost var before := State();
      if sessionId !in sessionToRoom {
        result := Noop();
      } else {
        var roomId := sessionToRoom[sessionId];
        sessionToRoom := sessionToRoom - {sessionId};
        if roomId !in roomSessions {
          result := Noop();
        } else {
          var room := roomSessions[roomId];
          var removed := Get(room, sessionId);
          room := Remove(room, sessionId);
          roomSessions := roomSessions[roomId := room];
          if room == [] {
            roomSessions := roomSessions - {roomId};
          }
          if removed.None? {
            result := Noop();
          } else {
            result := Left(roomId, removed.value.participant);
          }
        }
      }
      if RoomState.Valid(before) {
        LeavePreservesValid(before, sessionId);
      }
    }

    /** `join`: validate the ids, leave the previous room, create the room if absent,
        check capacity, then record the participant in both maps. */
    method Join(roomId: Option<string>, sessionId: string, userId: Option<string>, displayName: Option<string>)
      returns (result: JoinResult)
      modifies this
      ensures JoinOutcome(State(), result) == RoomState.Join(old(State()), roomId, sessionId, userId, displayName)
      ensures old(Valid()) ==> Valid()
    {
      ghost var before := State();
      if !ValidJoinIds(roomId, userId) {
        result := Rejected(INVALID_JOIN, INVALID_JOIN_MESSAGE);
      } else {
        var _ := LeaveBySession(sessionId);
        result := Admit(roomId.value, sessionId, userId.value, displayName);
      }
      if RoomState.Valid(before) {
        JoinPreservesValid(before, roomId, sessionId, userId, displayName);
      }
    }

    /** The part of `join` after the previous room is left: create the room if absent,
        check capacity, then record the participant in both maps. */
    method Admit(id: string, sessionId: string, userId: string, displayName: Option<string>)
      returns (result: JoinResult)
      modifies this
      ensures var room := MembersOf(old(State()), id);
        var self := ParticipantSession(id, sessionId, Participant(userId, DisplayNameOrAnonymous(displayName), false));
        if |room| >= MAX_ROOM_CAPACITY then
          State() == old(State()) && result == Rejected(ROOM_FULL, ROOM_FULL_MESSAGE)
        else
          && State() == Rooms(old(roomSessions)[id := Put(room, sessionId, self)], old(sessionToRoom)[sessionId := id])
          && result == Accepted(RoomSnapshot(id, ParticipantsOf(Put(room, sessionId, self))), self)
    {
      if id !in roomSessions {
        roomSessions := roomSessions[id := []];
      }
      var room := roomSessions[id];
      if |room| >= MAX_ROOM_CAPACITY {
        result := Rejected(ROOM_FULL, ROOM_FULL_MESSAGE);
      } else {
        var participant := Participant(userId, DisplayNameOrAnonymous(displayName), false);
        var session := ParticipantSession(id, sessionId, participant);
        room := Put(room, sessionId, session);
        roomSessions := roomSessions[id := room];
        sessionToRoom := sessionToRoom[sessionId := id];
        var snapshot := SnapshotFrom(id, room);
        result := Accepted(snapshot, session);
      }
    }

    /** `getSnapshot`. */
    method GetSnapshot(roomId: string) returns (snapshot: Option<RoomSnapshot>)
      ensures snapshot == Snapshot(State(), roomId)
      ensures Valid() && snapshot.Some? ==> 0 < |snapshot.value.participants| <= MAX_ROOM_CAPACITY
    {
      if roomId !in roomSessions {
        snapshot := None;
      } else {
        var s := SnapshotFrom(roomId, roomSessions[roomId]);
        snapshot := Some(s);
        if Valid() {
          CapacityBound(State(), roomId);
        }
      }
    }

    /** `findBySession`. */
    method FindBySession(sessionId: string) returns (session: Option<ParticipantSession>)
      ensures session == Find(State(), sessionId)
      ensures Valid() ==> (session.Some? <==> sessionId in sessionToRoom)
      ensures Valid() && session.Some? ==>
        session.value.sessionId == sessionId && session.value.roomId == sessionToRoom[sessionId]
    {
      if sessionId !in sessionToRoom {
        session := None;
      } else {
        var roomId := sessionToRoom[sessionId];
        if roomId !in roomSessions {
          session := None;
        } else {
          session := Get(roomSessions[roomId], sessionId);
        }
      }
      if Valid() {
        FindAgreesWithIndex(State(), sessionId);
      }
    }

    /** `snapshotFrom`: copy the members' participants, in join order, into a list. */
    method SnapshotFrom(roomId: string, room: Room) returns (snapshot: RoomSnapshot)
      ensures snapshot.roomId == roomId
      ensures |snapshot.participants| == |room|
      ensures forall i :: 0 <= i < |room| ==> snapshot.participants[i] == room[i].1.participant
      ensures snapshot.participants == ParticipantsOf(room)
    {
      var participants: seq<Participant> := [];
      for i := 0 to |room|
        invariant |participants| == i
        invariant forall k :: 0 <= k < i ==> participants[k] == room[k].1.participant
      {
        participants := participants + [room[i].1.participant];
      }
      snapshot := RoomSnapshot(roomId, participants);
    }
  }
}
