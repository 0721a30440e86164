/**
 * `RoomMessageRouter`: the session registry and the outbox as fields, the store and the
 * AI service as collaborators. Each handler is proved to satisfy the matching relation
 * of Routing on the store before and after and on the messages it appended.
 */
module Router {
  import opened Options
  import opened Text
  import opened LinkedMaps
  import opened JsonNodes
  import opened RoomModels
  import opened RoomState
  import opened RoomStateLeave
  import opened RoomStateJoin
  import opened RoomStore
  import opened AIService
  import opened Routing

  class RoomMessageRouter {
    const store: InMemoryRoomStateStore
    const ai: AIRequest -> AIReply
    /** `sessions`: every registered session by id, with whether its transport is open */
    var sessions: Registry
    /** every message `send` has written, oldest first */
    var outbox: seq<Outgoing>

    constructor(store: InMemoryRoomStateStore, ai: AIRequest -> AIReply)
      ensures this.store == store && this.ai == ai
      ensures sessions == map[] && outbox == []
    {
      this.store := store;
      this.ai := ai;
      sessions := map[];
      outbox := [];
    }

    /** `register`: a session known by its id, open or not. */
    method Register(sessionId: string, open: bool)
      modifies this
      ensures sessions == old(sessions)[sessionId := open]
      ensures outbox == old(outbox)
    {
      sessions := sessions[sessionId := open];
    }

    /** `handleMessage`. */
    method HandleMessage(sessionId: string, msg: Incoming)
      modifies this, store
      ensures sessions == old(sessions)
      ensures |old(outbox)| <= |outbox| && outbox[..|old(outbox)|] == old(outbox)
      ensures Routed(sessions, old(store.State()), ai, sessionId, msg, store.State(), outbox[|old(outbox)|..])
      ensures old(store.Valid()) ==> store.Valid()
    {
      match msg
      case Malformed =>
        SendError(sessionId, INVALID_JSON, "Malformed message payload.");
      case Envelope(t, p) =>
        if t.None? || JavaBlank(t.value) {
          SendError(sessionId, INVALID_TYPE, "Message type is required.");
        } else if t.value == "join_room" {
          HandleJoin(sessionId, p);
        } else if t.value == "leave_room" {
          LeaveAndBroadcast(sessionId);
        } else if t.value in SIGNAL_TYPES {
          HandleSignal(sessionId, t.value, p);
        } else if t.value == "mute_state" {
          HandleMuteState(sessionId, p);
        } else if t.value == "ai_ping" {
          HandleAiPing(sessionId, p);
        } else {
          SendError(sessionId, UNSUPPORTED_TYPE, "Unsupported message type: " + t.value);
        }
    }

    /** `handleClose`: leave and broadcast first, then unregister. */
    method HandleClose(sessionId: string)
      modifies this, store
      ensures |old(outbox)| <= |outbox| && outbox[..|old(outbox)|] == old(outbox)
      ensures Closed(old(sessions), old(store.State()), sessionId, sessions, store.State(), outbox[|old(outbox)|..])
      ensures old(store.Valid()) ==> store.Valid()
    {
      LeaveAndBroadcast(sessionId);
      sessions := sessions - {sessionId};
    }

    /** `handleJoin`: the store's join, then the reply to its answer. */
    method HandleJoin(sessionId: string, payload: Option<Json>)
      modifies this, store
      ensures sessions == old(sessions)
      ensures |old(outbox)| <= |outbox| && outbox[..|old(outbox)|] == old(outbox)
      ensures JoinRouted(sessions, old(store.State()), sessionId, payload, store.State(), outbox[|old(outbox)|..])
      ensures old(store.Valid()) ==> store.Valid()
    {
      var roomId := TextField(payload, "roomId");
      var userId := TextField(payload, "userId");
      var displayName := TextField(payload, "displayName");
      var result := store.Join(roomId, sessionId, userId, displayName);
      ReplyToJoin(sessionId, result);
    }

    /** The branch of `handleJoin` after the store has answered. */
    method ReplyToJoin(sessionId: string, result: JoinResult)
      requires WellFormedJoin(result)
      modifies this
      ensures sessions == old(sessions)
      ensures |old(outbox)| <= |outbox| && outbox[..|old(outbox)|] == old(outbox)
      ensures JoinReplied(sessions, sessionId, result, store.State(), outbox[|old(outbox)|..])
    {
      ghost var before := outbox;
      ghost var st := store.State();
      if !result.accepted {
        SendError(sessionId, result.errorCode.value, result.errorMessage.value);
        assert outbox[|before|..] == Routing.SendError(sessions, sessionId, result.errorCode.value, result.errorMessage.value);
      } else {
        var snapshot, self := result.snapshot.value, result.self.value;
        Send(sessionId, "room_snapshot", SnapshotPayload(snapshot, self));
        ghost var first := outbox[|before|..];
        ghost var mid := outbox;
        BroadcastToRoomExcept(snapshot.roomId, sessionId, "user_joined", UserJoinedPayload(snapshot.roomId, self.participant));
        assert store.State() == st;
        ghost var rest := outbox[|mid|..];
        JoinRepliedFromParts(sessions, sessionId, result, st, first, rest);
        assert outbox[|before|..] == first + rest;
      }
    }

    /** `leaveAndBroadcast`. */
    method LeaveAndBroadcast(sessionId: string)
      modifies this, store
      ensures sessions == old(sessions)
      ensures |old(outbox)| <= |outbox| && outbox[..|old(outbox)|] == old(outbox)
      ensures LeaveRouted(sessions, old(store.State()), sessionId, store.State(), outbox[|old(outbox)|..])
      ensures old(store.Valid()) ==> store.Valid()
    {
      var result := store.LeaveBySession(sessionId);
      if result.left {
        BroadcastToRoomExcept(result.roomId.value, sessionId, "user_left",
                              UserLeftPayload(result.roomId.value, result.participant.value.userId));
      }
    }

    /** `handleSignal`. */
    method HandleSignal(sessionId: string, msgType: string, payload: Option<Json>)
      modifies this
      ensures sessions == old(sessions)
      ensures |old(outbox)| <= |outbox| && outbox[..|old(outbox)|] == old(outbox)
      ensures SignalRouted(sessions, store.State(), sessionId, msgType, payload, store.State(), outbox[|old(outbox)|..])
    {
      var sender := store.FindBySession(sessionId);
      if sender.None? {
        SendError(sessionId, NOT_IN_ROOM, "Join a room before signaling.");
        return;
      }
      var targetUserId := TextField(payload, TARGET_USER_ID);
      if targetUserId.None? || JavaBlank(targetUserId.value) {
        SendError(sessionId, TARGET_REQUIRED, "targetUserId is required.");
        return;
      }
      var target := FindSessionByRoomAndUserId(sender.value.roomId, targetUserId.value);
      if target.None? {
        SendError(sessionId, TARGET_NOT_FOUND, "Target user is not connected.");
        return;
      }
      var forward := BuildForwardPayload(payload, sender.value.participant.userId);
      Send(target.value, msgType, forward);
    }

    /** `handleMuteState`: broadcast only; the store is not touched. */
    method HandleMuteState(sessionId: string, payload: Option<Json>)
      modifies this
      ensures sessions == old(sessions)
      ensures |old(outbox)| <= |outbox| && outbox[..|old(outbox)|] == old(outbox)
      ensures MuteRouted(sessions, store.State(), sessionId, payload, store.State(), outbox[|old(outbox)|..])
    {
      var sender := store.FindBySession(sessionId);
      if sender.None? {
        SendError(sessionId, NOT_IN_ROOM, "Join a room before updating mute state.");
        return;
      }
      var muted := MutedFlag(payload);
      var member := sender.value;
      BroadcastToRoomExcept(member.roomId, sessionId, "user_muted",
                            UserMutedPayload(member.roomId, member.participant.userId, muted));
    }

    /** `handleAiPing`. */
    method HandleAiPing(sessionId: string, payload: Option<Json>)
      modifies this
      ensures sessions == old(sessions)
      ensures |old(outbox)| <= |outbox| && outbox[..|old(outbox)|] == old(outbox)
      ensures AiPingRouted(sessions, store.State(), ai, sessionId, payload, store.State(), outbox[|old(outbox)|..])
    {
      var sender := store.FindBySession(sessionId);
      if sender.None? {
        SendError(sessionId, NOT_IN_ROOM, "Join a room before using AI features.");
        return;
      }
      var text := TextField(payload, "text");
      var reply := ai(AIRequest(sender.value.roomId, sender.value.participant.userId,
                                Some(if text.None? then "" else text.value)));
      Send(sessionId, "ai_reply", AiReplyPayload(sender.value.roomId, reply.text));
    }

    /** `findSessionByRoomAndUserId`: the first open session, in registry order, that the
        store places in the room with that user id. */
    method FindSessionByRoomAndUserId(roomId: string, userId: string) returns (target: Option<string>)
      ensures target.None? <==> SignalCandidates(sessions, store.State(), roomId, userId) == {}
      ensures target.Some? ==> target.value in SignalCandidates(sessions, store.State(), roomId, userId)
    {
      var pending := sessions.Keys;
      target := None;
      while pending != {} && target.None?
        invariant pending <= sessions.Keys
        invariant target.None? ==>
          forall s :: s in sessions.Keys - pending ==> s !in SignalCandidates(sessions, store.State(), roomId, userId)
        invariant target.Some? ==> target.value in SignalCandidates(sessions, store.State(), roomId, userId)
        decreases |pending|
      {
        var s :| s in pending;
        var member := store.FindBySession(s);
        if sessions[s] && member.Some? && member.value.roomId == roomId && member.value.participant.userId == userId {
          target := Some(s);
        }
        pending := pending - {s};
      }
    }

    /** `broadcastToRoomExcept`: one message to every open session, other than the excluded
        one, that the store places in the room. */
    method BroadcastToRoomExcept(roomId: string, excluded: string, msgType: string, payload: Payload)
      modifies this
      ensures sessions == old(sessions)
      ensures |old(outbox)| <= |outbox| && outbox[..|old(outbox)|] == old(outbox)
      ensures SentOnceEach(outbox[|old(outbox)|..], Recipients(sessions, store.State(), roomId, excluded), msgType, payload)
    {
      ghost var st := store.State();
      ghost var recipients := Recipients(sessions, st, roomId, excluded);
      ghost var done: set<string> := {};
      ghost var sent: seq<Outgoing> := [];
      var pending := sessions.Keys;
      while pending != {}
        invariant sessions == old(sessions) && store.State() == st
        invariant pending + done == sessions.Keys && pending !! done
        invariant outbox == old(outbox) + sent
        invariant SentOnceEach(sent, recipients * done, msgType, payload)
        decreases |pending|
      {
        var s :| s in pending;
        BroadcastStep(sessions, st, roomId, excluded, done, s, sent, msgType, payload);
        ghost var passes := IsOpen(sessions, s) && s != excluded && InRoom(st, s, roomId);
        SendIfRecipient(s, roomId, excluded, msgType, payload);
        if passes {
          AppendAssoc(old(outbox), sent, [Outgoing(s, msgType, payload)]);
          sent := sent + [Outgoing(s, msgType, payload)];
        }
        MoveToDone(pending, done, s);
        pending := pending - {s};
        done := done + {s};
      }
      assert recipients * done == recipients;
      assert outbox[|old(outbox)|..] == sent;
    }

    /** The stream's three filters and the `send` for one registered session. */
    method SendIfRecipient(s: string, roomId: string, excluded: string, msgType: string, payload: Payload)
      requires s in sessions
      modifies this
      ensures sessions == old(sessions)
      ensures outbox == old(outbox) +
        (if IsOpen(sessions, s) && s != excluded && InRoom(store.State(), s, roomId)
         then [Outgoing(s, msgType, payload)] else [])
    {
      var member := store.FindBySession(s);
      if sessions[s] && s != excluded && member.Some? && member.value.roomId == roomId {
        Send(s, msgType, payload);
      }
    }

    /** The `forEachRemaining` loop and the final `fromUserId` put of `handleSignal`. */
    method BuildForwardPayload(payload: Option<Json>, fromUserId: string) returns (forward: Payload)
      ensures forward == Forwarded(payload, fromUserId)
    {
      var fields := InboundFields(payload);
      forward := [];
      for i := 0 to |fields|
        invariant forward == CopiedFields(fields[..i])
      {
        assert fields[..i + 1][..i] == fields[..i];
        if fields[i].0 != TARGET_USER_ID {
          forward := Put(forward, fields[i].0, VJson(fields[i].1));
        }
      }
      assert fields[..|fields|] == fields;
      forward := Put(forward, FROM_USER_ID, VString(fromUserId));
    }

    /** `sendError`. */
    method SendError(sessionId: string, code: string, message: string)
      modifies this
      ensures sessions == old(sessions)
      ensures outbox == old(outbox) + Routing.SendError(sessions, sessionId, code, message)
    {
      Send(sessionId, "error", ErrorPayload(code, message));
    }

    /** `send`: dropped unless the session is registered and open. */
    method Send(sessionId: string, msgType: string, payload: Payload)
      modifies this
      ensures sessions == old(sessions)
      ensures outbox == old(outbox) + SendTo(sessions, sessionId, msgType, payload)
    {
      if sessionId in sessions && sessions[sessionId] {
        outbox := outbox + [Outgoing(sessionId, msgType, payload)];
      }
    }
  }
}
