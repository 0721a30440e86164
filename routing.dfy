/**
 * What `RoomMessageRouter` does with one decoded message, as a relation between the
 * store and registry before, and the store and outbound messages after. Broadcasts go
 * to a SET of sessions (the registry is a hash map with no fixed iteration order), so
 * the relation fixes who receives what but not in which order; and a signal goes to
 * some one of the matching sessions (`findFirst` over the same unordered registry).
 */
module Routing {
  import opened Options
  import opened Text
  import opened LinkedMaps
  import opened JsonNodes
  import opened RoomModels
  import opened RoomState
  import opened RoomStateLeave
  import opened RoomStateJoin
  import opened AIService
  import opened WsProtocol

  // ---------------------------------------------------------------- wire values

  /** A value in an outbound payload (what Jackson would serialise). */
  datatype Value =
    | VString(s: string)
    | VBool(b: bool)
    | VParticipant(p: Participant)
    | VParticipants(ps: seq<Participant>)
    | VJson(j: Json)

  type Payload = LinkedMap<Value>

  /** One `OutgoingMessage(type, payload)` written to one session. */
  datatype Outgoing = Outgoing(sessionId: string, msgType: string, payload: Payload)

  /** What `objectMapper.readValue(payload, IncomingMessage.class)` made of a text frame:
      a decoding failure, or the envelope's `type` and `payload` (either may be null). */
  datatype Incoming = Malformed | Envelope(msgType: Option<string>, payload: Option<Json>)

  /** The registered sessions by id, each with its transport's `isOpen()`. */
  type Registry = map<string, bool>

  const INVALID_JSON := "INVALID_JSON"
  const INVALID_TYPE := "INVALID_TYPE"
  const UNSUPPORTED_TYPE := "UNSUPPORTED_TYPE"
  const NOT_IN_ROOM := "NOT_IN_ROOM"
  const TARGET_REQUIRED := "TARGET_REQUIRED"
  const TARGET_NOT_FOUND := "TARGET_NOT_FOUND"

  const SIGNAL_TYPES: set<string> := {"signal_offer", "signal_answer", "signal_ice"}
  const BROADCAST_TYPES: set<string> := {"user_joined", "user_left", "user_muted"}

  const TARGET_USER_ID := "targetUserId"
  const FROM_USER_ID := "fromUserId"

  // ---------------------------------------------------------------- send and recipients

  predicate IsOpen(reg: Registry, sessionId: string) {
    sessionId in reg && reg[sessionId]
  }

  /** `send`: one message when the session is registered and open, otherwise none. */
  function SendTo(reg: Registry, sessionId: string, msgType: string, payload: Payload): (out: seq<Outgoing>)
    ensures |out| <= 1
    ensures out != [] <==> IsOpen(reg, sessionId)
    ensures forall i :: 0 <= i < |out| ==> out[i] == Outgoing(sessionId, msgType, payload)
  {
    if IsOpen(reg, sessionId) then [Outgoing(sessionId, msgType, payload)] else []
  }

  function ErrorPayload(code: string, message: string): Payload {
    [("code", VString(code)), ("message", VString(message))]
  }

  /** `sendError`. */
  function SendError(reg: Registry, sessionId: string, code: string, message: string): seq<Outgoing> {
    SendTo(reg, sessionId, "error", ErrorPayload(code, message))
  }

  /** The store places the session in room `roomId`. */
  predicate InRoom(st: Rooms, sessionId: string, roomId: string) {
    Find(st, sessionId).Some? && Find(st, sessionId).value.roomId == roomId
  }

  /** `broadcastToRoomExcept`'s filters: open, not the excluded session, in the room. */
  function Recipients(reg: Registry, st: Rooms, roomId: string, excluded: string): set<string> {
    set s | s in reg.Keys && reg[s] && s != excluded && InRoom(st, s, roomId)
  }

  /** `findSessionByRoomAndUserId`'s filters: open, in the room, with that user id. */
  function SignalCandidates(reg: Registry, st: Rooms, roomId: string, userId: string): set<string> {
    set s | s in reg.Keys && reg[s] && InRoom(st, s, roomId) && Find(st, s).value.participant.userId == userId
  }

  function SessionIds(out: seq<Outgoing>): set<string> {
    set i | 0 <= i < |out| :: out[i].sessionId
  }

  /** `out` holds exactly one `(s, msgType, payload)` for each `s` in `recipients`, in
      some order. */
  ghost predicate SentOnceEach(out: seq<Outgoing>, recipients: set<string>, msgType: string, payload: Payload) {
    && SessionIds(out) == recipients
    && (forall i :: 0 <= i < |out| ==> out[i].msgType == msgType && out[i].payload == payload)
    && (forall i, j :: 0 <= i < j < |out| ==> out[i].sessionId != out[j].sessionId)
  }

  // ---------------------------------------------------------------- payloads

  function SnapshotPayload(snapshot: RoomSnapshot, self: ParticipantSession): Payload {
    [("roomId", VString(snapshot.roomId)), ("selfUserId", VString(self.participant.userId)),
     ("participants", VParticipants(snapshot.participants))]
  }

  function UserJoinedPayload(roomId: string, user: Participant): Payload {
    [("roomId", VString(roomId)), ("user", VParticipant(user))]
  }

  function UserLeftPayload(roomId: string, userId: string): Payload {
    [("roomId", VString(roomId)), ("userId", VString(userId))]
  }

  function UserMutedPayload(roomId: string, userId: string, muted: bool): Payload {
    [("roomId", VString(roomId)), ("userId", VString(userId)), ("muted", VBool(muted))]
  }

  function AiReplyPayload(roomId: string, text: string): Payload {
    [("roomId", VString(roomId)), ("text", VString(text))]
  }

  /** The fields of an object payload, in document order; nothing for anything else. */
  function InboundFields(payload: Option<Json>): LinkedMap<Json> {
    if payload.Some? && payload.value.JObject? then payload.value.fields else []
  }

  /** The `forEachRemaining` loop: every field except `targetUserId`, `put` in order. */
  function CopiedFields(fields: LinkedMap<Json>): Payload
    decreases |fields|
  {
    if fields == [] then []
    else
      var init := CopiedFields(fields[..|fields| - 1]);
      var last := fields[|fields| - 1];
      if last.0 == TARGET_USER_ID then init else Put(init, last.0, VJson(last.1))
  }

  /** `handleSignal`'s `forwardPayload`. */
  function Forwarded(payload: Option<Json>, fromUserId: string): Payload {
    Put(CopiedFields(InboundFields(payload)), FROM_USER_ID, VString(fromUserId))
  }

  /** The inbound fields other than `targetUserId`, in order: the independent definition
      `CopiedFields` is compared with. */
  function WithoutTarget(fields: LinkedMap<Json>): (r: Payload)
    ensures forall e :: e in r ==> e.0 != TARGET_USER_ID
  {
    if fields == [] then []
    else if fields[0].0 == TARGET_USER_ID then WithoutTarget(fields[1..])
    else [(fields[0].0, VJson(fields[0].1))] + WithoutTarget(fields[1..])
  }

  // ---------------------------------------------------------------- the handlers

  /** `handleJoin`. */
  ghost predicate JoinRouted(reg: Registry, st: Rooms, sessionId: string, payload: Option<Json>,
                             st': Rooms, out: seq<Outgoing>) {
    var o := Join(st, TextField(payload, "roomId"), sessionId, TextField(payload, "userId"),
                  TextField(payload, "displayName"));
    st' == o.state && JoinReplied(reg, sessionId, o.result, st', out)
  }

  /** What `handleJoin` sends for the store's answer: the store's error, or the snapshot
      to the joiner and `user_joined` to the room's other open sessions. */
  ghost predicate JoinReplied(reg: Registry, sessionId: string, result: JoinResult, st': Rooms, out: seq<Outgoing>)
    requires WellFormedJoin(result)
  {
    if !result.accepted then out == SendError(reg, sessionId, result.errorCode.value, result.errorMessage.value)
    else
      var snapshot, self := result.snapshot.value, result.self.value;
      var first := SendTo(reg, sessionId, "room_snapshot", SnapshotPayload(snapshot, self));
      && |first| <= |out| && out[..|first|] == first
      && SentOnceEach(out[|first|..], Recipients(reg, st', snapshot.roomId, sessionId), "user_joined",
                      UserJoinedPayload(snapshot.roomId, self.participant))
  }

  /** An accepted join's reply assembled from its two parts. */
  lemma JoinRepliedFromParts(reg: Registry, sessionId: string, result: JoinResult, st': Rooms,
                             first: seq<Outgoing>, rest: seq<Outgoing>)
    requires WellFormedJoin(result) && result.accepted
    requires first == SendTo(reg, sessionId, "room_snapshot", SnapshotPayload(result.snapshot.value, result.self.value))
    requires SentOnceEach(rest, Recipients(reg, st', result.snapshot.value.roomId, sessionId), "user_joined",
                          UserJoinedPayload(result.snapshot.value.roomId, result.self.value.participant))
    ensures JoinReplied(reg, sessionId, result, st', first + rest)
  {
    assert (first + rest)[..|first|] == first;
    assert (first + rest)[|first|..] == rest;
  }

  /** `leaveAndBroadcast`. */
  ghost predicate LeaveRouted(reg: Registry, st: Rooms, sessionId: string, st': Rooms, out: seq<Outgoing>) {
    var o := Leave(st, sessionId);
    st' == o.state && LeaveReplied(reg, sessionId, o.result, st', out)
  }

  /** What `leaveAndBroadcast` sends for the store's answer: nothing after a no-op,
      otherwise `user_left` to the room's remaining open sessions. */
  ghost predicate LeaveReplied(reg: Registry, sessionId: string, result: LeaveResult, st': Rooms, out: seq<Outgoing>)
    requires WellFormedLeave(result)
  {
    if !result.left then out == []
    else SentOnceEach(out, Recipients(reg, st', result.roomId.value, sessionId), "user_left",
                      UserLeftPayload(result.roomId.value, result.participant.value.userId))
  }

  /** `handleSignal`. */
  ghost predicate SignalRouted(reg: Registry, st: Rooms, sessionId: string, msgType: string, payload: Option<Json>,
                               st': Rooms, out: seq<Outgoing>) {
    var sender := Find(st, sessionId);
    var target := TextField(payload, TARGET_USER_ID);
    && st' == st
    && if sender.None? then out == SendError(reg, sessionId, NOT_IN_ROOM, "Join a room before signaling.")
       else if target.None? || JavaBlank(target.value) then
         out == SendError(reg, sessionId, TARGET_REQUIRED, "targetUserId is required.")
       else if SignalCandidates(reg, st, sender.value.roomId, target.value) == {} then
         out == SendError(reg, sessionId, TARGET_NOT_FOUND, "Target user is not connected.")
       else
         && |out| == 1
         && out[0].sessionId in SignalCandidates(reg, st, sender.value.roomId, target.value)
         && out[0].msgType == msgType
         && out[0].payload == Forwarded(payload, sender.value.participant.userId)
  }

  /** `handleMuteState`. */
  ghost predicate MuteRouted(reg: Registry, st: Rooms, sessionId: string, payload: Option<Json>,
                             st': Rooms, out: seq<Outgoing>) {
    var sender := Find(st, sessionId);
    && st' == st
    && if sender.None? then out == SendError(reg, sessionId, NOT_IN_ROOM, "Join a room before updating mute state.")
       else SentOnceEach(out, Recipients(reg, st, sender.value.roomId, sessionId), "user_muted",
                         UserMutedPayload(sender.value.roomId, sender.value.participant.userId, MutedFlag(payload)))
  }

  /** `handleAiPing`, with the AI service as the function `ai`. */
  ghost predicate AiPingRouted(reg: Registry, st: Rooms, ai: AIRequest -> AIReply, sessionId: string,
                               payload: Option<Json>, st': Rooms, out: seq<Outgoing>) {
    var sender := Find(st, sessionId);
    && st' == st
    && if sender.None? then out == SendError(reg, sessionId, NOT_IN_ROOM, "Join a room before using AI features.")
       else
         var request := AIRequest(sender.value.roomId, sender.value.participant.userId,
                                  Some(TextField(payload, "text").GetOr("")));
         out == SendTo(reg, sessionId, "ai_reply", AiReplyPayload(sender.value.roomId, ai(request).text))
  }

  /** `handleMessage`: reject what cannot be read, then dispatch on the type. */
  ghost predicate Routed(reg: Registry, st: Rooms, ai: AIRequest -> AIReply, sessionId: string, msg: Incoming,
                         st': Rooms, out: seq<Outgoing>) {
    match msg
    case Malformed => st' == st && out == SendError(reg, sessionId, INVALID_JSON, "Malformed message payload.")
    case Envelope(t, p) =>
      if t.None? || JavaBlank(t.value) then
        st' == st && out == SendError(reg, sessionId, INVALID_TYPE, "Message type is required.")
      else if t.value == "join_room" then JoinRouted(reg, st, sessionId, p, st', out)
      else if t.value == "leave_room" then LeaveRouted(reg, st, sessionId, st', out)
      else if t.value in SIGNAL_TYPES then SignalRouted(reg, st, sessionId, t.value, p, st', out)
      else if t.value == "mute_state" then MuteRouted(reg, st, sessionId, p, st', out)
      else if t.value == "ai_ping" then AiPingRouted(reg, st, ai, sessionId, p, st', out)
      else st' == st && out == SendError(reg, sessionId, UNSUPPORTED_TYPE, "Unsupported message type: " + t.value)
  }

  /** `handleClose`: leave and broadcast while still registered, then unregister. */
  ghost predicate Closed(reg: Registry, st: Rooms, sessionId: string, reg': Registry, st': Rooms, out: seq<Outgoing>) {
    LeaveRouted(reg, st, sessionId, st', out) && reg' == reg - {sessionId}
  }

  // ---------------------------------------------------------------- forwarded signals

  function Wrap(field: Option<Json>): Option<Value> {
    if field.None? then None else Some(VJson(field.value))
  }

  lemma {:induction false} WithoutTargetGet(fields: LinkedMap<Json>, k: string)
    ensures Get(WithoutTarget(fields), k) == if k == TARGET_USER_ID then None else Wrap(Get(fields, k))
  {
    if fields != [] {
      WithoutTargetGet(fields[1..], k);
    }
  }

  lemma {:induction false} WithoutTargetAppend(fields: LinkedMap<Json>, last: (string, Json))
    ensures WithoutTarget(fields + [last])
         == WithoutTarget(fields) + (if last.0 == TARGET_USER_ID then [] else [(last.0, VJson(last.1))])
  {
    if fields != [] {
      assert (fields + [last])[1..] == fields[1..] + [last];
      WithoutTargetAppend(fields[1..], last);
    }
  }

  /** On an object with distinct keys (as a decoded JSON object has), the copy loop keeps
      every field but `targetUserId`, in document order. */
  lemma {:induction false} CopiedIsWithoutTarget(fields: LinkedMap<Json>)
    requires DistinctKeys(fields)
    ensures CopiedFields(fields) == WithoutTarget(fields)
    decreases |fields|
  {
    if fields != [] {
      var init, last := fields[..|fields| - 1], fields[|fields| - 1];
      assert fields == init + [last];
      CopiedIsWithoutTarget(init);
      WithoutTargetAppend(init, last);
      if last.0 != TARGET_USER_ID {
        WithoutTargetGet(init, last.0);
        PutShape(WithoutTarget(init), last.0, VJson(last.1));
      }
    }
  }

  /** The forwarded signal payload: `fromUserId` is the sender's user id, `targetUserId`
      is gone, every other inbound field is copied unchanged, and the fields keep their
      inbound order with `fromUserId` appended (or overwritten in place when the inbound
      payload had one). */
  lemma ForwardedContents(payload: Option<Json>, fromUserId: string)
    requires DistinctKeys(InboundFields(payload))
    ensures var fw, fields := Forwarded(payload, fromUserId), InboundFields(payload);
      && Get(fw, FROM_USER_ID) == Some(VString(fromUserId))
      && Get(fw, TARGET_USER_ID).None?
      && (forall k :: k != FROM_USER_ID && k != TARGET_USER_ID ==> Get(fw, k) == Wrap(Get(fields, k)))
      && (Get(fields, FROM_USER_ID).None? ==> fw == WithoutTarget(fields) + [(FROM_USER_ID, VString(fromUserId))])
      && (Get(fields, FROM_USER_ID).Some? ==> Keys(fw) == Keys(WithoutTarget(fields)))
  {
    var fields := InboundFields(payload);
    CopiedIsWithoutTarget(fields);
    var copied := WithoutTarget(fields);
    PutGet(copied, FROM_USER_ID, VString(fromUserId));
    PutShape(copied, FROM_USER_ID, VString(fromUserId));
    WithoutTargetGet(fields, FROM_USER_ID);
    WithoutTargetGet(fields, TARGET_USER_ID);
    forall k | k != FROM_USER_ID && k != TARGET_USER_ID
      ensures Get(Forwarded(payload, fromUserId), k) == Wrap(Get(fields, k))
    {
      WithoutTargetGet(fields, k);
    }
  }

  // ---------------------------------------------------------------- broadcasts

  /** Distinct session ids: as many recipients as messages. */
  lemma {:induction false} SessionIdsCount(out: seq<Outgoing>)
    requires forall i, j :: 0 <= i < j < |out| ==> out[i].sessionId != out[j].sessionId
    ensures |SessionIds(out)| == |out|
  {
    if out != [] {
      SessionIdsCount(out[1..]);
      assert SessionIds(out) == {out[0].sessionId} + SessionIds(out[1..]);
      assert out[0].sessionId !in SessionIds(out[1..]);
    }
  }

  /** One more message, to a session not yet reached, extends a broadcast by that session. */
  lemma SentOnceEachAppend(out: seq<Outgoing>, recipients: set<string>, msgType: string, payload: Payload,
                           sessionId: string)
    requires SentOnceEach(out, recipients, msgType, payload) && sessionId !in recipients
    ensures SentOnceEach(out + [Outgoing(sessionId, msgType, payload)], recipients + {sessionId}, msgType, payload)
  {
    var out' := out + [Outgoing(sessionId, msgType, payload)];
    assert SessionIds(out') == SessionIds(out) + {sessionId} by {
      assert forall i :: 0 <= i < |out| ==> out'[i] == out[i];
      assert out'[|out|].sessionId == sessionId;
    }
    assert forall i :: 0 <= i < |out| ==> out[i].sessionId in SessionIds(out);
  }

  /** Looking at one more session adds it to the broadcast exactly when it passes the filters. */
  lemma RecipientsStep(reg: Registry, st: Rooms, roomId: string, excluded: string, done: set<string>, s: string)
    ensures var r := Recipients(reg, st, roomId, excluded);
      r * (done + {s}) == r * done + (if IsOpen(reg, s) && s != excluded && InRoom(st, s, roomId) then {s} else {})
  {
  }

  /** One step of the broadcast loop: the next session gets the message exactly when it
      passes the filters, and the messages so far stay one per recipient looked at. */
  lemma BroadcastStep(reg: Registry, st: Rooms, roomId: string, excluded: string, done: set<string>,
                      s: string, sent: seq<Outgoing>, msgType: string, payload: Payload)
    requires s !in done
    requires SentOnceEach(sent, Recipients(reg, st, roomId, excluded) * done, msgType, payload)
    ensures var r := Recipients(reg, st, roomId, excluded);
      if IsOpen(reg, s) && s != excluded && InRoom(st, s, roomId)
      then SentOnceEach(sent + [Outgoing(s, msgType, payload)], r * (done + {s}), msgType, payload)
      else SentOnceEach(sent, r * (done + {s}), msgType, payload)
  {
    var r := Recipients(reg, st, roomId, excluded);
    RecipientsStep(reg, st, roomId, excluded, done, s);
    if IsOpen(reg, s) && s != excluded && InRoom(st, s, roomId) {
      SentOnceEachAppend(sent, r * done, msgType, payload, s);
    }
  }

  /** Moving one pending element to the done set keeps the two disjoint and their union. */
  lemma MoveToDone<T>(pending: set<T>, done: set<T>, s: T)
    requires s in pending && pending !! done
    ensures (pending - {s}) + (done + {s}) == pending + done && (pending - {s}) !! (done + {s})
  {
  }

  lemma AppendAssoc<T>(a: seq<T>, b: seq<T>, c: seq<T>)
    ensures a + b + c == a + (b + c)
  {
  }

  /** A broadcast is one message per recipient, each of the broadcast's type and payload. */
  lemma SentOnceEachFacts(out: seq<Outgoing>, recipients: set<string>, msgType: string, payload: Payload)
    requires SentOnceEach(out, recipients, msgType, payload)
    ensures |out| == |recipients|
    ensures forall i :: 0 <= i < |out| ==> out[i] == Outgoing(out[i].sessionId, msgType, payload)
    ensures forall i :: 0 <= i < |out| ==> out[i].sessionId in recipients
  {
    SessionIdsCount(out);
    assert forall i :: 0 <= i < |out| ==> out[i].sessionId in SessionIds(out);
  }

  /** The sessions a room holds. */
  function RoomMembers(st: Rooms, roomId: string): set<string> {
    set e | e in MembersOf(st, roomId) :: e.0
  }

  /** In a valid store, being placed in a room is being one of its members. */
  lemma InRoomIsMember(st: Rooms, sessionId: string, roomId: string)
    requires Valid(st)
    ensures InRoom(st, sessionId, roomId) <==> sessionId in RoomMembers(st, roomId)
  {
    FindAgreesWithIndex(st, sessionId);
    if sessionId in RoomMembers(st, roomId) {
      var e :| e in MembersOf(st, roomId) && e.0 == sessionId;
      assert Get(st.roomSessions[roomId], sessionId).Some?;
    }
    if InRoom(st, sessionId, roomId) {
      var v := Get(st.roomSessions[roomId], sessionId).value;
      assert (sessionId, v) in MembersOf(st, roomId);
    }
  }

  /** In a valid store, a broadcast to a room reaches its open members but the excluded one. */
  lemma RecipientsAreOpenMembers(reg: Registry, st: Rooms, roomId: string, excluded: string)
    requires Valid(st)
    ensures Recipients(reg, st, roomId, excluded) == OpenPeers(reg, st, roomId, excluded)
  {
    forall s ensures s in Recipients(reg, st, roomId, excluded)
                 <==> s in RoomMembers(st, roomId) && IsOpen(reg, s) && s != excluded {
      InRoomIsMember(st, s, roomId);
    }
  }

  // ---------------------------------------------------------------- what routing promises

  /** Every message goes to an open registered session and has a server message type;
      broadcasts never go back to the session that caused them, and replies other than
      forwarded signals go only to it. */
  ghost predicate WellAddressed(reg: Registry, sessionId: string, out: seq<Outgoing>) {
    forall i :: 0 <= i < |out| ==>
      && IsOpen(reg, out[i].sessionId)
      && out[i].msgType in SERVER_MESSAGE_TYPES
      && (out[i].msgType in BROADCAST_TYPES ==> out[i].sessionId != sessionId)
      && (out[i].msgType !in BROADCAST_TYPES && out[i].msgType !in SIGNAL_TYPES ==> out[i].sessionId == sessionId)
  }

  lemma SendToWellAddressed(reg: Registry, sessionId: string, msgType: string, payload: Payload)
    requires msgType in SERVER_MESSAGE_TYPES && msgType !in BROADCAST_TYPES && msgType !in SIGNAL_TYPES
    ensures WellAddressed(reg, sessionId, SendTo(reg, sessionId, msgType, payload))
  {
  }

  lemma BroadcastWellAddressed(reg: Registry, st: Rooms, roomId: string, sessionId: string, out: seq<Outgoing>,
                               msgType: string, payload: Payload)
    requires SentOnceEach(out, Recipients(reg, st, roomId, sessionId), msgType, payload)
    requires msgType in BROADCAST_TYPES
    ensures WellAddressed(reg, sessionId, out)
  {
    SentOnceEachFacts(out, Recipients(reg, st, roomId, sessionId), msgType, payload);
  }

  lemma JoinRepliedWellAddressed(reg: Registry, sessionId: string, result: JoinResult, st': Rooms,
                                 out: seq<Outgoing>)
    requires WellFormedJoin(result) && JoinReplied(reg, sessionId, result, st', out)
    ensures WellAddressed(reg, sessionId, out)
  {
    if result.accepted {
      var snapshot, self := result.snapshot.value, result.self.value;
      var first := SendTo(reg, sessionId, "room_snapshot", SnapshotPayload(snapshot, self));
      var rest := out[|first|..];
      BroadcastWellAddressed(reg, st', snapshot.roomId, sessionId, rest, "user_joined",
                             UserJoinedPayload(snapshot.roomId, self.participant));
      assert out == first + rest;
    }
  }

  lemma LeaveRepliedWellAddressed(reg: Registry, sessionId: string, result: LeaveResult, st': Rooms,
                                  out: seq<Outgoing>)
    requires WellFormedLeave(result) && LeaveReplied(reg, sessionId, result, st', out)
    ensures WellAddressed(reg, sessionId, out)
  {
    if result.left {
      BroadcastWellAddressed(reg, st', result.roomId.value, sessionId, out, "user_left",
                             UserLeftPayload(result.roomId.value, result.participant.value.userId));
    }
  }

  lemma SignalRoutedWellAddressed(reg: Registry, st: Rooms, sessionId: string, msgType: string,
                                  payload: Option<Json>, st': Rooms, out: seq<Outgoing>)
    requires msgType in SIGNAL_TYPES && SignalRouted(reg, st, sessionId, msgType, payload, st', out)
    ensures WellAddressed(reg, sessionId, out)
  {
    SignalRoutedShape(reg, st, sessionId, msgType, payload, st', out);
    SignalTypesAreServerTypes(msgType);
    assert "error" in SERVER_MESSAGE_TYPES;
    assert "error" !in BROADCAST_TYPES && "error" !in SIGNAL_TYPES by {
      assert "error"[0] != "user_joined"[0] && "error"[0] != "signal_ice"[0];
    }
  }

  /** A signal's reply is one message at most, to an open session: an error to the sender
      or the signal itself. */
  lemma SignalRoutedShape(reg: Registry, st: Rooms, sessionId: string, msgType: string,
                          payload: Option<Json>, st': Rooms, out: seq<Outgoing>)
    requires SignalRouted(reg, st, sessionId, msgType, payload, st', out)
    ensures |out| <= 1
    ensures forall i :: 0 <= i < |out| ==>
      && IsOpen(reg, out[i].sessionId)
      && ((out[i].msgType == "error" && out[i].sessionId == sessionId) || out[i].msgType == msgType)
  {
    var sender := Find(st, sessionId);
    var target := TextField(payload, TARGET_USER_ID);
    if sender.None? {
      ErrorReplyShape(reg, sessionId, NOT_IN_ROOM, "Join a room before signaling.", out);
    } else if target.None? || JavaBlank(target.value) {
      ErrorReplyShape(reg, sessionId, TARGET_REQUIRED, "targetUserId is required.", out);
    } else if SignalCandidates(reg, st, sender.value.roomId, target.value) == {} {
      ErrorReplyShape(reg, sessionId, TARGET_NOT_FOUND, "Target user is not connected.", out);
    } else {
      var candidates := SignalCandidates(reg, st, sender.value.roomId, target.value);
      assert |out| == 1 && out[0].sessionId in candidates && out[0].msgType == msgType;
      forall i | 0 <= i < |out|
        ensures IsOpen(reg, out[i].sessionId)
        ensures (out[i].msgType == "error" && out[i].sessionId == sessionId) || out[i].msgType == msgType
      {
        assert i == 0;
        CandidateIsOpen(reg, st, sender.value.roomId, target.value, out[0].sessionId);
      }
    }
  }

  lemma CandidateIsOpen(reg: Registry, st: Rooms, roomId: string, userId: string, s: string)
    requires s in SignalCandidates(reg, st, roomId, userId)
    ensures IsOpen(reg, s)
  {
  }

  lemma ErrorReplyShape(reg: Registry, sessionId: string, code: string, message: string, out: seq<Outgoing>)
    requires out == SendError(reg, sessionId, code, message)
    ensures |out| <= 1
    ensures forall i :: 0 <= i < |out| ==>
      IsOpen(reg, out[i].sessionId) && out[i].msgType == "error" && out[i].sessionId == sessionId
  {
  }

  /** An error reply, whatever its code and message, goes to the session alone. */
  lemma ErrorWellAddressed(reg: Registry, sessionId: string)
    ensures forall code, message :: WellAddressed(reg, sessionId, SendError(reg, sessionId, code, message))
  {
    assert "error" in SERVER_MESSAGE_TYPES;
    assert "error" !in BROADCAST_TYPES && "error" !in SIGNAL_TYPES by {
      assert "error"[0] != "user_joined"[0] && "error"[0] != "signal_ice"[0];
    }
    forall code, message ensures WellAddressed(reg, sessionId, SendError(reg, sessionId, code, message)) {
      SendToWellAddressed(reg, sessionId, "error", ErrorPayload(code, message));
    }
  }

  lemma SignalTypesAreServerTypes(msgType: string)
    requires msgType in SIGNAL_TYPES
    ensures msgType in SERVER_MESSAGE_TYPES && msgType !in BROADCAST_TYPES
  {
    assert msgType[0] == 's';
  }

  /** The outbound traffic of every routed message is well addressed. */
  lemma RoutedWellAddressed(reg: Registry, st: Rooms, ai: AIRequest -> AIReply, sessionId: string, msg: Incoming,
                            st': Rooms, out: seq<Outgoing>)
    requires Routed(reg, st, ai, sessionId, msg, st', out)
    ensures WellAddressed(reg, sessionId, out)
  {
    ErrorWellAddressed(reg, sessionId);
    match msg
    case Malformed =>
    case Envelope(mt, p) =>
      if mt.Some? && !JavaBlank(mt.value) {
        var t := mt.value;
        if t == "join_room" {
          var o := Join(st, TextField(p, "roomId"), sessionId, TextField(p, "userId"), TextField(p, "displayName"));
          JoinRepliedWellAddressed(reg, sessionId, o.result, st', out);
        } else if t == "leave_room" {
          LeaveRepliedWellAddressed(reg, sessionId, Leave(st, sessionId).result, st', out);
        } else if t in SIGNAL_TYPES {
          SignalRoutedWellAddressed(reg, st, sessionId, t, p, st', out);
        } else if t == "mute_state" {
          assert MuteRouted(reg, st, sessionId, p, st', out);
          MuteRoutedWellAddressed(reg, st, sessionId, p, st', out);
        } else if t == "ai_ping" {
          assert AiPingRouted(reg, st, ai, sessionId, p, st', out);
          AiPingRoutedWellAddressed(reg, st, ai, sessionId, p, st', out);
        }
      }
  }

  lemma MuteRoutedWellAddressed(reg: Registry, st: Rooms, sessionId: string, payload: Option<Json>,
                                st': Rooms, out: seq<Outgoing>)
    requires MuteRouted(reg, st, sessionId, payload, st', out)
    ensures WellAddressed(reg, sessionId, out)
  {
    var sender := Find(st, sessionId);
    if sender.None? {
      ErrorWellAddressed(reg, sessionId);
    } else {
      assert "user_muted" in BROADCAST_TYPES;
      BroadcastWellAddressed(reg, st, sender.value.roomId, sessionId, out, "user_muted",
                             UserMutedPayload(sender.value.roomId, sender.value.participant.userId, MutedFlag(payload)));
    }
  }

  lemma AiPingRoutedWellAddressed(reg: Registry, st: Rooms, ai: AIRequest -> AIReply, sessionId: string,
                                  payload: Option<Json>, st': Rooms, out: seq<Outgoing>)
    requires AiPingRouted(reg, st, ai, sessionId, payload, st', out)
    ensures WellAddressed(reg, sessionId, out)
  {
    var sender := Find(st, sessionId);
    if sender.None? {
      ErrorWellAddressed(reg, sessionId);
    } else {
      var request := AIRequest(sender.value.roomId, sender.value.participant.userId,
                               Some(TextField(payload, "text").GetOr("")));
      assert "ai_reply" in SERVER_MESSAGE_TYPES;
      assert "ai_reply" !in BROADCAST_TYPES && "ai_reply" !in SIGNAL_TYPES by {
        assert "ai_reply"[0] == 'a';
      }
      SendToWellAddressed(reg, sessionId, "ai_reply", AiReplyPayload(sender.value.roomId, ai(request).text));
    }
  }

  /** Only `join_room` and `leave_room` change the store, and the store invariant holds
      after every routed message. */
  lemma RoutedPreservesValid(reg: Registry, st: Rooms, ai: AIRequest -> AIReply, sessionId: string, msg: Incoming,
                             st': Rooms, out: seq<Outgoing>)
    requires Valid(st) && Routed(reg, st, ai, sessionId, msg, st', out)
    ensures Valid(st')
    ensures !(msg.Envelope? && msg.msgType in {Some("join_room"), Some("leave_room")}) ==> st' == st
  {
    if msg.Envelope? && msg.msgType.Some? && !JavaBlank(msg.msgType.value) {
      var t, p := msg.msgType.value, msg.payload;
      if t == "join_room" {
        JoinPreservesValid(st, TextField(p, "roomId"), sessionId, TextField(p, "userId"), TextField(p, "displayName"));
      } else if t == "leave_room" {
        LeavePreservesValid(st, sessionId);
      }
    }
  }

  /** A frame that cannot be decoded gets INVALID_JSON, a missing or blank type gets
      INVALID_TYPE, and a type outside the client catalogue gets UNSUPPORTED_TYPE naming
      it; each is at most one error to the sender, and the store stays as it was. */
  lemma RoutedRejectsUnreadable(reg: Registry, st: Rooms, ai: AIRequest -> AIReply, sessionId: string, msg: Incoming,
                                st': Rooms, out: seq<Outgoing>)
    requires Routed(reg, st, ai, sessionId, msg, st', out)
    ensures msg.Malformed? ==> st' == st && out == SendError(reg, sessionId, INVALID_JSON, "Malformed message payload.")
    ensures msg.Envelope? && (msg.msgType.None? || JavaBlank(msg.msgType.value)) ==>
      st' == st && out == SendError(reg, sessionId, INVALID_TYPE, "Message type is required.")
    ensures msg.Envelope? && msg.msgType.Some? && !JavaBlank(msg.msgType.value)
            && msg.msgType.value !in CLIENT_MESSAGE_TYPES ==>
      st' == st && out == SendError(reg, sessionId, UNSUPPORTED_TYPE, "Unsupported message type: " + msg.msgType.value)
  {
  }

  /** The open sessions, other than `sessionId`, that room `roomId` holds. */
  function OpenPeers(reg: Registry, st: Rooms, roomId: string, sessionId: string): set<string> {
    set s | s in RoomMembers(st, roomId) && IsOpen(reg, s) && s != sessionId
  }

  /** Broadcasting after an operation that kept every other session where it was reaches
      the open peers the room had before. */
  lemma RecipientsUnmoved(reg: Registry, st: Rooms, st': Rooms, roomId: string, sessionId: string)
    requires Valid(st)
    requires forall s :: s != sessionId ==> Find(st', s) == Find(st, s)
    ensures Recipients(reg, st', roomId, sessionId) == OpenPeers(reg, st, roomId, sessionId)
  {
    RecipientsAreOpenMembers(reg, st, roomId, sessionId);
    RecipientsSameFinds(reg, st, st', roomId, sessionId);
  }

  /** Recipients depend only on where each session is found. */
  lemma RecipientsSameFinds(reg: Registry, st: Rooms, st': Rooms, roomId: string, sessionId: string)
    requires forall s :: s != sessionId ==> Find(st', s) == Find(st, s)
    ensures Recipients(reg, st', roomId, sessionId) == Recipients(reg, st, roomId, sessionId)
  {
    forall s ensures s in Recipients(reg, st', roomId, sessionId) <==> s in Recipients(reg, st, roomId, sessionId) {
      if s != sessionId {
        assert InRoom(st', s, roomId) == InRoom(st, s, roomId);
      }
    }
  }

  /** A rejected join answers the joiner alone, with the store's INVALID_JOIN or ROOM_FULL
      error, and broadcasts nothing. */
  lemma JoinRoutedRejected(reg: Registry, st: Rooms, sessionId: string, payload: Option<Json>,
                           st': Rooms, out: seq<Outgoing>)
    requires JoinRouted(reg, st, sessionId, payload, st', out)
    requires !Join(st, TextField(payload, "roomId"), sessionId, TextField(payload, "userId"),
                   TextField(payload, "displayName")).result.accepted
    ensures |out| <= 1
    ensures forall i :: 0 <= i < |out| ==>
      out[i] == Outgoing(sessionId, "error", ErrorPayload(INVALID_JOIN, INVALID_JOIN_MESSAGE))
      || out[i] == Outgoing(sessionId, "error", ErrorPayload(ROOM_FULL, ROOM_FULL_MESSAGE))
  {
  }

  /** The reply to an accepted join: the snapshot first (when the joiner is open), then
      the `user_joined` broadcast. */
  lemma JoinRepliedAccepted(reg: Registry, sessionId: string, result: JoinResult, st': Rooms, out: seq<Outgoing>)
    requires WellFormedJoin(result) && result.accepted && JoinReplied(reg, sessionId, result, st', out)
    ensures var k, snapshot, self := if IsOpen(reg, sessionId) then 1 else 0, result.snapshot.value, result.self.value;
      && k <= |out|
      && (IsOpen(reg, sessionId) ==> out[0] == Outgoing(sessionId, "room_snapshot", SnapshotPayload(snapshot, self)))
      && SentOnceEach(out[k..], Recipients(reg, st', snapshot.roomId, sessionId), "user_joined",
                      UserJoinedPayload(snapshot.roomId, self.participant))
  {
  }

  /** An accepted join sends the joiner (when open) its snapshot, which lists the room's
      earlier members and then the joiner, and tells exactly the room's other open sessions
      from before the join that the joiner arrived. */
  lemma JoinRoutedAccepted(reg: Registry, st: Rooms, sessionId: string, payload: Option<Json>,
                           st': Rooms, out: seq<Outgoing>)
    requires Valid(st) && JoinRouted(reg, st, sessionId, payload, st', out)
    requires Join(st, TextField(payload, "roomId"), sessionId, TextField(payload, "userId"),
                  TextField(payload, "displayName")).result.accepted
    ensures var roomId := TextField(payload, "roomId").value;
      var user := Participant(TextField(payload, "userId").value,
                              DisplayNameOrAnonymous(TextField(payload, "displayName")), false);
      var k := if IsOpen(reg, sessionId) then 1 else 0;
      var snapshot := RoomSnapshot(roomId, ParticipantsOf(MembersOf(Leave(st, sessionId).state, roomId)) + [user]);
      && k <= |out|
      && (IsOpen(reg, sessionId) ==>
            out[0] == Outgoing(sessionId, "room_snapshot",
                               SnapshotPayload(snapshot, ParticipantSession(roomId, sessionId, user))))
      && SentOnceEach(out[k..], OpenPeers(reg, st, roomId, sessionId), "user_joined", UserJoinedPayload(roomId, user))
  {
    var roomId, userId, name := TextField(payload, "roomId"), TextField(payload, "userId"),
                                TextField(payload, "displayName");
    var o := Join(st, roomId, sessionId, userId, name);
    JoinAccepted(st, roomId, sessionId, userId, name);
    RecipientsUnmoved(reg, st, st', roomId.value, sessionId);
    JoinRepliedAccepted(reg, sessionId, o.result, st', out);
  }

  /** Moving rooms is silent: however a join that names another room ends, the previous
      room's other sessions get nothing (and no `user_left` is sent at all), while a join
      with valid ids takes the session out of the previous room. */
  lemma JoinRoutedSilentToPreviousRoom(reg: Registry, st: Rooms, sessionId: string, payload: Option<Json>,
                                       st': Rooms, out: seq<Outgoing>, previous: string)
    requires Valid(st) && JoinRouted(reg, st, sessionId, payload, st', out)
    requires InRoom(st, sessionId, previous) && TextField(payload, "roomId") != Some(previous)
    ensures forall i :: 0 <= i < |out| ==>
      out[i].msgType != "user_left" && (out[i].sessionId == sessionId || !InRoom(st, out[i].sessionId, previous))
    ensures ValidJoinIds(TextField(payload, "roomId"), TextField(payload, "userId")) ==> !InRoom(st', sessionId, previous)
  {
    var roomId, userId, name := TextField(payload, "roomId"), TextField(payload, "userId"),
                                TextField(payload, "displayName");
    var o := Join(st, roomId, sessionId, userId, name);
    if o.result.accepted {
      JoinRoutedAccepted(reg, st, sessionId, payload, st', out);
      var user := Participant(userId.value, DisplayNameOrAnonymous(name), false);
      BroadcastAvoidsOtherRoom(reg, st, sessionId, roomId.value, previous, out,
                               if IsOpen(reg, sessionId) then 1 else 0, UserJoinedPayload(roomId.value, user));
    } else {
      JoinRoutedRejected(reg, st, sessionId, payload, st', out);
    }
    JoinLeavesPrevious(st, roomId, sessionId, userId, name, previous);
  }

  /** A join with valid ids naming another room takes the session out of its previous one. */
  lemma JoinLeavesPrevious(st: Rooms, roomId: Option<string>, sessionId: string, userId: Option<string>,
                           name: Option<string>, previous: string)
    requires Valid(st) && roomId != Some(previous)
    ensures ValidJoinIds(roomId, userId) ==> !InRoom(Join(st, roomId, sessionId, userId, name).state, sessionId, previous)
  {
    if ValidJoinIds(roomId, userId) {
      JoinCapacity(st, roomId.value, sessionId, userId.value, name);
      if Join(st, roomId, sessionId, userId, name).result.accepted {
        JoinAccepted(st, roomId, sessionId, userId, name);
      }
    }
  }

  /** A reply made of at most one message to the joiner followed by a broadcast to the open
      peers in room `roomId` sends no `user_left` and reaches no one else in another room. */
  lemma BroadcastAvoidsOtherRoom(reg: Registry, st: Rooms, sessionId: string, roomId: string, previous: string,
                                 out: seq<Outgoing>, k: nat, payload: Payload)
    requires Valid(st) && roomId != previous && k <= 1 && k <= |out|
    requires k == 1 ==> out[0].sessionId == sessionId && out[0].msgType == "room_snapshot"
    requires SentOnceEach(out[k..], OpenPeers(reg, st, roomId, sessionId), "user_joined", payload)
    ensures forall i :: 0 <= i < |out| ==>
      out[i].msgType != "user_left" && (out[i].sessionId == sessionId || !InRoom(st, out[i].sessionId, previous))
  {
    var peers := OpenPeers(reg, st, roomId, sessionId);
    BroadcastTail(out, k, peers, payload);
    PeersNotInOtherRoom(reg, st, sessionId, roomId, previous);
    JoinTypesAreNotLeft();
    forall i | 0 <= i < |out|
      ensures out[i].msgType != "user_left" && (out[i].sessionId == sessionId || !InRoom(st, out[i].sessionId, previous))
    {
      if i < k {
        assert i == 0;
      }
    }
  }

  /** The messages after the first `k` are `user_joined` messages to `peers`. */
  lemma BroadcastTail(out: seq<Outgoing>, k: nat, peers: set<string>, payload: Payload)
    requires k <= |out| && SentOnceEach(out[k..], peers, "user_joined", payload)
    ensures forall i :: k <= i < |out| ==> out[i].msgType == "user_joined" && out[i].sessionId in peers
  {
    var tail := out[k..];
    SentOnceEachFacts(tail, peers, "user_joined", payload);
    forall i | k <= i < |out| ensures out[i].msgType == "user_joined" && out[i].sessionId in peers {
      assert out[i] == tail[i - k];
    }
  }

  /** The open peers in room `roomId` are in no other room. */
  lemma PeersNotInOtherRoom(reg: Registry, st: Rooms, sessionId: string, roomId: string, previous: string)
    requires Valid(st) && roomId != previous
    ensures forall s :: s in OpenPeers(reg, st, roomId, sessionId) ==> !InRoom(st, s, previous)
  {
    forall s | s in OpenPeers(reg, st, roomId, sessionId) ensures !InRoom(st, s, previous) {
      PeerNotInOtherRoom(reg, st, sessionId, roomId, previous, s);
    }
  }

  lemma JoinTypesAreNotLeft()
    ensures "user_joined" != "user_left" && "room_snapshot" != "user_left"
  {
    assert "user_joined"[5] != "user_left"[5];
    assert "room_snapshot"[0] != "user_left"[0];
  }

  /** An open peer in room `roomId` is in no other room. */
  lemma PeerNotInOtherRoom(reg: Registry, st: Rooms, sessionId: string, roomId: string, previous: string, s: string)
    requires Valid(st) && roomId != previous && s in OpenPeers(reg, st, roomId, sessionId)
    ensures !InRoom(st, s, previous)
  {
    InRoomIsMember(st, s, roomId);
  }

  /** `leaveAndBroadcast`: the session ends in no room; if it was in none nothing happens,
      otherwise the room's other open sessions are told that its user left. */
  lemma LeaveRoutedOutcome(reg: Registry, st: Rooms, sessionId: string, st': Rooms, out: seq<Outgoing>)
    requires Valid(st) && LeaveRouted(reg, st, sessionId, st', out)
    ensures Find(st', sessionId).None?
    ensures Find(st, sessionId).None? ==> st' == st && out == []
    ensures Find(st, sessionId).Some? ==>
      var member := Find(st, sessionId).value;
      SentOnceEach(out, OpenPeers(reg, st, member.roomId, sessionId), "user_left",
                   UserLeftPayload(member.roomId, member.participant.userId))
  {
    LeaveFind(st, sessionId);
    if Find(st, sessionId).None? {
      LeaveNotJoined(st, sessionId);
    } else {
      LeaveMemberResult(st, sessionId);
      RecipientsUnmoved(reg, st, st', Find(st, sessionId).value.roomId, sessionId);
    }
  }

  /** `handleClose`: the leave broadcast above, and the session is no longer registered
      while every other registration stays. */
  lemma ClosedOutcome(reg: Registry, st: Rooms, sessionId: string, reg': Registry, st': Rooms, out: seq<Outgoing>)
    requires Valid(st) && Closed(reg, st, sessionId, reg', st', out)
    ensures sessionId !in reg' && forall s :: s != sessionId ==> (s in reg' <==> s in reg) && (s in reg ==> reg'[s] == reg[s])
    ensures Valid(st') && Find(st', sessionId).None?
    ensures Find(st, sessionId).None? ==> out == []
    ensures Find(st, sessionId).Some? ==>
      var member := Find(st, sessionId).value;
      SentOnceEach(out, OpenPeers(reg, st, member.roomId, sessionId), "user_left",
                   UserLeftPayload(member.roomId, member.participant.userId))
  {
    LeaveRoutedOutcome(reg, st, sessionId, st', out);
    LeavePreservesValid(st, sessionId);
    Unregistered(reg, sessionId);
  }

  lemma Unregistered(reg: Registry, sessionId: string)
    ensures var reg' := reg - {sessionId};
      sessionId !in reg' && forall s :: s != sessionId ==> (s in reg' <==> s in reg) && (s in reg ==> reg'[s] == reg[s])
  {
  }

  /** A signal is checked in order: sender in a room, then a non-blank target, then an open
      session of that user in the sender's room. On success exactly one message of the
      signal's own type goes to such a session, carrying the sender's user id as
      `fromUserId`, no `targetUserId`, and every other inbound field. */
  lemma SignalRoutedOutcome(reg: Registry, st: Rooms, sessionId: string, msgType: string, payload: Option<Json>,
                            st': Rooms, out: seq<Outgoing>)
    requires Valid(st) && SignalRouted(reg, st, sessionId, msgType, payload, st', out)
    requires DistinctKeys(InboundFields(payload))
    ensures st' == st
    ensures Find(st, sessionId).None? ==> out == SendError(reg, sessionId, NOT_IN_ROOM, "Join a room before signaling.")
    ensures var target := TextField(payload, TARGET_USER_ID);
      Find(st, sessionId).Some? && (target.None? || JavaBlank(target.value)) ==>
      out == SendError(reg, sessionId, TARGET_REQUIRED, "targetUserId is required.")
    ensures var target := TextField(payload, TARGET_USER_ID);
      Find(st, sessionId).Some? && target.Some? && !JavaBlank(target.value) ==>
      var sender := Find(st, sessionId).value;
      if SignalCandidates(reg, st, sender.roomId, target.value) == {} then
        out == SendError(reg, sessionId, TARGET_NOT_FOUND, "Target user is not connected.")
      else
        && |out| == 1 && out[0].msgType == msgType
        && IsOpen(reg, out[0].sessionId)
        && out[0].sessionId in RoomMembers(st, sender.roomId)
        && Find(st, out[0].sessionId).value.participant.userId == target.value
        && Get(out[0].payload, FROM_USER_ID) == Some(VString(sender.participant.userId))
        && Get(out[0].payload, TARGET_USER_ID).None?
        && (forall k :: k != FROM_USER_ID && k != TARGET_USER_ID ==>
              Get(out[0].payload, k) == Wrap(Get(InboundFields(payload), k)))
  {
    var target := TextField(payload, TARGET_USER_ID);
    if Find(st, sessionId).Some? && target.Some? && !JavaBlank(target.value) {
      var sender := Find(st, sessionId).value;
      if SignalCandidates(reg, st, sender.roomId, target.value) != {} {
        InRoomIsMember(st, out[0].sessionId, sender.roomId);
        ForwardedContents(payload, sender.participant.userId);
      }
    }
  }

  /** `mute_state` is not stored: the store is unchanged, so every stored participant is
      still unmuted; the sender's open room peers get `user_muted` with the requested flag. */
  lemma MuteRoutedOutcome(reg: Registry, st: Rooms, sessionId: string, payload: Option<Json>,
                          st': Rooms, out: seq<Outgoing>)
    requires Valid(st) && MuteRouted(reg, st, sessionId, payload, st', out)
    ensures st' == st
    ensures forall s :: Find(st', s).Some? ==> !Find(st', s).value.participant.muted
    ensures Find(st, sessionId).None? ==>
      out == SendError(reg, sessionId, NOT_IN_ROOM, "Join a room before updating mute state.")
    ensures Find(st, sessionId).Some? ==>
      var sender := Find(st, sessionId).value;
      SentOnceEach(out, OpenPeers(reg, st, sender.roomId, sessionId), "user_muted",
                   UserMutedPayload(sender.roomId, sender.participant.userId, MutedFlag(payload)))
  {
    forall s | Find(st', s).Some? ensures !Find(st', s).value.participant.muted {
      FindAgreesWithIndex(st, s);
    }
    if Find(st, sessionId).Some? {
      RecipientsAreOpenMembers(reg, st, Find(st, sessionId).value.roomId, sessionId);
    }
  }

  /** With the mock AI service, `ai_ping` from an open session in a room gets exactly one
      `ai_reply` back, for the sender's room, whose text starts with the mock prefix and
      echoes the trimmed prompt, or is the ping text when there is no prompt. */
  lemma AiPingRoutedOutcome(reg: Registry, st: Rooms, sessionId: string, payload: Option<Json>,
                            st': Rooms, out: seq<Outgoing>)
    requires AiPingRouted(reg, st, MockReply, sessionId, payload, st', out)
    requires Find(st, sessionId).Some? && IsOpen(reg, sessionId)
    ensures st' == st && |out| == 1 && out[0].sessionId == sessionId && out[0].msgType == "ai_reply"
    ensures Get(out[0].payload, "roomId") == Some(VString(Find(st, sessionId).value.roomId))
    ensures Get(out[0].payload, "text").Some? && Get(out[0].payload, "text").value.VString?
    ensures var text, prompt := Get(out[0].payload, "text").value.s, TextField(payload, "text");
      && StartsWith(text, MOCK_PREFIX)
      && (prompt.None? ==> text == MOCK_PING)
      && (prompt.Some? && JavaTrim(prompt.value) != "" ==> Contains(text, JavaTrim(prompt.value)))
  {
    var sender := Find(st, sessionId).value;
    var request := AIRequest(sender.roomId, sender.participant.userId, Some(TextField(payload, "text").GetOr("")));
    MockReplyEchoesPrompt(request);
    assert JavaTrim("") == "";
  }
}
