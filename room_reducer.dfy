/**
 * The web client's room state and `roomReducer`: a pure function from the current
 * state and one action to the next state. The participant record is an insertion-
 * ordered string-keyed object, modelled as a LinkedMap; `{ ...m, [k]: v }` is `Put`
 * and `delete` on the copy is `Remove`.
 */
module RoomReducer {
  import opened Options
  import opened Numbers
  import opened LinkedMaps

  datatype ConnectionStatus = Idle | Connecting | Connected | Disconnected

  /** The participant as the server sends it. */
  datatype ParticipantPayload = ParticipantPayload(userId: string, displayName: string, muted: bool)

  /** The participant as the page shows it. */
  datatype RoomParticipant = RoomParticipant(userId: string, displayName: string, muted: bool,
                                             isSelf: bool, connected: bool)

  datatype RoomState = RoomState(connectionStatus: ConnectionStatus, roomId: string, selfUserId: string,
                                 participants: LinkedMap<RoomParticipant>, error: Option<string>,
                                 aiReplies: seq<string>)

  datatype RoomAction =
    | SetConnectionStatus(status: ConnectionStatus)
    | SetError(message: Option<string>)
    | SetSnapshot(roomId: string, selfUserId: string, participants: seq<ParticipantPayload>)
    | UserJoined(participant: ParticipantPayload)
    | UserLeft(userId: string)
    | UserMuted(userId: string, muted: bool)
    | PeerState(userId: string, connected: bool)
    | AiReply(text: string)
    /** any other `type`: the `default` branch */
    | Unrecognised(actionType: string)

  /** The number of AI replies the state keeps. */
  const MAX_AI_REPLIES: nat := 6

  const InitialRoomState := RoomState(Idle, "", "", [], None, [])

  /** Spread of a payload with `isSelf` and `connected` both set to whether it is the
      local user. */
  function Annotated(p: ParticipantPayload, selfUserId: string): RoomParticipant {
    RoomParticipant(p.userId, p.displayName, p.muted, p.userId == selfUserId, p.userId == selfUserId)
  }

  /** `toParticipantMap`: `Object.fromEntries` sets the keys in list order, so a repeated
      user id keeps its first position and its last value. */
  function ToParticipantMap(ps: seq<ParticipantPayload>, selfUserId: string): LinkedMap<RoomParticipant>
    decreases |ps|
  {
    if ps == [] then []
    else
      var last := ps[|ps| - 1];
      Put(ToParticipantMap(ps[..|ps| - 1], selfUserId), last.userId, Annotated(last, selfUserId))
  }

  /** `roomReducer`. */
  function Reduce(state: RoomState, action: RoomAction): RoomState {
    match action
    case SetConnectionStatus(status) => state.(connectionStatus := status)
    case SetError(message) => state.(error := message)
    case SetSnapshot(roomId, selfUserId, ps) =>
      state.(roomId := roomId, selfUserId := selfUserId, participants := ToParticipantMap(ps, selfUserId))
    case UserJoined(p) =>
      state.(participants := Put(state.participants, p.userId, Annotated(p, state.selfUserId)))
    case UserLeft(userId) =>
      state.(participants := Remove(state.participants, userId))
    case UserMuted(userId, muted) =>
      var target := Get(state.participants, userId);
      if target.None? then state
      else state.(participants := Put(state.participants, userId, target.value.(muted := muted)))
    case PeerState(userId, connected) =>
      var target := Get(state.participants, userId);
      if target.None? then state
      else state.(participants := Put(state.participants, userId, target.value.(connected := connected)))
    case AiReply(text) =>
      var replies := [text] + state.aiReplies;
      state.(aiReplies := replies[..Min(MAX_AI_REPLIES, |replies|)])
    case Unrecognised(_) => state
  }

  /** Folding a run of actions through the reducer, as React's `useReducer` does. */
  function ReduceAll(state: RoomState, actions: seq<RoomAction>): RoomState
    decreases |actions|
  {
    if actions == [] then state else ReduceAll(Reduce(state, actions[0]), actions[1..])
  }

  // ---------------------------------------------------------------- invariant

  /** Every entry is keyed by its own user id, keys are distinct, exactly the local
      user's entry is marked `isSelf`, and at most six replies are kept. */
  predicate Valid(state: RoomState) {
    && DistinctKeys(state.participants)
    && EntriesKeyed(state.participants, state.selfUserId)
    && |state.aiReplies| <= MAX_AI_REPLIES
  }

  /** Each entry sits under its own user id and is marked `isSelf` exactly when that id is
      `self`. */
  predicate EntriesKeyed(m: LinkedMap<RoomParticipant>, self: string) {
    forall i :: 0 <= i < |m| ==> m[i].0 == m[i].1.userId && (m[i].1.isSelf <==> m[i].0 == self)
  }

  lemma InitialIsValid()
    ensures Valid(InitialRoomState)
    ensures InitialRoomState.participants == [] && InitialRoomState.aiReplies == []
  {
  }

  /** `Put` keeps every entry keyed by its own user id and flagged against `self` when
      the new entry is. */
  lemma PutKeepsEntries(m: LinkedMap<RoomParticipant>, k: string, v: RoomParticipant, self: string)
    requires DistinctKeys(m) && EntriesKeyed(m, self)
    requires v.userId == k && (v.isSelf <==> k == self)
    ensures DistinctKeys(Put(m, k, v)) && EntriesKeyed(Put(m, k, v), self)
  {
    PutDistinct(m, k, v);
    PutEntries(m, k, v);
    var r := Put(m, k, v);
    assert forall i :: 0 <= i < |r| ==> r[i] in r;
  }

  /** Every entry of a `Put` is the new one or an entry that was there. */
  lemma {:induction false} PutEntries<V>(m: LinkedMap<V>, k: string, v: V)
    ensures forall e :: e in Put(m, k, v) ==> e == (k, v) || e in m
  {
    if m != [] && m[0].0 != k {
      PutEntries(m[1..], k, v);
      assert forall e :: e in Put(m, k, v) ==> e == m[0] || e in Put(m[1..], k, v);
    }
  }

  /** The participant map of a snapshot has distinct keys, each entry under its own
      user id, with `isSelf` and `connected` true exactly for the local user. */
  lemma {:induction false} ToParticipantMapShape(ps: seq<ParticipantPayload>, self: string)
    ensures var m := ToParticipantMap(ps, self);
      && DistinctKeys(m)
      && forall i :: 0 <= i < |m| ==>
           && m[i].0 == m[i].1.userId
           && (m[i].1.isSelf <==> m[i].0 == self)
           && m[i].1.connected == m[i].1.isSelf
    decreases |ps|
  {
    if ps != [] {
      var init := ps[..|ps| - 1];
      var last := ps[|ps| - 1];
      ToParticipantMapShape(init, self);
      var m := ToParticipantMap(init, self);
      PutDistinct(m, last.userId, Annotated(last, self));
      PutEntries(m, last.userId, Annotated(last, self));
      var r := Put(m, last.userId, Annotated(last, self));
      assert forall i :: 0 <= i < |r| ==> r[i] == (last.userId, Annotated(last, self)) || r[i] in m;
    }
  }

  /** The position of the last payload with user id `k`, or -1 when there is none. */
  function LastIndex(ps: seq<ParticipantPayload>, k: string): (i: int)
    ensures -1 <= i < |ps|
    ensures i >= 0 ==> ps[i].userId == k
    ensures forall j :: i < j < |ps| ==> ps[j].userId != k
    decreases |ps|
  {
    if ps == [] then -1
    else if ps[|ps| - 1].userId == k then |ps| - 1
    else LastIndex(ps[..|ps| - 1], k)
  }

  /** A user id of the snapshot maps to its LAST occurrence, annotated; a user id not in
      the snapshot is absent. */
  lemma {:induction false} ToParticipantMapGet(ps: seq<ParticipantPayload>, self: string, k: string)
    ensures var i := LastIndex(ps, k);
      Get(ToParticipantMap(ps, self), k) == if i < 0 then None else Some(Annotated(ps[i], self))
    decreases |ps|
  {
    if ps != [] {
      var init := ps[..|ps| - 1];
      var last := ps[|ps| - 1];
      var m := ToParticipantMap(init, self);
      PutGet(m, last.userId, Annotated(last, self));
      if last.userId != k {
        ToParticipantMapGet(init, self, k);
        assert LastIndex(ps, k) == LastIndex(init, k);
      }
    }
  }

  /** Every action keeps the state valid. */
  lemma ReducePreservesValid(state: RoomState, action: RoomAction)
    requires Valid(state)
    ensures Valid(Reduce(state, action))
  {
    var m := state.participants;
    match action
    case SetSnapshot(roomId, selfUserId, ps) =>
      ToParticipantMapShape(ps, selfUserId);
    case UserJoined(p) =>
      PutKeepsEntries(m, p.userId, Annotated(p, state.selfUserId), state.selfUserId);
      var r := Reduce(state, action);
      assert r.participants == Put(m, p.userId, Annotated(p, state.selfUserId));
      assert r.selfUserId == state.selfUserId;
      assert DistinctKeys(r.participants);
      assert |r.aiReplies| <= MAX_AI_REPLIES;
      var q := Put(m, p.userId, Annotated(p, state.selfUserId));
      assert forall i :: 0 <= i < |q| ==> q[i].0 == q[i].1.userId && (q[i].1.isSelf <==> q[i].0 == state.selfUserId);
    case UserLeft(userId) =>
      RemoveGet(m, userId);
      var r := Remove(m, userId);
      assert forall i :: 0 <= i < |r| ==> r[i] in m;
    case UserMuted(userId, muted) =>
      var target := Get(m, userId);
      if target.Some? {
        PutKeepsEntries(m, userId, target.value.(muted := muted), state.selfUserId);
      }
    case PeerState(userId, connected) =>
      var target := Get(m, userId);
      if target.Some? {
        PutKeepsEntries(m, userId, target.value.(connected := connected), state.selfUserId);
      }
    case _ =>
  }

  /** Any run of actions from a valid state ends in a valid state. */
  lemma {:induction false} ReduceAllPreservesValid(state: RoomState, actions: seq<RoomAction>)
    requires Valid(state)
    ensures Valid(ReduceAll(state, actions))
    decreases |actions|
  {
    if actions != [] {
      ReducePreservesValid(state, actions[0]);
      ReduceAllPreservesValid(Reduce(state, actions[0]), actions[1..]);
    }
  }

  /** In a valid state at most one participant is the local user, and it is keyed by
      the state's `selfUserId`. */
  lemma AtMostOneSelf(state: RoomState, i: int, j: int)
    requires Valid(state)
    requires 0 <= i < |state.participants| && 0 <= j < |state.participants|
    requires state.participants[i].1.isSelf && state.participants[j].1.isSelf
    ensures i == j && state.participants[i].0 == state.selfUserId
  {
  }

  // ---------------------------------------------------------------- actions

  /** `set_connection_status` and `set_error` change their own field and nothing else. */
  lemma SetFieldsOnly(state: RoomState, status: ConnectionStatus, message: Option<string>)
    ensures var r := Reduce(state, SetConnectionStatus(status));
      r.connectionStatus == status && r.(connectionStatus := state.connectionStatus) == state
    ensures var r := Reduce(state, SetError(message));
      r.error == message && r.(error := state.error) == state
  {
  }

  /** `set_snapshot` adopts the room and the local user, replaces the participants by
      the snapshot's (last duplicate winning, only the local user marked), and keeps the
      connection status, the error and the replies. */
  lemma SetSnapshotOutcome(state: RoomState, roomId: string, self: string, ps: seq<ParticipantPayload>)
    ensures var r := Reduce(state, SetSnapshot(roomId, self, ps));
      && r.roomId == roomId && r.selfUserId == self
      && r.connectionStatus == state.connectionStatus && r.error == state.error && r.aiReplies == state.aiReplies
      && DistinctKeys(r.participants)
      && (forall k :: Get(r.participants, k).None? <==> forall j :: 0 <= j < |ps| ==> ps[j].userId != k)
      && (forall i :: 0 <= i < |ps| && (forall j :: i < j < |ps| ==> ps[j].userId != ps[i].userId) ==>
            Get(r.participants, ps[i].userId) == Some(Annotated(ps[i], self)))
      && (forall i :: 0 <= i < |r.participants| ==>
            r.participants[i].1.isSelf == r.participants[i].1.connected == (r.participants[i].0 == self))
  {
    ToParticipantMapShape(ps, self);
    forall k
      ensures Get(ToParticipantMap(ps, self), k).None? <==> forall j :: 0 <= j < |ps| ==> ps[j].userId != k
    {
      ToParticipantMapGet(ps, self, k);
    }
    forall i | 0 <= i < |ps| && (forall j :: i < j < |ps| ==> ps[j].userId != ps[i].userId)
      ensures Get(ToParticipantMap(ps, self), ps[i].userId) == Some(Annotated(ps[i], self))
    {
      ToParticipantMapGet(ps, self, ps[i].userId);
      assert LastIndex(ps, ps[i].userId) == i;
    }
  }

  /** `user_joined` sets that user's entry from the payload and the local user id,
      appends it when new or keeps its place when known, and touches nothing else. */
  lemma UserJoinedOutcome(state: RoomState, p: ParticipantPayload)
    ensures var r := Reduce(state, UserJoined(p));
      && Get(r.participants, p.userId) == Some(Annotated(p, state.selfUserId))
      && (forall k :: k != p.userId ==> Get(r.participants, k) == Get(state.participants, k))
      && (Get(state.participants, p.userId).None? ==>
            r.participants == state.participants + [(p.userId, Annotated(p, state.selfUserId))])
      && (Get(state.participants, p.userId).Some? ==> Keys(r.participants) == Keys(state.participants))
      && r.(participants := state.participants) == state
  {
    var v := Annotated(p, state.selfUserId);
    assert Reduce(state, UserJoined(p)) == state.(participants := Put(state.participants, p.userId, v));
    PutGet(state.participants, p.userId, v);
    PutShape(state.participants, p.userId, v);
  }

  /** `user_left` removes that user and only that user; without the user the state is
      unchanged. */
  lemma UserLeftOutcome(state: RoomState, userId: string)
    requires Valid(state)
    ensures var r := Reduce(state, UserLeft(userId));
      && Get(r.participants, userId).None?
      && (forall k :: k != userId ==> Get(r.participants, k) == Get(state.participants, k))
      && (Get(state.participants, userId).None? ==> r == state)
      && |r.participants| == |state.participants| - (if Get(state.participants, userId).Some? then 1 else 0)
      && r.(participants := state.participants) == state
  {
    assert Reduce(state, UserLeft(userId)) == state.(participants := Remove(state.participants, userId));
    RemoveGet(state.participants, userId);
    if Get(state.participants, userId).None? {
      RemoveShape(state.participants, userId);
      IndexOfGet(state.participants, userId);
    }
  }

  /** `user_muted` on an unknown user returns the same state; otherwise it sets `muted`
      on that one entry, keeping its place and every other field. */
  lemma UserMutedOutcome(state: RoomState, userId: string, muted: bool)
    ensures var r := Reduce(state, UserMuted(userId, muted));
      var target := Get(state.participants, userId);
      && (target.None? ==> r == state)
      && (target.Some? ==>
            && Get(r.participants, userId) == Some(target.value.(muted := muted))
            && (forall k :: k != userId ==> Get(r.participants, k) == Get(state.participants, k))
            && Keys(r.participants) == Keys(state.participants)
            && r.(participants := state.participants) == state)
  {
    var target := Get(state.participants, userId);
    if target.Some? {
      PutGet(state.participants, userId, target.value.(muted := muted));
      PutShape(state.participants, userId, target.value.(muted := muted));
    }
  }

  /** `peer_state` on an unknown user returns the same state; otherwise it sets
      `connected` on that one entry, keeping its place and every other field. */
  lemma PeerStateOutcome(state: RoomState, userId: string, connected: bool)
    ensures var r := Reduce(state, PeerState(userId, connected));
      var target := Get(state.participants, userId);
      && (target.None? ==> r == state)
      && (target.Some? ==>
            && Get(r.participants, userId) == Some(target.value.(connected := connected))
            && (forall k :: k != userId ==> Get(r.participants, k) == Get(state.participants, k))
            && Keys(r.participants) == Keys(state.participants)
            && r.(participants := state.participants) == state)
  {
    var target := Get(state.participants, userId);
    if target.Some? {
      PutGet(state.participants, userId, target.value.(connected := connected));
      PutShape(state.participants, userId, target.value.(connected := connected));
    }
  }

  /** `ai_reply` puts the new text first, keeps the older replies in order behind it, and
      drops the oldest beyond six. */
  lemma AiReplyOutcome(state: RoomState, text: string)
    ensures var r := Reduce(state, AiReply(text));
      var n := |r.aiReplies|;
      && n == Min(MAX_AI_REPLIES, |state.aiReplies| + 1)
      && r.aiReplies[0] == text
      && r.aiReplies[1..] == state.aiReplies[..n - 1]
      && r.(aiReplies := state.aiReplies) == state
  {
  }

  /** The `default` branch returns the state itself. */
  lemma UnrecognisedIsIdentity(state: RoomState, actionType: string)
    ensures Reduce(state, Unrecognised(actionType)) == state
  {
  }
}
