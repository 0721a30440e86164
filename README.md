# echo-room: room membership and message routing

A Dafny model of the core of echo-room, a small voice-room service.

On the server, the model covers three pieces:

- `InMemoryRoomStateStore` keeps two maps in step: room id to its members in join order, and session id to room id.
- It enforces a capacity of five members per room.
- `RoomMessageRouter` decodes typed messages from sessions and dispatches them: join, leave, signalling relay, mute state and AI ping. It fans the resulting messages out to the right open sessions. `MockAIService` is the AI collaborator.

On the web client, it covers:

- the room reducer;
- the `isServerMessage` guard of the shared protocol;
- the room page's websocket URL, signal payload and display-name default;
- the lobby's normalisation of the room id and display name.

Layout, one module per source component:

| module | models |
|---|---|
| `RoomModels` | the records and result factories of `RoomModels.java` |
| `RoomState`, `RoomStateLeave`, `RoomStateJoin` | the store as a value: `Leave`, `Join`, `Snapshot`, `Find`, the store invariant `Valid`, and the lemmas that it is preserved and what each operation observably does |
| `RoomStore` | the class `InMemoryRoomStateStore`, whose two fields are updated in place; every method is proved to end where the `RoomState` function says |
| `Routing` | what each handler of the router sends and how it changes the store, as relations over the registry, the store before and after, and the messages sent |
| `Router` | the class `RoomMessageRouter`, with the session registry and the outbox as fields; every handler is proved to satisfy its `Routing` relation |
| `AIService` | `MockAIService.reply` |
| `JsonNodes` | the parsed JSON payload and the router's `text` helper |
| `WsProtocol` | the message type unions and `isServerMessage` |
| `RoomReducer` | `roomReducer` and `toParticipantMap` |
| `RoomPage`, `LobbyPage` | `resolveWsUrl`, `sendSignalMessage`'s payload, the display-name default, and `onSubmit` |
| `Text`, `LinkedMaps`, `Options`, `Numbers` | Java and JavaScript trimming and blank tests; insertion-ordered maps (`LinkedHashMap`, JavaScript object keys); optional values for Java `null`; `Min` |

Modelling choices:

- **Insertion-ordered maps.** A `LinkedHashMap` and a JavaScript object with string keys are both a `LinkedMap`, a sequence of key/value pairs.
  - `Put` overwrites a present key in place, otherwise it appends.
  - `Remove` drops the entry.
  - `Get` finds the entry.
- **Null.** Java `null` is `None`.
- **The broadcast.** `broadcastToRoomExcept` iterates over a `ConcurrentHashMap`, whose order is unspecified. It is therefore specified by `SentOnceEach`: exactly one message to each recipient, in some order.
- **The signal target.** `findFirst` over the same map may return any matching session. The model returns some element of the candidate set.
- **Rejoining moves a session to the end.** A session that joins the room it is already in is first removed, then appended at the end (`RemoveThenPutMovesLast`, `RejoinFullRoom`). Re-joining therefore does not keep a session's earlier position (InMemoryRoomStateStore.java:30,40).

## Model

| member | source | states |
|---|---|---|
| RoomModels.Rejected | apps/server/src/main/java/com/echoroom/server/room/RoomModels.java:26-28 | a rejected join result carries the code and message and no snapshot or self |
| RoomModels.Accepted | apps/server/src/main/java/com/echoroom/server/room/RoomModels.java:30-32 | an accepted join result carries the snapshot and self and no error fields |
| RoomModels.Noop | apps/server/src/main/java/com/echoroom/server/room/RoomModels.java:37-39 | a no-op leave result has no room and no participant |
| RoomModels.Left | apps/server/src/main/java/com/echoroom/server/room/RoomModels.java:41-43 | a leave result names the room left and the participant removed |
| RoomModels.JoinResultsAreFactoryBuilt | apps/server/src/main/java/com/echoroom/server/room/RoomModels.java:19-33 | a join result is well formed exactly when one of the two factories built it, and `accepted` tells which |
| RoomModels.LeaveResultsAreFactoryBuilt | apps/server/src/main/java/com/echoroom/server/room/RoomModels.java:35-44 | a leave result is well formed exactly when `noop` or `left` built it |
| RoomModels.FactoriesAreInjective | apps/server/src/main/java/com/echoroom/server/room/RoomModels.java:19-44 | each factory determines its arguments, and no rejected result equals an accepted one |
| AIService.MockPrompt | apps/server/src/main/java/com/echoroom/server/ai/MockAIService.java:10 | the prompt is empty for a null request prompt and the Java-trimmed prompt otherwise |
| AIService.MockReply | apps/server/src/main/java/com/echoroom/server/ai/MockAIService.java:9-15 | every mock reply starts with the `[mock-ai] ` prefix |
| AIService.MockReplyEchoesPrompt | apps/server/src/main/java/com/echoroom/server/ai/MockAIService.java:10-13 | an empty prompt gives the fixed ping reply; any other prompt is echoed in full after the prefix |
| AIService.MockReplyIgnoresNullAndSpace | apps/server/src/main/java/com/echoroom/server/ai/MockAIService.java:10 | the reply depends only on the trimmed prompt: a null prompt answers like an empty one, whatever the room and user |
| AIService.MockPingIsAnEcho | apps/server/src/main/java/com/echoroom/server/ai/MockAIService.java:11-13 | asking with the text `Ping received.` cannot be told apart from asking with no prompt |
| JsonNodes.Field | apps/server/src/main/java/com/echoroom/server/ws/RoomMessageRouter.java:222 | a field is found only in an object payload, and it is one of that object's fields |
| JsonNodes.TextCases | apps/server/src/main/java/com/echoroom/server/ws/RoomMessageRouter.java:218-227 | `text` yields a value exactly when the payload is an object with a non-null field of that name, and a string field yields its string |
| JsonNodes.MutedFlag | apps/server/src/main/java/com/echoroom/server/ws/RoomMessageRouter.java:133 | the mute flag is set exactly when the payload's `muted` field is the boolean `true` |
| Text.TrimIsMiddle | apps/server/src/main/java/com/echoroom/server/ai/MockAIService.java:10 | trimming keeps a contiguous middle slice; everything cut off on either side is trimmable; the result neither starts nor ends with a trimmable character |
| Text.TrimEmptyIffAll | apps/web/src/pages/LobbyPage.tsx:14-15 | the trimmed string is empty exactly when every character is whitespace, which is when the fallback value is taken |
| Text.TrimIdempotent | apps/web/src/pages/LobbyPage.tsx:14-15 | trimming twice is trimming once |
| Text.JavaTrimOfBlankCounterexamples | apps/server/src/main/java/com/echoroom/server/ai/MockAIService.java:10-11 | Java `trim().isEmpty()` and `isBlank()` differ in both directions: U+0000 is trimmed but not blank, U+3000 is blank but not trimmed |
| Text.ToLowerAscii | apps/web/src/pages/LobbyPage.tsx:15 | lower-casing keeps the length and maps each character by itself |
| Text.ToLowerAsciiIsLower | apps/web/src/pages/LobbyPage.tsx:15 | a lower-cased string has no upper-case ASCII letter, and lower-casing is idempotent |
| LinkedMaps.PutGet | apps/server/src/main/java/com/echoroom/server/room/InMemoryRoomStateStore.java:40 | after `put` the key maps to the new value and every other key is unchanged |
| LinkedMaps.PutShape | apps/server/src/main/java/com/echoroom/server/room/InMemoryRoomStateStore.java:40 | `put` of a new key appends it at the end; `put` of a present key keeps the key order |
| LinkedMaps.RemoveGet | apps/server/src/main/java/com/echoroom/server/room/InMemoryRoomStateStore.java:58 | `remove` leaves every other key's value, loses one entry exactly when the key was present, and keeps the keys distinct |
| LinkedMaps.RemoveShape | apps/server/src/main/java/com/echoroom/server/room/InMemoryRoomStateStore.java:58 | `remove` cuts out exactly the entry at the key's position and keeps the order of the rest |
| LinkedMaps.RemoveThenPutMovesLast | apps/server/src/main/java/com/echoroom/server/room/InMemoryRoomStateStore.java:30-40 | leaving and re-entering moves a session to the end of its room's order |
| RoomState.ParticipantsOf | apps/server/src/main/java/com/echoroom/server/room/InMemoryRoomStateStore.java:94-100 | the snapshot lists one participant per member, in the room's order |
| RoomState.Leave | apps/server/src/main/java/com/echoroom/server/room/InMemoryRoomStateStore.java:47-68 | `leaveBySession` always returns a well-formed leave result |
| RoomState.Join | apps/server/src/main/java/com/echoroom/server/room/InMemoryRoomStateStore.java:25-44 | `join` always returns a well-formed join result |
| RoomState.EmptyIsValid | apps/server/src/main/java/com/echoroom/server/room/InMemoryRoomStateStore.java:21-22 | the empty store satisfies the invariant |
| RoomStateLeave.LeaveNotJoined | apps/server/src/main/java/com/echoroom/server/room/InMemoryRoomStateStore.java:48-50 | leaving from a session in no room changes nothing and is a no-op |
| RoomStateLeave.LeaveDefensiveBranchesUnreachable | apps/server/src/main/java/com/echoroom/server/room/InMemoryRoomStateStore.java:53-65 | under the invariant, the missing-room and missing-member branches never run, and an indexed session always leaves |
| RoomStateLeave.LeaveShape | apps/server/src/main/java/com/echoroom/server/room/InMemoryRoomStateStore.java:48-61 | leaving removes the index entry and the member, and drops the room when it became empty |
| RoomStateLeave.LeavePreservesValid | apps/server/src/main/java/com/echoroom/server/room/InMemoryRoomStateStore.java:47-68 | leaving keeps the store invariant: rooms non-empty and within capacity, index and rooms agreeing both ways |
| RoomStateLeave.FindAgreesWithIndex | apps/server/src/main/java/com/echoroom/server/room/InMemoryRoomStateStore.java:80-92 | in a valid store, `findBySession` finds a session exactly when it is indexed, and the result names that session and its room |
| RoomStateLeave.LeaveMemberResult | apps/server/src/main/java/com/echoroom/server/room/InMemoryRoomStateStore.java:58-67 | a member's leave reports its own room and participant |
| RoomStateLeave.LeaveFind | apps/server/src/main/java/com/echoroom/server/room/InMemoryRoomStateStore.java:47-68 | after leaving, the session is found nowhere and every other session is found where it was |
| RoomStateLeave.LeaveMemberRooms | apps/server/src/main/java/com/echoroom/server/room/InMemoryRoomStateStore.java:58-61 | the member's room loses exactly that member; the room disappears exactly when it was the last member; other rooms are untouched |
| RoomStateJoin.InsertPreservesValid | apps/server/src/main/java/com/echoroom/server/room/InMemoryRoomStateStore.java:37-41 | recording a session in no room, into a room with a free slot, keeps the invariant |
| RoomStateJoin.JoinIsLeaveThenInsert | apps/server/src/main/java/com/echoroom/server/room/InMemoryRoomStateStore.java:30-41 | an accepted join is the implicit leave followed by an insert that the invariant allows |
| RoomStateJoin.JoinPreservesValid | apps/server/src/main/java/com/echoroom/server/room/InMemoryRoomStateStore.java:25-44 | every join, accepted or not, keeps the store invariant |
| RoomStateJoin.JoinInvalidIds | apps/server/src/main/java/com/echoroom/server/room/InMemoryRoomStateStore.java:26-28 | `INVALID_JOIN` is returned exactly for a missing or blank room or user id, and then nothing changes |
| RoomStateJoin.JoinCapacity | apps/server/src/main/java/com/echoroom/server/room/InMemoryRoomStateStore.java:32-35 | the join is accepted exactly when the room has fewer than five members after the implicit leave; a refusal is `ROOM_FULL` and leaves the session in no room |
| RoomStateJoin.JoinSnapshotIsStored | apps/server/src/main/java/com/echoroom/server/room/InMemoryRoomStateStore.java:43 | the snapshot returned by an accepted join is what `getSnapshot` then reports |
| RoomStateJoin.JoinAccepted | apps/server/src/main/java/com/echoroom/server/room/InMemoryRoomStateStore.java:30-43 | an accepted join appends the new participant, unmuted and with the display-name default, to the room; it finds the session there and leaves every other session and room as it was |
| RoomStateJoin.CapacityBound | apps/server/src/main/java/com/echoroom/server/room/InMemoryRoomStateStore.java:19 | every snapshot of a valid store has between one and five participants, none of them muted |
| RoomStateJoin.SixthJoinRejected | apps/server/src/test/java/com/echoroom/server/room/InMemoryRoomStateStoreTest.java:20-31 | a new session joining a room of five is rejected with `ROOM_FULL` |
| RoomStateJoin.RejoinFullRoom | apps/server/src/main/java/com/echoroom/server/room/InMemoryRoomStateStore.java:30-35 | a member re-joining its own full room is accepted, because the capacity check follows the leave, and it is then listed last |
| RoomStateJoin.InsertIntoAbsentRoom | apps/server/src/main/java/com/echoroom/server/room/InMemoryRoomStateStore.java:32 | joining a room that does not exist creates it with the joiner alone |
| RoomStateJoin.MoveSoleMember | apps/server/src/test/java/com/echoroom/server/room/InMemoryRoomStateStoreTest.java:44-54 | the sole member joining another room removes the old room and creates the new one with that member alone |
| RoomStateJoin.SoleMemberLeaves | apps/server/src/main/java/com/echoroom/server/room/InMemoryRoomStateStore.java:59-61 | the last member leaving removes its room |
| RoomStateJoin.JoinFresh | apps/server/src/main/java/com/echoroom/server/room/InMemoryRoomStateStore.java:25-44 | a fresh session's join is accepted exactly below capacity; then the room grows by one and the index by that session; otherwise nothing changes |
| RoomStateJoin.JoinEachAcceptsFreeSlots | apps/server/src/test/java/com/echoroom/server/room/InMemoryRoomStateStoreTest.java:56-84 | serialised joins of distinct fresh sessions accept exactly as many as there were free slots, and the room grows by that many |
| RoomStateJoin.JoinEachIntoNewRoom | apps/server/src/test/java/com/echoroom/server/room/InMemoryRoomStateStoreTest.java:56-84 | of five or more joiners into a new room, exactly five are admitted and the room then has five participants |
| RoomStateJoin.RoomBound | apps/server/src/main/java/com/echoroom/server/room/InMemoryRoomStateStore.java:33 | no room of a valid store has more than five members |
| RoomStore.InMemoryRoomStateStore.constructor | apps/server/src/main/java/com/echoroom/server/room/InMemoryRoomStateStore.java:21-22 | a new store is empty and valid |
| RoomStore.InMemoryRoomStateStore.LeaveBySession | apps/server/src/main/java/com/echoroom/server/room/InMemoryRoomStateStore.java:47-68 | the in-place leave ends in the state and result of `RoomState.Leave`, and keeps the invariant |
| RoomStore.InMemoryRoomStateStore.Join | apps/server/src/main/java/com/echoroom/server/room/InMemoryRoomStateStore.java:25-44 | the in-place join ends in the state and result of `RoomState.Join`, and keeps the invariant |
| RoomStore.InMemoryRoomStateStore.Admit | apps/server/src/main/java/com/echoroom/server/room/InMemoryRoomStateStore.java:32-43 | a full room leaves the store unchanged with `ROOM_FULL`; otherwise the participant is put into the room and the index, and the result is the new snapshot and self |
| RoomStore.InMemoryRoomStateStore.GetSnapshot | apps/server/src/main/java/com/echoroom/server/room/InMemoryRoomStateStore.java:71-77 | the snapshot is `RoomState.Snapshot`; in a valid store a present room has one to five participants |
| RoomStore.InMemoryRoomStateStore.FindBySession | apps/server/src/main/java/com/echoroom/server/room/InMemoryRoomStateStore.java:80-92 | the result is `RoomState.Find`; in a valid store it is present exactly for an indexed session and names that session and its room |
| RoomStore.InMemoryRoomStateStore.SnapshotFrom | apps/server/src/main/java/com/echoroom/server/room/InMemoryRoomStateStore.java:94-100 | the copying loop yields the room id and each member's participant, in order |
| Routing.SendTo | apps/server/src/main/java/com/echoroom/server/ws/RoomMessageRouter.java:205-216 | `send` writes exactly one message, with the given type and payload, when the session is registered and open, and none otherwise |
| Routing.WithoutTarget | apps/server/src/main/java/com/echoroom/server/ws/RoomMessageRouter.java:116 | the reference copy of the inbound fields never contains `targetUserId` |
| Routing.WithoutTargetGet | apps/server/src/main/java/com/echoroom/server/ws/RoomMessageRouter.java:113-120 | every inbound field except `targetUserId` is kept with its value |
| Routing.CopiedIsWithoutTarget | apps/server/src/main/java/com/echoroom/server/ws/RoomMessageRouter.java:113-120 | the `forEachRemaining` copy equals the inbound fields without `targetUserId`, in order |
| Routing.ForwardedContents | apps/server/src/main/java/com/echoroom/server/ws/RoomMessageRouter.java:113-122 | the forwarded payload has `fromUserId` set to the sender, no `targetUserId`, and every other inbound field unchanged; `fromUserId` is appended last unless the sender supplied one |
| Routing.InRoomIsMember | apps/server/src/main/java/com/echoroom/server/ws/RoomMessageRouter.java:191-193 | in a valid store, `findBySession` placing a session in a room is the same as the session being a member of that room |
| Routing.RecipientsAreOpenMembers | apps/server/src/main/java/com/echoroom/server/ws/RoomMessageRouter.java:187-196 | the broadcast filters select exactly the room's open members other than the excluded session |
| Routing.RecipientsUnmoved | apps/server/src/main/java/com/echoroom/server/ws/RoomMessageRouter.java:187-196 | after an operation that moved only the excluded session, a broadcast reaches the room's open peers from before |
| Routing.SentOnceEachAppend | apps/server/src/main/java/com/echoroom/server/ws/RoomMessageRouter.java:195 | sending to one more recipient, not yet reached, extends a once-each broadcast |
| Routing.SessionIdsCount | apps/server/src/main/java/com/echoroom/server/ws/RoomMessageRouter.java:195 | a broadcast to distinct sessions sends as many messages as it has recipients |
| Routing.RoutedWellAddressed | apps/server/src/main/java/com/echoroom/server/ws/RoomMessageRouter.java:39-61 | whatever arrives, every message sent goes to an open session with a server message type; broadcasts never go to the originating session, and replies go only to it |
| Routing.JoinRepliedWellAddressed | apps/server/src/main/java/com/echoroom/server/ws/RoomMessageRouter.java:74-91 | the join reply and its broadcast are well addressed |
| Routing.LeaveRepliedWellAddressed | apps/server/src/main/java/com/echoroom/server/ws/RoomMessageRouter.java:163-174 | the `user_left` broadcast is well addressed |
| Routing.SignalRoutedWellAddressed | apps/server/src/main/java/com/echoroom/server/ws/RoomMessageRouter.java:94-124 | a signal produces at most one well-addressed message |
| Routing.SignalRoutedShape | apps/server/src/main/java/com/echoroom/server/ws/RoomMessageRouter.java:94-124 | a signal sends at most one message, to an open session: an error to the sender or the signal itself |
| Routing.MuteRoutedWellAddressed | apps/server/src/main/java/com/echoroom/server/ws/RoomMessageRouter.java:126-141 | the mute broadcast or its error reply is well addressed |
| Routing.AiPingRoutedWellAddressed | apps/server/src/main/java/com/echoroom/server/ws/RoomMessageRouter.java:143-161 | the AI reply or its error goes only to the asking session |
| Routing.ErrorWellAddressed | apps/server/src/main/java/com/echoroom/server/ws/RoomMessageRouter.java:198-203 | every error reply goes only to the session it answers |
| Routing.RoutedPreservesValid | apps/server/src/main/java/com/echoroom/server/ws/RoomMessageRouter.java:53-60 | every message keeps the store invariant, and only `join_room` and `leave_room` change the store |
| Routing.RoutedRejectsUnreadable | apps/server/src/main/java/com/echoroom/server/ws/RoomMessageRouter.java:41-59 | malformed JSON, a missing or blank type and an unknown type each answer the sender with their own error code and leave the store unchanged |
| Routing.JoinRoutedRejected | apps/server/src/main/java/com/echoroom/server/ws/RoomMessageRouter.java:74-77 | a refused join sends at most one message, the `INVALID_JOIN` or `ROOM_FULL` error, to the joiner |
| Routing.JoinRepliedAccepted | apps/server/src/main/java/com/echoroom/server/ws/RoomMessageRouter.java:79-91 | an accepted join first sends the snapshot to the joiner, then `user_joined` once to each open peer in the room |
| Routing.JoinRoutedAccepted | apps/server/src/main/java/com/echoroom/server/ws/RoomMessageRouter.java:68-92 | the accepted join's snapshot lists the room's members after the implicit leave with the joiner last, and `user_joined` reaches exactly the room's open peers from before |
| Routing.JoinRoutedSilentToPreviousRoom | apps/server/src/main/java/com/echoroom/server/ws/RoomMessageRouter.java:68-92 | moving to another room removes the session from its old room, sends no `user_left`, and sends nothing to the old room's other members |
| Routing.JoinLeavesPrevious | apps/server/src/main/java/com/echoroom/server/room/InMemoryRoomStateStore.java:30 | a join with valid ids into another room takes the session out of its previous room, whether or not it is accepted |
| Routing.BroadcastAvoidsOtherRoom | apps/server/src/main/java/com/echoroom/server/ws/RoomMessageRouter.java:82-91 | a join's snapshot and its `user_joined` broadcast reach no member of a different room |
| Routing.LeaveRoutedOutcome | apps/server/src/main/java/com/echoroom/server/ws/RoomMessageRouter.java:163-174 | after a leave the session is in no room; a session that was in none causes nothing; a member causes `user_left` once to each open peer of its room |
| Routing.ClosedOutcome | apps/server/src/main/java/com/echoroom/server/ws/RoomMessageRouter.java:63-66 | closing unregisters exactly that session, keeps the invariant, leaves its room, and tells the room's open peers once each |
| Routing.SignalRoutedOutcome | apps/server/src/main/java/com/echoroom/server/ws/RoomMessageRouter.java:94-124 | a signal never changes the store; the three refusals answer the sender with their own codes; otherwise exactly one message goes to an open member of the sender's room with the target user id, carrying the forwarded payload |
| Routing.MuteRoutedOutcome | apps/server/src/main/java/com/echoroom/server/ws/RoomMessageRouter.java:126-141 | mute state never changes the store, so stored participants stay unmuted; a member's flag is broadcast once to each open peer of its room, and a non-member gets `NOT_IN_ROOM` |
| Routing.AiPingRoutedOutcome | apps/server/src/main/java/com/echoroom/server/ws/RoomMessageRouter.java:143-161 | with the mock service, an open member gets exactly one `ai_reply` naming its room; the text has the mock prefix, is the ping reply when there is no text, and contains the trimmed prompt otherwise |
| Router.RoomMessageRouter.constructor | apps/server/src/main/java/com/echoroom/server/ws/RoomMessageRouter.java:28-33 | a new router has its collaborators, no sessions and nothing sent |
| Router.RoomMessageRouter.Register | apps/server/src/main/java/com/echoroom/server/ws/RoomMessageRouter.java:35-37 | registering adds or replaces the session and sends nothing |
| Router.RoomMessageRouter.HandleMessage | apps/server/src/main/java/com/echoroom/server/ws/RoomMessageRouter.java:39-61 | handling appends exactly the messages `Routing.Routed` allows, moves the store as it allows, keeps the registry and the store invariant |
| Router.RoomMessageRouter.HandleClose | apps/server/src/main/java/com/echoroom/server/ws/RoomMessageRouter.java:63-66 | closing satisfies `Routing.Closed`: leave with broadcast, then unregister |
| Router.RoomMessageRouter.HandleJoin | apps/server/src/main/java/com/echoroom/server/ws/RoomMessageRouter.java:68-92 | the store's join on the payload's ids, then the reply `Routing.JoinRouted` prescribes |
| Router.RoomMessageRouter.ReplyToJoin | apps/server/src/main/java/com/echoroom/server/ws/RoomMessageRouter.java:74-91 | the store's error to the joiner, or the snapshot to it and `user_joined` to the room's other open sessions |
| Router.RoomMessageRouter.LeaveAndBroadcast | apps/server/src/main/java/com/echoroom/server/ws/RoomMessageRouter.java:163-174 | the store's leave, then `user_left` only when someone left, as `Routing.LeaveRouted` states |
| Router.RoomMessageRouter.HandleSignal | apps/server/src/main/java/com/echoroom/server/ws/RoomMessageRouter.java:94-124 | appends what `Routing.SignalRouted` allows and changes neither the store nor the registry |
| Router.RoomMessageRouter.HandleMuteState | apps/server/src/main/java/com/echoroom/server/ws/RoomMessageRouter.java:126-141 | appends what `Routing.MuteRouted` allows and changes neither the store nor the registry |
| Router.RoomMessageRouter.HandleAiPing | apps/server/src/main/java/com/echoroom/server/ws/RoomMessageRouter.java:143-161 | appends what `Routing.AiPingRouted` allows for the router's AI service |
| Router.RoomMessageRouter.FindSessionByRoomAndUserId | apps/server/src/main/java/com/echoroom/server/ws/RoomMessageRouter.java:176-185 | the search finds nothing exactly when no open session of the room has that user id, and otherwise one such session |
| Router.RoomMessageRouter.BroadcastToRoomExcept | apps/server/src/main/java/com/echoroom/server/ws/RoomMessageRouter.java:187-196 | the loop sends the message exactly once to each open session of the room other than the excluded one |
| Router.RoomMessageRouter.SendIfRecipient | apps/server/src/main/java/com/echoroom/server/ws/RoomMessageRouter.java:189-195 | one session passes the three filters and receives the message, or receives nothing |
| Router.RoomMessageRouter.BuildForwardPayload | apps/server/src/main/java/com/echoroom/server/ws/RoomMessageRouter.java:113-122 | the in-place copy builds the forwarded payload |
| Router.RoomMessageRouter.SendError | apps/server/src/main/java/com/echoroom/server/ws/RoomMessageRouter.java:198-203 | appends the error message that `Routing.SendError` describes |
| Router.RoomMessageRouter.Send | apps/server/src/main/java/com/echoroom/server/ws/RoomMessageRouter.java:205-216 | appends one message when the session is registered and open, nothing otherwise |
| WsProtocol.IsServerMessageExactly | packages/shared/src/ws-protocol.ts:109-115 | the guard accepts exactly objects whose `type` is a string and that have a `payload` property |
| WsProtocol.ServerMessagesPass | packages/shared/src/ws-protocol.ts:10-19 | every message the server can send passes the guard |
| WsProtocol.IsServerMessageIsShallow | packages/shared/src/ws-protocol.ts:109-115 | the guard does not check the type against the union, nor the payload's shape |
| WsProtocol.SharedTypesAreSignals | packages/shared/src/ws-protocol.ts:1-19 | the only types both directions share are the three signal types |
| RoomReducer.InitialIsValid | apps/web/src/state/roomReducer.ts:36-42 | the initial state satisfies the reducer invariant and is empty |
| RoomReducer.ToParticipantMapShape | apps/web/src/state/roomReducer.ts:44-58 | the participant map has distinct keys, each entry under its own user id, and marks self, and only self, as self and connected |
| RoomReducer.ToParticipantMapGet | apps/web/src/state/roomReducer.ts:44-58 | a user id maps to the last entry listed under it, annotated, or to nothing when it is not listed |
| RoomReducer.LastIndex | apps/web/src/state/roomReducer.ts:57 | the last position of a user id in the list, or -1 |
| RoomReducer.ReducePreservesValid | apps/web/src/state/roomReducer.ts:60-141 | every action keeps keys distinct, entries under their own user id, self marked consistently, and at most six AI replies |
| RoomReducer.ReduceAllPreservesValid | apps/web/src/state/roomReducer.ts:60-141 | any sequence of actions keeps the invariant |
| RoomReducer.AtMostOneSelf | apps/web/src/state/roomReducer.ts:52-53 | in a valid state at most one participant is marked self, and it is the self user |
| RoomReducer.SetFieldsOnly | apps/web/src/state/roomReducer.ts:62-71 | setting the connection status or the error changes that field and nothing else |
| RoomReducer.SetSnapshotOutcome | apps/web/src/state/roomReducer.ts:72-78 | a snapshot replaces room, self and participants; listed user ids are exactly the keys; each maps to its last listing, annotated; the rest of the state is kept |
| RoomReducer.UserJoinedOutcome | apps/web/src/state/roomReducer.ts:79-92 | a joined user is put under its id, appended when new and in place when known, with everything else kept |
| RoomReducer.UserLeftOutcome | apps/web/src/state/roomReducer.ts:93-100 | a left user is removed and nothing else changes; an unknown user leaves the state as it was |
| RoomReducer.UserMutedOutcome | apps/web/src/state/roomReducer.ts:101-116 | only a known user's `muted` changes, in place; an unknown user leaves the state as it was |
| RoomReducer.PeerStateOutcome | apps/web/src/state/roomReducer.ts:117-132 | only a known user's `connected` changes, in place; an unknown user leaves the state as it was |
| RoomReducer.AiReplyOutcome | apps/web/src/state/roomReducer.ts:133-137 | the new reply goes first, the previous ones follow, and the list is cut to six |
| RoomReducer.UnrecognisedIsIdentity | apps/web/src/state/roomReducer.ts:138-139 | an unknown action leaves the state as it was |
| RoomPage.FirstOccurrenceFrom | apps/web/src/pages/RoomPage.tsx:45-46 | the position `replace` rewrites is the first occurrence of the pattern |
| RoomPage.ReplaceFirstAtStart | apps/web/src/pages/RoomPage.tsx:44-46 | replacing a scheme the string starts with rewrites just that prefix |
| RoomPage.StripTrailingSlashRemovesOne | apps/web/src/pages/RoomPage.tsx:40 | `replace(/\/$/, "")` removes one final slash when there is one and nothing otherwise |
| RoomPage.ResolveWsUrl | apps/web/src/pages/RoomPage.tsx:32-51 | the resolved URL always ends in `/ws` |
| RoomPage.WsUrlOf | apps/web/src/pages/RoomPage.tsx:39-50 | every base yields a URL ending in `/ws` |
| RoomPage.BaseCases | apps/web/src/pages/RoomPage.tsx:33-37 | a configured base with a non-whitespace character is used trimmed; otherwise localhost falls back to port 8080 and any other host to the page origin |
| RoomPage.SchemesDiffer | apps/web/src/pages/RoomPage.tsx:39-48 | the four scheme tests are mutually exclusive |
| RoomPage.WsUrlCases | apps/web/src/pages/RoomPage.tsx:39-50 | a websocket base is kept, an `https` base becomes `wss`, an `http` base becomes `ws`, and a bare host is prefixed with `ws://`; one trailing slash is dropped before `/ws` |
| RoomPage.WsUrlScheme | apps/web/src/pages/RoomPage.tsx:39-50 | the URL always has a websocket scheme, and it is secure exactly when the base was `wss` or `https` |
| RoomPage.DisplayNameCases | apps/web/src/pages/RoomPage.tsx:71-74 | the shown name is never empty or padded: it is the trimmed parameter, or `Anonymous` when the parameter is absent or blank |
| RoomPage.SignalPayloadFields | apps/web/src/pages/RoomPage.tsx:59-65 | the explicit target overrides any `targetUserId` in the payload, and every other field is sent as given |
| RoomPage.SignalPayloadReachesTarget | apps/web/src/pages/RoomPage.tsx:53-66 | the server reads back the target the client set, strips it, stamps the sender, and forwards every other field unchanged |
| LobbyPage.FinalRoomIdCases | apps/web/src/pages/LobbyPage.tsx:15 | a room id with content is trimmed, then lower-cased; a blank one is replaced by the lower-cased placeholder; the result has no upper-case ASCII letter |
| LobbyPage.FinalRoomIdIsNormal | apps/web/src/pages/LobbyPage.tsx:15 | entering a normalised room id again yields the same id, whatever the placeholder |
| LobbyPage.LowerKeepsTrim | apps/web/src/pages/LobbyPage.tsx:15 | trimming and ASCII lower-casing commute |
| LobbyPage.FinalDisplayNameCases | apps/web/src/pages/LobbyPage.tsx:14 | the name is the trimmed input, or `Anonymous` when the input is blank |
| LobbyPage.RoomPathShape | apps/web/src/pages/LobbyPage.tsx:16 | the path is `/room/`, the final room id, `?name=` and the encoded name |
| LobbyPage.LobbyNameReachesRoomPage | apps/web/src/pages/LobbyPage.tsx:14-16 | when the query decodes what was encoded, the room page shows exactly the name the lobby chose |

## Left out

- Concurrency: the store's `synchronized` methods are modelled as atomic steps. `RoomState.JoinEach` stands for one serial order of concurrent joins. Thread interleavings and the `ConcurrentHashMap` iteration order are not modelled; instead, the broadcast specification allows any order.
- JSON decoding by Jackson is not modelled. The router receives either `Malformed`, for a document Jackson rejects, or an envelope with an optional type and payload. Outgoing payloads are values, not serialised text. A serialisation failure in `send` is not modelled.
- JsonNodes.MutedFlag: Jackson's `asBoolean` coercions, namely the text `"true"` and non-zero numbers, are not modelled. Only the boolean `true` sets the flag.
- A message whose JSON document is `null` makes Jackson return `null`, and `handleMessage` then fails with a `NullPointerException`. This crash is not modelled.
- `Map.of` payloads have no defined field order in Java. The order of fields in the modelled payloads is illustrative only.
- Duplicate keys in an inbound JSON object are not modelled. Lemmas about forwarding assume distinct keys.
- JSON numbers are kept as their lexeme. `asText` of a number is not re-formatted.
- LobbyPage.FinalRoomId: `toLowerCase` is modelled for ASCII letters only (Text.ToLowerAscii). Unicode case mapping is not modelled.
- JavaScript object keys are modelled as insertion-ordered maps. JavaScript's ordering of integer-like keys first, and keys inherited from the prototype, are not modelled.
- The websocket transport adapter (`RoomWebSocketHandler`), the client's `socketClient`, and the WebRTC mesh are not part of this model.
- The UI: rendering, `localStorage`, the random user and room ids, the environment variable and `window.location` become parameters.
- Router.RoomMessageRouter.Register: a session's `isOpen` is a flag fixed when it registers. A transport that closes without `handleClose` is not modelled.
- A `null` session id is not modelled. Session ids are strings.
- `encodeURIComponent` and query-string decoding are parameters of the lobby and room-page lemmas.
- `JSON.stringify` dropping `undefined` fields of the outgoing signal payload is not modelled.
- The `AIService` interface is modelled as a function field of the router. `MockAIService.reply` is one such function; other implementations are not part of this model.
