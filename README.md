# edgeroom in Dafny

edgeroom is a real-time incident room service. The worker keeps one actor per room. The actor accepts WebSocket connections, binds each connection to a participant identity through a `hello` handshake, and broadcasts the list of who is present after every join and leave. An internal `/broadcast` endpoint on the actor fans validated server messages out to every socket.

Incidents are triggered idempotently by key. The first trigger for a key atomically creates:
- a room;
- its initial event;
- the mapping from the incident key to the room.

Every later or concurrent trigger for the same key returns that room.

Around this core sit pure parts:
- the request and wire schemas;
- the task-update merge;
- the `limit` parameter clamp;
- the row mapping of the event and message listings;
- the web client's room-state reducer.

This project models that core and proves properties of the model:

- `room_actor.dfy`: the room actor as a class.
  - The `sockets` field is an insertion-ordered map from socket to identity.
  - The `outbox` field records what each socket was sent.
  - Each event handler is a method whose contract gives the new map and outboxes.
  - The presence snapshot is specified by `Snapshot`. `SnapshotFirstSeen` proves what it means: no pending entry, no repeated userId, the first socket of each userId in accept order, and every bound userId listed.
  - `CurrentUsers` is proved against that specification, with the loop that builds `byUserId`; `Broadcast` is proved against `Deliver`.
- `incidents_service.dfy`: the incident database as a class with three map fields and SQL-like primitives.
  - `RunBatch` is the all-or-nothing batch that fails on a duplicate key.
  - `TriggerIncident` runs the fast-path read, the batch and the reconciling re-read step by step.
  - That method is proved against the pure `Trigger`, and the lemmas about `Trigger` state idempotence, all-or-nothing creation, the race between two triggers, and the fact that no key is ever remapped.
  - Concurrent requests are an arbitrary `interleaved` store state that the batch meets.
  - The broadcast goes to the room actor's `/broadcast` ingress, so its outcome is proved not to affect the trigger.
- `schemas.dfy`, `server_messages.dfy` and `domain.dfy`: the zod schemas.
  - Each schema is a validity predicate over a datatype.
  - Where the core parses raw JSON (the handshake, the broadcast body, a task update), the schema is also a decoder from `Json`. It is proved sound against the predicate and complete on encodings (round trips).
- `room_reducer.dfy`, `tasks_service.dfy`, `request.dfy`, `events_service.dfy` and `messages_service.dfy`: the pure helpers.
- Shared helpers:
  - `js_strings.dfy`: JavaScript string length in UTF-16 code units, and `String.prototype.trim`.
  - `ordered_maps.dfy`: a JavaScript `Map` with insertion order.
  - `json.dfy`: JSON values.
  - `wrappers.dfy`: the Option and Result types.

Identifiers, timestamps, the JSON text codec and socket send failures are parameters:
- fresh ids are a `Fresh` value, and the time is a string argument;
- `JSON.parse` results are an `Option<Json>`;
- the sockets whose `send` throws are a `failing` set.

The worker imports `IncidentStatus` from the shared package (apps/worker/src/services/incidentsService.ts:6), and the incident handlers import `IncidentUpdateSchema` from it; the shared types module defines neither. `IncidentStatus` is taken here to be `"open" | "resolved"`, the two values the incident handlers use.

The room name of a trigger is validated first (1..80 UTF-16 units) and trimmed afterwards. A name made only of spaces therefore passes the trigger schema but produces a room with an empty name, which the room schema rejects (`IncidentsService.BlankRoomNameBecomesEmpty`). The model keeps the code's order.

## Model

| member | source | states |
|---|---|---|
| `JsStrings.JsLength` | packages/shared/src/schemas.ts:3-6 | A string's length as zod counts it (UTF-16 code units) lies between its character count and twice that, and is 0 only for the empty string. |
| `JsStrings.BmpLength` | packages/shared/src/schemas.ts:3-6 | Without astral characters the counted length is the character count. |
| `JsStrings.Trim` | apps/worker/src/services/incidentsService.ts:62 | `trim()` returns the infix left after cutting maximal whitespace runs off both ends; the result neither starts nor ends with whitespace. |
| `JsStrings.TrimAllWhitespace` | apps/worker/src/services/incidentsService.ts:62 | A string made only of whitespace trims to the empty string. |
| `Json.StringOf` | packages/shared/src/schemas.ts:3-6 | A `z.string().min(lo).max(hi)` field accepts exactly a JSON string of length in range, and yields that string. |
| `OrderedMaps.OrderedMap.Get` | apps/worker/src/durable/room.do.ts:88 | `get` finds a value exactly for a present key, namely the one stored with it. |
| `OrderedMaps.OrderedMap.Set` | apps/worker/src/durable/room.do.ts:79-81 | `set` keeps keys unique. A present key keeps its position; a new key is appended. The key then maps to the new value and every other key is unchanged. |
| `OrderedMaps.OrderedMap.Delete` | apps/worker/src/durable/room.do.ts:111-114 | `delete` removes the key, keeps the order of the rest and every other value, and is the identity for an absent key. |
| `OrderedMaps.OrderedMap.Keys` | apps/worker/src/durable/room.do.ts:125 | `keys()` lists the keys in insertion order. |
| `OrderedMaps.OrderedMap.Values` | apps/worker/src/durable/room.do.ts:136 | `values()` lists the values in insertion order. |
| `OrderedMaps.OrderedMap.IndexOf` | apps/worker/src/durable/room.do.ts:138 | The position of the first entry with the key, or none exactly when no entry has it (`has`). |
| `Schemas.ValidPresence` | packages/shared/src/schemas.ts:3-6 | An identity has a userId of at least 1 UTF-16 unit and a displayName of 1..60. |
| `Schemas.ValidCreateRoom` | packages/shared/src/schemas.ts:8-10 | A room name has 1..80 UTF-16 units. |
| `Schemas.ValidCreateEvent` | packages/shared/src/schemas.ts:12-16 | A message of 1..2000 units and a valid identity as creator; the type is one of the three enum values by construction. |
| `Schemas.ValidIncidentTrigger` | packages/shared/src/schemas.ts:18-22 | A key of 1..120 units, a room name of 1..80 and a valid initial event. |
| `Schemas.ValidIncidentCreate` | packages/shared/src/schemas.ts:24-28 | A title of 1..120 units, an optional description of 1..2000 and a valid creator. |
| `Schemas.ValidCreateTask` | packages/shared/src/schemas.ts:31-35 | A title of 1..200 units, an optional assignee of 1..60 and a valid creator. |
| `Schemas.ValidUpdateTask` | packages/shared/src/schemas.ts:37-41 | A given title has 1..200 units and a given assignee 1..60; absent fields and a null assignee always pass. |
| `Schemas.ValidCreateChatMessage` | packages/shared/src/schemas.ts:43-46 | A text of 1..4000 units and a valid creator. |
| `Schemas.NonEmptyIff` | packages/shared/src/schemas.ts:4 | `min(1)` accepts exactly the non-empty strings. |
| `Schemas.LengthInCharacters` | packages/shared/src/schemas.ts:3-51 | On strings without astral characters every length rule counts characters. |
| `Schemas.PresenceInCharacters` | packages/shared/src/schemas.ts:3-6 | A valid identity has a non-empty userId and a displayName of 1 to 60 characters, iff so on strings without astral characters. |
| `Schemas.CreateRoomRule` | packages/shared/src/schemas.ts:8-10 | A room creation is valid iff its name has 1..80 characters. |
| `Schemas.CreateEventRule` | packages/shared/src/schemas.ts:12-16 | A created event is valid iff its message has 1..2000 characters and its author is a valid identity. |
| `Schemas.IncidentTriggerRule` | packages/shared/src/schemas.ts:18-22 | A trigger is valid iff its key has 1..120 characters, its room name 1..80 and its initial event is a valid created event. |
| `Schemas.IncidentCreateRule` | packages/shared/src/schemas.ts:24-28 | An incident creation is valid iff its title has 1..120 characters, any description has 1..2000, and its creator is a valid identity. |
| `Schemas.CreateTaskRule` | packages/shared/src/schemas.ts:31-35 | A task creation is valid iff its title has 1..200 characters, any assignee has 1..60, and its creator is a valid identity. |
| `Schemas.UpdateTaskRule` | packages/shared/src/schemas.ts:37-41 | The empty update is valid; clearing the assignee is valid exactly when leaving it absent is; title 1..200 and assignee 1..60 when given. |
| `Schemas.CreateChatMessageRule` | packages/shared/src/schemas.ts:43-46 | A chat message is valid iff its text has 1..4000 characters and its author is a valid identity. |
| `Schemas.DecodeEventType` | packages/shared/src/schemas.ts:13 | The event type enum accepts exactly "note", "status" and "link", each as itself. |
| `Schemas.DecodeTaskStatus` | packages/shared/src/schemas.ts:38 | The task status enum accepts exactly "open" and "done", each as itself. |
| `Schemas.DecodePresence` | packages/shared/src/schemas.ts:3-6 | An accepted identity is an object and passes the identity rules. |
| `Schemas.PresenceRoundTrip` | packages/shared/src/schemas.ts:3-6 | Every valid identity is accepted as itself. |
| `Schemas.DecodeHello` | packages/shared/src/schemas.ts:48-51 | An accepted hello is an object with kind "hello" carrying a valid identity. |
| `Schemas.HelloRoundTrip` | packages/shared/src/schemas.ts:48-51 | Every valid identity sent as a hello is accepted as itself. |
| `Schemas.HelloIff` | packages/shared/src/schemas.ts:48-51 | A hello is accepted iff its kind is "hello" and its user passes the identity schema. |
| `Schemas.DecodeUpdateTask` | packages/shared/src/schemas.ts:37-41 | An accepted update is valid; its assignee is kept iff the field is absent, and cleared iff it is `null`. |
| `Schemas.UpdateTaskRoundTrip` | packages/shared/src/schemas.ts:37-41 | Every valid update is accepted as itself. |
| `Schemas.UpdateTaskEmptyAndNull` | packages/shared/src/schemas.ts:37-41 | `{}` is the update that changes nothing, and `{assignee: null}` is a distinct valid update that clears. |
| `Domain.ValidRoom` | packages/shared/src/domainSchemas.ts:4-8 | Id, name and creation time are non-empty. |
| `Domain.ValidRoomEvent` | packages/shared/src/domainSchemas.ts:10-17 | Id, room id and creation time are non-empty and the author is a valid identity; the message may be empty. |
| `Domain.ValidTask` | packages/shared/src/domainSchemas.ts:19-27 | Id, room id, title and both times are non-empty, and a given assignee is non-empty. |
| `Domain.ValidChatMessage` | packages/shared/src/domainSchemas.ts:29-35 | Id, room id, text and creation time are non-empty and the author is a valid identity. |
| `Domain.DomainRules` | packages/shared/src/domainSchemas.ts:4-35 | Rooms, events, tasks and chat messages are valid iff their `min(1)` fields are non-empty (an event's message may be empty) and authors are valid identities. |
| `ServerMessages.DecodeUser` | packages/shared/src/ws/serverMessages.ts:9-14 | An accepted presence user has a non-empty userId and displayName. |
| `ServerMessages.DecodeUsers` | packages/shared/src/ws/serverMessages.ts:7-15 | A users array is accepted iff every element is, element by element, in order. |
| `ServerMessages.DecodeEvent` | packages/shared/src/ws/serverMessages.ts:17-30 | An accepted event payload passes the wire event rules (the message may be empty). |
| `ServerMessages.DecodeTask` | packages/shared/src/ws/serverMessages.ts:32-40 | An accepted task payload passes the task rules. |
| `ServerMessages.DecodeChat` | packages/shared/src/ws/serverMessages.ts:52-61 | An accepted chat payload passes the chat rules (the text is non-empty). |
| `ServerMessages.DecodeServerMessage` | packages/shared/src/ws/serverMessages.ts:73-80 | An accepted message is valid and of the variant its `kind` literal names. |
| `ServerMessages.UnknownKindRejected` | packages/shared/src/ws/serverMessages.ts:73-80 | A value whose kind is none of the six literals is rejected. |
| `ServerMessages.UsersRoundTrip` | packages/shared/src/ws/serverMessages.ts:7-15 | Every list of wire-valid users is accepted as itself. |
| `ServerMessages.EventRoundTrip` | packages/shared/src/ws/serverMessages.ts:17-30 | Every wire-valid event is accepted as itself. |
| `ServerMessages.TaskRoundTrip` | packages/shared/src/ws/serverMessages.ts:32-40 | Every valid task is accepted as itself. |
| `ServerMessages.ChatRoundTrip` | packages/shared/src/ws/serverMessages.ts:52-61 | Every wire-valid chat message is accepted as itself. |
| `ServerMessages.PresenceMsgRoundTrip` | packages/shared/src/ws/serverMessages.ts:7-15 | Every valid presence message is accepted as itself. |
| `ServerMessages.EventMsgRoundTrip` | packages/shared/src/ws/serverMessages.ts:17-30 | Every valid `event:created` message is accepted as itself. |
| `ServerMessages.TaskCreatedMsgRoundTrip` | packages/shared/src/ws/serverMessages.ts:42-45 | Every valid `task:created` message is accepted as itself. |
| `ServerMessages.TaskUpdatedMsgRoundTrip` | packages/shared/src/ws/serverMessages.ts:47-50 | Every valid `task:updated` message is accepted as itself. |
| `ServerMessages.ChatMsgRoundTrip` | packages/shared/src/ws/serverMessages.ts:63-66 | Every valid `chat:message` message is accepted as itself. |
| `ServerMessages.ErrorMsgRoundTrip` | packages/shared/src/ws/serverMessages.ts:68-71 | Every error message with non-empty text is accepted as itself. |
| `ServerMessages.ServerMessageRoundTrip` | packages/shared/src/ws/serverMessages.ts:73-80 | Every valid message of any of the six kinds is accepted as itself. |
| `ServerMessages.EncodingDecodesOnlyToItself` | packages/shared/src/ws/serverMessages.ts:73-80 | The encoding of any message, valid or not, is accepted as that same message or not at all. |
| `ServerMessages.InvalidEncodingRejected` | packages/shared/src/ws/serverMessages.ts:73-80 | The encoding of a message the schema refuses is itself refused. |
| `ServerMessages.DecodedIsStable` | packages/shared/src/ws/serverMessages.ts:73-80 | What the schema accepts (unknown keys dropped) is accepted again unchanged when forwarded. |
| `ServerMessages.EmptyPresenceValid` | packages/shared/src/ws/serverMessages.ts:7-15 | A presence message may list nobody. |
| `ServerMessages.IdentityIsWireUser` | packages/shared/src/ws/serverMessages.ts:7-15 | Every valid identity is a valid presence user, and the wire shape has no 60-unit bound on the display name. |
| `ServerMessages.DomainEventIsWireEvent` | packages/shared/src/ws/serverMessages.ts:17-30 | Every valid domain event is a valid `event:created` payload. |
| `ServerMessages.DomainTaskIsWireTask` | packages/shared/src/ws/serverMessages.ts:32-40 | Every valid domain task is a valid `task:created` and `task:updated` payload. |
| `ServerMessages.DomainChatIsWireChat` | packages/shared/src/ws/serverMessages.ts:52-61 | Every valid domain chat message is a valid `chat:message` payload. |
| `RoomActor.Snapshot` | apps/worker/src/durable/room.do.ts:134-141 | The users listed for the identities in map order: pending entries skipped, the first identity per userId kept. It lists at most as many users as there are sockets. |
| `RoomActor.Deliver` | apps/worker/src/durable/room.do.ts:123-132 | The outboxes after sending to each key in turn, skipping the sockets whose send throws. No socket's outbox is lost. |
| `RoomActor.FirstIndex` | apps/worker/src/durable/room.do.ts:138 | The first position in map order of an identity with a given userId. |
| `RoomActor.SnapshotFirstSeen` | apps/worker/src/durable/room.do.ts:134-141 | The current users exclude "pending". Each entry is the first socket's identity for its userId in map order, every bound userId appears, and entries are ordered by first occurrence. |
| `RoomActor.SnapshotDistinct` | apps/worker/src/durable/room.do.ts:134-141 | No userId is listed twice and "pending" is never listed. |
| `RoomActor.SnapshotIgnoresPending` | apps/worker/src/durable/room.do.ts:137 | A pending socket changes nothing in the snapshot, so a new socket is never listed to itself. |
| `RoomActor.AcceptOrderWins` | apps/worker/src/durable/room.do.ts:80-104 | Of two sockets with one userId, the one accepted first is listed even if it said hello second. |
| `RoomActor.SnapshotIsValidMessage` | apps/worker/src/durable/room.do.ts:143-145 | A snapshot of validated identities is a valid presence message. |
| `RoomActor.HandshakeErrorsAreValid` | apps/worker/src/durable/room.do.ts:91-107 | The three fixed error replies satisfy the error message schema. |
| `RoomActor.DeliverReachesAllButFailing` | apps/worker/src/durable/room.do.ts:123-132 | Broadcasting appends the message to every listed socket whose send does not throw, and to no other. |
| `RoomActor.RoomDurableObject.Valid` | apps/worker/src/durable/room.do.ts:9-13 | Sockets are distinct and were accepted by this actor. Each holds the pending identity or one that passed the hello schema. Every message sent satisfies the server-message schema. |
| `RoomActor.RoomDurableObject.Bind` | apps/worker/src/durable/room.do.ts:104 | `sockets.set(ws, user)` for a validated user. Nothing else changes, and the actor stays valid. |
| `RoomActor.RoomDurableObject.constructor` | apps/worker/src/durable/room.do.ts:9-13 | A new actor has no sockets and has sent nothing. |
| `RoomActor.RoomDurableObject.HandleHttp` | apps/worker/src/durable/room.do.ts:28-57 | POST /broadcast with a body the schema accepts delivers the parsed message and answers 204. Any other body answers 400 VALIDATION_ERROR and sends nothing. Any other request answers 404 NOT_FOUND. |
| `RoomActor.RoomDurableObject.HandleWebSocket` | apps/worker/src/durable/room.do.ts:62-77 | Accepting adds exactly one pending slot, last, and sends only that socket one presence message listing the users bound before it. |
| `RoomActor.RoomDurableObject.TrackPending` | apps/worker/src/durable/room.do.ts:79-81 | The socket maps to the pending identity and nothing else changes. |
| `RoomActor.RoomDurableObject.OnMessage` | apps/worker/src/durable/room.do.ts:83-109 | Checks run in the code's order. A non-JSON frame gets the format error. A bound slot gets "Already joined". A non-hello gets the hello error. Each error goes to that socket only and leaves the map unchanged. A valid hello on a pending or unknown slot binds only that slot, then broadcasts the new snapshot to every slot. |
| `RoomActor.RoomDurableObject.OnClose` | apps/worker/src/durable/room.do.ts:111-114 | The slot is removed whether pending or bound, and the new snapshot is broadcast to the remaining slots. A second close leaves the map unchanged and broadcasts again. |
| `RoomActor.RoomDurableObject.Send` | apps/worker/src/durable/room.do.ts:119-121 | Appends the message to that socket's outbox only. |
| `RoomActor.RoomDurableObject.Broadcast` | apps/worker/src/durable/room.do.ts:123-132 | The loop over the keys delivers to every socket whose send does not throw, skipping the failures, and changes no slot. |
| `RoomActor.RoomDurableObject.CurrentUsers` | apps/worker/src/durable/room.do.ts:134-141 | The `byUserId` loop returns exactly the snapshot of the map's identities. |
| `RoomActor.RoomDurableObject.BroadcastPresence` | apps/worker/src/durable/room.do.ts:143-145 | Every socket not failing is sent the current snapshot. |
| `RoomActor.HandshakeWalkthrough` | apps/worker/src/durable/room.do.ts:62-109 | A worked scenario on a new actor. The first socket is sent an empty presence list. A frame that is not a hello leaves it pending. A hello binds it to the first user. A second hello on the same socket, for another user, is refused, and the first user stays bound. |
| `RoomReducer.Reduce` | apps/web/src/state/roomReducer.ts:34-62 | Only hydration changes the room, only a presence update changes presence, and any other action type returns the state unchanged. |
| `RoomReducer.InitialRoomState` | apps/web/src/state/roomReducer.ts:26-32 | No room and all four lists empty. |
| `RoomReducer.ReplaceById` | apps/web/src/state/roomReducer.ts:53-55 | Keeps length and id order, puts the payload at every matching id, and leaves the others. |
| `RoomReducer.HydrateKeepsPresence` | apps/web/src/state/roomReducer.ts:36-43 | Hydration takes room, events, tasks and messages from the payload and keeps presence. |
| `RoomReducer.PresenceReplacesOnlyPresence` | apps/web/src/state/roomReducer.ts:44-45 | A presence update replaces presence and nothing else. |
| `RoomReducer.CreatedAppends` | apps/web/src/state/roomReducer.ts:46-58 | Created events, tasks and chat messages are appended. The old list is the prefix and other fields are unchanged. |
| `RoomReducer.TaskUpdatedReplacesById` | apps/web/src/state/roomReducer.ts:50-56 | A task update keeps length and order, replaces the tasks with the payload's id, and changes nothing else. |
| `RoomReducer.TaskUpdatedUnknownId` | apps/web/src/state/roomReducer.ts:50-56 | An update for an unknown id leaves the state unchanged. |
| `RoomReducer.TaskUpdatedIdempotent` | apps/web/src/state/roomReducer.ts:50-56 | Replaying a task update changes nothing. |
| `RoomReducer.OtherActionIgnored` | apps/web/src/state/roomReducer.ts:59-60 | Any other action returns the state unchanged. |
| `RoomReducer.ReduceKeepsValid` | apps/web/src/state/roomReducer.ts:34-62 | Schema-valid actions keep every list of the state schema-valid. Presence is held to the wire user rule, which has no display-name bound. |
| `RoomReducer.InitialIsValid` | apps/web/src/state/roomReducer.ts:26-32 | The initial state is valid. |
| `TasksService.CreateTask` | apps/worker/src/services/tasksService.ts:14-39 | A created task is open, with `updatedAt == createdAt`, and the given room, title and assignee. |
| `TasksService.CreateTaskValid` | apps/worker/src/services/tasksService.ts:14-39 | A validated creation yields a valid task, sendable as `task:created`. |
| `TasksService.FindTask` | apps/worker/src/services/tasksService.ts:57-63 | Finds a row with that id in that room, or none exactly when there is no such row. |
| `TasksService.MergeTask` | apps/worker/src/services/tasksService.ts:65-85 | An absent title or status keeps the old one. The assignee is kept when absent, cleared by null (and read back as absent), and replaced by a value. id, room and createdAt are kept, and updatedAt is the new time. |
| `TasksService.UpdateTask` | apps/worker/src/services/tasksService.ts:51-86 | None exactly when the room has no task with that id; otherwise the found row merged with the update (`MergeTask`), so it keeps that id and room and is stamped now. |
| `TasksService.EmptyUpdateTouchesOnlyTimestamp` | apps/worker/src/services/tasksService.ts:65-85 | The update `{}` changes only updatedAt. |
| `TasksService.NullAssigneeClears` | apps/worker/src/services/tasksService.ts:68-69 | `{assignee: null}` clears the assignee and changes nothing else but the time. |
| `TasksService.MergeIdempotent` | apps/worker/src/services/tasksService.ts:65-85 | Applying one update twice equals applying it once. |
| `TasksService.MergeKeepsValid` | apps/worker/src/services/tasksService.ts:65-85 | A valid update of a valid task is valid and sendable as `task:updated`. |
| `TasksService.CreatedTaskIsUpdatable` | apps/worker/src/services/tasksService.ts:14-86 | A task just created is found and merged by a later update to its id and room. |
| `Request.Clamp` | apps/worker/src/utils/request.ts:6 | `min(max(n, lo), hi)` is at most hi, at least lo when lo ≤ hi, n itself in range, lo below and hi above. |
| `Request.ParseLimit` | apps/worker/src/utils/request.ts:2-7 | A missing or empty string, or a number that is not finite, yields the default; otherwise the clamped number. |
| `Request.DefaultLimitInRange` | apps/worker/src/utils/request.ts:2-7 | With the default arguments the limit is in 1..500, and it is 200 when the string is missing, empty or not a finite number. |
| `Request.ClampIdempotent` | apps/worker/src/utils/request.ts:6 | Clamping twice equals clamping once. |
| `Request.ClampMonotone` | apps/worker/src/utils/request.ts:6 | Clamping is monotone in n. |
| `EventsService.StringOr` | apps/worker/src/services/eventsService.ts:17-21 | A non-empty string cell is kept, anything else gives the fallback. |
| `EventsService.ToPresence` | apps/worker/src/services/eventsService.ts:14-23 | Falls back to "unknown" or "Unknown" field by field; both fields are always non-empty. |
| `EventsService.ToPresenceIdentity` | apps/worker/src/services/eventsService.ts:14-23 | On non-empty string cells the identity comes back unchanged. |
| `EventsService.CreateEvent` | apps/worker/src/services/eventsService.ts:49-56 | The created event has the given room, the request's type and message, and the creator as author. |
| `EventsService.RowToEvent` | apps/worker/src/services/eventsService.ts:83-90 | A row maps field by field, the author through the fallback. |
| `EventsService.ListEvents` | apps/worker/src/services/eventsService.ts:81-90 | Rows map one to one, in the store's order. |
| `EventsService.CreateEventValid` | apps/worker/src/services/eventsService.ts:25-57 | A validated creation with non-empty ids yields a valid domain event. |
| `EventsService.CreatedEventReadsBack` | apps/worker/src/services/eventsService.ts:33-56 | The stored row of a created event lists back as the returned event. |
| `EventsService.ListCreatedEvents` | apps/worker/src/services/eventsService.ts:81-90 | Listing the rows of created events gives back those events in order. |
| `MessagesService.CreateMessage` | apps/worker/src/services/messagesService.ts:43-49 | The created message has the given room, the request's text, and the creator as author. |
| `MessagesService.RowToMessage` | apps/worker/src/services/messagesService.ts:14-18 | A row maps field by field. The author goes through the fallback, so both of its fields are non-empty. |
| `MessagesService.ListMessages` | apps/worker/src/services/messagesService.ts:73-81 | Rows map one to one, in the store's order. |
| `MessagesService.CreateMessageValid` | apps/worker/src/services/messagesService.ts:20-49 | A validated creation with non-empty ids yields a valid chat message. |
| `MessagesService.CreatedMessageReadsBack` | apps/worker/src/services/messagesService.ts:28-49 | The stored row of a created message lists back as the returned message. |
| `MessagesService.ListCreatedMessages` | apps/worker/src/services/messagesService.ts:73-81 | Listing the rows of created messages gives back those messages in order. |
| `IncidentsService.Store.MappedRoomId` | apps/worker/src/services/incidentsService.ts:45-51 | The single-row read of the mapping returns its room id. |
| `IncidentsService.Store.Concurrent` | apps/worker/src/services/incidentsService.ts:57-67 | Writes of concurrent requests land between the first read and the batch. |
| `IncidentsService.Store.RunBatch` | apps/worker/src/services/incidentsService.ts:65-91 | The batch applies all three inserts exactly when no key is taken and the database does not fault; otherwise nothing. |
| `IncidentsService.Store.UpdateStatusRow` | apps/worker/src/services/incidentsService.ts:250-256 | Updates status and resolution time of the key's row only, reporting one change, or none for an unknown key. |
| `IncidentsService.GetRoomIdForIncident` | apps/worker/src/services/incidentsService.ts:125-138 | The mapped room id exactly when the key has a mapping. |
| `IncidentsService.InitialEvent` | apps/worker/src/services/incidentsService.ts:93-100 | The returned event carries the new event id, the room id, the request's type and message, and the creator as author. |
| `IncidentsService.TriggerBatch` | apps/worker/src/services/incidentsService.ts:58-91 | The three rows share one room id and one timestamp, with the trimmed room name and an open mapping without resolution. |
| `IncidentsService.Trigger` | apps/worker/src/services/incidentsService.ts:40-123 | The store after a trigger is the one before it, the concurrent state, or that state with the trigger's batch applied. A thrown error leaves the concurrent state, with the key still unmapped. |
| `IncidentsService.TriggerFastPath` | apps/worker/src/services/incidentsService.ts:45-55 | A mapped key returns `created: false` with its room and writes nothing. |
| `IncidentsService.TriggerAllOrNothing` | apps/worker/src/services/incidentsService.ts:58-105 | A trigger creates all three rows exactly when it reports `Created`, with the fresh room id; otherwise it writes nothing. |
| `IncidentsService.CreatedEventIsStored` | apps/worker/src/services/incidentsService.ts:74-100 | The returned event is the stored one and carries the request's type, message and author. |
| `IncidentsService.TriggerMapsReturnedRoom` | apps/worker/src/services/incidentsService.ts:53-117 | After a trigger that does not throw, the key maps to the returned room. |
| `IncidentsService.TriggerReconciles` | apps/worker/src/services/incidentsService.ts:106-122 | After a failed batch, a mapping found by the re-read is returned; only without one is the error re-thrown. |
| `IncidentsService.TriggerNeverRemaps` | apps/worker/src/services/incidentsService.ts:65-122 | A trigger never changes an existing mapping, room or event, and adds at most its own key. |
| `IncidentsService.TriggerIdempotent` | apps/worker/src/services/incidentsService.ts:45-55 | After one successful trigger, every later trigger for that key returns the same room and writes nothing. |
| `IncidentsService.TriggerRace` | apps/worker/src/services/incidentsService.ts:65-122 | Of two concurrent triggers for one key, one creates and the other returns that same room. Exactly one room is created. |
| `IncidentsService.TriggerKeepsIntegrity` | apps/worker/src/services/incidentsService.ts:65-91 | A trigger never leaves an event or a mapping without its room. |
| `IncidentsService.BlankRoomNameBecomesEmpty` | apps/worker/src/services/incidentsService.ts:62 | A room name of whitespace alone becomes an empty name, which the room schema rejects. |
| `IncidentsService.TriggerEventIsValidMessage` | apps/worker/src/services/incidentsService.ts:103 | The broadcast `event:created` message of a validated trigger passes the ingress schema as itself. |
| `IncidentsService.BroadcastToRoom` | apps/worker/src/services/incidentsService.ts:21-34 | The message is POSTed to the room's actor. A failed fetch is swallowed and delivers nothing. A valid message is delivered to every socket whose send does not throw and answered 204. An invalid one is answered 400 and sends nothing. The actor's slots and socket counter never change. |
| `IncidentsService.TriggerIncident` | apps/worker/src/services/incidentsService.ts:40-123 | Step by step, the trigger returns and writes what `Trigger` specifies. The broadcast never changes the result or the store, and it reaches the room's sockets only after a creation. An invalid `event:created` message is answered 400 and sends nothing. The actor's slots and socket counter never change. |
| `IncidentsService.SetStatus` | apps/worker/src/services/incidentsService.ts:243-261 | A status update leaves rooms and events as they are and keeps the set of incident keys. |
| `IncidentsService.SetStatusResolvedAt` | apps/worker/src/services/incidentsService.ts:243-261 | resolvedAt is set to now exactly when the status is resolved. An unknown key gives null and changes nothing. Only that row's status and resolution change. |
| `IncidentsService.SetStatusKeepsIntegrity` | apps/worker/src/services/incidentsService.ts:250-256 | A status update never leaves a mapping without its room. |
| `IncidentsService.UpdateIncidentStatus` | apps/worker/src/services/incidentsService.ts:243-261 | Step by step, the update returns and writes what `SetStatus` specifies. |
| `IncidentsService.GetIncidentByKey` | apps/worker/src/services/incidentsService.ts:199-241 | None without a mapping that has a room id, or without its room. Otherwise the detail, with status defaulting to open and resolvedAt to null. |
| `IncidentsService.CreatedIncidentDetail` | apps/worker/src/services/incidentsService.ts:222-236 | A just-created incident reads back open and unresolved, in a room with the trimmed name. |
| `IncidentsService.StatusUpdateIsReported` | apps/worker/src/services/incidentsService.ts:235-260 | After a status update the detail reports the returned status and resolution. |
| `IncidentsService.ListIncidents` | apps/worker/src/services/incidentsService.ts:172-184 | Rows map one to one, with a null status read as open. |
| `IncidentsService.ListAgreesWithDetail` | apps/worker/src/services/incidentsService.ts:177-236 | The list and the detail read agree on status, resolution and creation time. |

## Left out

- HTTP routing, handlers, middleware and JSON response building are not part of this model. The zod issue `details` of the 400 body are left out too; only the status, code and message are modelled.
- The platform is not modelled:
  - `WebSocketPair`, `accept`, the 101 upgrade response and the `Upgrade` header dispatch in `fetch`;
  - the room lookup `idFromName`/`get`. The broadcast target is passed in as the room's actor.
- `JSON.parse` and `JSON.stringify` are not modelled. A frame or body is given already parsed (`None` when it is not JSON, which includes a binary frame read as ""). A POSTed message arrives as its own encoding.
- Direct sends (`send` outside `broadcast`) always succeed in the model. In the source, a throwing direct send inside `onMessage` would be caught and answered with the format error; that path is not modelled.
- Sends inside `broadcast` that throw are modelled by the `failing` set; the socket stays in the map until its close event.
- Ids, timestamps and UUIDs are inputs, and `Fresh` holds the values a trigger draws.
- The SQL text, the ORDER BY, LIMIT and OFFSET clauses and D1 internals are not modelled. Listings take the rows the query returns as given.
- `getIncidentByKey` takes the event and task listings of the room as parameters.
- Concurrency is represented only as an arbitrary store state between a trigger's first read and its batch. `TriggerRace` instantiates it with a competing trigger.
- `Request.ParseLimit`: numbers are integers. JavaScript's `Number` parse of the raw string is a parameter returning a finite integer or non-finite, so fractional limits are not modelled.
- The `parseOffset` import of the incident handlers has no definition in the request module, and is not part of this model.
- The room directory service (`roomsService.ts`), the manual incident creation handler and all web UI (pages, hooks, the socket client) are not part of this model. The client's kind-to-action switch is not modelled either; the reducer is modelled on its actions.
- `createTask` does not store `createdBy` in the source, and neither does the model.
- `listTasks` (apps/worker/src/services/tasksService.ts:41-49) is not modelled as its own member: its SELECT is a plain read. `getIncidentByKey` takes the rows it returns as its `tasks` parameter.
- The tasks table is not part of the incident store. `TasksService.UpdateTask` models the row found and the task returned, not the UPDATE write.
- `IncidentsService.Trigger`: reads of the store never fail in the model; only the batch can fault (the `fault` input). In the source, a first read that throws (apps/worker/src/services/incidentsService.ts:45-51) propagates to the caller. So does a re-read that throws inside the catch (108-114), replacing the batch's error. Neither path is modelled.
- `IncidentsService.Store.MappedRoomId`: the single-row read always returns; a throwing database read is not modelled, for the same reason.
