/**
 * The web client's room state and its reducer: hydration from the HTTP snapshot
 * replaces everything except presence, live events append to their list, a task update
 * replaces tasks by id, and a presence message replaces presence.
 */
module RoomReducer {
  import opened Wrappers
  import opened Schemas
  import opened Domain
  import opened ServerMessages

  datatype RoomState = RoomState(
    room: Option<Room>, events: seq<RoomEvent>, tasks: seq<Task>,
    messages: seq<ChatMessage>, presence: seq<Presence>)

  datatype RoomHydration = RoomHydration(
    room: Room, events: seq<RoomEvent>, tasks: seq<Task>, messages: seq<ChatMessage>)

  /** The six action kinds, and any other `type` (which the reducer ignores). */
  datatype RoomAction =
    | Hydrate(hydration: RoomHydration)
    | PresenceUpdated(users: seq<Presence>)
    | EventCreated(event: RoomEvent)
    | TaskCreated(task: Task)
    | TaskUpdated(updated: Task)
    | ChatMessageCreated(chat: ChatMessage)
    | OtherAction(actionType: string)

  /** The state before anything is loaded. */
  function InitialRoomState(): (s: RoomState)
    ensures s.room.None? && s.events == [] && s.tasks == [] && s.messages == [] && s.presence == []
  {
    RoomState(None, [], [], [], [])
  }

  /** `tasks.map(task => task.id === t.id ? t : task)`. */
  function ReplaceById(tasks: seq<Task>, t: Task): (r: seq<Task>)
    ensures |r| == |tasks|
    ensures forall i :: 0 <= i < |tasks| ==> r[i].id == tasks[i].id
    ensures forall i :: 0 <= i < |tasks| && tasks[i].id == t.id ==> r[i] == t
    ensures forall i :: 0 <= i < |tasks| && tasks[i].id != t.id ==> r[i] == tasks[i]
  {
    seq(|tasks|, i requires 0 <= i < |tasks| => if tasks[i].id == t.id then t else tasks[i])
  }

  /** `roomReducer`. Only hydration changes the room, only a presence message changes
      presence, and any other action type leaves the state as it is. */
  function Reduce(state: RoomState, action: RoomAction): (r: RoomState)
    ensures !action.Hydrate? ==> r.room == state.room
    ensures !action.PresenceUpdated? ==> r.presence == state.presence
    ensures action.OtherAction? ==> r == state
  {
    match action
    case Hydrate(h) => RoomState(Some(h.room), h.events, h.tasks, h.messages, state.presence)
    case PresenceUpdated(users) => state.(presence := users)
    case EventCreated(e) => state.(events := state.events + [e])
    case TaskCreated(t) => state.(tasks := state.tasks + [t])
    case TaskUpdated(t) => state.(tasks := ReplaceById(state.tasks, t))
    case ChatMessageCreated(c) => state.(messages := state.messages + [c])
    case OtherAction(_) => state
  }

  /** Hydration takes room, events, tasks and messages from the snapshot and keeps
      the presence already received over the socket. */
  lemma HydrateKeepsPresence(state: RoomState, h: RoomHydration)
    ensures var s := Reduce(state, Hydrate(h));
      && s.presence == state.presence
      && s.room == Some(h.room) && s.events == h.events && s.tasks == h.tasks && s.messages == h.messages
  {
  }

  /** A presence message replaces the presence list and nothing else. */
  lemma PresenceReplacesOnlyPresence(state: RoomState, users: seq<Presence>)
    ensures Reduce(state, PresenceUpdated(users)).presence == users
    ensures Reduce(state, PresenceUpdated(users)) == state.(presence := users)
  {
  }

  /** Created events, tasks and messages go last: the old list is a prefix and every
      other field is unchanged. */
  lemma CreatedAppends(state: RoomState, action: RoomAction)
    requires action.EventCreated? || action.TaskCreated? || action.ChatMessageCreated?
    ensures var s := Reduce(state, action);
      && s.room == state.room && s.presence == state.presence
      && (action.EventCreated? ==>
            s.tasks == state.tasks && s.messages == state.messages
            && |s.events| == |state.events| + 1
            && s.events[..|state.events|] == state.events && s.events[|state.events|] == action.event)
      && (action.TaskCreated? ==>
            s.events == state.events && s.messages == state.messages
            && |s.tasks| == |state.tasks| + 1
            && s.tasks[..|state.tasks|] == state.tasks && s.tasks[|state.tasks|] == action.task)
      && (action.ChatMessageCreated? ==>
            s.events == state.events && s.tasks == state.tasks
            && |s.messages| == |state.messages| + 1
            && s.messages[..|state.messages|] == state.messages
            && s.messages[|state.messages|] == action.chat)
  {
  }

  /** A task update keeps the list's length and id order, replaces every task with the
      payload's id, and touches nothing else of the state. */
  lemma TaskUpdatedReplacesById(state: RoomState, t: Task)
    ensures var s := Reduce(state, TaskUpdated(t));
      && s == state.(tasks := s.tasks)
      && |s.tasks| == |state.tasks|
      && (forall i :: 0 <= i < |state.tasks| ==>
            s.tasks[i] == if state.tasks[i].id == t.id then t else state.tasks[i])
  {
  }

  /** An update for a task the client does not have leaves the state as it is. */
  lemma TaskUpdatedUnknownId(state: RoomState, t: Task)
    requires forall i :: 0 <= i < |state.tasks| ==> state.tasks[i].id != t.id
    ensures Reduce(state, TaskUpdated(t)) == state
  {
    assert ReplaceById(state.tasks, t) == state.tasks;
  }

  /** Replaying a task update changes nothing. */
  lemma TaskUpdatedIdempotent(state: RoomState, t: Task)
    ensures Reduce(Reduce(state, TaskUpdated(t)), TaskUpdated(t)) == Reduce(state, TaskUpdated(t))
  {
    var once := ReplaceById(state.tasks, t);
    assert ReplaceById(once, t) == once;
  }

  /** An action of any other type returns the state unchanged. */
  lemma OtherActionIgnored(state: RoomState, actionType: string)
    ensures Reduce(state, OtherAction(actionType)) == state
  {
  }

  /** A state whose lists hold only schema-valid items. Presence holds what the
      presence message schema accepts, which sets no upper bound on display names. */
  predicate ValidRoomState(s: RoomState) {
    && (s.room.Some? ==> ValidRoom(s.room.value))
    && (forall i :: 0 <= i < |s.events| ==> ValidRoomEvent(s.events[i]))
    && (forall i :: 0 <= i < |s.tasks| ==> ValidTask(s.tasks[i]))
    && (forall i :: 0 <= i < |s.messages| ==> ValidChatMessage(s.messages[i]))
    && (forall i :: 0 <= i < |s.presence| ==> WireUserOk(s.presence[i]))
  }

  /** An action whose payload passes its schema: the domain schemas for the HTTP
      snapshot and the live items, the wire user rule for a presence list. */
  predicate ValidAction(a: RoomAction) {
    match a
    case Hydrate(h) => ValidRoomState(RoomState(Some(h.room), h.events, h.tasks, h.messages, []))
    case PresenceUpdated(users) => forall i :: 0 <= i < |users| ==> WireUserOk(users[i])
    case EventCreated(e) => ValidRoomEvent(e)
    case TaskCreated(t) => ValidTask(t)
    case TaskUpdated(t) => ValidTask(t)
    case ChatMessageCreated(c) => ValidChatMessage(c)
    case OtherAction(_) => true
  }

  /** Valid actions keep a valid state valid, starting from the initial state. */
  lemma ReduceKeepsValid(state: RoomState, action: RoomAction)
    requires ValidRoomState(state) && ValidAction(action)
    ensures ValidRoomState(Reduce(state, action))
  {
    var s := Reduce(state, action);
    match action
    case EventCreated(e) =>
      assert forall i :: 0 <= i < |state.events| ==> s.events[i] == state.events[i];
    case TaskCreated(t) =>
      assert forall i :: 0 <= i < |state.tasks| ==> s.tasks[i] == state.tasks[i];
    case ChatMessageCreated(c) =>
      assert forall i :: 0 <= i < |state.messages| ==> s.messages[i] == state.messages[i];
    case _ =>
  }

  lemma InitialIsValid()
    ensures ValidRoomState(InitialRoomState())
  {
  }
}
