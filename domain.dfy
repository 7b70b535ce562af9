/** The persisted domain shapes of the shared package and their schemas. */
module Domain {
  import opened Wrappers
  import opened Schemas

  datatype Room = Room(id: string, name: string, createdAt: string)

  datatype RoomEvent = RoomEvent(
    id: string, roomId: string, eventType: EventType, message: string,
    createdAt: string, author: Presence)

  datatype Task = Task(
    id: string, roomId: string, title: string, status: TaskStatus,
    createdAt: string, updatedAt: string, assignee: Option<string>)

  datatype ChatMessage = ChatMessage(
    id: string, roomId: string, message: string, createdAt: string, author: Presence)

  predicate ValidRoom(r: Room) {
    NonEmpty(r.id) && NonEmpty(r.name) && NonEmpty(r.createdAt)
  }

  /** The message may be empty, but the author is a full identity (displayName at most 60). */
  predicate ValidRoomEvent(e: RoomEvent) {
    NonEmpty(e.id) && NonEmpty(e.roomId) && NonEmpty(e.createdAt) && ValidPresence(e.author)
  }

  predicate ValidTask(t: Task) {
    && NonEmpty(t.id) && NonEmpty(t.roomId) && NonEmpty(t.title)
    && NonEmpty(t.createdAt) && NonEmpty(t.updatedAt)
    && (t.assignee.Some? ==> NonEmpty(t.assignee.value))
  }

  predicate ValidChatMessage(m: ChatMessage) {
    NonEmpty(m.id) && NonEmpty(m.roomId) && NonEmpty(m.message) && NonEmpty(m.createdAt)
    && ValidPresence(m.author)
  }

  /** The domain schemas in characters: every `min(1)` field is non-empty; an event's
      message alone may be empty. */
  lemma DomainRules(r: Room, e: RoomEvent, t: Task, m: ChatMessage)
    ensures ValidRoom(r) <==> r.id != [] && r.name != [] && r.createdAt != []
    ensures ValidRoomEvent(e) <==>
      e.id != [] && e.roomId != [] && e.createdAt != [] && ValidPresence(e.author)
    ensures ValidRoomEvent(e) ==> ValidRoomEvent(e.(message := []))
    ensures ValidTask(t) <==>
      && t.id != [] && t.roomId != [] && t.title != [] && t.createdAt != [] && t.updatedAt != []
      && (t.assignee.Some? ==> t.assignee.value != [])
    ensures ValidChatMessage(m) <==>
      m.id != [] && m.roomId != [] && m.message != [] && m.createdAt != [] && ValidPresence(m.author)
  {
  }
}
