/**
 * The room-event service: the event `createEvent` returns and stores, and the row
 * mapping of `listEvents`, whose author cells fall back to a safe identity. The store
 * hands back cells of any SQL type, modelled as `Json`; ids and timestamps are inputs.
 */
module EventsService {
  import opened JsStrings
  import opened Json
  import opened Schemas
  import opened Domain

  /** An `events` row as the store returns it. */
  datatype EventRow = EventRow(
    id: string, roomId: string, eventType: EventType, message: string, createdAt: string,
    authorUserId: Json, authorDisplayName: Json)

  /** A cell that is a non-empty string, else the fallback. */
  function StringOr(cell: Json, fallback: string): (s: string)
    ensures (cell.JString? && JsLength(cell.s) > 0) ==> s == cell.s
    ensures !(cell.JString? && JsLength(cell.s) > 0) ==> s == fallback
  {
    if cell.JString? && JsLength(cell.s) > 0 then cell.s else fallback
  }

  /** `toPresence(userId, displayName)`: non-empty string cells are kept, anything else
      becomes "unknown" or "Unknown". Both fields of the result are non-empty. */
  function ToPresence(userId: Json, displayName: Json): (p: Presence)
    ensures p.userId == StringOr(userId, "unknown") && p.displayName == StringOr(displayName, "Unknown")
    ensures NonEmpty(p.userId) && NonEmpty(p.displayName)
  {
    Presence(StringOr(userId, "unknown"), StringOr(displayName, "Unknown"))
  }

  /** On an author stored as two non-empty strings, `toPresence` gives it back. */
  lemma ToPresenceIdentity(p: Presence)
    requires p.userId != [] && p.displayName != []
    ensures ToPresence(JString(p.userId), JString(p.displayName)) == p
  {
  }

  /** The event `createEvent` returns for a fresh id and timestamp. */
  function CreateEvent(roomId: string, input: CreateEventInput, eventId: string, createdAt: string): (e: RoomEvent)
    ensures e.id == eventId && e.roomId == roomId && e.createdAt == createdAt
    ensures e.eventType == input.eventType && e.message == input.message && e.author == input.createdBy
  {
    RoomEvent(eventId, roomId, input.eventType, input.message, createdAt, input.createdBy)
  }

  /** The row `createEvent` inserts. */
  function EventRowOf(e: RoomEvent): EventRow {
    EventRow(e.id, e.roomId, e.eventType, e.message, e.createdAt,
             JString(e.author.userId), JString(e.author.displayName))
  }

  /** One row of `listEvents`. */
  function RowToEvent(r: EventRow): (e: RoomEvent)
    ensures e.id == r.id && e.roomId == r.roomId && e.eventType == r.eventType
    ensures e.message == r.message && e.createdAt == r.createdAt
    ensures e.author == ToPresence(r.authorUserId, r.authorDisplayName)
  {
    RoomEvent(r.id, r.roomId, r.eventType, r.message, r.createdAt,
              ToPresence(r.authorUserId, r.authorDisplayName))
  }

  /** `listEvents` maps the rows one to one, in the order the store returns them. */
  function ListEvents(rows: seq<EventRow>): (es: seq<RoomEvent>)
    ensures |es| == |rows|
    ensures forall i :: 0 <= i < |rows| ==> es[i] == RowToEvent(rows[i])
  {
    seq(|rows|, i requires 0 <= i < |rows| => RowToEvent(rows[i]))
  }

  /** A validated create request yields an event that passes the domain schema and the
      `event:created` wire schema. */
  lemma CreateEventValid(roomId: string, input: CreateEventInput, eventId: string, createdAt: string)
    requires ValidCreateEvent(input) && NonEmpty(roomId) && NonEmpty(eventId) && NonEmpty(createdAt)
    ensures ValidRoomEvent(CreateEvent(roomId, input, eventId, createdAt))
  {
  }

  /** An event created from a validated request reads back from its row unchanged. */
  lemma CreatedEventReadsBack(roomId: string, input: CreateEventInput, eventId: string, createdAt: string)
    requires ValidCreateEvent(input)
    ensures var e := CreateEvent(roomId, input, eventId, createdAt);
      RowToEvent(EventRowOf(e)) == e
  {
    PresenceInCharacters(input.createdBy);
  }

  /** Listing what was created gives back the created events, in the same order. */
  lemma {:induction false} ListCreatedEvents(es: seq<RoomEvent>)
    requires forall i :: 0 <= i < |es| ==> es[i].author.userId != [] && es[i].author.displayName != []
    ensures ListEvents(seq(|es|, i requires 0 <= i < |es| => EventRowOf(es[i]))) == es
  {
    var rows := seq(|es|, i requires 0 <= i < |es| => EventRowOf(es[i]));
    forall i | 0 <= i < |es| ensures ListEvents(rows)[i] == es[i] {
      ToPresenceIdentity(es[i].author);
    }
  }
}
