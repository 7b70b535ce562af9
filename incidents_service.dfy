/**
 * The incident service: the idempotent find-or-create `triggerIncident`, the status
 * update, and the defaulting of incident rows in the detail and list reads.
 *
 * The store holds three tables keyed by their primary keys (rooms by id, events by
 * id, incident mappings by their unique incident key). Its primitives are a
 * single-row read, an all-or-nothing batch of inserts that fails on any duplicate key
 * (or on a fault of the database), and an update that reports how many rows it
 * changed. Requests for other incidents run concurrently with a trigger; whatever they
 * wrote between the trigger's first read and its batch is the `interleaved` state.
 */
module IncidentsService {
  import opened Wrappers
  import opened JsStrings
  import opened Json
  import opened Schemas
  import opened Domain
  import opened ServerMessages
  import opened EventsService
  import opened RoomActor

  datatype IncidentStatus = IncidentOpen | IncidentResolved

  /** A row of `incident_rooms`; `status` and `resolved_at` may be NULL. */
  datatype IncidentRow = IncidentRow(
    roomId: string, createdAt: string, status: Option<IncidentStatus>, resolvedAt: Option<string>)

  datatype DbState = DbState(
    rooms: map<string, Room>, events: map<string, EventRow>, incidents: map<string, IncidentRow>)

  /** The three inserts of a trigger. */
  datatype Batch = Batch(room: Room, event: EventRow, incidentKey: string, incident: IncidentRow)

  /** The random ids and the timestamp a trigger draws. */
  datatype Fresh = Fresh(roomId: string, eventId: string, createdAt: string)

  datatype TriggerResult = Created(roomId: string, event: RoomEvent) | Existing(roomId: string)

  /** The batch failed and no mapping appeared: the batch's error is re-thrown. */
  datatype TriggerError = BatchFailed

  datatype Outcome = Outcome(result: Result<TriggerResult, TriggerError>, after: DbState)

  datatype StatusUpdate = StatusUpdate(status: IncidentStatus, resolvedAt: Option<string>)

  /** A batch applies when none of its three keys is taken. */
  predicate CanApply(db: DbState, b: Batch) {
    b.room.id !in db.rooms && b.event.id !in db.events && b.incidentKey !in db.incidents
  }

  function Apply(db: DbState, b: Batch): DbState {
    DbState(db.rooms[b.room.id := b.room], db.events[b.event.id := b.event],
            db.incidents[b.incidentKey := b.incident])
  }

  /** Every incident and every event points at a room that exists, and rooms are keyed by their id. */
  predicate Integrity(db: DbState) {
    && (forall id :: id in db.rooms ==> db.rooms[id].id == id)
    && (forall k :: k in db.incidents ==> db.incidents[k].roomId in db.rooms)
    && (forall id :: id in db.events ==> db.events[id].roomId in db.rooms)
  }

  class Store {
    var rooms: map<string, Room>
    var events: map<string, EventRow>
    var incidents: map<string, IncidentRow>

    function State(): DbState
      reads this
    {
      DbState(rooms, events, incidents)
    }

    constructor (db: DbState)
      ensures State() == db
    {
      rooms, events, incidents := db.rooms, db.events, db.incidents;
    }

    /** `SELECT room_id FROM incident_rooms WHERE incident_key = ?` then `.first()`. */
    method MappedRoomId(key: string) returns (roomId: Option<string>)
      ensures roomId == GetRoomIdForIncident(State(), key)
    {
      if key in incidents {
        return Some(incidents[key].roomId);
      }
      return None;
    }

    /** Other requests' writes land: the store becomes `db`. */
    method Concurrent(db: DbState)
      modifies this
      ensures State() == db
    {
      rooms, events, incidents := db.rooms, db.events, db.incidents;
    }

    /** `DB.batch([...])`: all three inserts or none. */
    method RunBatch(b: Batch, fault: bool) returns (ok: bool)
      modifies this
      ensures ok <==> !fault && CanApply(old(State()), b)
      ensures State() == if ok then Apply(old(State()), b) else old(State())
    {
      ok := !fault && b.room.id !in rooms && b.event.id !in events && b.incidentKey !in incidents;
      if ok {
        rooms := rooms[b.room.id := b.room];
        events := events[b.event.id := b.event];
        incidents := incidents[b.incidentKey := b.incident];
      }
    }

    /** `UPDATE incident_rooms SET status = ?, resolved_at = ? WHERE incident_key = ?`. */
    method UpdateStatusRow(key: string, status: IncidentStatus, resolvedAt: Option<string>) returns (changes: nat)
      modifies this
      ensures changes == if key in old(incidents) then 1 else 0
      ensures rooms == old(rooms) && events == old(events)
      ensures incidents == if key in old(incidents)
        then old(incidents)[key := old(incidents)[key].(status := Some(status), resolvedAt := resolvedAt)]
        else old(incidents)
    {
      if key in incidents {
        incidents := incidents[key := incidents[key].(status := Some(status), resolvedAt := resolvedAt)];
        return 1;
      }
      return 0;
    }
  }

  // ----- triggerIncident

  /** `getRoomIdForIncident`: the mapped room id (possibly empty), or `None` for `null`. */
  function GetRoomIdForIncident(db: DbState, key: string): (r: Option<string>)
    ensures r.Some? <==> key in db.incidents
    ensures r.Some? ==> r.value == db.incidents[key].roomId
  {
    if key in db.incidents then Some(db.incidents[key].roomId) else None
  }

  /** `existing?.roomId` in a condition: a row whose room id is non-empty. */
  predicate MappedTo(db: DbState, key: string) {
    key in db.incidents && db.incidents[key].roomId != []
  }

  /** The event a trigger records and returns. */
  function InitialEvent(input: IncidentTriggerInput, f: Fresh): (e: RoomEvent)
    ensures e.id == f.eventId && e.roomId == f.roomId && e.createdAt == f.createdAt
    ensures e.eventType == input.initialEvent.eventType && e.message == input.initialEvent.message
    ensures e.author == input.initialEvent.createdBy
  {
    CreateEvent(f.roomId, input.initialEvent, f.eventId, f.createdAt)
  }

  /** The three rows: one room id and one timestamp shared by all, the trimmed room
      name, and an open mapping with no resolution time. */
  function TriggerBatch(input: IncidentTriggerInput, f: Fresh): (b: Batch)
    ensures b.room == Room(f.roomId, Trim(input.roomName), f.createdAt)
    ensures b.event == EventRowOf(InitialEvent(input, f))
    ensures b.incidentKey == input.incidentKey
    ensures b.incident == IncidentRow(f.roomId, f.createdAt, Some(IncidentOpen), None)
  {
    Batch(Room(f.roomId, Trim(input.roomName), f.createdAt), EventRowOf(InitialEvent(input, f)),
          input.incidentKey, IncidentRow(f.roomId, f.createdAt, Some(IncidentOpen), None))
  }

  /** What `triggerIncident` returns and leaves in the store, from the store `db` it
      first reads, the state `interleaved` its batch meets, and whether the database
      faults. */
  function Trigger(db: DbState, input: IncidentTriggerInput, f: Fresh, interleaved: DbState, fault: bool): (o: Outcome)
    ensures o.after == db || o.after == interleaved || o.after == Apply(interleaved, TriggerBatch(input, f))
    ensures o.result.Failure? ==> o.after == interleaved && !MappedTo(interleaved, input.incidentKey)
  {
    if MappedTo(db, input.incidentKey) then
      Outcome(Success(Existing(db.incidents[input.incidentKey].roomId)), db)
    else
      var b := TriggerBatch(input, f);
      if !fault && CanApply(interleaved, b) then
        Outcome(Success(Created(f.roomId, InitialEvent(input, f))), Apply(interleaved, b))
      else if MappedTo(interleaved, input.incidentKey) then
        Outcome(Success(Existing(interleaved.incidents[input.incidentKey].roomId)), interleaved)
      else
        Outcome(Failure(BatchFailed), interleaved)
  }

  /** Fast path: a mapped key returns its room and writes nothing. */
  lemma TriggerFastPath(db: DbState, input: IncidentTriggerInput, f: Fresh, interleaved: DbState, fault: bool)
    requires MappedTo(db, input.incidentKey)
    ensures Trigger(db, input, f, interleaved, fault)
         == Outcome(Success(Existing(db.incidents[input.incidentKey].roomId)), db)
  {
  }

  /** A trigger either creates all three rows, sharing the fresh room id and timestamp,
      or writes nothing; and it creates them exactly when it reports `Created`. */
  lemma TriggerAllOrNothing(db: DbState, input: IncidentTriggerInput, f: Fresh, interleaved: DbState, fault: bool)
    ensures var o := Trigger(db, input, f, interleaved, fault);
      var base := if MappedTo(db, input.incidentKey) then db else interleaved;
      && (o.result.Success? && o.result.value.Created? ==>
            && !MappedTo(db, input.incidentKey) && !fault
            && CanApply(interleaved, TriggerBatch(input, f))
            && o.after == Apply(interleaved, TriggerBatch(input, f))
            && o.result.value.roomId == f.roomId
            && o.after.rooms[f.roomId] == Room(f.roomId, Trim(input.roomName), f.createdAt)
            && o.after.events[f.eventId].roomId == f.roomId
            && o.after.events[f.eventId].createdAt == f.createdAt
            && o.after.incidents[input.incidentKey] == IncidentRow(f.roomId, f.createdAt, Some(IncidentOpen), None))
      && (!(o.result.Success? && o.result.value.Created?) ==> o.after == base)
  {
  }

  /** The event returned by a creating trigger is the one stored, read back through
      the event listing, and it carries the request's type, message and author. */
  lemma CreatedEventIsStored(db: DbState, input: IncidentTriggerInput, f: Fresh, interleaved: DbState, fault: bool)
    requires ValidIncidentTrigger(input)
    ensures var o := Trigger(db, input, f, interleaved, fault);
      o.result.Success? && o.result.value.Created? ==>
        && o.result.value.event.author == input.initialEvent.createdBy
        && o.result.value.event.eventType == input.initialEvent.eventType
        && o.result.value.event.message == input.initialEvent.message
        && f.eventId in o.after.events
        && RowToEvent(o.after.events[f.eventId]) == o.result.value.event
  {
    CreatedEventReadsBack(f.roomId, input.initialEvent, f.eventId, f.createdAt);
  }

  /** After any trigger that does not throw, the key is mapped to exactly the room it
      returned. */
  lemma TriggerMapsReturnedRoom(db: DbState, input: IncidentTriggerInput, f: Fresh, interleaved: DbState, fault: bool)
    ensures var o := Trigger(db, input, f, interleaved, fault);
      o.result.Success? ==>
        && input.incidentKey in o.after.incidents
        && o.after.incidents[input.incidentKey].roomId == o.result.value.roomId
  {
  }

  /** A failed batch is reconciled by a second read: a mapping that appeared meanwhile
      is returned, and only when there is none is the error re-thrown. */
  lemma TriggerReconciles(db: DbState, input: IncidentTriggerInput, f: Fresh, interleaved: DbState, fault: bool)
    requires !MappedTo(db, input.incidentKey)
    requires fault || !CanApply(interleaved, TriggerBatch(input, f))
    ensures var o := Trigger(db, input, f, interleaved, fault);
      && o.after == interleaved
      && (MappedTo(interleaved, input.incidentKey) <==> o.result.Success?)
      && (o.result.Success? ==> o.result == Success(Existing(interleaved.incidents[input.incidentKey].roomId)))
  {
  }

  /** A trigger never changes a mapping that exists when its batch runs, nor any other
      row: incident keys are never remapped. */
  lemma TriggerNeverRemaps(db: DbState, input: IncidentTriggerInput, f: Fresh, interleaved: DbState, fault: bool)
    ensures var o := Trigger(db, input, f, interleaved, fault);
      var base := if MappedTo(db, input.incidentKey) then db else interleaved;
      && (forall k :: k in base.incidents ==> k in o.after.incidents && o.after.incidents[k] == base.incidents[k])
      && (forall id :: id in base.rooms ==> id in o.after.rooms && o.after.rooms[id] == base.rooms[id])
      && (forall id :: id in base.events ==> id in o.after.events && o.after.events[id] == base.events[id])
      && (forall k :: k in o.after.incidents && k !in base.incidents ==> k == input.incidentKey)
  {
    if !MappedTo(db, input.incidentKey) {
      var b := TriggerBatch(input, f);
      if !fault && CanApply(interleaved, b) {
        ApplyOnlyAdds(interleaved, b);
      }
    }
  }

  /** A batch that applies adds its three rows and changes no existing row. */
  lemma ApplyOnlyAdds(db: DbState, b: Batch)
    requires CanApply(db, b)
    ensures var a := Apply(db, b);
      && (forall k :: k in db.incidents ==> k in a.incidents && a.incidents[k] == db.incidents[k])
      && (forall id :: id in db.rooms ==> id in a.rooms && a.rooms[id] == db.rooms[id])
      && (forall id :: id in db.events ==> id in a.events && a.events[id] == db.events[id])
      && (forall k :: k in a.incidents && k !in db.incidents ==> k == b.incidentKey)
  {
  }

  /** A batch whose event and mapping point at its own room keeps the store consistent. */
  lemma ApplyKeepsIntegrity(db: DbState, b: Batch)
    requires Integrity(db)
    requires b.event.roomId == b.room.id && b.incident.roomId == b.room.id
    ensures Integrity(Apply(db, b))
  {
  }


  /** Once a trigger has succeeded, any later trigger for the key (whatever its room
      name, event or ids) returns the same room and writes nothing. Room ids are
      random UUIDs, so never empty. */
  lemma TriggerIdempotent(db: DbState, input: IncidentTriggerInput, f: Fresh, interleaved: DbState, fault: bool,
                          input2: IncidentTriggerInput, f2: Fresh, interleaved2: DbState, fault2: bool)
    requires f.roomId != [] && input2.incidentKey == input.incidentKey
    requires Trigger(db, input, f, interleaved, fault).result.Success?
    ensures var o := Trigger(db, input, f, interleaved, fault);
      var o2 := Trigger(o.after, input2, f2, interleaved2, fault2);
      o.result.value.roomId != [] ==>
        o2 == Outcome(Success(Existing(o.result.value.roomId)), o.after)
  {
    TriggerMapsReturnedRoom(db, input, f, interleaved, fault);
  }

  /** Two concurrent triggers for one key: the batch that runs first creates the room,
      the other's batch fails on the unique key and its re-read returns the same room.
      Exactly one room, one event and one mapping are created; no room is orphaned. */
  lemma TriggerRace(db: DbState, a: IncidentTriggerInput, fa: Fresh, b: IncidentTriggerInput, fb: Fresh, faultB: bool)
    requires a.incidentKey == b.incidentKey && a.incidentKey !in db.incidents
    requires fa.roomId != [] && fa.roomId !in db.rooms && fa.eventId !in db.events
    ensures var oa := Trigger(db, a, fa, db, false);
      var ob := Trigger(db, b, fb, oa.after, faultB);
      && oa.result == Success(Created(fa.roomId, InitialEvent(a, fa)))
      && ob.result == Success(Existing(fa.roomId))
      && ob.after == oa.after
      && oa.after == Apply(db, TriggerBatch(a, fa))
  {
    var oa := Trigger(db, a, fa, db, false);
    assert CanApply(db, TriggerBatch(a, fa));
    assert !CanApply(oa.after, TriggerBatch(b, fb));
  }

  /** A trigger keeps the store's references intact: it never leaves an event or a
      mapping without its room. */
  lemma TriggerKeepsIntegrity(db: DbState, input: IncidentTriggerInput, f: Fresh, interleaved: DbState, fault: bool)
    requires Integrity(db) && Integrity(interleaved)
    ensures Integrity(Trigger(db, input, f, interleaved, fault).after)
  {
    if !MappedTo(db, input.incidentKey) {
      var b := TriggerBatch(input, f);
      if !fault && CanApply(interleaved, b) {
        assert b.event.roomId == f.roomId;
        ApplyKeepsIntegrity(interleaved, b);
      }
    }
  }


  /** The room name is trimmed after validation, so a name of spaces alone (which the
      trigger schema admits) becomes an empty name, which the room schema refuses. */
  lemma BlankRoomNameBecomesEmpty(input: IncidentTriggerInput, f: Fresh)
    requires forall i :: 0 <= i < |input.roomName| ==> IsJsWhitespace(input.roomName[i])
    ensures TriggerBatch(input, f).room.name == []
    ensures !ValidRoom(TriggerBatch(input, f).room)
  {
    TrimAllWhitespace(input.roomName);
  }

  /** A validated trigger with non-empty fresh ids produces an `event:created`
      message that the room actor's broadcast ingress accepts. */
  lemma TriggerEventIsValidMessage(input: IncidentTriggerInput, f: Fresh)
    requires ValidIncidentTrigger(input)
    requires NonEmpty(f.roomId) && NonEmpty(f.eventId) && NonEmpty(f.createdAt)
    ensures ValidServerMessage(EventCreatedMsg(InitialEvent(input, f)))
    ensures DecodeServerMessage(Encode(EventCreatedMsg(InitialEvent(input, f)))) == Some(EventCreatedMsg(InitialEvent(input, f)))
  {
    DomainEventIsWireEvent(InitialEvent(input, f));
    ServerMessageRoundTrip(EventCreatedMsg(InitialEvent(input, f)));
  }

  /** `broadcastToRoom`: POSTs the message to the room's actor; a failing fetch is
      caught and nothing is delivered. The actor receives the body as `msg` itself. */
  method BroadcastToRoom(actor: RoomDurableObject, msg: ServerMessage, fetchFails: bool, failing: set<SocketId>)
    returns (resp: Option<Response>)
    requires actor.Valid()
    modifies actor
    ensures actor.Valid() && actor.sockets == old(actor.sockets)
    ensures actor.nextSocket == old(actor.nextSocket)
    ensures fetchFails ==> resp.None? && actor.outbox == old(actor.outbox)
    ensures !fetchFails && ValidServerMessage(msg) ==>
      resp == Some(NO_CONTENT) && actor.outbox == Deliver(old(actor.outbox), actor.sockets.Keys(), failing, msg)
    ensures !fetchFails && !ValidServerMessage(msg) ==>
      resp == Some(INVALID_BROADCAST) && actor.outbox == old(actor.outbox)
  {
    if fetchFails {
      return None;
    }
    if ValidServerMessage(msg) {
      ServerMessageRoundTrip(msg);
    } else {
      InvalidEncodingRejected(msg);
    }
    var r := actor.HandleHttp("POST", "/broadcast", Some(Encode(msg)), failing);
    return Some(r);
  }

  /** `triggerIncident`, step by step against the store, with the room's actor as the
      broadcast target. The broadcast (and any failure of it) never changes the result
      or the store. */
  method TriggerIncident(store: Store, actor: RoomDurableObject, input: IncidentTriggerInput, f: Fresh,
                         interleaved: DbState, fault: bool, fetchFails: bool, failing: set<SocketId>)
    returns (r: Result<TriggerResult, TriggerError>, resp: Option<Response>)
    requires actor.Valid()
    modifies store, actor
    ensures Outcome(r, store.State()) == Trigger(old(store.State()), input, f, interleaved, fault)
    ensures actor.Valid() && actor.sockets == old(actor.sockets) && actor.nextSocket == old(actor.nextSocket)
    ensures !(r.Success? && r.value.Created?) || fetchFails ==> resp.None? && actor.outbox == old(actor.outbox)
    ensures r.Success? && r.value.Created? && !fetchFails && ValidServerMessage(EventCreatedMsg(r.value.event)) ==>
      resp == Some(NO_CONTENT)
      && actor.outbox == Deliver(old(actor.outbox), actor.sockets.Keys(), failing, EventCreatedMsg(r.value.event))
    ensures r.Success? && r.value.Created? && !fetchFails && !ValidServerMessage(EventCreatedMsg(r.value.event)) ==>
      resp == Some(INVALID_BROADCAST) && actor.outbox == old(actor.outbox)
  {
    var existing := store.MappedRoomId(input.incidentKey);
    if existing.Some? && existing.value != [] {
      return Success(Existing(existing.value)), None;
    }
    var b := TriggerBatch(input, f);
    store.Concurrent(interleaved);
    var ok := store.RunBatch(b, fault);
    if ok {
      var event := InitialEvent(input, f);
      resp := BroadcastToRoom(actor, EventCreatedMsg(event), fetchFails, failing);
      return Success(Created(f.roomId, event)), resp;
    }
    var again := store.MappedRoomId(input.incidentKey);
    if again.Some? && again.value != [] {
      return Success(Existing(again.value)), None;
    }
    return Failure(BatchFailed), None;
  }

  // ----- updateIncidentStatus

  /** What `updateIncidentStatus` returns and leaves in the store. */
  function SetStatus(db: DbState, key: string, status: IncidentStatus, now: string): (r: (Option<StatusUpdate>, DbState))
    ensures r.1.rooms == db.rooms && r.1.events == db.events && r.1.incidents.Keys == db.incidents.Keys
  {
    var resolvedAt := if status == IncidentResolved then Some(now) else None;
    if key in db.incidents then
      (Some(StatusUpdate(status, resolvedAt)),
       db.(incidents := db.incidents[key := db.incidents[key].(status := Some(status), resolvedAt := resolvedAt)]))
    else (None, db)
  }

  /** The resolution time is set, to now, exactly when the status is "resolved";
      an unknown key gives `None` and changes nothing; only that row's status and
      resolution time change. */
  lemma SetStatusResolvedAt(db: DbState, key: string, status: IncidentStatus, now: string)
    ensures var (r, after) := SetStatus(db, key, status, now);
      && (r.None? <==> key !in db.incidents)
      && (r.None? ==> after == db)
      && (r.Some? ==>
            && r.value.status == status
            && (r.value.resolvedAt.Some? <==> status == IncidentResolved)
            && (r.value.resolvedAt.Some? ==> r.value.resolvedAt.value == now)
            && after.rooms == db.rooms && after.events == db.events
            && after.incidents.Keys == db.incidents.Keys
            && after.incidents[key].roomId == db.incidents[key].roomId
            && after.incidents[key].createdAt == db.incidents[key].createdAt
            && after.incidents[key].status == Some(status)
            && after.incidents[key].resolvedAt == r.value.resolvedAt
            && (forall k :: k in db.incidents && k != key ==> after.incidents[k] == db.incidents[k]))
  {
  }

  /** A status update never leaves a mapping without its room. */
  lemma SetStatusKeepsIntegrity(db: DbState, key: string, status: IncidentStatus, now: string)
    requires Integrity(db)
    ensures Integrity(SetStatus(db, key, status, now).1)
  {
  }

  method UpdateIncidentStatus(store: Store, key: string, status: IncidentStatus, now: string)
    returns (r: Option<StatusUpdate>)
    modifies store
    ensures (r, store.State()) == SetStatus(old(store.State()), key, status, now)
  {
    var resolvedAt := if status == IncidentResolved then Some(now) else None;
    var changes := store.UpdateStatusRow(key, status, resolvedAt);
    if changes == 0 {
      return None;
    }
    return Some(StatusUpdate(status, resolvedAt));
  }

  // ----- getIncidentByKey and listIncidents

  datatype IncidentDetail = IncidentDetail(
    incidentKey: string, incidentCreatedAt: string, status: IncidentStatus, resolvedAt: Option<string>,
    room: Room, events: seq<RoomEvent>, tasks: seq<Task>)

  /** `getIncidentByKey`: `None` when there is no mapping with a non-empty room id or
      its room is missing; otherwise the detail with status defaulting to open and
      the resolution time to null. `eventRows` and `tasks` are what the two listing
      queries of that room return. */
  function GetIncidentByKey(db: DbState, key: string, eventRows: seq<EventRow>, tasks: seq<Task>): (r: Option<IncidentDetail>)
    ensures r.None? <==> !MappedTo(db, key) || db.incidents[key].roomId !in db.rooms
    ensures r.Some? ==>
      && r.value.incidentKey == key
      && r.value.incidentCreatedAt == db.incidents[key].createdAt
      && r.value.status == db.incidents[key].status.GetOr(IncidentOpen)
      && r.value.resolvedAt == db.incidents[key].resolvedAt
      && r.value.room == db.rooms[db.incidents[key].roomId]
      && r.value.events == ListEvents(eventRows) && r.value.tasks == tasks
  {
    if !MappedTo(db, key) then None
    else
      var m := db.incidents[key];
      if m.roomId !in db.rooms then None
      else Some(IncidentDetail(key, m.createdAt, m.status.GetOr(IncidentOpen), m.resolvedAt,
                               db.rooms[m.roomId], ListEvents(eventRows), tasks))
  }

  /** Right after a creating trigger the incident reads back as open, unresolved, in
      a room with the trimmed name and the fresh id. */
  lemma CreatedIncidentDetail(db: DbState, input: IncidentTriggerInput, f: Fresh, interleaved: DbState,
                              eventRows: seq<EventRow>, tasks: seq<Task>)
    requires f.roomId != []
    requires Trigger(db, input, f, interleaved, false).result.Success?
    requires Trigger(db, input, f, interleaved, false).result.value.Created?
    ensures var d := GetIncidentByKey(Trigger(db, input, f, interleaved, false).after, input.incidentKey, eventRows, tasks);
      && d.Some?
      && d.value.status == IncidentOpen && d.value.resolvedAt.None?
      && d.value.incidentCreatedAt == f.createdAt
      && d.value.room == Room(f.roomId, Trim(input.roomName), f.createdAt)
  {
    TriggerAllOrNothing(db, input, f, interleaved, false);
  }

  /** A status update is what the detail read reports afterwards. */
  lemma StatusUpdateIsReported(db: DbState, key: string, status: IncidentStatus, now: string,
                               eventRows: seq<EventRow>, tasks: seq<Task>)
    requires GetIncidentByKey(db, key, eventRows, tasks).Some?
    ensures var (r, after) := SetStatus(db, key, status, now);
      var d := GetIncidentByKey(after, key, eventRows, tasks);
      && r.Some? && d.Some?
      && d.value.status == r.value.status && d.value.resolvedAt == r.value.resolvedAt
      && d.value.room == GetIncidentByKey(db, key, eventRows, tasks).value.room
  {
  }

  /** A row of the dashboard query (`incident_rooms` joined with `rooms`). */
  datatype IncidentJoinRow = IncidentJoinRow(
    incidentKey: string, incidentCreatedAt: string, status: Option<IncidentStatus>, resolvedAt: Option<string>,
    roomId: string, roomName: string, roomCreatedAt: string)

  datatype IncidentListItem = IncidentListItem(
    incidentKey: string, incidentCreatedAt: string, status: IncidentStatus, resolvedAt: Option<string>, room: Room)

  /** `listIncidents`: rows map one to one, in the order the query returns them, with
      a NULL status read as open. */
  function ListIncidents(rows: seq<IncidentJoinRow>): (items: seq<IncidentListItem>)
    ensures |items| == |rows|
    ensures forall i :: 0 <= i < |rows| ==>
      && items[i].incidentKey == rows[i].incidentKey
      && items[i].incidentCreatedAt == rows[i].incidentCreatedAt
      && items[i].status == rows[i].status.GetOr(IncidentOpen)
      && items[i].resolvedAt == rows[i].resolvedAt
      && items[i].room == Room(rows[i].roomId, rows[i].roomName, rows[i].roomCreatedAt)
  {
    seq(|rows|, i requires 0 <= i < |rows| =>
      IncidentListItem(rows[i].incidentKey, rows[i].incidentCreatedAt, rows[i].status.GetOr(IncidentOpen),
                       rows[i].resolvedAt, Room(rows[i].roomId, rows[i].roomName, rows[i].roomCreatedAt)))
  }

  /** The list and the detail read agree on an incident's status and resolution. */
  lemma ListAgreesWithDetail(db: DbState, key: string, eventRows: seq<EventRow>, tasks: seq<Task>)
    requires GetIncidentByKey(db, key, eventRows, tasks).Some?
    ensures var m := db.incidents[key];
      var room := db.rooms[m.roomId];
      var item := ListIncidents([IncidentJoinRow(key, m.createdAt, m.status, m.resolvedAt, room.id, room.name, room.createdAt)])[0];
      var d := GetIncidentByKey(db, key, eventRows, tasks).value;
      item.status == d.status && item.resolvedAt == d.resolvedAt && item.incidentCreatedAt == d.incidentCreatedAt
  {
  }
}
