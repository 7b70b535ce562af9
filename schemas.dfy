/**
 * The request and handshake schemas of the shared package: each input shape is a
 * datatype with a validity predicate stating the schema's length and enum rules.
 * Where the core receives the shape as raw JSON (the socket handshake) or where
 * "absent" and `null` mean different things (the task update), the schema is also a
 * decoder from `Json`, proved sound against the predicate and complete on encodings.
 */
module Schemas {
  import opened Wrappers
  import opened JsStrings
  import opened Json

  /** A participant identity. */
  datatype Presence = Presence(userId: string, displayName: string)

  datatype EventType = Note | Status | Link

  datatype TaskStatus = Open | Done

  /** An optional, nullable field: absent, explicit `null`, or a value. */
  datatype Patch<T> = Keep | Clear | SetTo(value: T)

  datatype CreateRoomInput = CreateRoomInput(name: string)

  datatype CreateEventInput = CreateEventInput(eventType: EventType, message: string, createdBy: Presence)

  datatype IncidentTriggerInput =
    IncidentTriggerInput(incidentKey: string, roomName: string, initialEvent: CreateEventInput)

  datatype IncidentCreateInput =
    IncidentCreateInput(title: string, description: Option<string>, createdBy: Presence)

  datatype CreateTaskInput = CreateTaskInput(title: string, assignee: Option<string>, createdBy: Presence)

  datatype UpdateTaskInput =
    UpdateTaskInput(status: Option<TaskStatus>, title: Option<string>, assignee: Patch<string>)

  datatype CreateChatMessageInput = CreateChatMessageInput(message: string, createdBy: Presence)

  /** `z.string().min(lo).max(hi)` on an already-typed string. */
  predicate LengthIn(s: string, lo: nat, hi: nat) {
    lo <= JsLength(s) <= hi
  }

  /** `z.string().min(1)`. */
  predicate NonEmpty(s: string) {
    JsLength(s) >= 1
  }

  predicate ValidPresence(p: Presence) {
    NonEmpty(p.userId) && LengthIn(p.displayName, 1, 60)
  }

  predicate ValidCreateRoom(r: CreateRoomInput) {
    LengthIn(r.name, 1, 80)
  }

  predicate ValidCreateEvent(e: CreateEventInput) {
    LengthIn(e.message, 1, 2000) && ValidPresence(e.createdBy)
  }

  predicate ValidIncidentTrigger(t: IncidentTriggerInput) {
    LengthIn(t.incidentKey, 1, 120) && LengthIn(t.roomName, 1, 80) && ValidCreateEvent(t.initialEvent)
  }

  predicate ValidIncidentCreate(c: IncidentCreateInput) {
    && LengthIn(c.title, 1, 120)
    && (c.description.Some? ==> LengthIn(c.description.value, 1, 2000))
    && ValidPresence(c.createdBy)
  }

  predicate ValidCreateTask(c: CreateTaskInput) {
    && LengthIn(c.title, 1, 200)
    && (c.assignee.Some? ==> LengthIn(c.assignee.value, 1, 60))
    && ValidPresence(c.createdBy)
  }

  predicate ValidUpdateTask(u: UpdateTaskInput) {
    && (u.title.Some? ==> LengthIn(u.title.value, 1, 200))
    && (u.assignee.SetTo? ==> LengthIn(u.assignee.value, 1, 60))
  }

  predicate ValidCreateChatMessage(c: CreateChatMessageInput) {
    LengthIn(c.message, 1, 4000) && ValidPresence(c.createdBy)
  }

  /** The length rules read in characters: an identity has a non-empty userId and a
      displayName of 1 to 60 characters (exactly so when it has no astral characters). */
  lemma PresenceInCharacters(p: Presence)
    ensures ValidPresence(p) ==> p.userId != [] && 1 <= |p.displayName| <= 60
    ensures IsBmp(p.displayName) ==>
              (ValidPresence(p) <==> p.userId != [] && 1 <= |p.displayName| <= 60)
  {
    if IsBmp(p.displayName) {
      BmpLength(p.displayName);
    }
  }

  /** `min(1)` means a non-empty string, whatever its characters. */
  lemma NonEmptyIff(s: string)
    ensures NonEmpty(s) <==> s != []
  {
  }

  /** On a string without astral characters a length rule counts characters. */
  lemma LengthInCharacters(s: string, lo: nat, hi: nat)
    requires IsBmp(s)
    ensures LengthIn(s, lo, hi) <==> lo <= |s| <= hi
  {
    BmpLength(s);
  }

  lemma CreateRoomRule(r: CreateRoomInput)
    ensures IsBmp(r.name) ==> (ValidCreateRoom(r) <==> 1 <= |r.name| <= 80)
  {
    if IsBmp(r.name) { BmpLength(r.name); }
  }

  lemma CreateEventRule(e: CreateEventInput)
    ensures IsBmp(e.message) && IsBmp(e.createdBy.displayName) ==>
      (ValidCreateEvent(e) <==>
        1 <= |e.message| <= 2000 && e.createdBy.userId != [] && 1 <= |e.createdBy.displayName| <= 60)
  {
    if IsBmp(e.message) && IsBmp(e.createdBy.displayName) {
      BmpLength(e.message);
      PresenceInCharacters(e.createdBy);
    }
  }

  lemma IncidentTriggerRule(t: IncidentTriggerInput)
    ensures IsBmp(t.incidentKey) && IsBmp(t.roomName) ==>
      (ValidIncidentTrigger(t) <==>
        1 <= |t.incidentKey| <= 120 && 1 <= |t.roomName| <= 80 && ValidCreateEvent(t.initialEvent))
  {
    if IsBmp(t.incidentKey) && IsBmp(t.roomName) {
      BmpLength(t.incidentKey);
      BmpLength(t.roomName);
    }
  }

  lemma IncidentCreateRule(c: IncidentCreateInput)
    ensures IsBmp(c.title) && (c.description.Some? ==> IsBmp(c.description.value)) ==>
      (ValidIncidentCreate(c) <==>
        && 1 <= |c.title| <= 120
        && (c.description.Some? ==> 1 <= |c.description.value| <= 2000)
        && ValidPresence(c.createdBy))
  {
    if IsBmp(c.title) && (c.description.Some? ==> IsBmp(c.description.value)) {
      BmpLength(c.title);
      if c.description.Some? { BmpLength(c.description.value); }
    }
  }

  lemma CreateTaskRule(c: CreateTaskInput)
    ensures IsBmp(c.title) && (c.assignee.Some? ==> IsBmp(c.assignee.value)) ==>
      (ValidCreateTask(c) <==>
        && 1 <= |c.title| <= 200
        && (c.assignee.Some? ==> 1 <= |c.assignee.value| <= 60)
        && ValidPresence(c.createdBy))
  {
    if IsBmp(c.title) && (c.assignee.Some? ==> IsBmp(c.assignee.value)) {
      BmpLength(c.title);
      if c.assignee.Some? { BmpLength(c.assignee.value); }
    }
  }

  lemma UpdateTaskRule(u: UpdateTaskInput)
    ensures ValidUpdateTask(UpdateTaskInput(None, None, Keep))
    ensures ValidUpdateTask(u.(assignee := Clear)) <==> ValidUpdateTask(u.(assignee := Keep))
    ensures (u.title.Some? ==> IsBmp(u.title.value)) && (u.assignee.SetTo? ==> IsBmp(u.assignee.value)) ==>
      (ValidUpdateTask(u) <==>
        (u.title.Some? ==> 1 <= |u.title.value| <= 200) && (u.assignee.SetTo? ==> 1 <= |u.assignee.value| <= 60))
  {
    if u.title.Some? && IsBmp(u.title.value) { BmpLength(u.title.value); }
    if u.assignee.SetTo? && IsBmp(u.assignee.value) { BmpLength(u.assignee.value); }
  }

  lemma CreateChatMessageRule(c: CreateChatMessageInput)
    ensures IsBmp(c.message) ==>
      (ValidCreateChatMessage(c) <==> 1 <= |c.message| <= 4000 && ValidPresence(c.createdBy))
  {
    if IsBmp(c.message) { BmpLength(c.message); }
  }

  // ----- the enums on the wire

  function EventTypeName(t: EventType): string {
    match t
    case Note => "note"
    case Status => "status"
    case Link => "link"
  }

  /** `z.enum(["note", "status", "link"])`. */
  function DecodeEventType(v: Option<Json>): (r: Option<EventType>)
    ensures r.Some? <==> v in {Some(JString("note")), Some(JString("status")), Some(JString("link"))}
    ensures r.Some? ==> v == Some(JString(EventTypeName(r.value)))
  {
    match v
    case Some(JString(s)) =>
      if s == "note" then Some(Note)
      else if s == "status" then Some(Status)
      else if s == "link" then Some(Link)
      else None
    case _ => None
  }

  function TaskStatusName(s: TaskStatus): string {
    match s
    case Open => "open"
    case Done => "done"
  }

  /** `z.enum(["open", "done"])`. */
  function DecodeTaskStatus(v: Option<Json>): (r: Option<TaskStatus>)
    ensures r.Some? <==> v in {Some(JString("open")), Some(JString("done"))}
    ensures r.Some? ==> v == Some(JString(TaskStatusName(r.value)))
  {
    match v
    case Some(JString(s)) =>
      if s == "open" then Some(Open) else if s == "done" then Some(Done) else None
    case _ => None
  }

  // ----- PresenceSchema and WsHelloSchema

  function EncodePresence(p: Presence): Json {
    JObject(map["userId" := JString(p.userId), "displayName" := JString(p.displayName)])
  }

  /** `PresenceSchema.safeParse(v)`: unknown keys are dropped. */
  function DecodePresence(v: Option<Json>): (r: Option<Presence>)
    ensures r.Some? ==> ValidPresence(r.value)
    ensures r.Some? ==> v.Some? && v.value.JObject?
  {
    if v.None? || !v.value.JObject? then None
    else
      var userId :- StringOf(Member(v.value, "userId"), 1, None);
      var displayName :- StringOf(Member(v.value, "displayName"), 1, Some(60));
      Some(Presence(userId, displayName))
  }

  lemma PresenceRoundTrip(p: Presence)
    requires ValidPresence(p)
    ensures DecodePresence(Some(EncodePresence(p))) == Some(p)
  {
    var j := EncodePresence(p);
    assert Member(j, "userId") == Some(JString(p.userId));
    assert Member(j, "displayName") == Some(JString(p.displayName));
  }

  function EncodeHello(user: Presence): Json {
    JObject(map["kind" := JString("hello"), "user" := EncodePresence(user)])
  }

  /** `WsHelloSchema.safeParse(j)`: the validated user of a `{kind: "hello", user}` frame. */
  function DecodeHello(j: Json): (r: Option<Presence>)
    ensures r.Some? ==> ValidPresence(r.value)
    ensures r.Some? ==> j.JObject? && Member(j, "kind") == Some(JString("hello"))
  {
    if j.JObject? && IsLiteral(Member(j, "kind"), "hello") then DecodePresence(Member(j, "user"))
    else None
  }

  /** Every valid identity, sent as a hello, is accepted as itself. */
  lemma HelloRoundTrip(p: Presence)
    requires ValidPresence(p)
    ensures DecodeHello(EncodeHello(p)) == Some(p)
  {
    var j := EncodeHello(p);
    assert Member(j, "kind") == Some(JString("hello"));
    assert Member(j, "user") == Some(EncodePresence(p));
    PresenceRoundTrip(p);
  }

  /** A hello is accepted exactly when its kind is "hello" and its user is a valid
      identity under the full PresenceSchema. */
  lemma HelloIff(j: Json, p: Presence)
    ensures DecodeHello(j) == Some(p) <==>
              (j.JObject? && Member(j, "kind") == Some(JString("hello"))
               && DecodePresence(Member(j, "user")) == Some(p))
  {
  }

  // ----- UpdateTaskSchema

  function EncodeUpdateTask(u: UpdateTaskInput): Json {
    var withStatus: map<string, Json> :=
      if u.status.Some? then map["status" := JString(TaskStatusName(u.status.value))] else map[];
    var withTitle := if u.title.Some? then withStatus["title" := JString(u.title.value)] else withStatus;
    var fields :=
      match u.assignee
      case Keep => withTitle
      case Clear => withTitle["assignee" := JNull]
      case SetTo(a) => withTitle["assignee" := JString(a)];
    JObject(fields)
  }

  /** `UpdateTaskSchema.safeParse(j)`: every field may be absent; `assignee` may also be
      `null`, which is kept apart from an absent assignee. */
  function DecodeUpdateTask(j: Json): (r: Option<UpdateTaskInput>)
    ensures r.Some? ==> ValidUpdateTask(r.value)
    ensures r.Some? ==> j.JObject?
    ensures r.Some? ==> (r.value.assignee.Keep? <==> Member(j, "assignee").None?)
    ensures r.Some? ==> (r.value.assignee.Clear? <==> Member(j, "assignee") == Some(JNull))
  {
    if !j.JObject? then None
    else
      var status :-
        match Member(j, "status")
        case None => Some(None)
        case Some(v) =>
          match DecodeTaskStatus(Some(v))
          case Some(s) => Some(Some(s))
          case None => None;
      var title :-
        match Member(j, "title")
        case None => Some(None)
        case Some(v) =>
          match StringOf(Some(v), 1, Some(200))
          case Some(t) => Some(Some(t))
          case None => None;
      var assignee :-
        match Member(j, "assignee")
        case None => Some(Keep)
        case Some(JNull) => Some(Clear)
        case Some(v) =>
          match StringOf(Some(v), 1, Some(60))
          case Some(a) => Some(SetTo(a))
          case None => None;
      Some(UpdateTaskInput(status, title, assignee))
  }

  lemma UpdateTaskRoundTrip(u: UpdateTaskInput)
    requires ValidUpdateTask(u)
    ensures DecodeUpdateTask(EncodeUpdateTask(u)) == Some(u)
  {
    var j := EncodeUpdateTask(u);
    assert Member(j, "status") == if u.status.Some? then Some(JString(TaskStatusName(u.status.value))) else None;
    assert Member(j, "title") == if u.title.Some? then Some(JString(u.title.value)) else None;
  }

  /** `{}` is a valid update that changes nothing, and `{assignee: null}` is a valid
      update distinct from it: it clears the assignee. */
  lemma UpdateTaskEmptyAndNull()
    ensures DecodeUpdateTask(JObject(map[])) == Some(UpdateTaskInput(None, None, Keep))
    ensures DecodeUpdateTask(JObject(map["assignee" := JNull])) == Some(UpdateTaskInput(None, None, Clear))
  {
    assert Member(JObject(map["assignee" := JNull]), "status") == None;
    assert Member(JObject(map["assignee" := JNull]), "title") == None;
  }
}
