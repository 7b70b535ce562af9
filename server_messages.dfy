/**
 * Server-to-client socket messages: a union of six shapes told apart by the `kind`
 * literal. The typed predicate `ValidServerMessage` states each shape's rules; the
 * decoder is the union schema applied to parsed JSON and is proved to accept exactly
 * the encodings of valid messages.
 */
module ServerMessages {
  import opened Wrappers
  import opened JsStrings
  import opened Json
  import opened Schemas
  import opened Domain

  datatype ServerMessage =
    | PresenceMsg(users: seq<Presence>)
    | EventCreatedMsg(event: RoomEvent)
    | TaskCreatedMsg(task: Task)
    | TaskUpdatedMsg(task: Task)
    | ChatMessageMsg(chat: ChatMessage)
    | ErrorMsg(text: string)

  /** The `kind` literal of each shape. */
  function Kind(m: ServerMessage): string {
    match m
    case PresenceMsg(_) => "presence"
    case EventCreatedMsg(_) => "event:created"
    case TaskCreatedMsg(_) => "task:created"
    case TaskUpdatedMsg(_) => "task:updated"
    case ChatMessageMsg(_) => "chat:message"
    case ErrorMsg(_) => "error"
  }

  /** The inline author/user object of these schemas: both fields non-empty, no upper
      bound on the display name. */
  predicate WireUserOk(p: Presence) {
    NonEmpty(p.userId) && NonEmpty(p.displayName)
  }

  /** The event payload: unlike the domain schema, the author's name has no upper bound. */
  predicate WireEventOk(e: RoomEvent) {
    NonEmpty(e.id) && NonEmpty(e.roomId) && NonEmpty(e.createdAt) && WireUserOk(e.author)
  }

  /** The chat payload: non-empty text and a non-empty author. */
  predicate WireChatOk(c: ChatMessage) {
    NonEmpty(c.id) && NonEmpty(c.roomId) && NonEmpty(c.message) && NonEmpty(c.createdAt)
    && WireUserOk(c.author)
  }

  /** The task payload. Its schema is written out again here with the same rules as the
      domain task schema, so the domain predicate is used for it. */
  predicate WireTaskOk(t: Task) {
    ValidTask(t)
  }

  predicate ValidServerMessage(m: ServerMessage) {
    match m
    case PresenceMsg(users) => forall i :: 0 <= i < |users| ==> WireUserOk(users[i])
    case EventCreatedMsg(e) => WireEventOk(e)
    case TaskCreatedMsg(t) => WireTaskOk(t)
    case TaskUpdatedMsg(t) => WireTaskOk(t)
    case ChatMessageMsg(c) => WireChatOk(c)
    case ErrorMsg(text) => NonEmpty(text)
  }

  // ----- encoders

  function EncodeUsers(users: seq<Presence>): (js: seq<Json>)
    ensures |js| == |users| && forall i :: 0 <= i < |users| ==> js[i] == EncodePresence(users[i])
  {
    seq(|users|, i requires 0 <= i < |users| => EncodePresence(users[i]))
  }

  function EncodeEvent(e: RoomEvent): Json {
    JObject(map[
      "id" := JString(e.id), "roomId" := JString(e.roomId),
      "type" := JString(EventTypeName(e.eventType)), "message" := JString(e.message),
      "createdAt" := JString(e.createdAt), "author" := EncodePresence(e.author)])
  }

  function EncodeTask(t: Task): Json {
    var fields := map[
      "id" := JString(t.id), "roomId" := JString(t.roomId), "title" := JString(t.title),
      "status" := JString(TaskStatusName(t.status)),
      "createdAt" := JString(t.createdAt), "updatedAt" := JString(t.updatedAt)];
    JObject(if t.assignee.Some? then fields["assignee" := JString(t.assignee.value)] else fields)
  }

  function EncodeChat(c: ChatMessage): Json {
    JObject(map[
      "id" := JString(c.id), "roomId" := JString(c.roomId), "message" := JString(c.message),
      "createdAt" := JString(c.createdAt), "author" := EncodePresence(c.author)])
  }

  /** The message as `JSON.stringify` would lay it out, before serialisation. */
  function Encode(m: ServerMessage): Json {
    var kind := JString(Kind(m));
    match m
    case PresenceMsg(users) => JObject(map["kind" := kind, "users" := JArray(EncodeUsers(users))])
    case EventCreatedMsg(e) => JObject(map["kind" := kind, "event" := EncodeEvent(e)])
    case TaskCreatedMsg(t) => JObject(map["kind" := kind, "task" := EncodeTask(t)])
    case TaskUpdatedMsg(t) => JObject(map["kind" := kind, "task" := EncodeTask(t)])
    case ChatMessageMsg(c) => JObject(map["kind" := kind, "message" := EncodeChat(c)])
    case ErrorMsg(text) => JObject(map["kind" := kind, "message" := JString(text)])
  }

  // ----- decoders (the schemas)

  function DecodeUser(v: Option<Json>): (r: Option<Presence>)
    ensures r.Some? ==> WireUserOk(r.value)
  {
    if v.None? || !v.value.JObject? then None
    else
      var userId :- StringOf(Member(v.value, "userId"), 1, None);
      var displayName :- StringOf(Member(v.value, "displayName"), 1, None);
      Some(Presence(userId, displayName))
  }

  function DecodeUsers(items: seq<Json>): (r: Option<seq<Presence>>)
    ensures r.Some? ==> |r.value| == |items|
    ensures r.Some? ==> forall i :: 0 <= i < |items| ==> DecodeUser(Some(items[i])) == Some(r.value[i])
    ensures r.None? ==> exists i :: 0 <= i < |items| && DecodeUser(Some(items[i])).None?
  {
    if items == [] then Some([])
    else
      var first :- DecodeUser(Some(items[0]));
      var rest :- DecodeUsers(items[1..]);
      assert forall i :: 1 <= i < |items| ==> items[i] == items[1..][i - 1];
      Some([first] + rest)
  }

  function DecodeEvent(v: Option<Json>): (r: Option<RoomEvent>)
    ensures r.Some? ==> WireEventOk(r.value)
  {
    if v.None? || !v.value.JObject? then None
    else
      var o := v.value;
      var id :- StringOf(Member(o, "id"), 1, None);
      var roomId :- StringOf(Member(o, "roomId"), 1, None);
      var eventType :- DecodeEventType(Member(o, "type"));
      var message :- StringOf(Member(o, "message"), 0, None);
      var createdAt :- StringOf(Member(o, "createdAt"), 1, None);
      var author :- DecodeUser(Member(o, "author"));
      Some(RoomEvent(id, roomId, eventType, message, createdAt, author))
  }

  function DecodeTask(v: Option<Json>): (r: Option<Task>)
    ensures r.Some? ==> WireTaskOk(r.value)
  {
    if v.None? || !v.value.JObject? then None
    else
      var o := v.value;
      var id :- StringOf(Member(o, "id"), 1, None);
      var roomId :- StringOf(Member(o, "roomId"), 1, None);
      var title :- StringOf(Member(o, "title"), 1, None);
      var status :- DecodeTaskStatus(Member(o, "status"));
      var createdAt :- StringOf(Member(o, "createdAt"), 1, None);
      var updatedAt :- StringOf(Member(o, "updatedAt"), 1, None);
      var assignee :-
        match Member(o, "assignee")
        case None => Some(None)
        case Some(a) =>
          match StringOf(Some(a), 1, None)
          case Some(s) => Some(Some(s))
          case None => None;
      Some(Task(id, roomId, title, status, createdAt, updatedAt, assignee))
  }

  function DecodeChat(v: Option<Json>): (r: Option<ChatMessage>)
    ensures r.Some? ==> WireChatOk(r.value)
  {
    if v.None? || !v.value.JObject? then None
    else
      var o := v.value;
      var id :- StringOf(Member(o, "id"), 1, None);
      var roomId :- StringOf(Member(o, "roomId"), 1, None);
      var message :- StringOf(Member(o, "message"), 1, None);
      var createdAt :- StringOf(Member(o, "createdAt"), 1, None);
      var author :- DecodeUser(Member(o, "author"));
      Some(ChatMessage(id, roomId, message, createdAt, author))
  }

  /** `WsServerMessageSchema.safeParse(j)`: the `kind` literal selects the one shape that
      can match; anything else is rejected. Unknown keys are dropped. */
  function DecodeServerMessage(j: Json): (r: Option<ServerMessage>)
    ensures r.Some? ==> ValidServerMessage(r.value)
    ensures r.Some? ==> j.JObject? && Member(j, "kind") == Some(JString(Kind(r.value)))
  {
    if !j.JObject? then None
    else
      match Member(j, "kind")
      case Some(JString(kind)) =>
        if kind == "presence" then
          match Member(j, "users")
          case Some(JArray(items)) =>
            var users :- DecodeUsers(items);
            Some(PresenceMsg(users))
          case _ => None
        else if kind == "event:created" then
          var e :- DecodeEvent(Member(j, "event"));
          Some(EventCreatedMsg(e))
        else if kind == "task:created" then
          var t :- DecodeTask(Member(j, "task"));
          Some(TaskCreatedMsg(t))
        else if kind == "task:updated" then
          var t :- DecodeTask(Member(j, "task"));
          Some(TaskUpdatedMsg(t))
        else if kind == "chat:message" then
          var c :- DecodeChat(Member(j, "message"));
          Some(ChatMessageMsg(c))
        else if kind == "error" then
          var text :- StringOf(Member(j, "message"), 1, None);
          Some(ErrorMsg(text))
        else None
      case _ => None
  }

  // ----- properties

  /** A value whose `kind` is none of the six literals is rejected. */
  lemma UnknownKindRejected(j: Json)
    requires forall m: ServerMessage :: Member(j, "kind") != Some(JString(Kind(m)))
    ensures DecodeServerMessage(j) == None
  {
  }

  /** Every wire-valid user is accepted as itself. */
  lemma UserRoundTrip(u: Presence)
    requires WireUserOk(u)
    ensures DecodeUser(Some(EncodePresence(u))) == Some(u)
  {
    assert Member(EncodePresence(u), "userId") == Some(JString(u.userId));
    assert Member(EncodePresence(u), "displayName") == Some(JString(u.displayName));
  }

  lemma {:induction false} UsersRoundTrip(users: seq<Presence>)
    requires forall i :: 0 <= i < |users| ==> WireUserOk(users[i])
    ensures DecodeUsers(EncodeUsers(users)) == Some(users)
  {
    if users != [] {
      var js := EncodeUsers(users);
      assert js[1..] == EncodeUsers(users[1..]);
      UsersRoundTrip(users[1..]);
      var u := users[0];
      UserRoundTrip(u);
      assert DecodeUsers(js) == Some([u] + users[1..]);
      assert users == [users[0]] + users[1..];
    }
  }

  /** The fields the event encoding carries. */
  lemma EventMembers(e: RoomEvent)
    ensures var o := EncodeEvent(e);
      && Member(o, "id") == Some(JString(e.id))
      && Member(o, "roomId") == Some(JString(e.roomId))
      && Member(o, "type") == Some(JString(EventTypeName(e.eventType)))
      && Member(o, "message") == Some(JString(e.message))
      && Member(o, "createdAt") == Some(JString(e.createdAt))
      && Member(o, "author") == Some(EncodePresence(e.author))
  {
  }

  lemma EventRoundTrip(e: RoomEvent)
    requires WireEventOk(e)
    ensures DecodeEvent(Some(EncodeEvent(e))) == Some(e)
  {
    var o := EncodeEvent(e);
    EventMembers(e);
    UserRoundTrip(e.author);
    assert StringOf(Member(o, "id"), 1, None) == Some(e.id);
    assert StringOf(Member(o, "roomId"), 1, None) == Some(e.roomId);
    assert DecodeEventType(Member(o, "type")) == Some(e.eventType);
    assert StringOf(Member(o, "message"), 0, None) == Some(e.message);
    assert StringOf(Member(o, "createdAt"), 1, None) == Some(e.createdAt);
  }

  /** The fields the task encoding carries. */
  lemma TaskMembers(t: Task)
    ensures var o := EncodeTask(t);
      && Member(o, "id") == Some(JString(t.id))
      && Member(o, "roomId") == Some(JString(t.roomId))
      && Member(o, "title") == Some(JString(t.title))
      && Member(o, "status") == Some(JString(TaskStatusName(t.status)))
      && Member(o, "createdAt") == Some(JString(t.createdAt))
      && Member(o, "updatedAt") == Some(JString(t.updatedAt))
      && Member(o, "assignee") == if t.assignee.Some? then Some(JString(t.assignee.value)) else None
  {
  }

  lemma TaskRoundTrip(t: Task)
    requires WireTaskOk(t)
    ensures DecodeTask(Some(EncodeTask(t))) == Some(t)
  {
    var o := EncodeTask(t);
    TaskMembers(t);
    assert StringOf(Member(o, "id"), 1, None) == Some(t.id);
    assert StringOf(Member(o, "roomId"), 1, None) == Some(t.roomId);
    assert StringOf(Member(o, "title"), 1, None) == Some(t.title);
    assert DecodeTaskStatus(Member(o, "status")) == Some(t.status);
    assert StringOf(Member(o, "createdAt"), 1, None) == Some(t.createdAt);
    assert StringOf(Member(o, "updatedAt"), 1, None) == Some(t.updatedAt);
  }

  /** The fields the chat encoding carries. */
  lemma ChatMembers(c: ChatMessage)
    ensures var o := EncodeChat(c);
      && Member(o, "id") == Some(JString(c.id))
      && Member(o, "roomId") == Some(JString(c.roomId))
      && Member(o, "message") == Some(JString(c.message))
      && Member(o, "createdAt") == Some(JString(c.createdAt))
      && Member(o, "author") == Some(EncodePresence(c.author))
  {
  }

  lemma ChatRoundTrip(c: ChatMessage)
    requires WireChatOk(c)
    ensures DecodeChat(Some(EncodeChat(c))) == Some(c)
  {
    var o := EncodeChat(c);
    ChatMembers(c);
    UserRoundTrip(c.author);
    assert StringOf(Member(o, "id"), 1, None) == Some(c.id);
    assert StringOf(Member(o, "roomId"), 1, None) == Some(c.roomId);
    assert StringOf(Member(o, "message"), 1, None) == Some(c.message);
    assert StringOf(Member(o, "createdAt"), 1, None) == Some(c.createdAt);
  }

  lemma PresenceMsgRoundTrip(users: seq<Presence>)
    requires ValidServerMessage(PresenceMsg(users))
    ensures DecodeServerMessage(Encode(PresenceMsg(users))) == Some(PresenceMsg(users))
  {
    var j := Encode(PresenceMsg(users));
    assert Member(j, "kind") == Some(JString("presence"));
    assert Member(j, "users") == Some(JArray(EncodeUsers(users)));
    UsersRoundTrip(users);
  }

  lemma EventMsgRoundTrip(e: RoomEvent)
    requires WireEventOk(e)
    ensures DecodeServerMessage(Encode(EventCreatedMsg(e))) == Some(EventCreatedMsg(e))
  {
    var j := Encode(EventCreatedMsg(e));
    assert Member(j, "kind") == Some(JString("event:created"));
    assert Member(j, "event") == Some(EncodeEvent(e));
    EventRoundTrip(e);
  }

  lemma TaskCreatedMsgRoundTrip(t: Task)
    requires WireTaskOk(t)
    ensures DecodeServerMessage(Encode(TaskCreatedMsg(t))) == Some(TaskCreatedMsg(t))
  {
    TaskRoundTrip(t);
    var j := Encode(TaskCreatedMsg(t));
    assert Member(j, "kind") == Some(JString("task:created"));
    assert DecodeTask(Member(j, "task")) == Some(t);
  }

  lemma TaskUpdatedMsgRoundTrip(t: Task)
    requires WireTaskOk(t)
    ensures DecodeServerMessage(Encode(TaskUpdatedMsg(t))) == Some(TaskUpdatedMsg(t))
  {
    TaskRoundTrip(t);
    var j := Encode(TaskUpdatedMsg(t));
    assert Member(j, "kind") == Some(JString("task:updated"));
    assert DecodeTask(Member(j, "task")) == Some(t);
  }

  lemma ChatMsgRoundTrip(c: ChatMessage)
    requires WireChatOk(c)
    ensures DecodeServerMessage(Encode(ChatMessageMsg(c))) == Some(ChatMessageMsg(c))
  {
    var j := Encode(ChatMessageMsg(c));
    assert Member(j, "kind") == Some(JString("chat:message"));
    assert Member(j, "message") == Some(EncodeChat(c));
    ChatRoundTrip(c);
  }

  lemma ErrorMsgRoundTrip(text: string)
    requires NonEmpty(text)
    ensures DecodeServerMessage(Encode(ErrorMsg(text))) == Some(ErrorMsg(text))
  {
    var j := Encode(ErrorMsg(text));
    assert Member(j, "kind") == Some(JString("error"));
    assert Member(j, "message") == Some(JString(text));
  }

  /** Every valid message is accepted as itself, so the schema accepts exactly the
      encodings of valid messages (with `DecodeServerMessage`'s own postconditions). */
  lemma ServerMessageRoundTrip(m: ServerMessage)
    requires ValidServerMessage(m)
    ensures DecodeServerMessage(Encode(m)) == Some(m)
  {
    match m
    case PresenceMsg(users) => PresenceMsgRoundTrip(users);
    case EventCreatedMsg(e) => EventMsgRoundTrip(e);
    case TaskCreatedMsg(t) => TaskCreatedMsgRoundTrip(t);
    case TaskUpdatedMsg(t) => TaskUpdatedMsgRoundTrip(t);
    case ChatMessageMsg(c) => ChatMsgRoundTrip(c);
    case ErrorMsg(text) => ErrorMsgRoundTrip(text);
  }

  /** An encoded user is accepted as itself or not at all. */
  lemma UserDecodesOnlyToItself(u: Presence)
    ensures DecodeUser(Some(EncodePresence(u))).Some? ==> DecodeUser(Some(EncodePresence(u))) == Some(u)
  {
    assert Member(EncodePresence(u), "userId") == Some(JString(u.userId));
    assert Member(EncodePresence(u), "displayName") == Some(JString(u.displayName));
  }

  lemma UsersDecodeOnlyToThemselves(users: seq<Presence>)
    ensures DecodeUsers(EncodeUsers(users)).Some? ==> DecodeUsers(EncodeUsers(users)) == Some(users)
  {
    var js := EncodeUsers(users);
    var r := DecodeUsers(js);
    if r.Some? {
      forall i | 0 <= i < |users| ensures r.value[i] == users[i] {
        UserDecodesOnlyToItself(users[i]);
        assert js[i] == EncodePresence(users[i]);
        assert DecodeUser(Some(js[i])) == Some(r.value[i]);
      }
      assert r.value == users;
    }
  }

  lemma EventDecodesOnlyToItself(e: RoomEvent)
    ensures DecodeEvent(Some(EncodeEvent(e))).Some? ==> DecodeEvent(Some(EncodeEvent(e))) == Some(e)
  {
    EventMembers(e);
    UserDecodesOnlyToItself(e.author);
    var o := EncodeEvent(e);
    if DecodeEvent(Some(o)).Some? {
      assert DecodeEventType(Member(o, "type")) == Some(e.eventType);
    }
  }

  lemma TaskDecodesOnlyToItself(t: Task)
    ensures DecodeTask(Some(EncodeTask(t))).Some? ==> DecodeTask(Some(EncodeTask(t))) == Some(t)
  {
    TaskMembers(t);
    var o := EncodeTask(t);
    if DecodeTask(Some(o)).Some? {
      assert DecodeTaskStatus(Member(o, "status")) == Some(t.status);
    }
  }

  lemma ChatDecodesOnlyToItself(c: ChatMessage)
    ensures DecodeChat(Some(EncodeChat(c))).Some? ==> DecodeChat(Some(EncodeChat(c))) == Some(c)
  {
    ChatMembers(c);
    UserDecodesOnlyToItself(c.author);
  }

  /** The encoding of any message, valid or not, is accepted as that message or not
      at all. */
  lemma EncodingDecodesOnlyToItself(m: ServerMessage)
    ensures DecodeServerMessage(Encode(m)).Some? ==> DecodeServerMessage(Encode(m)) == Some(m)
  {
    match m
    case PresenceMsg(_) => PresenceEncodingDecodesOnlyToItself(m);
    case EventCreatedMsg(_) => EventEncodingDecodesOnlyToItself(m);
    case TaskCreatedMsg(_) => TaskEncodingDecodesOnlyToItself(m);
    case TaskUpdatedMsg(_) => TaskEncodingDecodesOnlyToItself(m);
    case ChatMessageMsg(_) => ChatEncodingDecodesOnlyToItself(m);
    case ErrorMsg(text) =>
      assert Member(Encode(m), "kind") == Some(JString(Kind(m)));
      assert Member(Encode(m), "message") == Some(JString(text));
  }

  lemma PresenceEncodingDecodesOnlyToItself(m: ServerMessage)
    requires m.PresenceMsg?
    ensures DecodeServerMessage(Encode(m)).Some? ==> DecodeServerMessage(Encode(m)) == Some(m)
  {
    var j := Encode(m);
    assert Member(j, "kind") == Some(JString(Kind(m)));
    assert Member(j, "users") == Some(JArray(EncodeUsers(m.users)));
    UsersDecodeOnlyToThemselves(m.users);
  }

  lemma EventEncodingDecodesOnlyToItself(m: ServerMessage)
    requires m.EventCreatedMsg?
    ensures DecodeServerMessage(Encode(m)).Some? ==> DecodeServerMessage(Encode(m)) == Some(m)
  {
    var j := Encode(m);
    assert Member(j, "kind") == Some(JString(Kind(m)));
    assert Member(j, "event") == Some(EncodeEvent(m.event));
    EventDecodesOnlyToItself(m.event);
  }

  lemma TaskEncodingDecodesOnlyToItself(m: ServerMessage)
    requires m.TaskCreatedMsg? || m.TaskUpdatedMsg?
    ensures DecodeServerMessage(Encode(m)).Some? ==> DecodeServerMessage(Encode(m)) == Some(m)
  {
    var j := Encode(m);
    assert Member(j, "kind") == Some(JString(Kind(m)));
    assert Member(j, "task") == Some(EncodeTask(m.task));
    TaskDecodesOnlyToItself(m.task);
  }

  lemma ChatEncodingDecodesOnlyToItself(m: ServerMessage)
    requires m.ChatMessageMsg?
    ensures DecodeServerMessage(Encode(m)).Some? ==> DecodeServerMessage(Encode(m)) == Some(m)
  {
    var j := Encode(m);
    assert Member(j, "kind") == Some(JString(Kind(m)));
    assert Member(j, "message") == Some(EncodeChat(m.chat));
    ChatDecodesOnlyToItself(m.chat);
  }

  /** So the encoding of a message the schema refuses is itself refused: `/broadcast`
      answers it with 400. */
  lemma InvalidEncodingRejected(m: ServerMessage)
    requires !ValidServerMessage(m)
    ensures DecodeServerMessage(Encode(m)) == None
  {
    EncodingDecodesOnlyToItself(m);
  }

  /** What the schema accepts is forwarded in a normal form that it accepts again unchanged. */
  lemma DecodedIsStable(j: Json, m: ServerMessage)
    requires DecodeServerMessage(j) == Some(m)
    ensures DecodeServerMessage(Encode(m)) == Some(m)
  {
    ServerMessageRoundTrip(m);
  }

  /** A presence message may list nobody. */
  lemma EmptyPresenceValid()
    ensures ValidServerMessage(PresenceMsg([]))
  {
  }

  /** The server schemas are looser than the domain ones: a valid identity is a valid
      wire user, but a wire user's display name may be longer than 60 characters. */
  lemma IdentityIsWireUser(p: Presence)
    ensures ValidPresence(p) ==> WireUserOk(p)
    ensures NonEmpty(p.userId) && |p.displayName| > 60 ==> WireUserOk(p) && !ValidPresence(p)
  {
  }

  /** Every valid domain event is a valid `event:created` payload. */
  lemma DomainEventIsWireEvent(e: RoomEvent)
    requires ValidRoomEvent(e)
    ensures ValidServerMessage(EventCreatedMsg(e))
  {
  }

  /** Every valid domain task is a valid `task:created` and `task:updated` payload. */
  lemma DomainTaskIsWireTask(t: Task)
    requires ValidTask(t)
    ensures ValidServerMessage(TaskCreatedMsg(t)) && ValidServerMessage(TaskUpdatedMsg(t))
  {
  }

  /** Every valid domain chat message is a valid `chat:message` payload. */
  lemma DomainChatIsWireChat(c: ChatMessage)
    requires ValidChatMessage(c)
    ensures ValidServerMessage(ChatMessageMsg(c))
  {
  }
}
