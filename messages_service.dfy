/**
 * The chat-message service: the message `createMessage` returns and stores, and the
 * row mapping of `listMessages`. Its `toPresence` is the same as the event service's.
 */
module MessagesService {
  import opened JsStrings
  import opened Json
  import opened Schemas
  import opened Domain
  import opened EventsService

  /** A `messages` row as the store returns it. */
  datatype MessageRow = MessageRow(
    id: string, roomId: string, message: string, createdAt: string,
    authorUserId: Json, authorDisplayName: Json)

  /** The message `createMessage` returns for a fresh id and timestamp. */
  function CreateMessage(roomId: string, input: CreateChatMessageInput, messageId: string, createdAt: string): (m: ChatMessage)
    ensures m.id == messageId && m.roomId == roomId && m.createdAt == createdAt
    ensures m.message == input.message && m.author == input.createdBy
  {
    ChatMessage(messageId, roomId, input.message, createdAt, input.createdBy)
  }

  /** The row `createMessage` inserts. */
  function MessageRowOf(m: ChatMessage): MessageRow {
    MessageRow(m.id, m.roomId, m.message, m.createdAt, JString(m.author.userId), JString(m.author.displayName))
  }

  /** One row of `listMessages`: the author cells go through `toPresence`, so the
      author always has a non-empty userId and displayName. */
  function RowToMessage(r: MessageRow): (m: ChatMessage)
    ensures m.id == r.id && m.roomId == r.roomId && m.message == r.message && m.createdAt == r.createdAt
    ensures m.author == ToPresence(r.authorUserId, r.authorDisplayName)
    ensures NonEmpty(m.author.userId) && NonEmpty(m.author.displayName)
  {
    ChatMessage(r.id, r.roomId, r.message, r.createdAt, ToPresence(r.authorUserId, r.authorDisplayName))
  }

  /** `listMessages` maps the rows one to one, in the order the store returns them. */
  function ListMessages(rows: seq<MessageRow>): (ms: seq<ChatMessage>)
    ensures |ms| == |rows|
    ensures forall i :: 0 <= i < |rows| ==> ms[i] == RowToMessage(rows[i])
  {
    seq(|rows|, i requires 0 <= i < |rows| => RowToMessage(rows[i]))
  }

  /** A validated create request yields a message that passes the domain schema. */
  lemma CreateMessageValid(roomId: string, input: CreateChatMessageInput, messageId: string, createdAt: string)
    requires ValidCreateChatMessage(input) && NonEmpty(roomId) && NonEmpty(messageId) && NonEmpty(createdAt)
    ensures ValidChatMessage(CreateMessage(roomId, input, messageId, createdAt))
  {
  }

  /** A message created from a validated request reads back from its row unchanged. */
  lemma CreatedMessageReadsBack(roomId: string, input: CreateChatMessageInput, messageId: string, createdAt: string)
    requires ValidCreateChatMessage(input)
    ensures var m := CreateMessage(roomId, input, messageId, createdAt);
      RowToMessage(MessageRowOf(m)) == m
  {
    PresenceInCharacters(input.createdBy);
  }

  /** Listing what was created gives back the created messages, in the same order. */
  lemma {:induction false} ListCreatedMessages(ms: seq<ChatMessage>)
    requires forall i :: 0 <= i < |ms| ==> ms[i].author.userId != [] && ms[i].author.displayName != []
    ensures ListMessages(seq(|ms|, i requires 0 <= i < |ms| => MessageRowOf(ms[i]))) == ms
  {
    var rows := seq(|ms|, i requires 0 <= i < |ms| => MessageRowOf(ms[i]));
    forall i | 0 <= i < |ms| ensures ListMessages(rows)[i] == ms[i] {
      ToPresenceIdentity(ms[i].author);
    }
  }
}
