/**
 * src/utils/eventMappers.ts: a total, pure translation of one change-feed
 * payload into at most one typed server event, and the field-by-field
 * renaming between the wire rows (snake_case) and the cached records.
 */
module EventMappers {
  import opened ChatTypes

  /**
   * A messages-table row as the wire carries it. Absent and null optional
   * fields are both `None`.
   */
  datatype DbMessage = DbMessage(
    id: string,
    conversation_id: string,
    sender_id: string,
    kind: MessageType,
    status: MessageStatus,
    timestamp: int,
    parent_message_id: Option<string>,
    version: Option<int>,
    created_at: int,
    updated_at: int)

  /** A users-table row as the wire carries it. */
  datatype DbUser = DbUser(
    id: string,
    name: string,
    avatar: Option<string>,
    status: PresenceStatus,
    last_seen: int,
    created_at: int)

  /**
   * The `new` or `old` snapshot of a change: its message fields, and whether
   * the object has a `content` key (the only shape test the mapper makes).
   */
  datatype ChangeRow = ChangeRow(hasContent: bool, fields: DbMessage)

  datatype ChangePayload = ChangePayload(eventType: ChangeType, newRow: ChangeRow, oldRow: Option<ChangeRow>)

  /** `isMessagePayload`. */
  predicate IsMessagePayload(p: ChangePayload)
  {
    p.newRow.hasContent
  }

  /** The shape test inspects only the new row, whatever the change type and the old row. */
  lemma MessagePayloadTestReadsNewRowOnly(p: ChangePayload, q: ChangePayload)
    requires p.newRow == q.newRow
    ensures IsMessagePayload(p) == IsMessagePayload(q)
  {
  }

  /** Which JavaScript values `x || d` replaces by the default `d`. */
  function ParentOrNull(p: Option<string>): (r: Option<string>)
    ensures r == None <==> p == None || p == Some("")
    ensures r != None ==> r == p
  {
    match p
    case Some(s) => if s == "" then None else p
    case None => None
  }

  function VersionOrOne(v: Option<int>): (r: int)
    ensures r != 0
    ensures v.Some? && v.value != 0 ==> r == v.value
    ensures v == None || v == Some(0) ==> r == 1
  {
    match v
    case Some(n) => if n == 0 then 1 else n
    case None => 1
  }

  /** `mapDatabaseMessageToMessage`. */
  function MapDatabaseMessageToMessage(d: DbMessage): (m: Message)
    ensures m.id == d.id && m.conversationId == d.conversation_id && m.senderId == d.sender_id
    ensures m.kind == d.kind && m.status == d.status && m.timestamp == d.timestamp
    ensures m.createdAt == d.created_at && m.updatedAt == d.updated_at
    ensures m.parentMessageId == None <==> d.parent_message_id == None || d.parent_message_id == Some("")
    ensures m.parentMessageId != None ==> m.parentMessageId == d.parent_message_id
    ensures m.version != 0
  {
    Message(d.id, d.conversation_id, d.sender_id, ParentOrNull(d.parent_message_id), d.kind,
            d.status, d.timestamp, VersionOrOne(d.version), d.created_at, d.updated_at)
  }

  /** `mapMessageToServerFormat`. */
  function MapMessageToServerFormat(m: Message): (d: DbMessage)
    ensures d.id == m.id && d.conversation_id == m.conversationId && d.sender_id == m.senderId
    ensures d.kind == m.kind && d.status == m.status && d.timestamp == m.timestamp
    ensures d.parent_message_id == m.parentMessageId && d.version == Some(m.version)
    ensures d.created_at == m.createdAt && d.updated_at == m.updatedAt
  {
    DbMessage(m.id, m.conversationId, m.senderId, m.kind, m.status, m.timestamp,
              m.parentMessageId, Some(m.version), m.createdAt, m.updatedAt)
  }

  /** `mapDatabaseUserToUser`. */
  function MapDatabaseUserToUser(d: DbUser): (u: User)
    ensures u.id == d.id && u.name == d.name && u.avatar == d.avatar
    ensures u.status == d.status && u.lastSeen == d.last_seen && u.createdAt == d.created_at
  {
    User(d.id, d.name, d.avatar, d.status, d.last_seen, d.created_at)
  }

  /** `mapUserToServerFormat`. */
  function MapUserToServerFormat(u: User): (d: DbUser)
    ensures d.id == u.id && d.name == u.name && d.avatar == u.avatar
    ensures d.status == u.status && d.last_seen == u.lastSeen && d.created_at == u.createdAt
  {
    DbUser(u.id, u.name, u.avatar, u.status, u.lastSeen, u.createdAt)
  }

  /** `handleInsertEvent`: the incoming event carries the message and no sender. */
  function HandleInsertEvent(p: ChangePayload): (e: Option<ServerEvent>)
    ensures e.Some? <==> IsMessagePayload(p)
    ensures e.Some? ==> && e.value.MessageIncomingEvent?
                        && e.value.sender == None
                        && e.value.message.id == p.newRow.fields.id
                        && e.value.message.conversationId == p.newRow.fields.conversation_id
  {
    if IsMessagePayload(p) then
      Some(MessageIncomingEvent(MapDatabaseMessageToMessage(p.newRow.fields), None))
    else
      None
  }

  /** `handleUpdateEvent`: only the statuses `sent`, `delivered` and `failed` give an event. */
  function HandleUpdateEvent(p: ChangePayload): (e: Option<ServerEvent>)
    ensures e.Some? <==> IsMessagePayload(p) && p.newRow.fields.status in {Sent, Delivered, Failed}
    ensures e == Some(MessageSentEvent(p.newRow.fields.id)) <==> IsMessagePayload(p) && p.newRow.fields.status == Sent
    ensures e == Some(MessageDeliveredEvent(p.newRow.fields.id)) <==> IsMessagePayload(p) && p.newRow.fields.status == Delivered
    ensures e == Some(MessageFailedEvent(p.newRow.fields.id)) <==> IsMessagePayload(p) && p.newRow.fields.status == Failed
  {
    if IsMessagePayload(p) then
      var newMessage := MapDatabaseMessageToMessage(p.newRow.fields);
      match newMessage.status
      case Sent => Some(MessageSentEvent(newMessage.id))
      case Delivered => Some(MessageDeliveredEvent(newMessage.id))
      case Failed => Some(MessageFailedEvent(newMessage.id))
      case _ => None
    else
      None
  }

  /** `handleDeleteEvent`: deletions are not propagated. */
  function HandleDeleteEvent(p: ChangePayload): (e: Option<ServerEvent>)
    ensures e == None
  {
    None
  }

  /** `mapPayloadToServerEvent`. */
  function MapPayloadToServerEvent(p: ChangePayload): (e: Option<ServerEvent>)
    ensures e.Some? ==> IsMessagePayload(p) && (p.eventType == Insert || p.eventType == Update)
    ensures e.Some? && e.value.MessageIncomingEvent? ==> p.eventType == Insert && e.value.sender == None
    ensures p.eventType.Delete? || p.eventType.OtherChange? ==> e == None
  {
    match p.eventType
    case Insert => HandleInsertEvent(p)
    case Update => HandleUpdateEvent(p)
    case Delete => HandleDeleteEvent(p)
    case OtherChange(_) => None
  }

  // ---------------------------------------------------------------------------
  // Properties
  // ---------------------------------------------------------------------------

  /**
   * What the mapper yields, case by case: an insert of a row with `content`
   * becomes `message_incoming` with the renamed row; an update of such a row
   * with status sent/delivered/failed becomes the matching event for the new
   * row's id; everything else (other statuses, rows without `content`,
   * deletes, unknown tags) yields no event.
   */
  lemma MapPayloadCases(p: ChangePayload)
    ensures p.eventType == Insert && p.newRow.hasContent ==>
              MapPayloadToServerEvent(p) == Some(MessageIncomingEvent(MapDatabaseMessageToMessage(p.newRow.fields), None))
    ensures p.eventType == Update && p.newRow.hasContent && p.newRow.fields.status == Sent ==>
              MapPayloadToServerEvent(p) == Some(MessageSentEvent(p.newRow.fields.id))
    ensures p.eventType == Update && p.newRow.hasContent && p.newRow.fields.status == Delivered ==>
              MapPayloadToServerEvent(p) == Some(MessageDeliveredEvent(p.newRow.fields.id))
    ensures p.eventType == Update && p.newRow.hasContent && p.newRow.fields.status == Failed ==>
              MapPayloadToServerEvent(p) == Some(MessageFailedEvent(p.newRow.fields.id))
    ensures MapPayloadToServerEvent(p).Some? <==>
              && p.newRow.hasContent
              && (p.eventType == Insert ||
                  (p.eventType == Update && p.newRow.fields.status in {Sent, Delivered, Failed}))
  {
  }

  /** The event never depends on the `old` snapshot. */
  lemma MapPayloadIgnoresOld(p: ChangePayload, previous: Option<ChangeRow>)
    ensures MapPayloadToServerEvent(p.(oldRow := previous)) == MapPayloadToServerEvent(p)
  {
  }

  /**
   * A message survives the trip to the wire format and back exactly when its
   * version is not 0 and its parent id is not the empty string.
   */
  lemma MessageRoundTrip(m: Message)
    ensures MapDatabaseMessageToMessage(MapMessageToServerFormat(m)) == m
            <==> m.version != 0 && m.parentMessageId != Some("")
  {
    if m.version != 0 && m.parentMessageId != Some("") {
      assert ParentOrNull(m.parentMessageId) == m.parentMessageId;
    }
  }

  /**
   * A wire row survives the trip to a message and back exactly when it has a
   * non-zero version and a parent id that is absent or non-empty.
   */
  lemma DbMessageRoundTrip(d: DbMessage)
    ensures MapMessageToServerFormat(MapDatabaseMessageToMessage(d)) == d
            <==> d.version.Some? && d.version.value != 0 && d.parent_message_id != Some("")
  {
    if d.version.Some? && d.version.value != 0 && d.parent_message_id != Some("") {
      assert ParentOrNull(d.parent_message_id) == d.parent_message_id;
    }
  }

  /** Users survive the trip in both directions, for every user. */
  lemma UserRoundTrip(u: User, d: DbUser)
    ensures MapDatabaseUserToUser(MapUserToServerFormat(u)) == u
    ensures MapUserToServerFormat(MapDatabaseUserToUser(d)) == d
  {
  }

  /** Renaming to the wire format is injective on messages. */
  lemma ServerFormatInjective(m1: Message, m2: Message)
    requires MapMessageToServerFormat(m1) == MapMessageToServerFormat(m2)
    ensures m1 == m2
  {
  }
}
