/**
 * The local cache as a value, and the effect of each store operation of
 * src/utils/dbOperations.ts as a function on that value. Every handler runs
 * in one read-write transaction, so each one is a single step here; a step
 * whose request is rejected by the store aborts and leaves the cache as it was.
 */
module StoreTransitions {
  import opened ChatTypes

  /** The object stores of the cache, each a map from primary key to record. */
  datatype Store = Store(
    messages: map<string, Message>,
    users: map<string, User>,
    conversations: map<string, Conversation>,
    requests: map<string, SendMessageRequest>,
    syncMetadata: map<string, SyncMetadata>)

  /** Every store is keyed by its records' key path (`id`, or `entity` for sync metadata). */
  predicate KeyedById(s: Store)
  {
    && (forall k :: k in s.messages ==> s.messages[k].id == k)
    && (forall k :: k in s.users ==> s.users[k].id == k)
    && (forall k :: k in s.conversations ==> s.conversations[k].id == k)
    && (forall k :: k in s.requests ==> s.requests[k].id == k)
    && (forall k :: k in s.syncMetadata ==> s.syncMetadata[k].entity == k)
  }

  // ---------------------------------------------------------------------------
  // Watermarks
  // ---------------------------------------------------------------------------

  /** The watermark of `entity`; an entity never synchronised reads as 0. */
  function LastSyncTimestamp(meta: map<string, SyncMetadata>, entity: string): (t: int)
    ensures entity !in meta ==> t == 0
    ensures entity in meta ==> t == meta[entity].lastSyncTimestamp
  {
    if entity in meta then meta[entity].lastSyncTimestamp else 0
  }

  /** Stores the watermark of `entity`, replacing any earlier one. */
  function SetSyncTimestamp(meta: map<string, SyncMetadata>, entity: string, t: int): (r: map<string, SyncMetadata>)
    ensures LastSyncTimestamp(r, entity) == t
    ensures r.Keys == meta.Keys + {entity}
    ensures forall e :: e in meta && e != entity ==> r[e] == meta[e]
    ensures r[entity].entity == entity
  {
    meta[entity := SyncMetadata(entity, t)]
  }

  // ---------------------------------------------------------------------------
  // Send requests
  // ---------------------------------------------------------------------------

  /** The records the `status` index yields for the key `pending`. */
  function PendingRequests(rs: map<string, SendMessageRequest>): (p: map<string, SendMessageRequest>)
    ensures forall k :: k in p <==> k in rs && rs[k].status == Pending
    ensures forall k :: k in p ==> p[k] == rs[k]
  {
    map k | k in rs && rs[k].status == Pending :: rs[k]
  }

  /**
   * One failed delivery of a request: its failure count goes up by one and it
   * is given up (`fail`) once the count reaches MAX_RETRY_ATTEMPTS; otherwise it
   * stays `pending`. No other field changes.
   */
  function RecordFailure(r: SendMessageRequest): (r': SendMessageRequest)
    ensures r'.failCount == r.failCount + 1
    ensures r'.status == Fail <==> r'.failCount >= MAX_RETRY_ATTEMPTS
    ensures r'.status != Fail ==> r'.status == Pending
    ensures r'.(failCount := r.failCount, status := r.status) == r
  {
    var n := r.failCount + 1;
    r.(failCount := n, status := if n >= MAX_RETRY_ATTEMPTS then Fail else Pending)
  }

  /** `updateSendRequest`: puts the request under its own id. */
  function PutRequest(s: Store, r: SendMessageRequest): (s': Store)
    requires KeyedById(s)
    ensures KeyedById(s')
    ensures r.id in s'.requests && s'.requests[r.id] == r
    ensures forall k :: k in s.requests && k != r.id ==> k in s'.requests && s'.requests[k] == s.requests[k]
    ensures s'.requests.Keys == s.requests.Keys + {r.id}
    ensures s'.(requests := s.requests) == s
  {
    s.(requests := s.requests[r.id := r])
  }

  /** `deleteSendRequest`: the key is absent afterwards, whether or not it was present. */
  function DeleteRequest(s: Store, id: string): (s': Store)
    requires KeyedById(s)
    ensures KeyedById(s')
    ensures id !in s'.requests
    ensures forall k :: k != id ==> (k in s'.requests <==> k in s.requests)
    ensures forall k :: k in s'.requests ==> s'.requests[k] == s.requests[k]
    ensures s'.(requests := s.requests) == s
  {
    s.(requests := s.requests - {id})
  }

  /** `addMessage`: the message and its fresh send request are both stored, or neither. */
  function NewSendRequest(m: Message, now: int): SendMessageRequest
  {
    SendMessageRequest(m.id, m.id, Pending, 0, now, now, now)
  }

  /** `add` rejects an existing key, which aborts the whole transaction. */
  predicate AddMessageAccepted(s: Store, m: Message)
  {
    m.id !in s.messages && m.id !in s.requests
  }

  function AddMessage(s: Store, m: Message, now: int): (s': Store)
    requires KeyedById(s)
    ensures KeyedById(s')
    ensures AddMessageAccepted(s, m) ==>
      && s'.messages == s.messages[m.id := m]
      && m.id in s'.requests
      && s'.requests[m.id].messageId == m.id
      && s'.requests[m.id].status == Pending
      && s'.requests[m.id].failCount == 0
      && s'.requests == s.requests[m.id := s'.requests[m.id]]
    ensures !AddMessageAccepted(s, m) ==> s' == s
    ensures s'.(messages := s.messages, requests := s.requests) == s
  {
    if AddMessageAccepted(s, m) then
      s.(messages := s.messages[m.id := m], requests := s.requests[m.id := NewSendRequest(m, now)])
    else
      s
  }

  // ---------------------------------------------------------------------------
  // Server events
  // ---------------------------------------------------------------------------

  /** The message `id`, if present, takes status `st`; nothing else changes. */
  function SetStatus(ms: map<string, Message>, id: string, st: MessageStatus): (r: map<string, Message>)
    ensures r.Keys == ms.Keys
    ensures id in ms ==> r[id] == ms[id].(status := st)
    ensures forall k :: k in ms && k != id ==> r[k] == ms[k]
  {
    if id in ms then ms[id := ms[id].(status := st)] else ms
  }

  /** `message_sent`: the message becomes `sent` and its request is retired. */
  function ApplyMessageSent(s: Store, id: string): (s': Store)
    requires KeyedById(s)
    ensures KeyedById(s')
    ensures s'.messages.Keys == s.messages.Keys
    ensures id in s.messages ==> s'.messages[id] == s.messages[id].(status := Sent)
    ensures id !in s'.requests
    ensures forall k :: k != id ==> (k in s.requests <==> k in s'.requests)
    ensures forall k :: k in s.messages && k != id ==> s'.messages[k] == s.messages[k]
    ensures forall k :: k in s'.requests ==> s'.requests[k] == s.requests[k]
    ensures s'.users == s.users && s'.conversations == s.conversations && s'.syncMetadata == s.syncMetadata
  {
    s.(messages := SetStatus(s.messages, id, Sent), requests := s.requests - {id})
  }

  /** `message_delivered`: only the message's status changes, whatever it was before. */
  function ApplyMessageDelivered(s: Store, id: string): (s': Store)
    requires KeyedById(s)
    ensures KeyedById(s')
    ensures s'.messages.Keys == s.messages.Keys
    ensures id in s.messages ==> s'.messages[id] == s.messages[id].(status := Delivered)
    ensures forall k :: k in s.messages && k != id ==> s'.messages[k] == s.messages[k]
    ensures s'.(messages := s.messages) == s
  {
    s.(messages := SetStatus(s.messages, id, Delivered))
  }

  /**
   * `message_failed`: the message becomes `failed`; an existing request
   * records one more failure; a missing request is not created.
   */
  function ApplyMessageFailed(s: Store, id: string): (s': Store)
    requires KeyedById(s)
    ensures KeyedById(s')
    ensures s'.messages.Keys == s.messages.Keys && s'.requests.Keys == s.requests.Keys
    ensures id in s.messages ==> s'.messages[id] == s.messages[id].(status := Failed)
    ensures id in s.requests ==>
      && s'.requests[id] == RecordFailure(s.requests[id])
      && s'.requests[id].failCount == s.requests[id].failCount + 1
      && (s'.requests[id].status == Fail <==> s.requests[id].failCount + 1 >= MAX_RETRY_ATTEMPTS)
      && (s'.requests[id].status != Fail ==> s'.requests[id].status == Pending)
    ensures forall k :: k in s.messages && k != id ==> s'.messages[k] == s.messages[k]
    ensures forall k :: k in s.requests && k != id ==> s'.requests[k] == s.requests[k]
    ensures s'.users == s.users && s'.conversations == s.conversations && s'.syncMetadata == s.syncMetadata
  {
    s.(messages := SetStatus(s.messages, id, Failed), requests := FailRequest(s.requests, id))
  }

  /** The request under `id`, if there is one, records a failure. */
  function FailRequest(rs: map<string, SendMessageRequest>, id: string): (r: map<string, SendMessageRequest>)
    ensures r.Keys == rs.Keys
    ensures id in rs ==> r[id] == RecordFailure(rs[id])
    ensures forall k :: k in rs && k != id ==> r[k] == rs[k]
  {
    if id in rs then rs[id := RecordFailure(rs[id])] else rs
  }

  /**
   * `message_incoming` finishes without an error when the message id is not
   * stored yet (`add` succeeds) and the event carries a sender (`put` of an
   * undefined record throws).
   */
  predicate IncomingAccepted(s: Store, m: Message, sender: Option<User>)
  {
    m.id !in s.messages && sender.Some?
  }

  /**
   * `message_incoming`: adds the message, puts the sender and sets the
   * conversation's last-message timestamp to the message's, even when that
   * is smaller than the current value.
   *
   * A stored id makes the `add` request fail, which aborts the transaction:
   * nothing changes. A missing sender makes `put` throw before it issues a
   * request; the handler stops there, but no request has failed, so the
   * transaction commits the added message while the users and the
   * conversation stay as they were.
   */
  function ApplyMessageIncoming(s: Store, m: Message, sender: Option<User>): (s': Store)
    requires KeyedById(s)
    ensures KeyedById(s')
    ensures m.id in s.messages ==> s' == s
    ensures m.id !in s.messages && sender.None? ==> s' == s.(messages := s.messages[m.id := m])
    ensures IncomingAccepted(s, m, sender) ==>
      && s'.messages == s.messages[m.id := m]
      && s'.users == s.users[sender.value.id := sender.value]
      && s'.conversations.Keys == s.conversations.Keys
      && (m.conversationId in s.conversations ==>
            s'.conversations[m.conversationId] ==
            s.conversations[m.conversationId].(lastMessageTimestamp := m.timestamp))
      && (forall c :: c in s.conversations && c != m.conversationId ==> s'.conversations[c] == s.conversations[c])
    ensures s'.requests == s.requests && s'.syncMetadata == s.syncMetadata
  {
    if m.id in s.messages then s
    else if sender.None? then s.(messages := s.messages[m.id := m])
    else
      var cs := if m.conversationId in s.conversations
                then s.conversations[m.conversationId := s.conversations[m.conversationId].(lastMessageTimestamp := m.timestamp)]
                else s.conversations;
      s.(messages := s.messages[m.id := m],
         users := s.users[sender.value.id := sender.value],
         conversations := cs)
  }

  /** Whether `handleServerEvent` finishes without an error. */
  predicate EventAccepted(s: Store, e: ServerEvent)
  {
    e.MessageIncomingEvent? ==> IncomingAccepted(s, e.message, e.sender)
  }

  /** `handleServerEvent`: dispatch on the event name; `sync` falls to the default branch. */
  function ApplyEvent(s: Store, e: ServerEvent): (s': Store)
    requires KeyedById(s)
    ensures KeyedById(s')
    ensures e.SyncEvent? ==> s' == s
    ensures e.MessageIncomingEvent? && e.message.id in s.messages ==> s' == s
    ensures !EventAccepted(s, e) ==>
      && s'.users == s.users && s'.conversations == s.conversations && s'.requests == s.requests
      && e.MessageIncomingEvent? && e.message.id in s'.messages
      && s'.messages - {e.message.id} == s.messages - {e.message.id}
    ensures s'.syncMetadata == s.syncMetadata
  {
    match e
    case MessageSentEvent(id) => ApplyMessageSent(s, id)
    case MessageDeliveredEvent(id) => ApplyMessageDelivered(s, id)
    case MessageFailedEvent(id) => ApplyMessageFailed(s, id)
    case MessageIncomingEvent(m, sender) => ApplyMessageIncoming(s, m, sender)
    case SyncEvent(_) => s
  }

  // ---------------------------------------------------------------------------
  // Properties that relate several steps
  // ---------------------------------------------------------------------------

  /** Reading a watermark after storing one gives the stored value for that entity and the old value for every other. */
  lemma WatermarkSetThenGet(meta: map<string, SyncMetadata>, entity: string, t: int, other: string)
    ensures LastSyncTimestamp(SetSyncTimestamp(meta, entity, t), other)
            == if other == entity then t else LastSyncTimestamp(meta, other)
  {
  }

  /** Deleting a send request twice is deleting it once. */
  lemma DeleteRequestIdempotent(s: Store, id: string)
    requires KeyedById(s)
    ensures DeleteRequest(DeleteRequest(s, id), id) == DeleteRequest(s, id)
  {
  }

  /** Applying `message_sent` twice is the same as applying it once. */
  lemma MessageSentIdempotent(s: Store, id: string)
    requires KeyedById(s)
    ensures ApplyMessageSent(ApplyMessageSent(s, id), id) == ApplyMessageSent(s, id)
  {
    var once := ApplyMessageSent(s, id);
    assert once.messages == SetStatus(once.messages, id, Sent);
    assert once.requests - {id} == once.requests;
  }

  /** Applying `message_delivered` twice is the same as applying it once. */
  lemma MessageDeliveredIdempotent(s: Store, id: string)
    requires KeyedById(s)
    ensures ApplyMessageDelivered(ApplyMessageDelivered(s, id), id) == ApplyMessageDelivered(s, id)
  {
    var once := ApplyMessageDelivered(s, id);
    assert once.messages == SetStatus(once.messages, id, Delivered);
  }

  /**
   * `message_failed` is not idempotent: each application counts one more
   * failure, and from a fresh request the third one gives it up.
   */
  lemma ThreeFailedEventsGiveUp(s: Store, id: string)
    requires KeyedById(s)
    requires id in s.requests && s.requests[id].failCount == 0
    ensures var s3 := ApplyMessageFailed(ApplyMessageFailed(ApplyMessageFailed(s, id), id), id);
            && s3.requests[id].failCount == 3
            && s3.requests[id].status == Fail
            && ApplyMessageFailed(ApplyMessageFailed(s, id), id).requests[id].status == Pending
  {
    var s1 := ApplyMessageFailed(s, id);
    var s2 := ApplyMessageFailed(s1, id);
    assert s2.requests[id].failCount == 2;
  }

  /**
   * Unlike the batch pull, `message_incoming` can lower a conversation's
   * last-message timestamp: an older message arriving late overwrites it.
   */
  lemma IncomingMayLowerLastMessageTimestamp(s: Store, m: Message, u: User)
    requires KeyedById(s)
    requires IncomingAccepted(s, m, Some(u))
    requires m.conversationId in s.conversations
    requires m.timestamp < s.conversations[m.conversationId].lastMessageTimestamp
    ensures ApplyMessageIncoming(s, m, Some(u)).conversations[m.conversationId].lastMessageTimestamp
            < s.conversations[m.conversationId].lastMessageTimestamp
  {
  }

  /** A rejected incoming message is not a duplicate: re-delivering it changes nothing. */
  lemma IncomingRedeliveryIsNoop(s: Store, m: Message, u: User)
    requires KeyedById(s)
    requires IncomingAccepted(s, m, Some(u))
    ensures var once := ApplyMessageIncoming(s, m, Some(u));
            ApplyMessageIncoming(once, m, Some(u)) == once
  {
  }

  /**
   * A sender-less `message_incoming` stores the message, so a later delivery
   * of the same message with its sender is rejected as a duplicate: the
   * sender is never stored and the conversation never updated.
   */
  lemma SenderlessIncomingBlocksRedelivery(s: Store, m: Message, u: User)
    requires KeyedById(s)
    requires m.id !in s.messages
    ensures var once := ApplyMessageIncoming(s, m, None);
            && !IncomingAccepted(s, m, None)
            && once.messages[m.id] == m
            && once.users == s.users && once.conversations == s.conversations
            && !IncomingAccepted(once, m, Some(u))
            && ApplyMessageIncoming(once, m, Some(u)) == once
  {
  }

  /** `message_sent` retires the request that `addMessage` created, and marks the message `sent`. */
  lemma AddThenSentEvent(s: Store, m: Message, now: int)
    requires KeyedById(s)
    requires AddMessageAccepted(s, m)
    ensures var s' := ApplyMessageSent(AddMessage(s, m, now), m.id);
            && s'.messages == s.messages[m.id := m.(status := Sent)]
            && s'.requests == s.requests
  {
    var added := AddMessage(s, m, now);
    var s' := ApplyMessageSent(added, m.id);
    assert s'.requests == s.requests;
  }
}
