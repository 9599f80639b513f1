/**
 * Records of the local chat cache and the typed events that change it.
 * Timestamps are plain integers (milliseconds); text is `string`.
 */
module ChatTypes {

  /** Number of failed deliveries after which a send request is given up. */
  const MAX_RETRY_ATTEMPTS: int := 3

  /** Page size of every incremental pull from the remote. */
  const SYNC_BATCH_SIZE: nat := 100

  datatype Option<T> = None | Some(value: T)

  datatype MessageStatus = Sending | Sent | Delivered | Read | Failed

  datatype MessageType = Text | Image | File | Audio | Video

  datatype PresenceStatus = Online | Offline | Away

  datatype RequestStatus = Pending | InFlight | Fail | Success

  datatype User = User(
    id: string,
    name: string,
    avatar: Option<string>,
    status: PresenceStatus,
    lastSeen: int,
    createdAt: int)

  datatype Conversation = Conversation(
    id: string,
    name: Option<string>,
    avatar: Option<string>,
    lastMessageTimestamp: int,
    createdAt: int,
    updatedAt: int)

  datatype Message = Message(
    id: string,
    conversationId: string,
    senderId: string,
    parentMessageId: Option<string>,
    kind: MessageType,
    status: MessageStatus,
    timestamp: int,
    version: int,
    createdAt: int,
    updatedAt: int)

  /** The durable record that tracks the delivery of one outgoing message. */
  datatype SendMessageRequest = SendMessageRequest(
    id: string,
    messageId: string,
    status: RequestStatus,
    failCount: int,
    lastSentAt: int,
    createdAt: int,
    updatedAt: int)

  /** The watermark of one synchronised entity ("messages", "conversations", "users"). */
  datatype SyncMetadata = SyncMetadata(entity: string, lastSyncTimestamp: int)

  /**
   * A typed server event. The sender of an incoming message is optional
   * because the change-feed mapper builds `message_incoming` events that
   * carry no sender at all.
   */
  datatype ServerEvent =
    | MessageSentEvent(messageId: string)
    | MessageDeliveredEvent(messageId: string)
    | MessageFailedEvent(messageId: string)
    | MessageIncomingEvent(message: Message, sender: Option<User>)
    | SyncEvent(lastSyncTimestamp: int)

  /** Kind of a row change reported by the change feed; any other tag is `OtherChange`. */
  datatype ChangeType = Insert | Update | Delete | OtherChange(tag: string)

  /** Order in which a cursor walks an index. */
  datatype Direction = Forward | Backward
}
