/**
 * src/utils/dbOperations.ts: the local database object and the operations
 * that read and write its object stores. Each object store is a map field
 * that the methods update by `get`, `put`, `add` and `delete`; each method's
 * contract ties the new contents to the step function of StoreTransitions.
 */
module DbOperations {
  import opened ChatTypes
  import opened StoreTransitions

  class ChatDb {
    var messages: map<string, Message>
    var users: map<string, User>
    var conversations: map<string, Conversation>
    var requests: map<string, SendMessageRequest>
    var syncMetadata: map<string, SyncMetadata>

    /** The contents of all object stores. */
    function Snapshot(): Store
      reads this
    {
      Store(messages, users, conversations, requests, syncMetadata)
    }

    /** The store invariant: every record sits under its own key. */
    predicate Valid()
      reads this
    {
      KeyedById(Snapshot())
    }

    constructor ()
      ensures Valid()
      ensures messages == map[] && users == map[] && conversations == map[]
      ensures requests == map[] && syncMetadata == map[]
    {
      messages, users, conversations := map[], map[], map[];
      requests, syncMetadata := map[], map[];
    }

    /** `getLastSyncTimestamp`: the stored watermark, or 0 when there is none. */
    method GetLastSyncTimestamp(entity: string) returns (t: int)
      ensures entity !in syncMetadata ==> t == 0
      ensures entity in syncMetadata ==> t == syncMetadata[entity].lastSyncTimestamp
      ensures t == LastSyncTimestamp(syncMetadata, entity)
    {
      if entity in syncMetadata {
        var metadata := syncMetadata[entity];
        t := metadata.lastSyncTimestamp;
      } else {
        t := 0;
      }
    }

    /** `setLastSyncTimestamp`: puts `{entity, lastSyncTimestamp}`; only that record changes. */
    method SetLastSyncTimestamp(entity: string, timestamp: int)
      requires Valid()
      modifies this
      ensures Valid()
      ensures syncMetadata == SetSyncTimestamp(old(syncMetadata), entity, timestamp)
      ensures Snapshot() == old(Snapshot()).(syncMetadata := syncMetadata)
    {
      syncMetadata := syncMetadata[entity := SyncMetadata(entity, timestamp)];
    }

    /** `getPendingSendRequests`: exactly the requests whose status is `pending`. */
    method GetPendingSendRequests() returns (pending: map<string, SendMessageRequest>)
      ensures forall k :: k in pending <==> k in requests && requests[k].status == Pending
      ensures forall k :: k in pending ==> pending[k] == requests[k]
    {
      pending := PendingRequests(requests);
    }

    /** `updateSendRequest`. */
    method UpdateSendRequest(request: SendMessageRequest)
      requires Valid()
      modifies this
      ensures Valid()
      ensures Snapshot() == PutRequest(old(Snapshot()), request)
    {
      requests := requests[request.id := request];
    }

    /** `deleteSendRequest`: deleting an absent key is not an error. */
    method DeleteSendRequest(requestId: string)
      requires Valid()
      modifies this
      ensures Valid()
      ensures Snapshot() == DeleteRequest(old(Snapshot()), requestId)
    {
      requests := requests - {requestId};
    }

    /**
     * `addMessage`: `add`s the message and a fresh pending request; `ok` is
     * false when either `add` hits an existing key, and then nothing is stored.
     */
    method AddMessage(message: Message, now: int) returns (ok: bool)
      requires Valid()
      modifies this
      ensures Valid()
      ensures ok == AddMessageAccepted(old(Snapshot()), message)
      ensures Snapshot() == StoreTransitions.AddMessage(old(Snapshot()), message, now)
    {
      if message.id in messages {
        return false;
      }
      var sendRequest := SendMessageRequest(message.id, message.id, Pending, 0, now, now, now);
      if sendRequest.id in requests {
        return false;
      }
      messages := messages[message.id := message];
      requests := requests[sendRequest.id := sendRequest];
      ok := true;
    }

    /** `handleMessageSent`. */
    method HandleMessageSent(messageId: string)
      requires Valid()
      modifies this
      ensures Valid()
      ensures Snapshot() == ApplyMessageSent(old(Snapshot()), messageId)
    {
      if messageId in messages {
        var message := messages[messageId];
        message := message.(status := Sent);
        messages := messages[message.id := message];
      }
      requests := requests - {messageId};
    }

    /** `handleMessageDelivered`. */
    method HandleMessageDelivered(messageId: string)
      requires Valid()
      modifies this
      ensures Valid()
      ensures Snapshot() == ApplyMessageDelivered(old(Snapshot()), messageId)
    {
      if messageId in messages {
        var message := messages[messageId];
        message := message.(status := Delivered);
        messages := messages[message.id := message];
      }
    }

    /** `handleMessageFailed`. */
    method HandleMessageFailed(messageId: string)
      requires Valid()
      modifies this
      ensures Valid()
      ensures Snapshot() == ApplyMessageFailed(old(Snapshot()), messageId)
    {
      if messageId in messages {
        var message := messages[messageId];
        message := message.(status := Failed);
        messages := messages[message.id := message];
      }
      if messageId in requests {
        var request := requests[messageId];
        var failCount := request.failCount + 1;
        request := request.(failCount := failCount,
                            status := if failCount >= MAX_RETRY_ATTEMPTS then Fail else Pending);
        requests := requests[request.id := request];
      }
    }

    /**
     * `handleMessageIncoming`: `ok` is false when the handler throws. A
     * duplicate id aborts the transaction; a missing sender stops the handler
     * after the message was added, and that addition is committed.
     */
    method HandleMessageIncoming(message: Message, sender: Option<User>) returns (ok: bool)
      requires Valid()
      modifies this
      ensures Valid()
      ensures ok == IncomingAccepted(old(Snapshot()), message, sender)
      ensures Snapshot() == ApplyMessageIncoming(old(Snapshot()), message, sender)
    {
      if message.id in messages {
        return false;
      }
      messages := messages[message.id := message];
      if sender.None? {
        return false;
      }
      users := users[sender.value.id := sender.value];
      if message.conversationId in conversations {
        var conversation := conversations[message.conversationId];
        conversation := conversation.(lastMessageTimestamp := message.timestamp);
        conversations := conversations[conversation.id := conversation];
      }
      ok := true;
    }

    /** `handleServerEvent`: `ok` is false when the handler throws. */
    method HandleServerEvent(event: ServerEvent) returns (ok: bool)
      requires Valid()
      modifies this
      ensures Valid()
      ensures ok == EventAccepted(old(Snapshot()), event)
      ensures Snapshot() == ApplyEvent(old(Snapshot()), event)
    {
      ok := true;
      match event
      case MessageSentEvent(id) => HandleMessageSent(id);
      case MessageDeliveredEvent(id) => HandleMessageDelivered(id);
      case MessageFailedEvent(id) => HandleMessageFailed(id);
      case MessageIncomingEvent(m, sender) => ok := HandleMessageIncoming(m, sender);
      case SyncEvent(_) =>
    }
  }
}
