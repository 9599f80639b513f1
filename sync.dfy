/**
 * src/services/sync.ts: the synchronisation passes, run against the local
 * database object. The remote is given as its tables (each listed in the
 * order of the column the pull filters on) and the outcome of each request
 * it could fail: the set of message ids whose upsert it rejects, and for each
 * pull the number of the query (counted from 0) that returns an error, if any.
 */
module Sync {
  import opened ChatTypes
  import opened StoreTransitions
  import opened DbOperations
  import opened SyncSpec

  /**
   * The body of the loop of `syncOutgoingMessages` for one pending request:
   * skipped when its message is missing; otherwise the message is marked
   * `sent` and the request deleted when the upsert is accepted, and the
   * request records one more failure when it is rejected.
   */
  method SendPendingRequest(db: ChatDb, request: SendMessageRequest, rejected: set<string>)
    requires db.Valid()
    modifies db
    ensures db.Valid()
    ensures db.users == old(db.users) && db.conversations == old(db.conversations) && db.syncMetadata == old(db.syncMetadata)
    ensures request.messageId !in old(db.messages) ==>
              db.messages == old(db.messages) && db.requests == old(db.requests)
    ensures request.messageId in old(db.messages) && request.messageId !in rejected ==>
              && db.messages == old(db.messages)[request.messageId := old(db.messages)[request.messageId].(status := Sent)]
              && db.requests == old(db.requests) - {request.id}
    ensures request.messageId in old(db.messages) && request.messageId in rejected ==>
              db.messages == old(db.messages) && db.requests == old(db.requests)[request.id := RecordFailure(request)]
  {
    if request.messageId !in db.messages {
      // The message is missing: the request is skipped.
      return;
    }
    var message := db.messages[request.messageId];
    if request.messageId !in rejected {
      message := message.(status := Sent);
      db.messages := db.messages[message.id := message];
      db.requests := db.requests - {request.id};
    } else {
      var failCount := request.failCount + 1;
      var failed := request.(failCount := failCount,
                             status := if failCount >= MAX_RETRY_ATTEMPTS then Fail else Pending);
      db.requests := db.requests[failed.id := failed];
    }
  }

  /**
   * `syncOutgoingMessages`: every request pending at the start is tried once,
   * in any order; the pass's effect does not depend on the order.
   */
  method SyncOutgoingMessages(db: ChatDb, rejected: set<string>)
    requires db.Valid()
    modifies db
    ensures db.Valid()
    ensures db.Snapshot() == OutgoingPass(old(db.Snapshot()), rejected)
  {
    ghost var s0 := db.Snapshot();
    var pendingRequests := db.GetPendingSendRequests();
    var todo := pendingRequests.Keys;
    ghost var done: set<string> := {};
    assert todo == PendingRequests(s0.requests).Keys;
    while todo != {}
      invariant todo !! done && todo + done == PendingRequests(s0.requests).Keys
      invariant forall k :: k in todo ==> pendingRequests[k] == s0.requests[k]
      invariant db.Valid()
      invariant db.messages == OutgoingMessages(s0, rejected, done)
      invariant db.requests == OutgoingRequests(s0, rejected, done)
      invariant db.users == s0.users && db.conversations == s0.conversations && db.syncMetadata == s0.syncMetadata
      decreases todo
    {
      var id :| id in todo;
      var request := pendingRequests[id];
      if !Attempted(s0, id) {
        OutgoingStepSkipped(s0, rejected, done, id);
      } else if UpsertAccepted(s0, rejected, id) {
        OutgoingStepDelivered(s0, rejected, done, id);
      } else {
        OutgoingStepRejected(s0, rejected, done, id);
      }
      SendPendingRequest(db, request, rejected);
      todo, done := todo - {id}, done + {id};
    }
  }

  /**
   * One iteration of that loop: put the message, and raise its cached
   * conversation's last-message timestamp when the message is newer.
   */
  method ApplyMessage(db: ChatDb, message: Message)
    requires db.Valid()
    modifies db
    ensures db.Valid()
    ensures db.messages == old(db.messages)[message.id := message]
    ensures db.conversations == RaiseOne(old(db.conversations), message)
    ensures db.users == old(db.users) && db.requests == old(db.requests) && db.syncMetadata == old(db.syncMetadata)
  {
    db.messages := db.messages[message.id := message];
    if message.conversationId in db.conversations {
      var conversation := db.conversations[message.conversationId];
      if message.timestamp > conversation.lastMessageTimestamp {
        conversation := conversation.(lastMessageTimestamp := message.timestamp);
        db.conversations := db.conversations[conversation.id := conversation];
      }
    }
  }

  /** The `for` loop of `syncIncomingMessages` over one page. */
  method ApplyMessagePage(db: ChatDb, newMessages: seq<Message>, lastSyncTimestamp: int) returns (watermark: int)
    requires db.Valid()
    modifies db
    ensures db.Valid()
    ensures watermark == MaxKey(lastSyncTimestamp, newMessages, MessageKey)
    ensures db.messages == PutAll(old(db.messages), newMessages, MessageId, MessageRecord)
    ensures db.conversations == RaiseLast(old(db.conversations), newMessages)
    ensures db.users == old(db.users) && db.requests == old(db.requests) && db.syncMetadata == old(db.syncMetadata)
  {
    watermark := lastSyncTimestamp;
    var i := 0;
    while i < |newMessages|
      invariant 0 <= i <= |newMessages|
      invariant db.Valid()
      invariant watermark == MaxKey(lastSyncTimestamp, newMessages[..i], MessageKey)
      invariant db.messages == PutAll(old(db.messages), newMessages[..i], MessageId, MessageRecord)
      invariant db.conversations == RaiseLast(old(db.conversations), newMessages[..i])
      invariant db.users == old(db.users) && db.requests == old(db.requests) && db.syncMetadata == old(db.syncMetadata)
    {
      var message := newMessages[i];
      assert newMessages[..i + 1] == newMessages[..i] + [message];
      MaxKeyStep(lastSyncTimestamp, newMessages[..i], message, MessageKey);
      PutAllStep(old(db.messages), newMessages[..i], message, MessageId, MessageRecord);
      RaiseLastStep(old(db.conversations), newMessages[..i], message);
      ApplyMessage(db, message);
      watermark := Max(watermark, message.timestamp);
      i := i + 1;
    }
    assert newMessages[..i] == newMessages;
  }

  /** `syncIncomingMessages`; `ok` is false when a query returned an error. */
  method SyncIncomingMessages(db: ChatDb, remote: seq<Message>, failAt: Option<nat>) returns (ok: bool)
    requires db.Valid()
    modifies db
    ensures db.Valid()
    ensures db.Snapshot() == MessagesPass(old(db.Snapshot()), remote, failAt).store
    ensures ok == !MessagesPass(old(db.Snapshot()), remote, failAt).failed
  {
    var lastSyncTimestamp := db.GetLastSyncTimestamp("messages");
    ghost var w0 := lastSyncTimestamp;
    ghost var done: seq<Message> := [];
    var calls: nat := 0;
    while true
      invariant db.Valid()
      invariant Pull(remote, MessageKey, w0, failAt, 0) == Prepend(done, Pull(remote, MessageKey, lastSyncTimestamp, failAt, calls))
      invariant db.messages == PutAll(old(db.messages), done, MessageId, MessageRecord)
      invariant db.conversations == RaiseLast(old(db.conversations), done)
      invariant db.users == old(db.users) && db.requests == old(db.requests) && db.syncMetadata == old(db.syncMetadata)
      decreases |Newer(remote, MessageKey, lastSyncTimestamp)|
    {
      if failAt == Some(calls) {
        assert done + [] == done;
        return false;
      }
      var newMessages := Query(remote, MessageKey, lastSyncTimestamp);
      if |newMessages| == 0 {
        assert done + [] == done;
        break;
      }
      NewerShrinks(remote, MessageKey, lastSyncTimestamp);
      PullStep(remote, MessageKey, lastSyncTimestamp, failAt, calls);
      PrependTwice(done, newMessages, Pull(remote, MessageKey, MaxKey(lastSyncTimestamp, newMessages, MessageKey), failAt, calls + 1));
      PutAllConcat(old(db.messages), done, newMessages, MessageId, MessageRecord);
      RaiseLastConcat(old(db.conversations), done, newMessages);
      lastSyncTimestamp := ApplyMessagePage(db, newMessages, lastSyncTimestamp);
      done := done + newMessages;
      calls := calls + 1;
    }
    PullWatermark(remote, MessageKey, w0, failAt, 0);
    db.SetLastSyncTimestamp("messages", lastSyncTimestamp);
    ok := true;
  }

  /** The `for` loop of `syncConversations` over one page. */
  method ApplyConversationPage(db: ChatDb, newConversations: seq<Conversation>, lastSyncTimestamp: int) returns (watermark: int)
    requires db.Valid()
    modifies db
    ensures db.Valid()
    ensures watermark == MaxKey(lastSyncTimestamp, newConversations, ConversationKey)
    ensures db.conversations == PutAll(old(db.conversations), newConversations, ConversationId, ConversationRecord)
    ensures db.messages == old(db.messages) && db.users == old(db.users) && db.requests == old(db.requests)
    ensures db.syncMetadata == old(db.syncMetadata)
  {
    watermark := lastSyncTimestamp;
    var i := 0;
    while i < |newConversations|
      invariant 0 <= i <= |newConversations|
      invariant db.Valid()
      invariant watermark == MaxKey(lastSyncTimestamp, newConversations[..i], ConversationKey)
      invariant db.conversations == PutAll(old(db.conversations), newConversations[..i], ConversationId, ConversationRecord)
      invariant db.messages == old(db.messages) && db.users == old(db.users) && db.requests == old(db.requests)
      invariant db.syncMetadata == old(db.syncMetadata)
    {
      var conversation := newConversations[i];
      assert newConversations[..i + 1] == newConversations[..i] + [conversation];
      MaxKeyStep(lastSyncTimestamp, newConversations[..i], conversation, ConversationKey);
      PutAllStep(old(db.conversations), newConversations[..i], conversation, ConversationId, ConversationRecord);
      db.conversations := db.conversations[conversation.id := conversation];
      watermark := Max(watermark, conversation.updatedAt);
      i := i + 1;
    }
    assert newConversations[..i] == newConversations;
  }

  /** `syncConversations`; `ok` is false when a query returned an error. */
  method SyncConversations(db: ChatDb, remote: seq<Conversation>, failAt: Option<nat>) returns (ok: bool)
    requires db.Valid()
    modifies db
    ensures db.Valid()
    ensures db.Snapshot() == ConversationsPass(old(db.Snapshot()), remote, failAt).store
    ensures ok == !ConversationsPass(old(db.Snapshot()), remote, failAt).failed
  {
    var lastSyncTimestamp := db.GetLastSyncTimestamp("conversations");
    ghost var w0 := lastSyncTimestamp;
    ghost var done: seq<Conversation> := [];
    var calls: nat := 0;
    while true
      invariant db.Valid()
      invariant Pull(remote, ConversationKey, w0, failAt, 0) == Prepend(done, Pull(remote, ConversationKey, lastSyncTimestamp, failAt, calls))
      invariant db.conversations == PutAll(old(db.conversations), done, ConversationId, ConversationRecord)
      invariant db.messages == old(db.messages) && db.users == old(db.users) && db.requests == old(db.requests)
      invariant db.syncMetadata == old(db.syncMetadata)
      decreases |Newer(remote, ConversationKey, lastSyncTimestamp)|
    {
      if failAt == Some(calls) {
        assert done + [] == done;
        return false;
      }
      var newConversations := Query(remote, ConversationKey, lastSyncTimestamp);
      if |newConversations| == 0 {
        assert done + [] == done;
        break;
      }
      NewerShrinks(remote, ConversationKey, lastSyncTimestamp);
      PullStep(remote, ConversationKey, lastSyncTimestamp, failAt, calls);
      PrependTwice(done, newConversations, Pull(remote, ConversationKey, MaxKey(lastSyncTimestamp, newConversations, ConversationKey), failAt, calls + 1));
      PutAllConcat(old(db.conversations), done, newConversations, ConversationId, ConversationRecord);
      lastSyncTimestamp := ApplyConversationPage(db, newConversations, lastSyncTimestamp);
      done := done + newConversations;
      calls := calls + 1;
    }
    PullWatermark(remote, ConversationKey, w0, failAt, 0);
    db.SetLastSyncTimestamp("conversations", lastSyncTimestamp);
    ok := true;
  }

  /** The `for` loop of `syncUsers` over one page. */
  method ApplyUserPage(db: ChatDb, newUsers: seq<RemoteUser>, lastSyncTimestamp: int) returns (watermark: int)
    requires db.Valid()
    modifies db
    ensures db.Valid()
    ensures watermark == MaxKey(lastSyncTimestamp, newUsers, RemoteUserKey)
    ensures db.users == PutAll(old(db.users), newUsers, RemoteUserId, RemoteUserRecord)
    ensures db.messages == old(db.messages) && db.conversations == old(db.conversations) && db.requests == old(db.requests)
    ensures db.syncMetadata == old(db.syncMetadata)
  {
    watermark := lastSyncTimestamp;
    var i := 0;
    while i < |newUsers|
      invariant 0 <= i <= |newUsers|
      invariant db.Valid()
      invariant watermark == MaxKey(lastSyncTimestamp, newUsers[..i], RemoteUserKey)
      invariant db.users == PutAll(old(db.users), newUsers[..i], RemoteUserId, RemoteUserRecord)
      invariant db.messages == old(db.messages) && db.conversations == old(db.conversations) && db.requests == old(db.requests)
      invariant db.syncMetadata == old(db.syncMetadata)
    {
      var user := newUsers[i];
      assert newUsers[..i + 1] == newUsers[..i] + [user];
      MaxKeyStep(lastSyncTimestamp, newUsers[..i], user, RemoteUserKey);
      PutAllStep(old(db.users), newUsers[..i], user, RemoteUserId, RemoteUserRecord);
      db.users := db.users[user.user.id := user.user];
      watermark := Max(watermark, user.updatedAt);
      i := i + 1;
    }
    assert newUsers[..i] == newUsers;
  }

  /** `syncUsers`; `ok` is false when a query returned an error. */
  method SyncUsers(db: ChatDb, remote: seq<RemoteUser>, failAt: Option<nat>) returns (ok: bool)
    requires db.Valid()
    modifies db
    ensures db.Valid()
    ensures db.Snapshot() == UsersPass(old(db.Snapshot()), remote, failAt).store
    ensures ok == !UsersPass(old(db.Snapshot()), remote, failAt).failed
  {
    var lastSyncTimestamp := db.GetLastSyncTimestamp("users");
    ghost var w0 := lastSyncTimestamp;
    ghost var done: seq<RemoteUser> := [];
    var calls: nat := 0;
    while true
      invariant db.Valid()
      invariant Pull(remote, RemoteUserKey, w0, failAt, 0) == Prepend(done, Pull(remote, RemoteUserKey, lastSyncTimestamp, failAt, calls))
      invariant db.users == PutAll(old(db.users), done, RemoteUserId, RemoteUserRecord)
      invariant db.messages == old(db.messages) && db.conversations == old(db.conversations) && db.requests == old(db.requests)
      invariant db.syncMetadata == old(db.syncMetadata)
      decreases |Newer(remote, RemoteUserKey, lastSyncTimestamp)|
    {
      if failAt == Some(calls) {
        assert done + [] == done;
        return false;
      }
      var newUsers := Query(remote, RemoteUserKey, lastSyncTimestamp);
      if |newUsers| == 0 {
        assert done + [] == done;
        break;
      }
      NewerShrinks(remote, RemoteUserKey, lastSyncTimestamp);
      PullStep(remote, RemoteUserKey, lastSyncTimestamp, failAt, calls);
      PrependTwice(done, newUsers, Pull(remote, RemoteUserKey, MaxKey(lastSyncTimestamp, newUsers, RemoteUserKey), failAt, calls + 1));
      PutAllConcat(old(db.users), done, newUsers, RemoteUserId, RemoteUserRecord);
      lastSyncTimestamp := ApplyUserPage(db, newUsers, lastSyncTimestamp);
      done := done + newUsers;
      calls := calls + 1;
    }
    PullWatermark(remote, RemoteUserKey, w0, failAt, 0);
    db.SetLastSyncTimestamp("users", lastSyncTimestamp);
    ok := true;
  }

  /**
   * `syncWithServer`: the four passes in order; the first that fails ends the
   * synchronisation and is reported.
   */
  method SyncWithServer(db: ChatDb, remote: RemoteState) returns (failedAt: Option<Stage>)
    requires db.Valid()
    modifies db
    ensures db.Valid()
    ensures db.Snapshot() == SyncAll(old(db.Snapshot()), remote).store
    ensures failedAt == SyncAll(old(db.Snapshot()), remote).failedAt
  {
    SyncOutgoingMessages(db, remote.rejected);
    var ok := SyncIncomingMessages(db, remote.messages, remote.messagesFailAt);
    if !ok {
      return Some(IncomingMessages);
    }
    ok := SyncConversations(db, remote.conversations, remote.conversationsFailAt);
    if !ok {
      return Some(IncomingConversations);
    }
    ok := SyncUsers(db, remote.users, remote.usersFailAt);
    failedAt := if ok then None else Some(IncomingUsers);
  }
}
