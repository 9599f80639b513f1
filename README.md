# Local-first sync core of chat-app-t3, in Dafny

This project models the local-first synchronisation core of the chat-app-t3
client: the IndexedDB cache held by the browser, the events that change it,
the sync engine that pushes pending sends and pulls newer rows from the
server, the mappers that turn change-feed payloads into typed events, and
the cursor pagination over the cache's indexes.

- `types.dfy` (`ChatTypes`): the cached records (`Message`, `User`,
  `Conversation`, `SendMessageRequest`, `SyncMetadata`), the typed
  `ServerEvent`, and the constants `MAX_RETRY_ATTEMPTS = 3` and
  `SYNC_BATCH_SIZE = 100` of src/constants.ts.
- `store_transitions.dfy` (`StoreTransitions`): the cache as a value (one map
  per object store) and the effect of each transaction of
  src/utils/dbOperations.ts as a function on it, with lemmas about them.
- `db_operations.dfy` (`DbOperations`): the class `ChatDb` whose map fields
  are the object stores; its methods are the operations of
  src/utils/dbOperations.ts, each proved to have the effect of its function.
- `event_mappers.dfy` (`EventMappers`): the change-feed mapper and the field
  renamings of src/utils/eventMappers.ts.
- `data_syncer.dfy` (`DataSyncer`): the older mapper, the channel state and
  the logging-only handlers of src/hooks/data/useDataSyncer.ts.
- `sync_spec.dfy` (`SyncSpec`): the specification of the sync passes: the
  remote tables as key-sorted sequences, the query, the pull loop, the
  outgoing pass and the whole sync, with lemmas about them.
- `sync.dfy` (`Sync`): the passes of src/services/sync.ts as loops over a
  `ChatDb`, each proved equal to its specification.
- `pagination.dfy` (`Pagination`): the cursor walks of
  src/utils/db/getPaginatedConversations.ts and getPaginatedMessages.ts as
  written, and corrected versions (see "## Findings").

Remote outcomes are inputs. For the outgoing pass, `rejected` is the set of
message ids whose upsert fails. For each pull, `failAt` is the index of the
query that returns an error, or `None` when no query fails. `Date.now()` is
the parameter `now`.

## Model

| member | source | states |
|---|---|---|
| StoreTransitions.LastSyncTimestamp | src/utils/dbOperations.ts:196-202 | an entity without metadata reads as watermark 0; otherwise the stored watermark |
| StoreTransitions.SetSyncTimestamp | src/utils/dbOperations.ts:204-210 | afterwards the entity reads back the given watermark; every other entity's record is unchanged |
| StoreTransitions.WatermarkSetThenGet | src/utils/dbOperations.ts:196-210 | get after set returns the value set for that entity and the old value for any other entity |
| StoreTransitions.PendingRequests | src/utils/dbOperations.ts:165-174 | exactly the requests whose status is pending, each unchanged |
| StoreTransitions.RecordFailure | src/services/sync.ts:56-57 | failCount goes up by exactly one; status becomes fail iff the new count is at least 3, otherwise pending; no other field changes |
| StoreTransitions.PutRequest | src/utils/dbOperations.ts:176-184 | the request is stored under its id; other requests and stores are unchanged |
| StoreTransitions.DeleteRequest | src/utils/dbOperations.ts:186-194 | the key is absent afterwards whether or not it was present; nothing else changes |
| StoreTransitions.DeleteRequestIdempotent | src/utils/dbOperations.ts:186-194 | deleting twice equals deleting once |
| StoreTransitions.AddMessage | src/utils/dbOperations.ts:101-122 | when neither key exists, the message and a pending request with failCount 0 for the same id are both stored; otherwise nothing is stored |
| StoreTransitions.ApplyMessageSent | src/utils/dbOperations.ts:28-43 | an existing message keeps every field but takes status sent, and a missing one is not created; the request under that id is absent afterwards; every other message and request and every other store is unchanged |
| StoreTransitions.ApplyMessageDelivered | src/utils/dbOperations.ts:45-57 | only the message's status changes, to delivered, whatever it was |
| StoreTransitions.ApplyMessageFailed | src/utils/dbOperations.ts:59-79 | an existing message keeps every field but takes status failed; an existing request is replaced by RecordFailure of it (one more failure, fail iff at least 3, other fields kept); no key is created or removed; every other record and store is unchanged |
| StoreTransitions.ApplyMessageIncoming | src/utils/dbOperations.ts:81-99 | an existing id aborts with no change; a fresh id without a sender commits the added message and nothing else; otherwise the message is added, the sender put, and the conversation's lastMessageTimestamp set to the message's timestamp |
| StoreTransitions.ApplyEvent | src/utils/dbOperations.ts:7-26 | a sync event, or an incoming message whose id is stored, leaves the cache unchanged; when the handler throws, only the event's message may have been added, and users, conversations and requests are unchanged; no event touches sync metadata |
| StoreTransitions.MessageSentIdempotent | src/utils/dbOperations.ts:28-43 | applying message_sent twice equals applying it once |
| StoreTransitions.MessageDeliveredIdempotent | src/utils/dbOperations.ts:45-57 | applying message_delivered twice equals applying it once |
| StoreTransitions.ThreeFailedEventsGiveUp | src/utils/dbOperations.ts:70-75 | from failCount 0, two message_failed events leave the request pending and the third gives it up with failCount 3 |
| StoreTransitions.IncomingMayLowerLastMessageTimestamp | src/utils/dbOperations.ts:90-94 | an incoming message older than the conversation's last message lowers lastMessageTimestamp |
| StoreTransitions.IncomingRedeliveryIsNoop | src/utils/dbOperations.ts:87-88 | delivering the same incoming message again changes nothing, because add rejects the existing id |
| StoreTransitions.SenderlessIncomingBlocksRedelivery | src/utils/dbOperations.ts:81-99 | a sender-less incoming message is stored although the handler fails; a later delivery with its sender is then rejected as a duplicate, so the sender and the conversation are never updated |
| StoreTransitions.AddThenSentEvent | src/utils/dbOperations.ts:101-122 | adding a message then confirming it leaves the message stored as sent and the requests as before the add |
| DbOperations.ChatDb.GetLastSyncTimestamp | src/utils/dbOperations.ts:196-202 | returns the stored watermark, or 0 when the entity has none |
| DbOperations.ChatDb.SetLastSyncTimestamp | src/utils/dbOperations.ts:204-210 | the metadata store becomes SetSyncTimestamp of the old one; no other store changes |
| DbOperations.ChatDb.GetPendingSendRequests | src/utils/dbOperations.ts:165-174 | returns exactly the pending requests |
| DbOperations.ChatDb.UpdateSendRequest | src/utils/dbOperations.ts:176-184 | the new cache is PutRequest of the old |
| DbOperations.ChatDb.DeleteSendRequest | src/utils/dbOperations.ts:186-194 | the new cache is DeleteRequest of the old |
| DbOperations.ChatDb.AddMessage | src/utils/dbOperations.ts:101-122 | reports whether the transaction committed; the new cache is AddMessage of the old |
| DbOperations.ChatDb.HandleMessageSent | src/utils/dbOperations.ts:28-43 | the new cache is ApplyMessageSent of the old |
| DbOperations.ChatDb.HandleMessageDelivered | src/utils/dbOperations.ts:45-57 | the new cache is ApplyMessageDelivered of the old |
| DbOperations.ChatDb.HandleMessageFailed | src/utils/dbOperations.ts:59-79 | the new cache is ApplyMessageFailed of the old; failCount is incremented in place |
| DbOperations.ChatDb.HandleMessageIncoming | src/utils/dbOperations.ts:81-99 | reports whether the handler finished without an error; the new cache is ApplyMessageIncoming of the old, so a sender-less message stays stored |
| DbOperations.ChatDb.HandleServerEvent | src/utils/dbOperations.ts:7-26 | dispatches on the event name; reports whether the handler finished without an error; the new cache is ApplyEvent of the old |
| EventMappers.ParentOrNull | src/utils/eventMappers.ts:84 | an absent or empty parent id becomes null; any other is kept |
| EventMappers.VersionOrOne | src/utils/eventMappers.ts:85 | an absent or zero version becomes 1; any other is kept |
| EventMappers.MapDatabaseMessageToMessage | src/utils/eventMappers.ts:76-89 | every snake_case field is copied to its camelCase field; parent id and version take their defaults |
| EventMappers.MapMessageToServerFormat | src/utils/eventMappers.ts:102-115 | every camelCase field is copied to its snake_case field |
| EventMappers.MapDatabaseUserToUser | src/utils/eventMappers.ts:91-100 | fields are copied one for one |
| EventMappers.MapUserToServerFormat | src/utils/eventMappers.ts:117-126 | fields are copied one for one |
| EventMappers.MessagePayloadTestReadsNewRowOnly | src/utils/eventMappers.ts:68-70 | isMessagePayload looks only at the new row (its content key): two payloads with the same new row pass or fail it together, whatever their change type and old row |
| EventMappers.HandleInsertEvent | src/utils/eventMappers.ts:24-35 | an event exactly when the new row passes the shape test; it is message_incoming with the renamed row's id and conversation and no sender |
| EventMappers.HandleUpdateEvent | src/utils/eventMappers.ts:37-61 | an event exactly when the new row passes the shape test and its status is sent, delivered or failed; each status gives its own event for the new row's id (iff per status) |
| EventMappers.HandleDeleteEvent | src/utils/eventMappers.ts:63-66 | never an event |
| EventMappers.MapPayloadToServerEvent | src/utils/eventMappers.ts:8-22 | an event only for an insert or update whose new row passes the shape test; an incoming message comes only from an insert and never carries a sender; deletes and unknown change types give none |
| EventMappers.MapPayloadCases | src/utils/eventMappers.ts:8-66 | insert with content gives message_incoming with no sender; update with content and status sent/delivered/failed gives that event for the new row's id; everything else gives null (iff) |
| EventMappers.MapPayloadIgnoresOld | src/utils/eventMappers.ts:8-22 | the result never depends on the old row |
| EventMappers.MessageRoundTrip | src/utils/eventMappers.ts:76-115 | a message survives to wire and back iff its version is not 0 and its parent id is not empty |
| EventMappers.DbMessageRoundTrip | src/utils/eventMappers.ts:76-115 | a wire row survives to a message and back iff it has a non-zero version and no empty parent id |
| EventMappers.UserRoundTrip | src/utils/eventMappers.ts:91-126 | users survive the round trip in both directions |
| EventMappers.ServerFormatInjective | src/utils/eventMappers.ts:102-115 | distinct messages have distinct wire rows |
| DataSyncer.LegacyMapCases | src/hooks/data/useDataSyncer.ts:173-210 | every insert gives message_incoming with the new record and its sender, with no shape test; update with status sent/delivered/failed gives that event; all else null (iff) |
| DataSyncer.LegacyMapPayloadToServerEvent | src/hooks/data/useDataSyncer.ts:173-210 | every insert gives message_incoming carrying the record and its sender unchanged; any other event comes from an update whose status is sent, delivered or failed |
| DataSyncer.MappersAgreeOnUpdates | src/hooks/data/useDataSyncer.ts:187-209 | on updates the older mapper and the newer one give the same event |
| DataSyncer.MappersDifferOnInsertSender | src/hooks/data/useDataSyncer.ts:179-186 | on inserts the older mapper carries the sender and the newer one carries none |
| DataSyncer.RealtimeChannel.constructor | src/hooks/data/useDataSyncer.ts:75-77 | starts disconnected, without error and unsubscribed |
| DataSyncer.RealtimeChannel.Effect | src/hooks/data/useDataSyncer.ts:79-105 | subscribed iff the database handle is present; connection state is untouched |
| DataSyncer.RealtimeChannel.OnSubscribeStatus | src/hooks/data/useDataSyncer.ts:90-98 | SUBSCRIBED sets connected; CLOSED clears it and records the error; any other status changes nothing |
| DataSyncer.RealtimeChannel.OnBroadcast | src/hooks/data/useDataSyncer.ts:84-89 | the event is the older mapper's result and the cache is unchanged |
| DataSyncer.LegacyHandleServerEvent | src/hooks/data/useDataSyncer.ts:114-171 | handling any event leaves the cache unchanged |
| SyncSpec.Newer | src/services/sync.ts:74-78 | exactly the rows whose key is above the watermark, in order |
| SyncSpec.Query | src/services/sync.ts:74-79 | at most SYNC_BATCH_SIZE rows; empty iff no row is newer than the watermark |
| SyncSpec.Pull | src/services/sync.ts:73-97 | the pull loop never lowers the watermark, and reports an error only when the query numbered failAt is reached |
| SyncSpec.MaxKeyIsMaximum | src/services/sync.ts:93 | the folded maximum is at least the start and every key, and equals the start or some key |
| SyncSpec.NewerShrinks | src/services/sync.ts:82-94 | a non-empty page strictly raises the watermark and strictly shrinks the set of newer rows, so the loop ends |
| SyncSpec.PullWatermark | src/services/sync.ts:71-99 | the final watermark is the maximum of the old one and every fetched key, hence never lower |
| SyncSpec.PullFailureKeepsPrefix | src/services/sync.ts:81 | a failing query leaves a prefix of the rows a failure-free pull fetches and is reported; with no failure nothing is reported |
| SyncSpec.PullIsComplete | src/services/sync.ts:73-97 | with distinct keys a failure-free pull fetches exactly the rows newer than the watermark |
| SyncSpec.PutAllKeys | src/services/sync.ts:84-85 | putting rows adds exactly their ids and keeps every other record |
| SyncSpec.PutAllLastWins | src/services/sync.ts:84-85 | the record under an id is the last row with that id |
| SyncSpec.PutAllIdempotent | src/services/sync.ts:84-85 | putting the same rows again changes nothing |
| SyncSpec.RaiseLast | src/services/sync.ts:87-91 | the bump never adds or removes a conversation |
| SyncSpec.RaiseOne | src/services/sync.ts:87-91 | one message's bump never adds or removes a conversation |
| SyncSpec.RaiseLastOnlyRaises | src/services/sync.ts:87-91 | only lastMessageTimestamp changes, it never decreases, it ends at least every synced message's timestamp, and any new value is one of those timestamps |
| SyncSpec.RaiseLastIdempotent | src/services/sync.ts:87-91 | re-applying the same messages changes no conversation |
| SyncSpec.RaiseLastStable | src/services/sync.ts:88 | messages no newer than their conversations change nothing |
| SyncSpec.MessagesPassComplete | src/services/sync.ts:65-101 | a failure-free pass stores every newer message, bumps conversations by them and persists the max watermark |
| SyncSpec.MessagesPassStoresEveryNewerMessage | src/services/sync.ts:84-91 | every remote message newer than the watermark is stored and its conversation's timestamp is at least its own |
| SyncSpec.RaisingOneWatermark | src/services/sync.ts:99 | storing a watermark no lower than the current one lowers no entity's watermark |
| SyncSpec.MessagesPassKeepsWatermarks | src/services/sync.ts:65-101 | the messages pass, failed or not, lowers no watermark |
| SyncSpec.ConversationsPassKeepsWatermarks | src/services/sync.ts:103-131 | the conversations pass lowers no watermark |
| SyncSpec.UsersPassKeepsWatermarks | src/services/sync.ts:133-161 | the users pass lowers no watermark |
| SyncSpec.OutgoingStepSkipped | src/services/sync.ts:31-35 | a request whose message is missing changes nothing |
| SyncSpec.OutgoingStepDelivered | src/services/sync.ts:50-52 | an accepted upsert marks the message sent and deletes the request |
| SyncSpec.OutgoingStepRejected | src/services/sync.ts:54-59 | a rejected upsert records one failure on the request and leaves the message |
| SyncSpec.OutgoingPass | src/services/sync.ts:22-63 | the pass keeps every store keyed by id |
| SyncSpec.OutgoingPassEffect | src/services/sync.ts:22-63 | only requests pending at the start are handled; accepted ones are retired with their message sent; rejected ones record a failure and their message is unchanged; skipped ones are unchanged; a message changes only when an accepted request names it; other stores are unchanged |
| SyncSpec.RetryBound | src/services/sync.ts:28-59 | under outgoing passes alone a request is attempted at most its remaining retry budget |
| SyncSpec.FreshRequestAttemptedAtMostThrice | src/services/sync.ts:54-59 | a request starting at failCount 0 is attempted at most 3 times |
| SyncSpec.GivenUpIsTerminal | src/services/sync.ts:28 | a request in status fail is never selected again and stays as it is |
| SyncSpec.ThreeRejectedPassesGiveUp | src/services/sync.ts:54-59 | three rejected passes take a fresh request to fail with failCount 3, and its message is never marked failed |
| SyncSpec.RetirementOrderIrrelevant | src/services/sync.ts:50-52 | the pass and a message_sent event retire a new message in either order |
| SyncSpec.SyncNeverLowersWatermarks | src/services/sync.ts:6-20 | the whole sync lowers no watermark; when the messages pull fails, users and watermarks are untouched |
| SyncSpec.SyncAll | src/services/sync.ts:6-20 | send requests change only in the outgoing pass; when no pull fails the sync reports no failure |
| Sync.SendPendingRequest | src/services/sync.ts:31-59 | one loop iteration: skip, accept or reject, each with its exact new state |
| Sync.SyncOutgoingMessages | src/services/sync.ts:22-63 | the loop's final cache is OutgoingPass of the initial one |
| Sync.ApplyMessage | src/services/sync.ts:85-91 | puts the message and bumps its conversation only upward |
| Sync.ApplyMessagePage | src/services/sync.ts:84-94 | the page is put, conversations bumped, and the returned watermark is the running maximum |
| Sync.SyncIncomingMessages | src/services/sync.ts:65-101 | the final cache is MessagesPass of the initial one, and the result reports success |
| Sync.ApplyConversationPage | src/services/sync.ts:121-124 | the page is put and the returned watermark is the running maximum |
| Sync.SyncConversations | src/services/sync.ts:103-131 | the final cache is ConversationsPass of the initial one |
| Sync.ApplyUserPage | src/services/sync.ts:151-154 | the page is put and the returned watermark is the running maximum |
| Sync.SyncUsers | src/services/sync.ts:133-161 | the final cache is UsersPass of the initial one |
| Sync.SyncWithServer | src/services/sync.ts:6-20 | the four passes run in order and stop at the first failure; the result is SyncAll |
| Pagination.SelectMembers | src/utils/db/getPaginatedConversations.ts:23-34 | a range selects exactly the records whose key lies in it |
| Pagination.WalkMembers | src/utils/db/getPaginatedConversations.ts:31-34 | a cursor visits exactly the records in its range |
| Pagination.PageOf | src/utils/db/getPaginatedConversations.ts:36-44 | items are the walk's first min(limit, size) records; hasMore iff records remain; nextCursor is the key of the first record not returned |
| Pagination.CollectPage | src/utils/db/getPaginatedConversations.ts:36-44 | the loop returns PageOf of the walk |
| Pagination.ConversationRange | src/utils/db/getPaginatedConversations.ts:23-25 | a present non-zero cursor is an exclusive upper bound; otherwise the whole index |
| Pagination.GetPaginatedConversations | src/utils/db/getPaginatedConversations.ts:12-49 | at most limit items from the index, each below a truthy cursor; hasMore iff the range holds more records than were returned |
| Pagination.WalkOrder | src/utils/db/getPaginatedConversations.ts:31-34 | forward visits keys in ascending order and backward in descending order |
| Pagination.BackwardChainNeverRepeats | src/utils/db/getPaginatedConversations.ts:41-44 | when the returned cursor is not 0, every key on the next backward page is below every key on the current page; a cursor of 0 repeats the page (see ZeroCursorRestarts) |
| Pagination.MessageIndexKey | src/utils/db/getPaginatedMessages.ts:53-55 | the index key is the pair of conversation id and timestamp |
| Pagination.ConversationSlice | src/utils/db/getPaginatedMessages.ts:23-26 | a closed composite range whose bounds share a conversation id holds exactly that conversation's keys between the two timestamps |
| Pagination.MessageRange | src/utils/db/getPaginatedMessages.ts:23-26 | with a truthy cursor the range is the single timestamp cursor; otherwise 0 to now |
| Pagination.MessageRangeIsCompositeRange | src/utils/db/getPaginatedMessages.ts:23-26 | the composite bounds admit exactly the conversation's messages in that timestamp range |
| Pagination.GetPaginatedMessages | src/utils/db/getPaginatedMessages.ts:11-50 | at most limit items, all of the requested conversation; with a truthy cursor every timestamp equals it; without one every timestamp lies in 0..now |
| Pagination.ConversationEntriesSorted | src/utils/db/getPaginatedMessages.ts:53-55 | within one conversation the composite index is ordered by timestamp |
| Pagination.MessageWalkOrder | src/utils/db/getPaginatedMessages.ts:32-40 | message pages run by ascending timestamp forward and descending backward |
| Pagination.BackwardChainSkipsBoundary | src/utils/db/getPaginatedConversations.ts:41-44 | with distinct keys, the next backward page walks everything after the boundary record, which is never returned |
| Pagination.ForwardChainRepeats | src/utils/db/getPaginatedConversations.ts:23-25 | the second forward page repeats the first |
| Pagination.ZeroCursorRestarts | src/utils/db/getPaginatedConversations.ts:23-25 | in either direction, a returned cursor of 0 makes the next call walk the whole index again and return the first page unchanged |
| Pagination.ConversationExampleRepeatsAtZero | src/utils/db/getPaginatedConversations.ts:23-44 | keys 0 and 5, pages of 1, backward: the first page is 5 with cursor 0, and the page fetched with that cursor is the same page |
| Pagination.ConversationExampleSkipsThree | src/utils/db/getPaginatedConversations.ts:23-44 | keys 1..5, pages of 2, backward: pages 5,4 then 2,1; 3 is never returned |
| Pagination.MessageExampleStopsAtCursor | src/utils/db/getPaginatedMessages.ts:23-45 | timestamps 1..5, pages of 2, backward: pages 5,4 then only 3 with no more; 2 and 1 are never reached |
| Pagination.ExampleIndexesHaveDistinctIds | src/client/db/schema.ts:164-173 | the records of each example index have distinct ids, so the id-keyed stores can hold them all at once |
| Pagination.CorrectedRange | src/utils/db/getPaginatedConversations.ts:23-25 | corrected: a cursor bounds below it going backward and above it going forward |
| Pagination.CorrectedPageOf | src/utils/db/getPaginatedConversations.ts:41-44 | corrected: the same items and hasMore as written, with nextCursor the key of the last record returned |
| Pagination.CorrectedChainContinues | src/utils/db/getPaginatedConversations.ts:23-44 | corrected: with distinct keys a page followed by the next call's walk is exactly the current walk, in both directions, so pages neither skip nor repeat |
| Pagination.CorrectedMessagesChain | src/utils/db/getPaginatedMessages.ts:23-45 | corrected: the same for message pages within a conversation with distinct timestamps |

## Findings

| source | as written | input that shows it | evidently intended | confidence | as-written member | corrected member |
|---|---|---|---|---|---|---|
| src/utils/db/getPaginatedConversations.ts:41-44 | nextCursor is the key of the first record not returned, and the next call bounds keys strictly below it | keys 1..5, limit 2, backward: pages 5,4 and 2,1 | nextCursor is the key of the last record returned, so the next page starts right after it | high; not executed | Pagination.BackwardChainSkipsBoundary | Pagination.CorrectedChainContinues |
| src/utils/db/getPaginatedConversations.ts:23-25 | going forward the cursor is still an upper bound, so the walk restarts at the lowest key | keys 1..5, limit 2, forward: pages 1,2 and 1,2 | going forward the cursor is a lower bound | high; not executed | Pagination.ForwardChainRepeats | Pagination.CorrectedChainContinues |
| src/utils/db/getPaginatedConversations.ts:23-25 | a returned cursor of 0 is falsy, so the next call opens no range and starts over | keys 0 and 5, limit 1, backward: pages 5 and 5; 0 is never returned | a cursor of 0 bounds the walk like any other key | high; not executed | Pagination.ConversationExampleRepeatsAtZero | Pagination.CorrectedChainContinues |
| src/utils/db/getPaginatedMessages.ts:23-26 | with a cursor both bounds are [conversationId, cursor], so only messages at exactly that timestamp are returned | timestamps 1..5, limit 2, backward: pages 5,4 and 3, then no more | the cursor bounds the timestamps strictly on the walk's side, within 0..now | high; not executed | Pagination.MessageExampleStopsAtCursor | Pagination.CorrectedMessagesChain |

`Pagination.GetPaginatedConversations` and `Pagination.GetPaginatedMessages`
model the code as written. The corrected members are stated beside them.
The corrected versions treat a cursor of 0 as a real cursor, not as "no
cursor".

## Left out

- Transactions are atomic steps. IndexedDB auto-commits a transaction held open across a network call in the sync passes. The model does not capture that, or a partial commit.
- The upserts and queries to the server are inputs (`rejected`, `failAt`). Transport, the realtime channel wiring (src/services/realtime.ts), React state plumbing and client configuration are not part of this model.
- Console logging is left out. `Date.now()` is the parameter `now`.
- Timestamps are integers. The server's columns are ISO strings.
- The three incoming passes put raw snake_case server rows into the cache: `SyncSpec.MessagesPass` at src/services/sync.ts:85, and `SyncSpec.ConversationsPass` and `SyncSpec.UsersPass` at src/services/sync.ts:122 and :152. The model stores them as camelCase `Message`, `Conversation` and `User` records. A stored conversation row has `last_message_timestamp` and no `lastMessageTimestamp`. So in the source, once the conversations pass has stored a conversation, the comparison at src/services/sync.ts:88 meets an undefined `lastMessageTimestamp` and never raises it. `SyncSpec.RaiseLast` raises it.
- The server's users table has no `updated_at` column, although the users pass reads one. The model gives each remote user row an explicit `updatedAt` (`SyncSpec.RemoteUser`).
- The server's messages table has no `content` column, so no real row passes `isMessagePayload`. The model keeps the test as a flag on the row.
- The upsert sends only some columns (no status). The model records only whether the upsert was accepted.
- A rejected upsert does not mark the message failed; only the request records the failure (`SyncSpec.ThreeRejectedPassesGiveUp`).
- sync.ts keeps private copies of the watermark get and set. They behave like the ones in dbOperations.ts, which are modelled once.
- The source visits pending requests in the order `getAll` on the status index returns them, which is primary-key (id) order. The model's loop `Sync.SyncOutgoingMessages` picks them in any order. It is proved equal to `SyncSpec.OutgoingPass`, which is defined on the set of pending requests, so the result is the same for every order, id order included.
- Ties at a page boundary are not covered by the completeness lemmas. Two remote rows with the same key may straddle a page boundary, and then the next query (`key > watermark`) skips the second. `SyncSpec.PullIsComplete`, `Pagination.BackwardChainSkipsBoundary` and `Pagination.CorrectedChainContinues` assume distinct keys for this reason.
- Pagination's default arguments (limit 20 or 50, direction backward) are not modelled. Callers pass every argument.
- Within one key, IndexedDB orders records by primary key. The model takes the index as a sequence already in index order.
- String keys compare character by character. IndexedDB compares UTF-16 code units, which differs for characters outside the Basic Multilingual Plane.
- An event name outside the known ones cannot be built as a `ServerEvent`. The default branch of `handleServerEvent` is therefore not modelled.
- `getMessages`, `getConversations`, `getUser`, `updateUser`, `isUserPayload` and the `useDataSyncer` hook's error merging are not part of this model.
- The object store and index names in the schema file are not modelled. Each store is one map.
