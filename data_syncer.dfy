/**
 * src/hooks/data/useDataSyncer.ts: the older change-feed mapper, the
 * connection state kept by `useRealTimeChannel`, and that file's own
 * `handleServerEvent`, whose handlers only log.
 */
module DataSyncer {
  import opened ChatTypes
  import opened StoreTransitions
  import opened DbOperations
  import EventMappers

  /**
   * A broadcast payload's `new` record: it is taken to be a message as it
   * stands, with the sender read from its `sender` field (absent: `None`).
   */
  datatype BroadcastRecord = BroadcastRecord(message: Message, sender: Option<User>)

  datatype BroadcastPayload = BroadcastPayload(eventType: ChangeType, newRecord: BroadcastRecord)

  /** Status values the subscribe callback can report. */
  datatype SubscribeStatus = Subscribed | Closed | TimedOut | ChannelError

  /** The older `mapPayloadToServerEvent`: no shape test and no renaming. */
  function LegacyMapPayloadToServerEvent(p: BroadcastPayload): (e: Option<ServerEvent>)
    ensures p.eventType == Insert ==> e.Some? && e.value.MessageIncomingEvent?
    ensures e.Some? && e.value.MessageIncomingEvent? ==>
              e.value.message == p.newRecord.message && e.value.sender == p.newRecord.sender
    ensures e.Some? && !e.value.MessageIncomingEvent? ==>
              p.eventType == Update && p.newRecord.message.status in {Sent, Delivered, Failed}
  {
    match p.eventType
    case Insert => Some(MessageIncomingEvent(p.newRecord.message, p.newRecord.sender))
    case Update =>
      if p.newRecord.message.status == Sent then Some(MessageSentEvent(p.newRecord.message.id))
      else if p.newRecord.message.status == Delivered then Some(MessageDeliveredEvent(p.newRecord.message.id))
      else if p.newRecord.message.status == Failed then Some(MessageFailedEvent(p.newRecord.message.id))
      else None
    case _ => None
  }

  /**
   * Case by case: every insert is an incoming message carrying the record and
   * its `sender`; an update gives the event of its status when that is
   * sent/delivered/failed and nothing otherwise; deletes and unknown tags give
   * nothing.
   */
  lemma LegacyMapCases(p: BroadcastPayload)
    ensures p.eventType == Insert ==>
              LegacyMapPayloadToServerEvent(p) == Some(MessageIncomingEvent(p.newRecord.message, p.newRecord.sender))
    ensures p.eventType == Update && p.newRecord.message.status == Sent ==>
              LegacyMapPayloadToServerEvent(p) == Some(MessageSentEvent(p.newRecord.message.id))
    ensures p.eventType == Update && p.newRecord.message.status == Delivered ==>
              LegacyMapPayloadToServerEvent(p) == Some(MessageDeliveredEvent(p.newRecord.message.id))
    ensures p.eventType == Update && p.newRecord.message.status == Failed ==>
              LegacyMapPayloadToServerEvent(p) == Some(MessageFailedEvent(p.newRecord.message.id))
    ensures LegacyMapPayloadToServerEvent(p).Some? <==>
              p.eventType == Insert ||
              (p.eventType == Update && p.newRecord.message.status in {Sent, Delivered, Failed})
  {
  }

  /**
   * The two mappers agree on updates: for an update whose wire row has a
   * `content` key, the older mapper given the renamed row yields the same event.
   */
  lemma MappersAgreeOnUpdates(p: EventMappers.ChangePayload, sender: Option<User>)
    requires p.eventType == Update && p.newRow.hasContent
    ensures var legacy := BroadcastPayload(Update,
              BroadcastRecord(EventMappers.MapDatabaseMessageToMessage(p.newRow.fields), sender));
            LegacyMapPayloadToServerEvent(legacy) == EventMappers.MapPayloadToServerEvent(p)
  {
  }

  /**
   * On inserts the two mappers differ only in the sender: the newer one never
   * supplies one.
   */
  lemma MappersDifferOnInsertSender(p: EventMappers.ChangePayload, sender: User)
    requires p.eventType == Insert && p.newRow.hasContent
    ensures var m := EventMappers.MapDatabaseMessageToMessage(p.newRow.fields);
            && LegacyMapPayloadToServerEvent(BroadcastPayload(Insert, BroadcastRecord(m, Some(sender))))
               == Some(MessageIncomingEvent(m, Some(sender)))
            && EventMappers.MapPayloadToServerEvent(p) == Some(MessageIncomingEvent(m, None))
  {
  }

  /**
   * The state of `useRealTimeChannel`: whether the channel reports itself
   * connected, the last error, and whether a subscription is open.
   */
  class RealtimeChannel {
    var isConnected: bool
    var error: Option<string>
    var subscribed: bool

    constructor ()
      ensures !isConnected && error == None && !subscribed
    {
      isConnected, error, subscribed := false, None, false;
    }

    /**
     * The effect body, run whenever the database handle changes: the previous
     * subscription is torn down, and a new one is opened only once the
     * database is available.
     */
    method Effect(db: ChatDb?)
      modifies this
      ensures subscribed == (db != null)
      ensures isConnected == old(isConnected) && error == old(error)
    {
      subscribed := false;
      if db == null {
        return;
      }
      subscribed := true;
    }

    /** The subscribe callback. */
    method OnSubscribeStatus(status: SubscribeStatus)
      modifies this
      ensures status == Subscribed ==> isConnected && error == old(error)
      ensures status == Closed ==> !isConnected && error == Some("Channel closed unexpectedly.")
      ensures status != Subscribed && status != Closed ==> isConnected == old(isConnected) && error == old(error)
      ensures subscribed == old(subscribed)
    {
      if status == Subscribed {
        isConnected := true;
      } else if status == Closed {
        isConnected := false;
        error := Some("Channel closed unexpectedly.");
      }
    }

    /**
     * The broadcast callback: map the payload and hand any event to this
     * file's `handleServerEvent`, whose handlers only log, so no store changes.
     */
    method OnBroadcast(payload: BroadcastPayload, db: ChatDb?) returns (event: Option<ServerEvent>)
      ensures event == LegacyMapPayloadToServerEvent(payload)
      ensures db != null ==> db.Snapshot() == old(db.Snapshot())
    {
      event := LegacyMapPayloadToServerEvent(payload);
      if event.Some? {
        LegacyHandleServerEvent(event.value, db);
      }
    }
  }

  /** This file's `handleServerEvent`: every handler only logs. */
  method LegacyHandleServerEvent(event: ServerEvent, db: ChatDb?)
    ensures db != null ==> db.Snapshot() == old(db.Snapshot())
  {
    if db == null {
      return;
    }
  }
}
