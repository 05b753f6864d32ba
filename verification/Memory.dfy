/** The in-memory broker: the same commands, mutating as they go. */
module Memory {
  import opened Common
  import opened Domain
  import opened GroupState
  import opened Delivery
  import opened Publish
  import opened Durable
  import opened Maintenance

  datatype StoredTopic = StoredTopic(partitions: seq<seq<Envelope>>, nextRoundRobin: nat)

  /** A topic has at least one partition, and its counter names one of them. */
  type TopicTable = m: map<Text, StoredTopic> | forall t :: t in m ==> m[t].nextRoundRobin < |m[t].partitions|

  datatype MemoryBroker = MemoryBroker(topics: TopicTable, delivery: DeliveryState, index: Index)

  datatype Answered = Answered(broker: MemoryBroker, response: Response)

  ghost function EmptyMemory(): MemoryBroker {
    MemoryBroker(map[], EMPTY_DELIVERY, map[])
  }

  ghost function Create(m: MemoryBroker, name: Text, partitions: PartitionCount): Answered {
    if name in m.topics then Answered(m, Failed(TopicAlreadyExists(name)))
    else
      var topic := StoredTopic(seq(partitions, i => []), 0);
      Answered(m.(topics := m.topics[name := topic]), Created(name, partitions))
  }

  ghost function Append(cfg: Config, m: MemoryBroker, topic: Text, envelope: Envelope): Answered
    requires cfg.Valid()
  {
    if topic !in m.topics then Answered(m, Failed(TopicNotFound(topic)))
    else
      match CheckIdempotency(cfg, topic, envelope, m.index)
      case Conflict => Answered(m, Failed(IdempotencyKeyConflict(topic)))
      case Retry(r) => Answered(m, Published(topic, r.partition, r.offset, r.messageId, true))
      case check =>
        var t := m.topics[topic];
        var count := |t.partitions|;
        var p := SelectPartition(cfg, count, t.nextRoundRobin, envelope);
        var offset := |t.partitions[p]|;
        var t' := StoredTopic(t.partitions[p := t.partitions[p] + [envelope]],
                              if envelope.partitionKey.None? then Advance(t.nextRoundRobin, count)
                              else t.nextRoundRobin);
        Answered(m.(topics := m.topics[topic := t'],
                    index := Register(m.index, topic, check, p, offset, envelope.id)),
                 Published(topic, p, offset, envelope.id, false))
  }

  function StoredRecords(partitions: seq<seq<Envelope>>, count: nat): seq<Record>
    requires count <= |partitions|
  {
    if count == 0 then []
    else StoredRecords(partitions, count - 1) + PartitionRecords(partitions[count - 1], count - 1)
  }

  /** `group_partition_state_mut` leaves a default slot behind even when the command then fails. */
  ghost function Touch(d: DeliveryState, key: SlotKey): DeliveryState {
    d.(groups := d.groups[key := d.SlotOf(key)])
  }

  /** Delivering the selected messages one by one, each reading the state the ones before it left. */
  ghost function DeliverOneByOne(cfg: Config, d: DeliveryState, cmd: Command, recs: seq<Record>)
    : (r: (DeliveryState, Result<seq<ConsumedMessage>, Error>))
    requires cmd.Consume?
    decreases |recs|
  {
    if recs == [] then (d, Ok([]))
    else
      var pos := RecordPosition(cmd.group, cmd.topic, recs[0]);
      var attempt := d.SlotOf(KeyOf(pos)).NextAttempt(recs[0].offset);
      var (lease, field) := LeaseOf(cfg, cmd.lease);
      match AddMillis(cmd.timestamp, lease, field)
      case Err(e) => (Touch(d, KeyOf(pos)), Err(e))
      case Ok(expires) =>
        var e := DeliveryEvent(cfg.deliveryId(pos, attempt), cmd.consumer, pos, attempt, cmd.timestamp, expires);
        var (d', rest) := DeliverOneByOne(cfg, d.Consumed(e), cmd, recs[1..]);
        match rest
        case Err(x) => (d', Err(x))
        case Ok(messages) => (d', Ok([ConsumedMessage(e, recs[0].envelope)] + messages))
  }

  ghost function ConsumeNow(cfg: Config, m: MemoryBroker, cmd: Command): Answered
    requires cmd.Consume?
  {
    if cmd.topic !in m.topics then Answered(m, Failed(TopicNotFound(cmd.topic)))
    else
      var t := m.topics[cmd.topic];
      var recs := Take(AvailableRecords(m.delivery, cmd.group, cmd.topic, StoredRecords(t.partitions, |t.partitions|)),
                       cmd.maxMessages);
      var (d, result) := DeliverOneByOne(cfg, m.delivery, cmd, recs);
      Answered(m.(delivery := d), match result case Ok(messages) => Delivered(messages) case Err(e) => Failed(e))
  }

  ghost function AckNow(m: MemoryBroker, id: Text, consumer: Text): Answered {
    match PendingFor(m.delivery, id, consumer)
    case Err(e) => Answered(m, Failed(e))
    case Ok(p) => Answered(m.(delivery := m.delivery.Acked(id, p.pos)), Done)
  }

  function StoredEnvelope(topics: TopicTable, ref: MessageRef): Result<Envelope, Error> {
    if ref.topic in topics && ref.partition < |topics[ref.topic].partitions|
       && ref.offset < |topics[ref.topic].partitions[ref.partition]|
    then Ok(topics[ref.topic].partitions[ref.partition][ref.offset])
    else Err(TopicNotFound(ref.topic))
  }

  /** `schedule_pending_retry_or_dlq`, on a state from which the pending entry is already gone: an
      overflow of the retry time comes too late to undo that. */
  ghost function Schedule(cfg: Config, topics: TopicTable, d: DeliveryState, p: PendingDelivery, timestamp: nat,
                          reason: Reason)
    : Applied
  {
    var key, o := KeyOf(p.pos), p.pos.ref.offset;
    var slot := d.SlotOf(key).Unpend(o);
    if p.attempt + 1 > cfg.maxAttempts then
      var buried := d.(groups := d.groups[key := slot.Bury(o)]);
      match StoredEnvelope(topics, p.pos.ref)
      case Err(e) => Applied(buried, Some(e))
      case Ok(envelope) =>
        var letter := DeadLetter(p.pos, envelope, reason, p.attempt, timestamp);
        Applied(buried.(deadLetters := d.deadLetters + [letter]), None)
    else
      var readyAt := match cfg.backoffMillis
                     case None => Ok(timestamp)
                     case Some(backoff) => AddMillis(timestamp, backoff, BackoffMillis);
      match readyAt
      case Err(e) => Applied(d.(groups := d.groups[key := slot]), Some(e))
      case Ok(at) => Applied(d.(groups := d.groups[key := slot.ScheduleRetry(o, RetryEntry(p.pos.ref, at))]), None)
  }

  ghost function DropPending(d: DeliveryState, id: Text): DeliveryState {
    d.(pending := d.pending - {id})
  }

  ghost function NackNow(cfg: Config, m: MemoryBroker, id: Text, consumer: Text, reason: Option<Text>,
                         timestamp: nat): Answered {
    match PendingFor(m.delivery, id, consumer)
    case Err(e) => Answered(m, Failed(e))
    case Ok(p) =>
      var done := Schedule(cfg, m.topics, DropPending(m.delivery, id), p, timestamp, NackReason(reason));
      Answered(m.(delivery := done.state), match done.error case None => Done case Some(e) => Failed(e))
  }

  ghost function ExpireEach(cfg: Config, topics: TopicTable, from: DeliveryState, ids: seq<Text>, now: nat): Applied
    requires forall id :: id in ids ==> id in from.pending
  {
    if ids == [] then Applied(from, None)
    else
      var last := |ids| - 1;
      var done := ExpireEach(cfg, topics, from, ids[..last], now);
      if done.error.Some? then done
      else Schedule(cfg, topics, DropPending(done.state, ids[last]), from.pending[ids[last]], now, Expired)
  }

  /** Retries found due after the expiry are made available; the count is how many still were due. */
  ghost function FreeEach(d: DeliveryState, ps: seq<Position>, now: nat): (DeliveryState, nat) {
    if ps == [] then (d, 0)
    else
      var last := |ps| - 1;
      var (done, count) := FreeEach(d, ps[..last], now);
      if IsReady(done, ps[last], now) then (done.Readied(ps[last], now).state, count + 1)
      else (Touch(done, KeyOf(ps[last])), count)
  }

  ghost function MaintainNow(cfg: Config, m: MemoryBroker, now: nat): Answered {
    var ids := ExpiredIds(m.delivery, now);
    assert forall id :: id in ids ==> id in Elements(ids);
    var expired := ExpireEach(cfg, m.topics, m.delivery, ids, now);
    match expired.error
    case Some(e) => Answered(m.(delivery := expired.state), Failed(e))
    case None =>
      var ready := ReadyPositions(expired.state, now);
      var (d, count) := FreeEach(expired.state, ready, now);
      Answered(m.(delivery := d),
               Maintained(RetrySummary(|ready|, |ids|, count,
                                       Grown(m.delivery.deadLetters, expired.state.deadLetters))))
  }

  function Grown<T>(before: seq<T>, after: seq<T>): nat {
    if |before| <= |after| then |after| - |before| else 0
  }

  ghost function Answer(cfg: Config, m: MemoryBroker, cmd: Command): Answered
    requires cfg.Valid()
  {
    match cmd
    case CreateTopic(name, partitions) => Create(m, name, partitions)
    case Publish(topic, envelope) => Append(cfg, m, topic, envelope)
    case Consume(_, _, _, _, _, _) => ConsumeNow(cfg, m, cmd)
    case Ack(id, consumer, _) => AckNow(m, id, consumer)
    case Nack(id, consumer, reason, timestamp) => NackNow(cfg, m, id, consumer, reason, timestamp)
    case RetryReady(now) => MaintainNow(cfg, m, now)
  }

  ghost function AnswerAll(cfg: Config, m: MemoryBroker, cmds: seq<Command>): MemoryBroker
    requires cfg.Valid()
  {
    if cmds == [] then m
    else Answer(cfg, AnswerAll(cfg, m, cmds[..|cmds| - 1]), cmds[|cmds| - 1]).broker
  }
}
