/** What each durable-broker command does to the broker's whole state, and what reopening does. */
module Durable {
  import opened Common
  import opened Ordering
  import opened Domain
  import opened Delivery
  import opened Replay
  import opened Publish

  /** The broker in one session: what replay recovers, the publish state and the state log's events. */
  datatype Broker = Broker(core: Core, roundRobin: map<Text, nat>, index: Index, events: seq<Event>)

  datatype Stepped = Stepped(broker: Broker, response: Response)

  // ---- topics and publishing ----

  ghost function StepCreate(b: Broker, name: Text, partitions: PartitionCount, io: bool): Stepped {
    if name in b.core.catalog then Stepped(b, Failed(TopicAlreadyExists(name)))
    else if !io then Stepped(b, Failed(Io))
    else
      Stepped(b.(core := b.core.(catalog := b.core.catalog[name := partitions]),
                 roundRobin := b.roundRobin[name := 0],
                 events := b.events + [TopicCreated(name, partitions)]),
              Created(name, partitions))
  }

  datatype Check = Untracked | New(key: Text, fingerprint: Text) | Retry(record: IdempotencyRecord) | Conflict

  function CheckIdempotency(cfg: Config, topic: Text, envelope: Envelope, index: Index): Check {
    match envelope.idempotencyKey
    case None => Untracked
    case Some(key) =>
      var fingerprint := cfg.fingerprint(topic, envelope);
      if IndexKey(topic, key) !in index then New(key, fingerprint)
      else if index[IndexKey(topic, key)].fingerprint == fingerprint then Retry(index[IndexKey(topic, key)])
      else Conflict
  }

  function SelectPartition(cfg: Config, count: PartitionCount, next: nat, envelope: Envelope): nat {
    match envelope.partitionKey
    case Some(key) => cfg.keyPartition(key, count)
    case None => next
  }

  /** A key is registered only once its message has been appended. */
  function Register(index: Index, topic: Text, check: Check, partition: nat, offset: nat, messageId: Text): Index {
    match check
    case New(key, fingerprint) =>
      index[IndexKey(topic, key) := IdempotencyRecord(fingerprint, partition, offset, messageId)]
    case _ => index
  }

  function Advance(next: nat, count: PartitionCount): nat {
    (next + 1) % count
  }

  function NextOf(b: Broker, topic: Text): nat {
    if topic in b.roundRobin then b.roundRobin[topic] else 0
  }

  ghost function StepPublish(cfg: Config, b: Broker, topic: Text, envelope: Envelope, io: bool): Stepped {
    if topic !in b.core.catalog then Stepped(b, Failed(TopicNotFound(topic)))
    else
      match CheckIdempotency(cfg, topic, envelope, b.index)
      case Conflict => Stepped(b, Failed(IdempotencyKeyConflict(topic)))
      case Retry(r) => Stepped(b, Published(topic, r.partition, r.offset, r.messageId, true))
      case check =>
        if !io then Stepped(b, Failed(Io))
        else
          var count := b.core.catalog[topic];
          var partition := SelectPartition(cfg, count, NextOf(b, topic), envelope);
          var offset := |b.core.Log(topic, partition)|;
          var log := b.core.Log(topic, partition) + [envelope];
          Stepped(Broker(b.core.(logs := b.core.logs[LogId(topic, partition) := log]),
                         if envelope.partitionKey.None?
                         then b.roundRobin[topic := Advance(NextOf(b, topic), count)] else b.roundRobin,
                         Register(b.index, topic, check, partition, offset, envelope.id),
                         b.events),
                  Published(topic, partition, offset, envelope.id, false))
  }

  // ---- consuming ----

  function RecordPosition(group: Text, topic: Text, r: Record): Position {
    Position(group, MessageRef(topic, r.partition, r.offset))
  }

  predicate Deliverable(d: DeliveryState, group: Text, topic: Text, r: Record) {
    d.SlotOf(SlotKey(group, topic, r.partition)).IsAvailable(r.offset)
  }

  function AvailableRecords(d: DeliveryState, group: Text, topic: Text, recs: seq<Record>): seq<Record> {
    if recs == [] then []
    else
      AvailableRecords(d, group, topic, recs[..|recs| - 1])
      + (if Deliverable(d, group, topic, recs[|recs| - 1]) then [recs[|recs| - 1]] else [])
  }

  function Take<T>(s: seq<T>, n: nat): seq<T> {
    if n <= |s| then s[..n] else s
  }

  function Selection(c: Core, group: Text, topic: Text, max: nat): seq<Record>
    requires topic in c.catalog
  {
    Take(AvailableRecords(c.delivery, group, topic, RecordsOf(c.logs, topic, c.catalog[topic])), max)
  }

  function DeliveryFor(cfg: Config, d: DeliveryState, topic: Text, group: Text, consumer: Text, timestamp: nat,
                       expires: nat, r: Record): DeliveryEvent {
    var pos := RecordPosition(group, topic, r);
    var attempt := d.SlotOf(KeyOf(pos)).NextAttempt(r.offset);
    DeliveryEvent(cfg.deliveryId(pos, attempt), consumer, pos, attempt, timestamp, expires)
  }

  function DeliveriesFor(cfg: Config, d: DeliveryState, topic: Text, group: Text, consumer: Text, timestamp: nat,
                         expires: nat, recs: seq<Record>): (es: seq<DeliveryEvent>)
    ensures |es| == |recs|
  {
    seq(|recs|, i requires 0 <= i < |recs| =>
      DeliveryFor(cfg, d, topic, group, consumer, timestamp, expires, recs[i]))
  }

  function Messages(es: seq<DeliveryEvent>, recs: seq<Record>): seq<ConsumedMessage>
    requires |es| == |recs|
  {
    seq(|es|, i requires 0 <= i < |es| => ConsumedMessage(es[i], recs[i].envelope))
  }

  ghost function ConsumeAll(d: DeliveryState, es: seq<DeliveryEvent>): DeliveryState
    decreases |es|
  {
    if es == [] then d else ConsumeAll(d.Consumed(es[0]), es[1..])
  }

  /** The lease a consume command asks for, and the field an overflow is reported against. */
  function LeaseOf(cfg: Config, lease: Option<nat>): (nat, ConfigField) {
    match lease
    case None => (cfg.leaseMillis, DeliveryLeaseMillis)
    case Some(millis) => (millis, LeaseMs)
  }

  ghost function StepConsume(cfg: Config, b: Broker, cmd: Command, io: bool): Stepped
    requires cmd.Consume?
  {
    if cmd.topic !in b.core.catalog then Stepped(b, Failed(TopicNotFound(cmd.topic)))
    else
      var recs := Selection(b.core, cmd.group, cmd.topic, cmd.maxMessages);
      if recs == [] then Stepped(b, Delivered([]))
      else
        var (lease, field) := LeaseOf(cfg, cmd.lease);
        match AddMillis(cmd.timestamp, lease, field)
        case Err(e) => Stepped(b, Failed(e))
        case Ok(expires) =>
          if !io then Stepped(b, Failed(Io))
          else
            var d := b.core.delivery;
            var es := DeliveriesFor(cfg, d, cmd.topic, cmd.group, cmd.consumer, cmd.timestamp, expires, recs);
            Stepped(b.(core := b.core.(delivery := ConsumeAll(d, es)), events := b.events + [MessagesConsumed(es)]),
                    Delivered(Messages(es, recs)))
  }

  // ---- settling deliveries ----

  /** `pending_for_command` */
  function PendingFor(d: DeliveryState, id: Text, consumer: Text): Result<PendingDelivery, Error> {
    if id !in d.pending then Err(DeliveryNotFound(id))
    else if d.pending[id].consumer != consumer then Err(InvalidConsumer(id, d.pending[id].consumer, consumer))
    else Ok(d.pending[id])
  }

  ghost function StepAck(b: Broker, id: Text, consumer: Text, timestamp: nat, io: bool): Stepped {
    match PendingFor(b.core.delivery, id, consumer)
    case Err(e) => Stepped(b, Failed(e))
    case Ok(p) =>
      if !io then Stepped(b, Failed(Io))
      else
        Stepped(b.(core := b.core.(delivery := b.core.delivery.Acked(id, p.pos)),
                   events := b.events + [MessageAcked(id, consumer, p.pos, timestamp)]),
                Done)
  }

  datatype Computed = Computed(settlement: Settlement, letter: Option<DeadLetter>)

  /** `compute_pending_outcome`: retry while the next attempt is within the policy, else dead-letter. */
  function ComputeOutcome(cfg: Config, c: Core, p: PendingDelivery, timestamp: nat, reason: Reason)
    : Result<Computed, Error>
  {
    if p.attempt + 1 > U32_MAX then Err(InvalidConfig(AttemptNumber))
    else if p.attempt + 1 > cfg.maxAttempts then
      match c.EnvelopeFor(p.pos.ref)
      case Err(e) => Err(e)
      case Ok(envelope) =>
        Ok(Computed(DeadLettered(reason, p.attempt), Some(DeadLetter(p.pos, envelope, reason, p.attempt, timestamp))))
    else
      match cfg.backoffMillis
      case None => Ok(Computed(RetryScheduled(timestamp), None))
      case Some(backoff) =>
        match AddMillis(timestamp, backoff, BackoffMillis)
        case Err(e) => Err(e)
        case Ok(readyAt) => Ok(Computed(RetryScheduled(readyAt), None))
  }

  const NACK_REASON: Text := [110, 97, 99, 107]

  function NackReason(reason: Option<Text>): Reason {
    Manual(match reason case Some(text) => text case None => NACK_REASON)
  }

  ghost function Reply(b: Broker, applied: Applied, event: Event, response: Response): Stepped {
    Stepped(b.(core := b.core.(delivery := applied.state), events := b.events + [event]),
            if applied.error.Some? then Failed(applied.error.value) else response)
  }

  ghost function StepNack(cfg: Config, b: Broker, id: Text, consumer: Text, reason: Option<Text>, timestamp: nat,
                          io: bool): Stepped {
    match PendingFor(b.core.delivery, id, consumer)
    case Err(e) => Stepped(b, Failed(e))
    case Ok(p) =>
      match ComputeOutcome(cfg, b.core, p, timestamp, NackReason(reason))
      case Err(e) => Stepped(b, Failed(e))
      case Ok(computed) =>
        if !io then Stepped(b, Failed(Io))
        else
          Reply(b, b.core.delivery.Settled(id, p.pos, computed.settlement, computed.letter),
                MessageNacked(id, consumer, p.pos, p.attempt, timestamp, computed.settlement), Done)
  }

  // ---- retry maintenance ----

  function ExpiredSet(d: DeliveryState, now: nat): set<Text> {
    set id | id in d.pending && d.pending[id].leaseExpiresAt <= now
  }

  /** Positions whose scheduled retry is due. */
  function ReadySet(d: DeliveryState, now: nat): set<Position> {
    set k, o | k in d.groups && o in d.groups[k].retry && d.groups[k].retry[o].readyAt <= now ::
      Position(k.group, d.groups[k].retry[o].ref)
  }

  ghost function ExpiredIds(d: DeliveryState, now: nat): seq<Text> {
    TextOrder();
    InOrder(TextLeq, ExpiredSet(d, now))
  }

  ghost function ReadyPositions(d: DeliveryState, now: nat): seq<Position> {
    PositionOrder();
    InOrder(PositionLeq, ReadySet(d, now))
  }

  /** Outcomes of the expired deliveries, computed in id order before anything is changed. */
  function ComputeAll(cfg: Config, c: Core, ids: seq<Text>, now: nat): (r: Result<seq<Computed>, Error>)
    requires forall id :: id in ids ==> id in c.delivery.pending
    ensures r.Ok? ==> |r.value| == |ids|
  {
    if ids == [] then Ok([])
    else
      var last := |ids| - 1;
      match ComputeAll(cfg, c, ids[..last], now)
      case Err(e) => Err(e)
      case Ok(done) =>
        match ComputeOutcome(cfg, c, c.delivery.pending[ids[last]], now, Expired)
        case Err(e) => Err(e)
        case Ok(computed) => Ok(done + [computed])
  }

  function ExpiredEvents(d: DeliveryState, ids: seq<Text>, now: nat, outs: seq<Computed>): seq<ExpiredDelivery>
    requires |outs| == |ids| && forall id :: id in ids ==> id in d.pending
  {
    seq(|ids|, i requires 0 <= i < |ids| =>
      var p := d.pending[ids[i]];
      ExpiredDelivery(ids[i], p.consumer, p.pos, p.attempt, now, outs[i].settlement))
  }

  /** Expired deliveries whose retry is due at once. */
  function DueAtOnce(d: DeliveryState, ids: seq<Text>, now: nat, outs: seq<Computed>): seq<Position>
    requires |outs| == |ids| && forall id :: id in ids ==> id in d.pending
  {
    if ids == [] then []
    else
      var last := |ids| - 1;
      DueAtOnce(d, ids[..last], now, outs[..last])
      + DueOf(outs[last].settlement, d.pending[ids[last]].pos, now)
  }

  function DueOf(settlement: Settlement, pos: Position, now: nat): seq<Position> {
    if settlement.RetryScheduled? && settlement.readyAt <= now then [pos] else []
  }

  function CountDead(outs: seq<Computed>): nat {
    if outs == [] then 0
    else CountDead(outs[..|outs| - 1]) + (if outs[|outs| - 1].settlement.DeadLettered? then 1 else 0)
  }

  /** Applying the computed outcomes; `from` is the state whose pending entries were computed. */
  ghost function SettleEach(from: DeliveryState, ids: seq<Text>, outs: seq<Computed>): Applied
    requires |outs| == |ids| && forall id :: id in ids ==> id in from.pending
    decreases |ids|
  {
    if ids == [] then Applied(from, None)
    else
      var last := |ids| - 1;
      var done := SettleEach(from, ids[..last], outs[..last]);
      if done.error.Some? then done
      else done.state.Settled(ids[last], from.pending[ids[last]].pos, outs[last].settlement, outs[last].letter)
  }

  ghost function ReadyEach(d: DeliveryState, ps: seq<Position>, now: nat): Applied
    decreases |ps|
  {
    if ps == [] then Applied(d, None)
    else
      var done := ReadyEach(d, ps[..|ps| - 1], now);
      if done.error.Some? then done else done.state.Readied(ps[|ps| - 1], now)
  }

  /** What a pass makes available: the retries due before it, then the expired ones due at once. */
  ghost function Available(d: DeliveryState, ids: seq<Text>, now: nat, outs: seq<Computed>): seq<Position>
    requires |outs| == |ids| && forall id :: id in ids ==> id in d.pending
  {
    ReadyPositions(d, now) + DueAtOnce(d, ids, now, outs)
  }

  ghost function MaintenanceEvent(d: DeliveryState, ids: seq<Text>, now: nat, outs: seq<Computed>): Event
    requires |outs| == |ids| && forall id :: id in ids ==> id in d.pending
  {
    RetryMaintenanceApplied(now, ExpiredEvents(d, ids, now, outs), Available(d, ids, now, outs))
  }

  /** Both loops of a pass, the second running only if the first met no error. */
  ghost function Maintain(d: DeliveryState, ids: seq<Text>, now: nat, outs: seq<Computed>): Applied
    requires |outs| == |ids| && forall id :: id in ids ==> id in d.pending
  {
    var settled := SettleEach(d, ids, outs);
    if settled.error.Some? then settled else ReadyEach(settled.state, Available(d, ids, now, outs), now)
  }

  ghost function StepRetryReady(cfg: Config, b: Broker, now: nat, io: bool): Stepped {
    var d, ids := b.core.delivery, ExpiredIds(b.core.delivery, now);
    assert forall id :: id in ids ==> id in Elements(ids);
    match ComputeAll(cfg, b.core, ids, now)
    case Err(e) => Stepped(b, Failed(e))
    case Ok(outs) =>
      if !io then Stepped(b, Failed(Io))
      else
        var count := |Available(d, ids, now, outs)|;
        Reply(b, Maintain(d, ids, now, outs), MaintenanceEvent(d, ids, now, outs),
              Maintained(RetrySummary(count, |ids|, count, CountDead(outs))))
  }

  // ---- runs ----

  /** One command; `io` tells whether its append, if it makes one, succeeds or writes nothing. */
  ghost function Step(cfg: Config, b: Broker, cmd: Command, io: bool): Stepped {
    match cmd
    case CreateTopic(name, partitions) => StepCreate(b, name, partitions, io)
    case Publish(topic, envelope) => StepPublish(cfg, b, topic, envelope, io)
    case Consume(_, _, _, _, _, _) => StepConsume(cfg, b, cmd, io)
    case Ack(id, consumer, timestamp) => StepAck(b, id, consumer, timestamp, io)
    case Nack(id, consumer, reason, timestamp) => StepNack(cfg, b, id, consumer, reason, timestamp, io)
    case RetryReady(now) => StepRetryReady(cfg, b, now, io)
  }

  datatype Call = Call(command: Command, io: bool)

  ghost function Run(cfg: Config, b: Broker, calls: seq<Call>): Broker {
    if calls == [] then b
    else
      var last := calls[|calls| - 1];
      Step(cfg, Run(cfg, b, calls[..|calls| - 1]), last.command, last.io).broker
  }

  // ---- opening ----

  ghost predicate TopicScans(cfg: Config, c: Core, topic: Text) {
    topic in c.catalog ==> ScanKeys(cfg, topic, RecordsOf(c.logs, topic, c.catalog[topic])).Ok?
  }

  function KeysOf(cfg: Config, c: Core, topic: Text): map<Text, IdempotencyRecord> {
    if topic !in c.catalog then map[]
    else
      match ScanKeys(cfg, topic, RecordsOf(c.logs, topic, c.catalog[topic]))
      case Ok(seen) => seen
      case Err(_) => map[]
  }

  function RecoveredIndex(cfg: Config, c: Core): Index {
    map t, k | t in c.catalog && k in KeysOf(cfg, c, t) :: IndexKey(t, k) := KeysOf(cfg, c, t)[k]
  }

  function RecoveredRoundRobin(c: Core): map<Text, nat> {
    map t | t in c.catalog :: Unkeyed(RecordsOf(c.logs, t, c.catalog[t])) % c.catalog[t]
  }

  /** Opening a directory: replay, rebuild the publish state from the logs, release what was in flight. */
  ghost function Open(cfg: Config, logs: Logs, events: seq<Event>): Result<Broker, Error> {
    match PlainReplay(logs, events)
    case Err(e) => Err(e)
    case Ok(c) =>
      if exists t :: !TopicScans(cfg, c, t) then Err(Corruption)
      else Ok(Broker(c.Release(c.delivery.pending.Keys), RecoveredRoundRobin(c), RecoveredIndex(cfg, c), events))
  }

  ghost function FreshBroker(): Broker {
    Broker(EmptyCore(map[]), map[], map[], [])
  }
}
