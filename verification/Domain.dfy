/** Messages, delivery positions, commands, state events and errors of the broker. */
module Domain {
  import opened Common
  import opened Ordering

  datatype Envelope = Envelope(
    id: Text,
    source: Text,
    eventType: Text,
    subject: Option<Text>,
    contentType: Text,
    timestamp: nat,
    headers: map<Text, Text>,
    payload: seq<byte>,
    partitionKey: Option<Text>,
    idempotencyKey: Option<Text>)

  datatype MessageRef = MessageRef(topic: Text, partition: nat, offset: nat)

  /** One message as seen by one consumer group: the unit of delivery state. */
  datatype Position = Position(group: Text, ref: MessageRef)

  /** Key of one `GroupPartitionState`: the two nested map keys of `groups` taken together. */
  datatype SlotKey = SlotKey(group: Text, topic: Text, partition: nat)

  function KeyOf(pos: Position): SlotKey {
    SlotKey(pos.group, pos.ref.topic, pos.ref.partition)
  }

  function At(key: SlotKey, offset: nat): Position {
    Position(key.group, MessageRef(key.topic, key.partition, offset))
  }

  /** Order in which the retry scan meets positions: group, then topic, partition and offset. */
  predicate PositionLeq(p: Position, q: Position) {
    if p.group != q.group then TextLeq(p.group, q.group)
    else if p.ref.topic != q.ref.topic then TextLeq(p.ref.topic, q.ref.topic)
    else if p.ref.partition != q.ref.partition then p.ref.partition < q.ref.partition
    else p.ref.offset <= q.ref.offset
  }

  lemma PositionOrder()
    ensures TotalOrder(PositionLeq)
  {
    TextOrder();
    forall p, q ensures PositionLeq(p, q) || PositionLeq(q, p) {
      TextTotal(p.group, q.group);
      TextTotal(p.ref.topic, q.ref.topic);
    }
    forall p, q | PositionLeq(p, q) && PositionLeq(q, p) ensures p == q {
      if p.group != q.group { TextAntisymmetric(p.group, q.group); }
      if p.ref.topic != q.ref.topic { TextAntisymmetric(p.ref.topic, q.ref.topic); }
    }
    forall p, q, r | PositionLeq(p, q) && PositionLeq(q, r) ensures PositionLeq(p, r) {
      PositionTransitive(p, q, r);
    }
  }

  lemma PositionTransitive(p: Position, q: Position, r: Position)
    requires PositionLeq(p, q) && PositionLeq(q, r)
    ensures PositionLeq(p, r)
  {
    if p.group != q.group && q.group != r.group {
      TextTransitive(p.group, q.group, r.group);
      if p.group == r.group { TextAntisymmetric(p.group, q.group); }
    } else if p.group == q.group == r.group && p.ref.topic != q.ref.topic && q.ref.topic != r.ref.topic {
      TextTransitive(p.ref.topic, q.ref.topic, r.ref.topic);
      if p.ref.topic == r.ref.topic { TextAntisymmetric(p.ref.topic, q.ref.topic); }
    }
  }

  ghost predicate Sooner(a: Text, b: Text) {
    a != b && ComesFirst(a, b)
  }

  /** By group, then topic, then partition, then offset. */
  lemma PositionLeqIsLexicographic(p: Position, q: Position)
    ensures PositionLeq(p, q) <==>
      || Sooner(p.group, q.group)
      || (p.group == q.group && Sooner(p.ref.topic, q.ref.topic))
      || (p.group == q.group && p.ref.topic == q.ref.topic && p.ref.partition < q.ref.partition)
      || (p.group == q.group && p.ref.topic == q.ref.topic && p.ref.partition == q.ref.partition
          && p.ref.offset <= q.ref.offset)
  {
    TextLeqIsLexicographic(p.group, q.group);
    TextLeqIsLexicographic(p.ref.topic, q.ref.topic);
  }

  datatype Reason = Manual(text: Text) | Expired

  /** What a NACK or a lease expiry decides for the message. */
  datatype Settlement = RetryScheduled(readyAt: nat) | DeadLettered(reason: Reason, attemptCount: nat)

  datatype PendingDelivery = PendingDelivery(pos: Position, consumer: Text, attempt: nat, leaseExpiresAt: nat)

  datatype DeadLetter = DeadLetter(pos: Position, envelope: Envelope, reason: Reason, attemptCount: nat, timestamp: nat)

  datatype DeliveryEvent = DeliveryEvent(
    id: Text, consumer: Text, pos: Position, attempt: nat, deliveredAt: nat, leaseExpiresAt: nat)

  datatype ExpiredDelivery = ExpiredDelivery(
    id: Text, consumer: Text, pos: Position, attempt: nat, timestamp: nat, settlement: Settlement)

  /** The lines of the broker's state log. */
  datatype Event =
    | TopicCreated(topic: Text, partitions: PartitionCount)
    | MessagesConsumed(deliveries: seq<DeliveryEvent>)
    | MessageAcked(id: Text, consumer: Text, pos: Position, timestamp: nat)
    | MessageNacked(id: Text, consumer: Text, pos: Position, attempt: nat, timestamp: nat, settlement: Settlement)
    | RetryMaintenanceApplied(timestamp: nat, expired: seq<ExpiredDelivery>, available: seq<Position>)

  datatype Command =
    | CreateTopic(name: Text, partitions: PartitionCount)
    | Publish(topic: Text, envelope: Envelope)
    | Consume(topic: Text, group: Text, consumer: Text, maxMessages: nat, timestamp: nat, lease: Option<nat>)
    | Ack(id: Text, consumer: Text, timestamp: nat)
    | Nack(id: Text, consumer: Text, reason: Option<Text>, timestamp: nat)
    | RetryReady(now: nat)

  datatype ConfigField = DeliveryLeaseMillis | LeaseMs | BackoffMillis | AttemptNumber

  datatype Error =
    | TopicAlreadyExists(topic: Text)
    | TopicNotFound(topic: Text)
    | DeliveryNotFound(id: Text)
    | InvalidConsumer(id: Text, expected: Text, actual: Text)
    | InvalidConfig(field: ConfigField)
    | IdempotencyKeyConflict(topic: Text)
    | Io
    | Corruption

  datatype ConsumedMessage = ConsumedMessage(delivery: DeliveryEvent, envelope: Envelope)

  datatype RetrySummary = RetrySummary(retryScheduled: nat, leaseExpired: nat, madeAvailable: nat, deadLettered: nat)

  datatype Response =
    | Created(topic: Text, partitions: PartitionCount)
    | Published(topic: Text, partition: nat, offset: nat, messageId: Text, deduplicated: bool)
    | Delivered(messages: seq<ConsumedMessage>)
    | Done
    | Maintained(summary: RetrySummary)
    | Failed(error: Error)

  /** Broker settings, with the hash-based functions as parameters: `deliveryId` maps a position
      and an attempt number to a delivery id, `keyPartition` a partition key and a partition count
      to a partition, `fingerprint` a topic and an envelope to the digest of the publish intent. */
  datatype Config = Config(
    maxAttempts: nat,
    backoffMillis: Option<nat>,
    leaseMillis: nat,
    deliveryId: (Position, nat) -> Text,
    keyPartition: (Text, PartitionCount) -> nat,
    fingerprint: (Text, Envelope) -> Text)
  {
    /** What `RetryPolicy` and the partition hash guarantee of any configuration. */
    ghost predicate Valid() {
      && 1 <= maxAttempts <= U32_MAX
      && (forall key, count: PartitionCount :: keyPartition(key, count) < count)
    }
  }

  /** `add_millis`: an overflowing timestamp is an error, reported against the given field. */
  function AddMillis(timestamp: nat, millis: nat, field: ConfigField): (r: Result<nat, Error>)
    ensures r.Ok? <==> timestamp + millis <= U64_MAX
    ensures r.Ok? ==> r.value == timestamp + millis
    ensures r.Err? ==> r.error == InvalidConfig(field)
  {
    if timestamp + millis <= U64_MAX then Ok(timestamp + millis) else Err(InvalidConfig(field))
  }
}
