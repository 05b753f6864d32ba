/** What each command does, said on the fields it reads and changes: which answer every caller gets, what
    becomes of the message, and that nothing else changes. */
module Effects {
  import opened Common
  import opened Domain
  import opened GroupState
  import opened Delivery
  import opened Replay
  import opened Publish
  import opened Durable
  import opened Commit
  import opened Idempotency

  // ---- topics and publishing ----

  /** A new topic has no messages anywhere, and its first unkeyed message goes to partition 0. */
  lemma {:induction false} CreateEffect(cfg: Config, b: Broker, name: Text, partitions: PartitionCount, io: bool)
    requires Sound(cfg, b)
    ensures var s := Step(cfg, b, CreateTopic(name, partitions), io);
      if name in b.core.catalog then s == Stepped(b, Failed(TopicAlreadyExists(name)))
      else if !io then s == Stepped(b, Failed(Io))
      else
        && s.response == Created(name, partitions) && s.broker.events == b.events + [TopicCreated(name, partitions)]
        && s.broker.core == b.core.(catalog := s.broker.core.catalog) && s.broker.index == b.index
        && (forall t :: t in s.broker.core.catalog <==> t in b.core.catalog || t == name)
        && (forall t :: t in b.core.catalog ==> s.broker.core.catalog[t] == b.core.catalog[t])
        && s.broker.core.catalog[name] == partitions && NextOf(s.broker, name) == 0
        && (forall p :: 0 <= p < partitions ==> s.broker.core.Log(name, p) == [])
        && (forall t :: t != name ==> NextOf(s.broker, t) == NextOf(b, t))
  {
    var s := Step(cfg, b, CreateTopic(name, partitions), io);
    forall p | 0 <= p < partitions ensures name !in b.core.catalog ==> s.broker.core.Log(name, p) == [] {
      assert Rooted(b.core, LogId(name, p)) && s.broker.core.Log(name, p) == b.core.Log(name, p);
    }
  }

  /** The stored messages of a topic, by partition and offset. */
  ghost function StoredOf(c: Core, topic: Text): seq<Record>
    requires topic in c.catalog
  {
    RecordsOf(c.logs, topic, c.catalog[topic])
  }

  /** The topic already holds a message under the key that `envelope` carries. */
  ghost predicate Repeats(c: Core, topic: Text, envelope: Envelope, r: Record)
    requires topic in c.catalog
  {
    r in StoredOf(c, topic) && envelope.idempotencyKey.Some? && r.envelope.idempotencyKey == envelope.idempotencyKey
  }

  /** Keyed messages go where the hash of their key says, the others in turn. */
  ghost predicate PlacedRight(cfg: Config, c: Core, topic: Text, envelope: Envelope, p: nat)
    requires topic in c.catalog
  {
    if envelope.partitionKey.Some? then p == cfg.keyPartition(envelope.partitionKey.value, c.catalog[topic])
    else p == Unkeyed(StoredOf(c, topic)) % c.catalog[topic]
  }

  /** Exactly one message was stored, behind the others of its partition, and nothing else has changed but
      the publish state. */
  ghost predicate StoresOne(cfg: Config, b: Broker, b': Broker, topic: Text, envelope: Envelope, p: nat, offset: nat)
    requires topic in b.core.catalog
  {
    && PlacedRight(cfg, b.core, topic, envelope, p) && p < b.core.catalog[topic]
    && offset == |b.core.Log(topic, p)| && b'.core.Log(topic, p) == b.core.Log(topic, p) + [envelope]
    && (forall id :: id != LogId(topic, p) ==> LogOf(b'.core.logs, id) == LogOf(b.core.logs, id))
    && b'.core == b.core.(logs := b'.core.logs) && b'.events == b.events
  }

  /** A publish is answered by the message already stored under its key, if there is one; else its message
      is stored where it belongs, and the answer says where. */
  lemma {:induction false} PublishEffect(cfg: Config, b: Broker, topic: Text, envelope: Envelope, io: bool)
    requires cfg.Valid() && Sound(cfg, b)
    ensures var s, c := Step(cfg, b, Publish(topic, envelope), io), b.core;
      if topic !in c.catalog then s == Stepped(b, Failed(TopicNotFound(topic)))
      else if exists r :: Repeats(c, topic, envelope, r) then
        forall r :: Repeats(c, topic, envelope, r) ==>
          s == Stepped(b, if cfg.fingerprint(topic, envelope) == cfg.fingerprint(topic, r.envelope)
                          then Published(topic, r.partition, r.offset, r.envelope.id, true)
                          else Failed(IdempotencyKeyConflict(topic)))
      else if !io then s == Stepped(b, Failed(Io))
      else
        && s.response.Published?
        && s.response == Published(topic, s.response.partition, s.response.offset, envelope.id, false)
        && StoresOne(cfg, b, s.broker, topic, envelope, s.response.partition, s.response.offset)
  {
    if topic in b.core.catalog {
      assert CounterSound(b, topic);
      if envelope.idempotencyKey.Some? {
        KeyKnownIffStored(cfg, b, topic, envelope);
      }
    }
  }

  lemma KeyKnownIffStored(cfg: Config, b: Broker, topic: Text, envelope: Envelope)
    requires Sound(cfg, b) && topic in b.core.catalog && envelope.idempotencyKey.Some?
    ensures var key := IndexKey(topic, envelope.idempotencyKey.value);
      && (key in b.index <==> exists r :: Repeats(b.core, topic, envelope, r))
      && (forall r :: Repeats(b.core, topic, envelope, r) ==>
            b.index[key] == IdempotencyRecord(cfg.fingerprint(topic, r.envelope), r.partition, r.offset, r.envelope.id))
  {
    var recs, key := StoredOf(b.core, topic), envelope.idempotencyKey.value;
    SoundKeys(cfg, b, topic, key);
    if IndexKey(topic, key) in b.index {
      var i :| 0 <= i < |recs| && HasKey(recs[i], key);
      assert Repeats(b.core, topic, envelope, recs[i]);
    }
    forall r | Repeats(b.core, topic, envelope, r)
      ensures IndexKey(topic, key) in b.index
      ensures b.index[IndexKey(topic, key)] ==
              IdempotencyRecord(cfg.fingerprint(topic, r.envelope), r.partition, r.offset, r.envelope.id)
    {
      var i :| 0 <= i < |recs| && recs[i] == r;
      assert HasKey(recs[i], key);
    }
  }

  // ---- deliveries ----

  /** The message stands with the group as it did. */
  ghost predicate SameFor(d: DeliveryState, d': DeliveryState, pos: Position) {
    var s, s', o := d.SlotOf(KeyOf(pos)), d'.SlotOf(KeyOf(pos)), pos.ref.offset;
    && (o in s'.acked <==> o in s.acked) && (o in s'.dead <==> o in s.dead)
    && (o in s'.pending <==> o in s.pending) && (o in s.pending ==> s'.pending[o] == s.pending[o])
    && (o in s'.retry <==> o in s.retry) && (o in s.retry ==> s'.retry[o] == s.retry[o])
    && (o in s'.attempts <==> o in s.attempts) && (o in s.attempts ==> s'.attempts[o] == s.attempts[o])
  }

  /** Exactly the delivery `id` has left the global map. */
  ghost predicate OnlyLeft(d: DeliveryState, d': DeliveryState, id: Text) {
    forall i :: (i in d'.pending <==> i in d.pending && i != id) && (i in d'.pending ==> d'.pending[i] == d.pending[i])
  }

  /** Everything but the message's own standing is as it was. */
  ghost predicate OthersKept(d: DeliveryState, d': DeliveryState, id: Text)
    requires id in d.pending
  {
    OnlyLeft(d, d', id) && forall q :: q != d.pending[id].pos ==> SameFor(d, d', q)
  }

  /** The group has acknowledged the message, and nothing else is known of it. */
  ghost predicate StandsAcked(d: DeliveryState, pos: Position) {
    var s, o := d.SlotOf(KeyOf(pos)), pos.ref.offset;
    o in s.acked && o !in s.pending && o !in s.retry && o !in s.dead && o !in s.attempts
  }

  ghost predicate StandsDead(d: DeliveryState, pos: Position) {
    var s, o := d.SlotOf(KeyOf(pos)), pos.ref.offset;
    o in s.dead && o !in s.acked && o !in s.pending && o !in s.retry && o !in s.attempts
  }

  /** The message is to be retried at `readyAt`, after `attempt` deliveries. */
  ghost predicate StandsScheduled(d: DeliveryState, pos: Position, readyAt: nat, attempt: nat) {
    var s, o := d.SlotOf(KeyOf(pos)), pos.ref.offset;
    && o in s.retry && s.retry[o] == RetryEntry(pos.ref, readyAt) && o in s.attempts && s.attempts[o] == attempt
    && o !in s.acked && o !in s.pending && o !in s.dead
  }

  /** Only delivery state has changed, and one event was logged. */
  ghost predicate OnlyDelivery(b: Broker, b': Broker, e: Event) {
    b' == b.(core := b.core.(delivery := b'.core.delivery), events := b.events + [e])
  }

  /** Who may settle a delivery: the answer to everybody else. */
  ghost predicate Refused(d: DeliveryState, id: Text, consumer: Text, r: Response) {
    if id !in d.pending then r == Failed(DeliveryNotFound(id))
    else d.pending[id].consumer != consumer && r == Failed(InvalidConsumer(id, d.pending[id].consumer, consumer))
  }

  ghost predicate Holds(d: DeliveryState, id: Text, consumer: Text) {
    id in d.pending && d.pending[id].consumer == consumer
  }

  // ---- acknowledging ----

  ghost predicate AckDoes(b: Broker, b': Broker, id: Text, consumer: Text, timestamp: nat)
    requires id in b.core.delivery.pending
  {
    var d, d', pos := b.core.delivery, b'.core.delivery, b.core.delivery.pending[id].pos;
    && StandsAcked(d', pos) && OthersKept(d, d', id) && d'.deadLetters == d.deadLetters
    && OnlyDelivery(b, b', MessageAcked(id, consumer, pos, timestamp))
  }

  lemma AckedStanding(d: DeliveryState, id: Text)
    requires d.Valid() && id in d.pending
    ensures var d' := d.Acked(id, d.pending[id].pos);
      StandsAcked(d', d.pending[id].pos) && OthersKept(d, d', id) && d'.deadLetters == d.deadLetters
  {
    var pos := d.pending[id].pos;
    var d' := d.Acked(id, pos);
    assert d.IdLinked(id) && d.SlotValid(KeyOf(pos));
    forall q | q != pos ensures SameFor(d, d', q) { assert At(KeyOf(q), q.ref.offset) == q; }
  }

  /** An acknowledgement by the consumer that holds the delivery finishes its message for the group, and
      changes nothing about any other message; all others are refused and change nothing. */
  lemma {:induction false} AckEffect(cfg: Config, b: Broker, id: Text, consumer: Text, timestamp: nat, io: bool)
    requires b.core.Valid()
    ensures var s, d := Step(cfg, b, Ack(id, consumer, timestamp), io), b.core.delivery;
      if !Holds(d, id, consumer) then s.broker == b && Refused(d, id, consumer, s.response)
      else if !io then s == Stepped(b, Failed(Io))
      else s.response == Done && AckDoes(b, s.broker, id, consumer, timestamp)
  {
    if id in b.core.delivery.pending { AckedStanding(b.core.delivery, id); }
  }

  // ---- rejecting ----

  /** The reason a dead letter of a NACK carries: the consumer's text, or "nack". */
  ghost predicate SaysWhy(reason: Option<Text>, r: Reason) {
    r == Manual(if reason.Some? then reason.value else [110, 97, 99, 107])
  }

  function Backoff(cfg: Config): nat {
    if cfg.backoffMillis.Some? then cfg.backoffMillis.value else 0
  }

  ghost predicate StoredAt(c: Core, ref: MessageRef, envelope: Envelope) {
    var id := LogId(ref.topic, ref.partition);
    id in c.logs && ref.offset < |c.logs[id]| && c.logs[id][ref.offset] == envelope
  }

  /** The letter of a delivery given up: its message, why, after how many attempts, and when. */
  ghost predicate LetterOf(c: Core, p: PendingDelivery, letter: DeadLetter, timestamp: nat) {
    && letter.pos == p.pos && StoredAt(c, p.pos.ref, letter.envelope)
    && letter.attemptCount == p.attempt && letter.timestamp == timestamp
  }

  ghost predicate NackDoes(cfg: Config, b: Broker, b': Broker, id: Text, consumer: Text, reason: Option<Text>,
                           timestamp: nat)
    requires id in b.core.delivery.pending
  {
    var d, d', p := b.core.delivery, b'.core.delivery, b.core.delivery.pending[id];
    && OthersKept(d, d', id)
    && if p.attempt >= cfg.maxAttempts then
         && StandsDead(d', p.pos) && |d'.deadLetters| == |d.deadLetters| + 1 && d.deadLetters <= d'.deadLetters
         && var letter := d'.deadLetters[|d.deadLetters|];
            && LetterOf(b.core, p, letter, timestamp) && SaysWhy(reason, letter.reason)
            && OnlyDelivery(b, b', MessageNacked(id, consumer, p.pos, p.attempt, timestamp,
                                                 DeadLettered(letter.reason, p.attempt)))
       else
         && StandsScheduled(d', p.pos, timestamp + Backoff(cfg), p.attempt) && d'.deadLetters == d.deadLetters
         && OnlyDelivery(b, b', MessageNacked(id, consumer, p.pos, p.attempt, timestamp,
                                              RetryScheduled(timestamp + Backoff(cfg))))
  }

  /** The retry time of a delivery that may be retried does not fit 64 bits. */
  ghost predicate RetryTooLate(cfg: Config, p: PendingDelivery, timestamp: nat) {
    p.attempt < cfg.maxAttempts && cfg.backoffMillis.Some? && timestamp + Backoff(cfg) > U64_MAX
  }

  lemma ScheduledStanding(d: DeliveryState, id: Text, readyAt: nat)
    requires d.Valid() && id in d.pending
    ensures var p := d.pending[id];
      var d' := d.Settled(id, p.pos, RetryScheduled(readyAt), None).state;
      StandsScheduled(d', p.pos, readyAt, p.attempt) && OthersKept(d, d', id) && d'.deadLetters == d.deadLetters
  {
    var pos := d.pending[id].pos;
    var d' := d.Settled(id, pos, RetryScheduled(readyAt), None).state;
    assert d.IdLinked(id) && d.SlotValid(KeyOf(pos)) && d.SlotLinked(KeyOf(pos), pos.ref.offset);
    forall q | q != pos ensures SameFor(d, d', q) { assert At(KeyOf(q), q.ref.offset) == q; }
  }

  lemma DeadStanding(d: DeliveryState, id: Text, settlement: Settlement, letter: DeadLetter)
    requires d.Valid() && id in d.pending && settlement.DeadLettered?
    ensures var pos := d.pending[id].pos;
      var d' := d.Settled(id, pos, settlement, Some(letter)).state;
      StandsDead(d', pos) && OthersKept(d, d', id) && d'.deadLetters == d.deadLetters + [letter]
  {
    var pos := d.pending[id].pos;
    var d' := d.Settled(id, pos, settlement, Some(letter)).state;
    assert d.IdLinked(id) && d.SlotValid(KeyOf(pos));
    forall q | q != pos ensures SameFor(d, d', q) { assert At(KeyOf(q), q.ref.offset) == q; }
  }

  /** What is decided for a delivery whose message exists: an error if the next attempt number or the retry
      time does not fit, a dead letter once all attempts are used up, and a retry after the backoff before. */
  ghost predicate Decided(cfg: Config, c: Core, p: PendingDelivery, timestamp: nat, reason: Reason,
                          out: Result<Computed, Error>) {
    if p.attempt >= U32_MAX then out == Err(InvalidConfig(AttemptNumber))
    else if RetryTooLate(cfg, p, timestamp) then out == Err(InvalidConfig(BackoffMillis))
    else if p.attempt < cfg.maxAttempts then out == Ok(Computed(RetryScheduled(timestamp + Backoff(cfg)), None))
    else
      && out.Ok? && out.value.settlement == DeadLettered(reason, p.attempt) && out.value.letter.Some?
      && LetterOf(c, p, out.value.letter.value, timestamp) && out.value.letter.value.reason == reason
  }

  lemma OutcomeDecided(cfg: Config, c: Core, p: PendingDelivery, timestamp: nat, reason: Reason)
    requires c.HasMessage(p.pos.ref)
    ensures Decided(cfg, c, p, timestamp, reason, ComputeOutcome(cfg, c, p, timestamp, reason))
  {
  }

  /** A NACK by the consumer that holds the delivery dead-letters its message if all attempts are used up,
      with the consumer's reason, and schedules it for the given time plus the backoff otherwise. */
  lemma {:induction false} NackEffect(cfg: Config, b: Broker, id: Text, consumer: Text, reason: Option<Text>,
                                      timestamp: nat, io: bool)
    requires b.core.Valid()
    ensures var s, d := Step(cfg, b, Nack(id, consumer, reason, timestamp), io), b.core.delivery;
      if !Holds(d, id, consumer) then s.broker == b && Refused(d, id, consumer, s.response)
      else if d.pending[id].attempt >= U32_MAX then s == Stepped(b, Failed(InvalidConfig(AttemptNumber)))
      else if RetryTooLate(cfg, d.pending[id], timestamp) then s == Stepped(b, Failed(InvalidConfig(BackoffMillis)))
      else if !io then s == Stepped(b, Failed(Io))
      else s.response == Done && NackDoes(cfg, b, s.broker, id, consumer, reason, timestamp)
  {
    var d := b.core.delivery;
    if Holds(d, id, consumer) {
      var p, why := d.pending[id], NackReason(reason);
      assert b.core.IdHasMessage(id) && SaysWhy(reason, why);
      OutcomeDecided(cfg, b.core, p, timestamp, why);
      if ComputeOutcome(cfg, b.core, p, timestamp, why).Ok? {
        var out := ComputeOutcome(cfg, b.core, p, timestamp, why).value;
        match out.settlement {
          case RetryScheduled(at) => ScheduledStanding(d, id, at);
          case DeadLettered(_, _) => DeadStanding(d, id, out.settlement, out.letter.value);
        }
      }
    }
  }

  // ---- consuming ----

  /** The group has not acknowledged the message nor given it up, and has it neither in flight nor scheduled. */
  ghost predicate Waits(d: DeliveryState, pos: Position) {
    var s, o := d.SlotOf(KeyOf(pos)), pos.ref.offset;
    o !in s.acked && o !in s.dead && o !in s.pending && o !in s.retry
  }

  /** A stored message of the topic, as the group sees it. */
  ghost predicate OfTopic(c: Core, topic: Text, group: Text, pos: Position) {
    && pos.group == group && pos.ref.topic == topic && topic in c.catalog && pos.ref.partition < c.catalog[topic]
    && exists envelope :: StoredAt(c, pos.ref, envelope)
  }

  ghost predicate Earlier(p: Position, q: Position) {
    p.ref.partition < q.ref.partition || (p.ref.partition == q.ref.partition && p.ref.offset < q.ref.offset)
  }

  function AttemptsSoFar(d: DeliveryState, pos: Position): nat {
    var s := d.SlotOf(KeyOf(pos));
    if pos.ref.offset in s.attempts then s.attempts[pos.ref.offset] else 0
  }

  function LeaseAsked(cfg: Config, cmd: Command): nat
    requires cmd.Consume?
  {
    if cmd.lease.Some? then cmd.lease.value else cfg.leaseMillis
  }

  /** The message was handed out: it waited, and is now in flight for the asking consumer, as the next
      attempt, until the lease has passed. */
  ghost predicate HandsOut(cfg: Config, c: Core, d': DeliveryState, cmd: Command, m: ConsumedMessage)
    requires cmd.Consume?
  {
    var d, e, pos := c.delivery, m.delivery, m.delivery.pos;
    var s', o := d'.SlotOf(KeyOf(pos)), pos.ref.offset;
    && OfTopic(c, cmd.topic, cmd.group, pos) && StoredAt(c, pos.ref, m.envelope) && Waits(d, pos)
    && e == DeliveryEvent(cfg.deliveryId(pos, AttemptsSoFar(d, pos) + 1), cmd.consumer, pos,
                          AttemptsSoFar(d, pos) + 1, cmd.timestamp, cmd.timestamp + LeaseAsked(cfg, cmd))
    && e.id !in d.pending && e.id in d'.pending
    && d'.pending[e.id] == PendingDelivery(pos, cmd.consumer, e.attempt, e.leaseExpiresAt)
    && o in s'.pending && s'.pending[o] == e.id && o in s'.attempts && s'.attempts[o] == e.attempt
    && o !in s'.acked && o !in s'.dead && o !in s'.retry
  }

  ghost predicate Given(ms: seq<ConsumedMessage>, pos: Position) {
    exists i :: 0 <= i < |ms| && ms[i].delivery.pos == pos
  }

  ghost predicate GivenId(ms: seq<ConsumedMessage>, id: Text) {
    exists i :: 0 <= i < |ms| && ms[i].delivery.id == id
  }

  ghost predicate AllHandedOut(cfg: Config, c: Core, d': DeliveryState, cmd: Command, ms: seq<ConsumedMessage>)
    requires cmd.Consume?
  {
    forall i :: 0 <= i < |ms| ==> HandsOut(cfg, c, d', cmd, ms[i])
  }

  /** They are the first ones waiting, in order, as many as asked for or all there are. */
  ghost predicate FirstGiven(c: Core, cmd: Command, ms: seq<ConsumedMessage>)
    requires cmd.Consume?
  {
    && |ms| <= cmd.maxMessages
    && (forall i, j :: 0 <= i < j < |ms| ==> Earlier(ms[i].delivery.pos, ms[j].delivery.pos))
    && (forall p :: OfTopic(c, cmd.topic, cmd.group, p) && Waits(c.delivery, p) && !Given(ms, p) ==>
          |ms| == cmd.maxMessages && forall i :: 0 <= i < |ms| ==> Earlier(ms[i].delivery.pos, p))
  }

  /** No other message and no other delivery is touched. */
  ghost predicate RestKept(d: DeliveryState, d': DeliveryState, ms: seq<ConsumedMessage>) {
    && (forall p :: !Given(ms, p) ==> SameFor(d, d', p))
    && (forall id :: id in d'.pending <==> id in d.pending || GivenId(ms, id))
    && (forall id :: id in d.pending ==> id in d'.pending && d'.pending[id] == d.pending[id])
    && d'.deadLetters == d.deadLetters
  }

  function DeliveriesOf(ms: seq<ConsumedMessage>): seq<DeliveryEvent> {
    seq(|ms|, i requires 0 <= i < |ms| => ms[i].delivery)
  }

  /** A consume hands out the first messages that wait, in order of partition and offset, as many as asked
      for or all there are, and changes nothing about any other message or delivery. */
  ghost predicate ConsumeDoes(cfg: Config, b: Broker, b': Broker, cmd: Command, ms: seq<ConsumedMessage>)
    requires cmd.Consume?
  {
    && AllHandedOut(cfg, b.core, b'.core.delivery, cmd, ms) && FirstGiven(b.core, cmd, ms)
    && RestKept(b.core.delivery, b'.core.delivery, ms)
    && OnlyDelivery(b, b', MessagesConsumed(DeliveriesOf(ms)))
  }

  /** Something of the topic waits for the group, and something is asked for. */
  ghost predicate Serves(c: Core, cmd: Command)
    requires cmd.Consume?
  {
    cmd.maxMessages > 0 && exists p :: OfTopic(c, cmd.topic, cmd.group, p) && Waits(c.delivery, p)
  }

  /** Delivering the message has put it in flight and counted the attempt, and left its other standing alone. */
  ghost predicate TakenBy(d: DeliveryState, d': DeliveryState, e: DeliveryEvent) {
    var s, s', o := d.SlotOf(KeyOf(e.pos)), d'.SlotOf(KeyOf(e.pos)), e.pos.ref.offset;
    && o in s'.pending && s'.pending[o] == e.id && o in s'.attempts && s'.attempts[o] == e.attempt
    && (o in s'.acked <==> o in s.acked) && (o in s'.dead <==> o in s.dead) && (o in s'.retry <==> o in s.retry)
    && e.id in d'.pending && d'.pending[e.id] == PendingDelivery(e.pos, e.consumer, e.attempt, e.leaseExpiresAt)
  }

  lemma ConsumedOne(d: DeliveryState, e: DeliveryEvent, p: Position)
    ensures p != e.pos ==> SameFor(d, d.Consumed(e), p)
    ensures TakenBy(d, d.Consumed(e), e)
  {
    assert At(KeyOf(p), p.ref.offset) == p;
  }

  lemma SameTwice(d: DeliveryState, d': DeliveryState, d'': DeliveryState, p: Position)
    requires SameFor(d, d', p) && SameFor(d', d'', p)
    ensures SameFor(d, d'', p)
  {
  }

  lemma {:induction false} Untouched(d: DeliveryState, es: seq<DeliveryEvent>, p: Position)
    requires forall i :: 0 <= i < |es| ==> es[i].pos != p
    ensures SameFor(d, ConsumeAll(d, es), p)
    decreases |es|
  {
    if es == [] {
    } else {
      ConsumedOne(d, es[0], p);
      Untouched(d.Consumed(es[0]), es[1..], p);
      SameTwice(d, d.Consumed(es[0]), ConsumeAll(d, es), p);
    }
  }

  lemma {:induction false} PendingAfter(d: DeliveryState, es: seq<DeliveryEvent>, id: Text)
    ensures var d' := ConsumeAll(d, es);
      && (id in d'.pending <==> id in d.pending || exists i :: 0 <= i < |es| && es[i].id == id)
      && (id in d.pending && (forall i :: 0 <= i < |es| ==> es[i].id != id) ==> d'.pending[id] == d.pending[id])
      && d'.deadLetters == d.deadLetters
    decreases |es|
  {
    if es == [] {
    } else {
      PendingAfter(d.Consumed(es[0]), es[1..], id);
      forall i | 1 <= i < |es| ensures es[i] == es[1..][i - 1] {}
    }
  }

  lemma {:induction false} Taken(d: DeliveryState, es: seq<DeliveryEvent>, i: nat)
    requires Apart(es) && i < |es|
    ensures TakenBy(d, ConsumeAll(d, es), es[i])
    decreases |es|
  {
    var mid, rest := d.Consumed(es[0]), es[1..];
    forall j, k | 0 <= j < k < |rest| ensures rest[j].pos != rest[k].pos && rest[j].id != rest[k].id {
      assert rest[j] == es[j + 1] && rest[k] == es[k + 1];
    }
    ConsumedOne(d, es[0], es[i].pos);
    if i == 0 {
      Untouched(mid, rest, es[0].pos);
      PendingAfter(mid, rest, es[0].id);
    } else {
      Taken(mid, rest, i - 1);
    }
  }

  ghost predicate WaitingRecord(c: Core, group: Text, topic: Text, r: Record) {
    var p := RecordPosition(group, topic, r);
    OfTopic(c, topic, group, p) && StoredAt(c, p.ref, r.envelope) && Waits(c.delivery, p)
  }

  ghost predicate InOrder(group: Text, topic: Text, recs: seq<Record>) {
    forall i, j :: 0 <= i < j < |recs| ==>
      Earlier(RecordPosition(group, topic, recs[i]), RecordPosition(group, topic, recs[j]))
  }

  ghost predicate Lists(group: Text, topic: Text, recs: seq<Record>, p: Position) {
    exists i :: 0 <= i < |recs| && RecordPosition(group, topic, recs[i]) == p
  }

  lemma {:induction false} Picked(c: Core, group: Text, topic: Text)
    requires topic in c.catalog
    ensures var all, picked := StoredOf(c, topic), AvailableRecords(c.delivery, group, topic, StoredOf(c, topic));
      && InOrder(group, topic, picked)
      && forall r :: r in picked <==> r in all && Waits(c.delivery, RecordPosition(group, topic, r))
  {
    var all, picked := StoredOf(c, topic), AvailableRecords(c.delivery, group, topic, StoredOf(c, topic));
    forall i, j | 0 <= i < j < |all| ensures Before(all[i], all[j]) {
      CanonicalOrder(c.logs, topic, c.catalog[topic], i, j);
    }
    AvailableSubsequence(c.delivery, group, topic, all);
    forall i, j | 0 <= i < j < |picked|
      ensures Earlier(RecordPosition(group, topic, picked[i]), RecordPosition(group, topic, picked[j]))
    {
      assert Before(picked[i], picked[j]);
    }
  }

  lemma {:induction false} RecordStored(c: Core, group: Text, topic: Text, r: Record)
    requires topic in c.catalog && r in StoredOf(c, topic)
    ensures var p := RecordPosition(group, topic, r);
      OfTopic(c, topic, group, p) && StoredAt(c, p.ref, r.envelope)
  {
    var k :| 0 <= k < |StoredOf(c, topic)| && StoredOf(c, topic)[k] == r;
    RecordAt(c.logs, topic, c.catalog[topic], k);
    assert StoredAt(c, RecordPosition(group, topic, r).ref, r.envelope);
  }

  /** The records picked for a group: exactly the stored messages that wait for it. */
  lemma {:induction false} PickedListsWaiting(c: Core, group: Text, topic: Text, p: Position)
    requires topic in c.catalog && OfTopic(c, topic, group, p) && Waits(c.delivery, p)
    ensures Lists(group, topic, AvailableRecords(c.delivery, group, topic, StoredOf(c, topic)), p)
  {
    var picked := AvailableRecords(c.delivery, group, topic, StoredOf(c, topic));
    Picked(c, group, topic);
    RecordListed(c.logs, topic, c.catalog[topic], p.ref.partition, p.ref.offset);
    var r := Record(p.ref.partition, p.ref.offset, c.Log(topic, p.ref.partition)[p.ref.offset]);
    assert RecordPosition(group, topic, r) == p && r in picked;
  }

  /** Of these the first are selected, as many as asked for or all there are. */
  ghost predicate SelectsFirst(c: Core, group: Text, topic: Text, max: nat, recs: seq<Record>) {
    && |recs| <= max && InOrder(group, topic, recs)
    && (forall i :: 0 <= i < |recs| ==> WaitingRecord(c, group, topic, recs[i]))
    && (forall p :: OfTopic(c, topic, group, p) && Waits(c.delivery, p) && !Lists(group, topic, recs, p) ==>
          |recs| == max && ComesAfter(group, topic, recs, p))
  }

  ghost predicate ComesAfter(group: Text, topic: Text, recs: seq<Record>, p: Position) {
    forall i :: 0 <= i < |recs| ==> Earlier(RecordPosition(group, topic, recs[i]), p)
  }

  lemma {:induction false} SelectionIsFirst(c: Core, group: Text, topic: Text, max: nat)
    requires topic in c.catalog
    ensures SelectsFirst(c, group, topic, max, Selection(c, group, topic, max))
  {
    var recs, picked := Selection(c, group, topic, max), AvailableRecords(c.delivery, group, topic, StoredOf(c, topic));
    Picked(c, group, topic);
    forall i | 0 <= i < |recs| ensures WaitingRecord(c, group, topic, recs[i]) {
      assert recs[i] in picked;
      RecordStored(c, group, topic, recs[i]);
    }
    forall p | OfTopic(c, topic, group, p) && Waits(c.delivery, p) && !Lists(group, topic, recs, p)
      ensures |recs| == max && ComesAfter(group, topic, recs, p)
    {
      PickedListsWaiting(c, group, topic, p);
      NotAmongFirst(group, topic, picked, recs, p);
    }
  }

  lemma {:induction false} NotAmongFirst(group: Text, topic: Text, picked: seq<Record>, recs: seq<Record>, p: Position)
    requires recs <= picked && InOrder(group, topic, picked) && Lists(group, topic, picked, p)
    requires !Lists(group, topic, recs, p)
    ensures |recs| < |picked| && ComesAfter(group, topic, recs, p)
  {
    var k :| 0 <= k < |picked| && RecordPosition(group, topic, picked[k]) == p;
    assert forall i :: 0 <= i < |recs| ==> recs[i] == picked[i];
    assert k >= |recs|;
  }

  /** The deliveries made for the records `recs`. */
  ghost predicate DeliversEach(cfg: Config, c: Core, cmd: Command, recs: seq<Record>, es: seq<DeliveryEvent>)
    requires cmd.Consume?
  {
    && |es| == |recs| && Apart(es)
    && forall i :: 0 <= i < |es| ==>
         && WaitingRecord(c, cmd.group, cmd.topic, recs[i]) && es[i].id !in c.delivery.pending
         && var pos := RecordPosition(cmd.group, cmd.topic, recs[i]);
            es[i] == DeliveryEvent(cfg.deliveryId(pos, AttemptsSoFar(c.delivery, pos) + 1), cmd.consumer, pos,
                                   AttemptsSoFar(c.delivery, pos) + 1, cmd.timestamp,
                                   cmd.timestamp + LeaseAsked(cfg, cmd))
  }

  lemma {:induction false} SelectedDelivers(cfg: Config, used: set<(Position, nat)>, c: Core, cmd: Command)
    requires cmd.Consume? && cmd.topic in c.catalog && UsesOnly(c, cmd, used)
    requires c.Valid() && Owned(cfg, used, c.delivery) && Distinct(cfg, used)
    ensures var recs := Selection(c, cmd.group, cmd.topic, cmd.maxMessages);
      DeliversEach(cfg, c, cmd, recs, DeliveriesFor(cfg, c.delivery, cmd.topic, cmd.group, cmd.consumer, cmd.timestamp,
                                                    cmd.timestamp + LeaseAsked(cfg, cmd), recs))
  {
    var recs := Selection(c, cmd.group, cmd.topic, cmd.maxMessages);
    var expires := cmd.timestamp + LeaseAsked(cfg, cmd);
    var es := DeliveriesFor(cfg, c.delivery, cmd.topic, cmd.group, cmd.consumer, cmd.timestamp, expires, recs);
    SelectionIsFirst(c, cmd.group, cmd.topic, cmd.maxMessages);
    SelectedAreFresh(cfg, used, c, cmd, expires);
    forall i | 0 <= i < |es| ensures es[i].id !in c.delivery.pending { assert Fresh(c, es[i]); }
  }

  lemma {:induction false} EachHandedOut(cfg: Config, c: Core, cmd: Command, recs: seq<Record>, es: seq<DeliveryEvent>)
    requires cmd.Consume? && DeliversEach(cfg, c, cmd, recs, es)
    ensures AllHandedOut(cfg, c, ConsumeAll(c.delivery, es), cmd, Messages(es, recs))
  {
    var ms := Messages(es, recs);
    forall i | 0 <= i < |ms| ensures HandsOut(cfg, c, ConsumeAll(c.delivery, es), cmd, ms[i]) {
      assert WaitingRecord(c, cmd.group, cmd.topic, recs[i]);
      Taken(c.delivery, es, i);
    }
  }

  lemma {:induction false} OthersUntouched(d: DeliveryState, es: seq<DeliveryEvent>, ms: seq<ConsumedMessage>)
    requires |ms| == |es| && (forall i :: 0 <= i < |es| ==> ms[i].delivery == es[i])
    requires forall i :: 0 <= i < |es| ==> es[i].id !in d.pending
    ensures RestKept(d, ConsumeAll(d, es), ms)
  {
    var d' := ConsumeAll(d, es);
    PendingAfter(d, es, []);
    forall p | !Given(ms, p) ensures SameFor(d, d', p) {
      forall i | 0 <= i < |es| ensures es[i].pos != p { assert ms[i].delivery == es[i]; }
      Untouched(d, es, p);
    }
    forall id ensures id in d'.pending <==> id in d.pending || GivenId(ms, id)
              ensures id in d.pending ==> id in d'.pending && d'.pending[id] == d.pending[id]
    {
      PendingAfter(d, es, id);
      if i :| 0 <= i < |es| && es[i].id == id { assert ms[i].delivery.id == id; }
    }
  }

  /** The same of messages that was said of records. */
  lemma {:induction false} FirstOfAll(c: Core, cmd: Command, recs: seq<Record>, ms: seq<ConsumedMessage>)
    requires cmd.Consume? && SelectsFirst(c, cmd.group, cmd.topic, cmd.maxMessages, recs) && |ms| == |recs|
    requires forall i :: 0 <= i < |ms| ==> ms[i].delivery.pos == RecordPosition(cmd.group, cmd.topic, recs[i])
    ensures FirstGiven(c, cmd, ms)
  {
    forall p | Lists(cmd.group, cmd.topic, recs, p) ensures Given(ms, p) {
      var i :| 0 <= i < |recs| && RecordPosition(cmd.group, cmd.topic, recs[i]) == p;
      assert ms[i].delivery.pos == p;
    }
  }

  lemma WorkingConsume(cfg: Config, b: Broker, cmd: Command, es: seq<DeliveryEvent>, recs: seq<Record>)
    requires cmd.Consume? && cmd.topic in b.core.catalog && cmd.timestamp + LeaseAsked(cfg, cmd) <= U64_MAX
    requires recs == Selection(b.core, cmd.group, cmd.topic, cmd.maxMessages) && recs != []
    requires es == DeliveriesFor(cfg, b.core.delivery, cmd.topic, cmd.group, cmd.consumer, cmd.timestamp,
                                 cmd.timestamp + LeaseAsked(cfg, cmd), recs)
    ensures StepConsume(cfg, b, cmd, true) ==
            Stepped(b.(core := b.core.(delivery := ConsumeAll(b.core.delivery, es)),
                       events := b.events + [MessagesConsumed(es)]),
                    Delivered(Messages(es, recs)))
  {
  }

  lemma {:induction false} DoesFirst(cfg: Config, b: Broker, b': Broker, cmd: Command, recs: seq<Record>,
                                     es: seq<DeliveryEvent>)
    requires cmd.Consume? && DeliversEach(cfg, b.core, cmd, recs, es)
    requires SelectsFirst(b.core, cmd.group, cmd.topic, cmd.maxMessages, recs)
    requires b' == b.(core := b.core.(delivery := ConsumeAll(b.core.delivery, es)),
                      events := b.events + [MessagesConsumed(es)])
    ensures ConsumeDoes(cfg, b, b', cmd, Messages(es, recs))
  {
    var ms := Messages(es, recs);
    EachHandedOut(cfg, b.core, cmd, recs, es);
    OthersUntouched(b.core.delivery, es, ms);
    FirstOfAll(b.core, cmd, recs, ms);
    assert es == DeliveriesOf(ms);
  }

  lemma {:induction false} ConsumeHandsOutFirst(cfg: Config, used: set<(Position, nat)>, b: Broker, cmd: Command)
    requires cmd.Consume? && Distinct(cfg, used) && Live(cfg, used, b) && UsesOnly(b.core, cmd, used)
    requires cmd.topic in b.core.catalog && Selection(b.core, cmd.group, cmd.topic, cmd.maxMessages) != []
    requires cmd.timestamp + LeaseAsked(cfg, cmd) <= U64_MAX
    ensures var s := StepConsume(cfg, b, cmd, true);
      s.response.Delivered? && ConsumeDoes(cfg, b, s.broker, cmd, s.response.messages)
  {
    var recs := Selection(b.core, cmd.group, cmd.topic, cmd.maxMessages);
    var es := DeliveriesFor(cfg, b.core.delivery, cmd.topic, cmd.group, cmd.consumer, cmd.timestamp,
                            cmd.timestamp + LeaseAsked(cfg, cmd), recs);
    SelectedDelivers(cfg, used, b.core, cmd);
    SelectionIsFirst(b.core, cmd.group, cmd.topic, cmd.maxMessages);
    WorkingConsume(cfg, b, cmd, es, recs);
    DoesFirst(cfg, b, StepConsume(cfg, b, cmd, true).broker, cmd, recs, es);
  }

  /** A consume hands out the first waiting messages of the topic, unless the topic is unknown, nothing waits
      or is asked for, or the lease ends past 64 bits. */
  lemma {:induction false} ConsumeEffect(cfg: Config, used: set<(Position, nat)>, b: Broker, cmd: Command, io: bool)
    requires cmd.Consume? && Distinct(cfg, used) && Live(cfg, used, b) && UsesOnly(b.core, cmd, used)
    ensures var s := Step(cfg, b, cmd, io);
      if cmd.topic !in b.core.catalog then s == Stepped(b, Failed(TopicNotFound(cmd.topic)))
      else if !Serves(b.core, cmd) then s == Stepped(b, Delivered([]))
      else if cmd.timestamp + LeaseAsked(cfg, cmd) > U64_MAX then
        s == Stepped(b, Failed(InvalidConfig(if cmd.lease.Some? then LeaseMs else DeliveryLeaseMillis)))
      else if !io then s == Stepped(b, Failed(Io))
      else s.response.Delivered? && ConsumeDoes(cfg, b, s.broker, cmd, s.response.messages)
  {
    if cmd.topic in b.core.catalog {
      var recs := Selection(b.core, cmd.group, cmd.topic, cmd.maxMessages);
      SelectionIsFirst(b.core, cmd.group, cmd.topic, cmd.maxMessages);
      if recs == [] {
        assert !Serves(b.core, cmd);
      } else {
        assert WaitingRecord(b.core, cmd.group, cmd.topic, recs[0]);
        if cmd.timestamp + LeaseAsked(cfg, cmd) <= U64_MAX && io { ConsumeHandsOutFirst(cfg, used, b, cmd); }
      }
    }
  }

  /** A consume that returns fewer messages than asked for leaves none waiting: every stored message of the
      topic is then acknowledged, dead-lettered, scheduled or in flight for the group. */
  lemma {:induction false} ShortConsumeLeavesNone(cfg: Config, b: Broker, b': Broker, cmd: Command,
                                                  ms: seq<ConsumedMessage>, p: Position)
    requires cmd.Consume? && ConsumeDoes(cfg, b, b', cmd, ms) && |ms| < cmd.maxMessages
    requires OfTopic(b'.core, cmd.topic, cmd.group, p)
    ensures !Waits(b'.core.delivery, p)
  {
    assert forall envelope :: StoredAt(b'.core, p.ref, envelope) <==> StoredAt(b.core, p.ref, envelope);
    if Given(ms, p) {
      var i :| 0 <= i < |ms| && ms[i].delivery.pos == p;
      assert HandsOut(cfg, b.core, b'.core.delivery, cmd, ms[i]);
    } else {
      assert SameFor(b.core.delivery, b'.core.delivery, p);
    }
  }

  function PositionsOf(ms: seq<ConsumedMessage>): seq<Position> {
    seq(|ms|, i requires 0 <= i < |ms| => ms[i].delivery.pos)
  }

  function AllPositions(group: Text, topic: Text, recs: seq<Record>): seq<Position> {
    seq(|recs|, i requires 0 <= i < |recs| => RecordPosition(group, topic, recs[i]))
  }

  /** Stored messages are among the records. */
  lemma {:induction false} StoredIsListed(c: Core, topic: Text, group: Text, p: Position)
    requires OfTopic(c, topic, group, p)
    ensures p in AllPositions(group, topic, StoredOf(c, topic))
  {
    RecordListed(c.logs, topic, c.catalog[topic], p.ref.partition, p.ref.offset);
    var r := Record(p.ref.partition, p.ref.offset, c.Log(topic, p.ref.partition)[p.ref.offset]);
    var i :| 0 <= i < |StoredOf(c, topic)| && StoredOf(c, topic)[i] == r;
    assert AllPositions(group, topic, StoredOf(c, topic))[i] == p;
  }

  /** Distinct stored messages, one more of them not handed out: the topic holds more than were handed out. */
  lemma {:induction false} OneMoreStored(c: Core, cmd: Command, ms: seq<ConsumedMessage>, p: Position)
    requires cmd.Consume? && OfTopic(c, cmd.topic, cmd.group, p) && !Given(ms, p)
    requires forall i :: 0 <= i < |ms| ==> OfTopic(c, cmd.topic, cmd.group, ms[i].delivery.pos)
    requires forall i, j :: 0 <= i < j < |ms| ==> Earlier(ms[i].delivery.pos, ms[j].delivery.pos)
    ensures |ms| < |StoredOf(c, cmd.topic)|
  {
    var given, all := PositionsOf(ms), AllPositions(cmd.group, cmd.topic, StoredOf(c, cmd.topic));
    assert forall i, j :: 0 <= i < j < |given| ==> Earlier(given[i], given[j]);
    DistinctCount(given);
    ElementsBound(all);
    forall q | q in Elements(given) + {p} ensures q in Elements(all) {
      StoredIsListed(c, cmd.topic, cmd.group, q);
    }
    assert p !in Elements(given);
    Smaller(Elements(given) + {p}, Elements(all));
  }

  lemma {:induction false} Smaller<T>(a: set<T>, b: set<T>)
    requires a <= b
    ensures |a| <= |b|
  {
    if a == {} {
    } else {
      var x :| x in a;
      Smaller(a - {x}, b - {x});
    }
  }

  /** A group that has nothing of the topic acknowledged, given up, in flight or scheduled, and asks for as
      many messages as are stored, gets all of them. */
  lemma {:induction false} NewGroupGetsAll(cfg: Config, b: Broker, b': Broker, cmd: Command, ms: seq<ConsumedMessage>,
                                           p: Position)
    requires cmd.Consume? && ConsumeDoes(cfg, b, b', cmd, ms) && OfTopic(b.core, cmd.topic, cmd.group, p)
    requires |StoredOf(b.core, cmd.topic)| <= cmd.maxMessages
    requires KeyOf(p) !in b.core.delivery.groups
    ensures Given(ms, p)
  {
    if !Given(ms, p) {
      assert Waits(b.core.delivery, p);
      forall i | 0 <= i < |ms| ensures OfTopic(b.core, cmd.topic, cmd.group, ms[i].delivery.pos) {
        assert HandsOut(cfg, b.core, b'.core.delivery, cmd, ms[i]);
      }
      OneMoreStored(b.core, cmd, ms, p);
      assert false;
    }
  }
}
