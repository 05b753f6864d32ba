/** Replaying the state log: each event is a sequence of checked steps over topics, message logs
    and delivery state, and replay stops at the first step that does not fit. */
module Replay {
  import opened Common
  import opened Domain
  import opened Delivery

  datatype LogId = LogId(topic: Text, partition: nat)

  type Logs = map<LogId, seq<Envelope>>

  function LogOf(logs: Logs, id: LogId): seq<Envelope> {
    if id in logs then logs[id] else []
  }

  /** `after` holds everything `before` does, each partition possibly with more messages appended. */
  ghost predicate Extends(before: Logs, after: Logs) {
    forall id :: LogOf(before, id) <= LogOf(after, id)
  }

  /** Topics with their partition counts, the messages on disk, and delivery state. */
  datatype Core = Core(catalog: map<Text, PartitionCount>, logs: Logs, delivery: DeliveryState) {
    function Log(topic: Text, partition: nat): seq<Envelope> {
      LogOf(logs, LogId(topic, partition))
    }

    predicate HasMessage(ref: MessageRef) {
      ref.topic in catalog && ref.partition < catalog[ref.topic] && ref.offset < |Log(ref.topic, ref.partition)|
    }

    /** `envelope_for`: a missing topic is reported as such, a missing record as corruption. */
    function EnvelopeFor(ref: MessageRef): Result<Envelope, Error> {
      if ref.topic !in catalog then Err(TopicNotFound(ref.topic))
      else if !HasMessage(ref) then Err(Corruption)
      else Ok(Log(ref.topic, ref.partition)[ref.offset])
    }

    /** Every message a group has in flight, scheduled or dead-lettered exists. */
    ghost predicate IdHasMessage(id: Text) {
      id in delivery.pending ==> HasMessage(delivery.pending[id].pos.ref)
    }

    ghost predicate Valid() {
      delivery.Valid() && forall id :: IdHasMessage(id)
    }

    ghost function Release(ids: set<Text>): Core {
      this.(delivery := delivery.Release(ids))
    }
  }

  datatype Op =
    | OpenTopic(topic: Text, partitions: PartitionCount)
    | Deliver(event: DeliveryEvent)
    | Acknowledge(id: Text, consumer: Text, pos: Position)
    | Settle(id: Text, consumer: Text, pos: Position, attempt: nat, timestamp: nat, settlement: Settlement)
    | MakeAvailable(pos: Position, timestamp: nat)

  function DeliverAll(es: seq<DeliveryEvent>): seq<Op> {
    seq(|es|, i requires 0 <= i < |es| => Deliver(es[i]))
  }

  function SettleOf(e: ExpiredDelivery): Op {
    Settle(e.id, e.consumer, e.pos, e.attempt, e.timestamp, e.settlement)
  }

  function SettleAll(es: seq<ExpiredDelivery>): seq<Op> {
    seq(|es|, i requires 0 <= i < |es| => SettleOf(es[i]))
  }

  function ReadyAll(ps: seq<Position>, timestamp: nat): seq<Op> {
    seq(|ps|, i requires 0 <= i < |ps| => MakeAvailable(ps[i], timestamp))
  }

  function Ops(e: Event): seq<Op> {
    match e
    case TopicCreated(topic, partitions) => [OpenTopic(topic, partitions)]
    case MessagesConsumed(deliveries) => DeliverAll(deliveries)
    case MessageAcked(id, consumer, pos, _) => [Acknowledge(id, consumer, pos)]
    case MessageNacked(id, consumer, pos, attempt, timestamp, settlement) =>
      [Settle(id, consumer, pos, attempt, timestamp, settlement)]
    case RetryMaintenanceApplied(timestamp, expired, available) =>
      SettleAll(expired) + ReadyAll(available, timestamp)
  }

  /** `pending_for_replay`: the logged id, consumer and position have to match the delivery in flight. */
  predicate Matches(d: DeliveryState, id: Text, consumer: Text, pos: Position) {
    id in d.pending && d.pending[id].consumer == consumer && d.pending[id].pos == pos
  }

  /** `dead_letter_for_outcome` */
  function LetterFor(c: Core, pos: Position, settlement: Settlement,
                     timestamp: nat): Result<Option<DeadLetter>, Error> {
    match settlement
    case RetryScheduled(_) => Ok(None)
    case DeadLettered(reason, count) =>
      match c.EnvelopeFor(pos.ref)
      case Err(e) => Err(e)
      case Ok(envelope) => Ok(Some(DeadLetter(pos, envelope, reason, count, timestamp)))
  }

  ghost function Commit(c: Core, applied: Applied): Result<Core, Error> {
    if applied.error.Some? then Err(applied.error.value) else Ok(c.(delivery := applied.state))
  }

  ghost function ReplayOp(c: Core, op: Op): Result<Core, Error> {
    match op
    case OpenTopic(topic, partitions) =>
      if topic in c.catalog then Err(Corruption) else Ok(c.(catalog := c.catalog[topic := partitions]))
    case Deliver(e) =>
      if !c.HasMessage(e.pos.ref) || e.id in c.delivery.pending
         || !c.delivery.SlotOf(KeyOf(e.pos)).IsAvailable(e.pos.ref.offset) then Err(Corruption)
      else Ok(c.(delivery := c.delivery.Consumed(e)))
    case Acknowledge(id, consumer, pos) =>
      if !Matches(c.delivery, id, consumer, pos) then Err(Corruption)
      else Ok(c.(delivery := c.delivery.Acked(id, pos)))
    case Settle(id, consumer, pos, attempt, timestamp, settlement) =>
      if !Matches(c.delivery, id, consumer, pos) || c.delivery.pending[id].attempt != attempt then Err(Corruption)
      else
        (match LetterFor(c, pos, settlement, timestamp)
         case Err(e) => Err(e)
         case Ok(letter) => Commit(c, c.delivery.Settled(id, pos, settlement, letter)))
    case MakeAvailable(pos, timestamp) => Commit(c, c.delivery.Readied(pos, timestamp))
  }

  ghost function ReplayOps(c: Core, ops: seq<Op>): Result<Core, Error>
    decreases |ops|
  {
    if ops == [] then Ok(c)
    else
      match ReplayOp(c, ops[0])
      case Err(e) => Err(e)
      case Ok(c') => ReplayOps(c', ops[1..])
  }

  ghost function AllOps(events: seq<Event>): seq<Op> {
    if events == [] then [] else AllOps(events[..|events| - 1]) + Ops(events[|events| - 1])
  }

  ghost function EmptyCore(logs: Logs): Core {
    Core(map[], logs, EMPTY_DELIVERY)
  }

  /** The state the events alone describe, given the messages on disk: nothing is released. */
  ghost function PlainReplay(logs: Logs, events: seq<Event>): Result<Core, Error> {
    ReplayOps(EmptyCore(logs), AllOps(events))
  }

  lemma {:induction false} ReplayAppend(c: Core, a: seq<Op>, b: seq<Op>)
    ensures ReplayOps(c, a + b) ==
            match ReplayOps(c, a) case Err(e) => Err(e) case Ok(c') => ReplayOps(c', b)
    decreases |a|
  {
    if a == [] {
      assert a + b == b;
    } else {
      assert (a + b)[1..] == a[1..] + b;
      match ReplayOp(c, a[0]) {
        case Err(_) =>
        case Ok(c') => ReplayAppend(c', a[1..], b);
      }
    }
  }

  lemma ReplaySnoc(logs: Logs, events: seq<Event>, e: Event)
    ensures PlainReplay(logs, events + [e]) ==
            match PlainReplay(logs, events) case Err(x) => Err(x) case Ok(c) => ReplayOps(c, Ops(e))
  {
    assert (events + [e])[..|events|] == events;
    ReplayAppend(EmptyCore(logs), AllOps(events), Ops(e));
  }

  // ---- the invariant holds whatever the log says ----

  lemma OpKeepsValid(c: Core, op: Op)
    requires c.Valid() && ReplayOp(c, op).Ok?
    ensures ReplayOp(c, op).value.Valid()
  {
    var c' := ReplayOp(c, op).value;
    match op {
      case OpenTopic(_, _) =>
      case Deliver(e) => ConsumedKeepsValid(c.delivery, e);
      case Acknowledge(id, _, _) => AckedKeepsValid(c.delivery, id);
      case Settle(id, _, pos, _, timestamp, settlement) =>
        match settlement {
          case RetryScheduled(readyAt) => RetryKeepsValid(c.delivery, id, readyAt);
          case DeadLettered(_, _) =>
            BuryKeepsValid(c.delivery, id, settlement, LetterFor(c, pos, settlement, timestamp).value.value);
        }
      case MakeAvailable(pos, timestamp) => ReadiedKeepsValid(c.delivery, pos, timestamp);
    }
    forall id ensures c'.IdHasMessage(id) { assert c.IdHasMessage(id); }
  }

  /** Whatever a state log contains, if its replay succeeds the recovered state is consistent. */
  lemma {:induction false} ReplayKeepsValid(c: Core, ops: seq<Op>)
    requires c.Valid() && ReplayOps(c, ops).Ok?
    ensures ReplayOps(c, ops).value.Valid()
    decreases |ops|
  {
    if ops == [] {
    } else {
      OpKeepsValid(c, ops[0]);
      ReplayKeepsValid(ReplayOp(c, ops[0]).value, ops[1..]);
    }
  }

  lemma {:induction false} RecoveredStateIsValid(logs: Logs, events: seq<Event>)
    requires PlainReplay(logs, events).Ok?
    ensures PlainReplay(logs, events).value.Valid()
  {
    EmptyIsValid();
    ReplayKeepsValid(EmptyCore(logs), AllOps(events));
  }

  // ---- messages published later do not change what a replay gives ----

  lemma OpOnMoreMessages(c: Core, op: Op, logs: Logs)
    requires Extends(c.logs, logs) && ReplayOp(c, op).Ok?
    ensures ReplayOp(c.(logs := logs), op) == Ok(ReplayOp(c, op).value.(logs := logs))
  {
    var ref :=
      match op
      case Deliver(e) => e.pos.ref
      case Settle(_, _, pos, _, _, _) => pos.ref
      case _ => MessageRef([], 0, 0);
    var id := LogId(ref.topic, ref.partition);
    assert LogOf(c.logs, id) <= LogOf(logs, id);
  }

  lemma {:induction false} ReplayOnMoreMessages(c: Core, ops: seq<Op>, logs: Logs)
    requires Extends(c.logs, logs) && ReplayOps(c, ops).Ok?
    ensures ReplayOps(c.(logs := logs), ops) == Ok(ReplayOps(c, ops).value.(logs := logs))
    decreases |ops|
  {
    if ops == [] {
    } else {
      OpOnMoreMessages(c, ops[0], logs);
      ReplayOnMoreMessages(ReplayOp(c, ops[0]).value, ops[1..], logs);
    }
  }

  lemma {:induction false} ReplayKeepsLogs(c: Core, ops: seq<Op>)
    requires ReplayOps(c, ops).Ok?
    ensures ReplayOps(c, ops).value.logs == c.logs
    decreases |ops|
  {
    if ops == [] {
    } else {
      ReplayKeepsLogs(ReplayOp(c, ops[0]).value, ops[1..]);
    }
  }
}
