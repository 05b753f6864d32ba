/** The in-memory broker as it runs: fields updated in place, each command proved to do what `Memory`
    says it does. */
module InMemory {
  import opened Common
  import opened Ordering
  import opened Domain
  import opened GroupState
  import opened Delivery
  import opened Publish
  import opened Durable
  import opened Scanning
  import opened Memory

  lemma {:induction false} StoredPrefix(partitions: seq<seq<Envelope>>, p: nat, count: nat)
    requires p <= count <= |partitions|
    ensures StoredRecords(partitions, p) <= StoredRecords(partitions, count)
  {
    if p < count { StoredPrefix(partitions, p, count - 1); }
  }

  function StoredBefore(partitions: seq<seq<Envelope>>, p: nat, i: nat): seq<Record>
    requires p < |partitions| && i <= |partitions[p]|
  {
    StoredRecords(partitions, p) + PartitionRecords(partitions[p], p)[..i]
  }

  lemma NextStored(partitions: seq<seq<Envelope>>, p: nat, i: nat)
    requires p < |partitions| && i < |partitions[p]|
    ensures StoredBefore(partitions, p, i + 1) == StoredBefore(partitions, p, i) + [Record(p, i, partitions[p][i])]
    ensures StoredBefore(partitions, p, i + 1) <= StoredRecords(partitions, |partitions|)
  {
    var here, upTo, all := PartitionRecords(partitions[p], p), StoredRecords(partitions, p + 1),
        StoredRecords(partitions, |partitions|);
    StoredPrefix(partitions, p + 1, |partitions|);
    TakeNext(StoredRecords(partitions, p), here, all[|upTo|..], i);
    assert all == upTo + all[|upTo|..];
  }

  lemma StoredEnds(partitions: seq<seq<Envelope>>, p: nat)
    requires p < |partitions|
    ensures StoredBefore(partitions, p, 0) == StoredRecords(partitions, p)
    ensures StoredBefore(partitions, p, |partitions[p]|) == StoredRecords(partitions, p + 1)
  {
    var here := PartitionRecords(partitions[p], p);
    assert here[..|here|] == here;
  }

  lemma SelectOne(d: DeliveryState, group: Text, topic: Text, partitions: seq<seq<Envelope>>, p: nat, i: nat,
                  selected: seq<Record>)
    requires p < |partitions| && i < |partitions[p]|
    requires Picked(d, group, topic, StoredRecords(partitions, |partitions|), StoredBefore(partitions, p, i), selected)
    ensures var r := Record(p, i, partitions[p][i]);
      && StoredBefore(partitions, p, i) + [r] == StoredBefore(partitions, p, i + 1)
      && Picked(d, group, topic, StoredRecords(partitions, |partitions|), StoredBefore(partitions, p, i + 1),
                if d.SlotOf(SlotKey(group, topic, p)).IsAvailable(i) then selected + [r] else selected)
  {
    NextStored(partitions, p, i);
    PickedStep(d, group, topic, StoredRecords(partitions, |partitions|), StoredBefore(partitions, p, i), selected,
               Record(p, i, partitions[p][i]));
  }

  class InMemoryBroker {
    const config: Config
    var topics: TopicTable
    var groups: map<SlotKey, Slot>
    var pending: map<Text, PendingDelivery>
    var deadLetters: seq<DeadLetter>
    var index: Index

    function State(): DeliveryState
      reads this
    {
      DeliveryState(groups, pending, deadLetters)
    }

    function View(): MemoryBroker
      reads this
    {
      MemoryBroker(topics, State(), index)
    }

    constructor (config: Config)
      ensures this.config == config && View() == EmptyMemory()
    {
      this.config := config;
      topics, groups, pending, deadLetters, index := map[], map[], map[], [], map[];
    }

    method CreateTopic(name: Text, partitions: PartitionCount) returns (r: Response)
      modifies this`topics
      ensures Answered(View(), r) == Create(old(View()), name, partitions)
    {
      if name in topics {
        return Failed(TopicAlreadyExists(name));
      }
      topics := topics[name := StoredTopic(seq(partitions, i => []), 0)];
      r := Created(name, partitions);
    }

    method PublishMessage(topic: Text, envelope: Envelope) returns (r: Response)
      requires config.Valid()
      modifies this`topics, this`index
      ensures Answered(View(), r) == Append(config, old(View()), topic, envelope)
    {
      if topic !in topics {
        return Failed(TopicNotFound(topic));
      }
      var check := CheckIdempotency(config, topic, envelope, index);
      if check.Conflict? {
        return Failed(IdempotencyKeyConflict(topic));
      }
      if check.Retry? {
        return Published(topic, check.record.partition, check.record.offset, check.record.messageId, true);
      }
      var stored := topics[topic];
      var p := SelectPartition(config, |stored.partitions|, stored.nextRoundRobin, envelope);
      var offset := |stored.partitions[p]|;
      stored := stored.(partitions := stored.partitions[p := stored.partitions[p] + [envelope]]);
      if envelope.partitionKey.None? {
        stored := stored.(nextRoundRobin := Advance(stored.nextRoundRobin, |stored.partitions|));
      }
      topics := topics[topic := stored];
      match check {
        case New(key, fingerprint) =>
          index := index[IndexKey(topic, key) := IdempotencyRecord(fingerprint, p, offset, envelope.id)];
        case _ =>
      }
      r := Published(topic, p, offset, envelope.id, false);
    }

    /** The selection loops of `consume`: offsets first, deliveries only afterwards. */
    method SelectAvailable(partitions: seq<seq<Envelope>>, group: Text, topic: Text,
                           max: nat) returns (selected: seq<Record>)
      requires max > 0
      ensures selected == Take(AvailableRecords(State(), group, topic, StoredRecords(partitions, |partitions|)), max)
    {
      selected := [];
      ghost var all, seen := StoredRecords(partitions, |partitions|), [];
      var p: nat := 0;
      while p < |partitions| && |selected| < max
        invariant p <= |partitions| && |selected| <= max && Picked(State(), group, topic, all, seen, selected)
        invariant |selected| < max ==> seen == StoredRecords(partitions, p)
      {
        StoredEnds(partitions, p);
        var slot := State().SlotOf(SlotKey(group, topic, p));
        var i: nat := 0;
        while i < |partitions[p]| && |selected| < max
          invariant i <= |partitions[p]| && |selected| <= max && Picked(State(), group, topic, all, seen, selected)
          invariant |selected| < max ==> seen == StoredBefore(partitions, p, i)
        {
          var record := Record(p, i, partitions[p][i]);
          SelectOne(State(), group, topic, partitions, p, i, selected);
          if slot.IsAvailable(i) {
            selected := selected + [record];
          }
          seen := seen + [record];
          i := i + 1;
        }
        p := p + 1;
      }
      PickedAll(State(), group, topic, all, seen, selected, max);
    }

    /** The delivery loop of `consume`. An error leaves the deliveries made so far in flight. */
    method DeliverSelected(cmd: Command, recs: seq<Record>) returns (r: Result<seq<ConsumedMessage>, Error>)
      requires cmd.Consume?
      modifies this`groups, this`pending
      ensures (State(), r) == DeliverOneByOne(config, old(State()), cmd, recs)
    {
      var consumed := [];
      BehindNothing(DeliverOneByOne(config, State(), cmd, recs));
      assert recs[0..] == recs;
      for i := 0 to |recs|
        invariant deadLetters == old(deadLetters)
        invariant DeliverOneByOne(config, old(State()), cmd, recs) ==
            Behind(consumed, DeliverOneByOne(config, State(), cmd, recs[i..]))
      {
        DeliverNext(config, State(), cmd, recs, i, consumed);
        var record := recs[i];
        var pos := RecordPosition(cmd.group, cmd.topic, record);
        var slot := new GroupPartitionState.Load(State().SlotOf(KeyOf(pos)));
        var attempt := slot.Value().NextAttempt(record.offset);
        var (lease, field) := LeaseOf(config, cmd.lease);
        var expires := AddMillis(cmd.timestamp, lease, field);
        if expires.Err? {
          groups := groups[KeyOf(pos) := slot.Value()];
          return Err(expires.error);
        }
        var id := config.deliveryId(pos, attempt);
        var event := DeliveryEvent(id, cmd.consumer, pos, attempt, cmd.timestamp, expires.value);
        slot.MarkPending(record.offset, event.id, attempt);
        groups := groups[KeyOf(pos) := slot.Value()];
        pending := pending[event.id := PendingDelivery(pos, cmd.consumer, attempt, expires.value)];
        consumed := consumed + [ConsumedMessage(event, record.envelope)];
      }
      assert recs[|recs|..] == [] && consumed + [] == consumed;
      r := Ok(consumed);
    }

    method ConsumeMessages(cmd: Command) returns (r: Response)
      requires cmd.Consume?
      modifies this`groups, this`pending
      ensures Answered(View(), r) == ConsumeNow(config, old(View()), cmd)
    {
      if cmd.topic !in topics {
        return Failed(TopicNotFound(cmd.topic));
      }
      if cmd.maxMessages == 0 {
        return Delivered([]);
      }
      var selected := SelectAvailable(topics[cmd.topic].partitions, cmd.group, cmd.topic, cmd.maxMessages);
      var consumed := DeliverSelected(cmd, selected);
      r := match consumed case Ok(messages) => Delivered(messages) case Err(e) => Failed(e);
    }

    method AckDelivery(id: Text, consumer: Text) returns (r: Response)
      modifies this`groups, this`pending
      ensures Answered(View(), r) == AckNow(old(View()), id, consumer)
    {
      var found := PendingFor(State(), id, consumer);
      if found.Err? {
        return Failed(found.error);
      }
      var pos := found.value.pos;
      pending := pending - {id};
      var slot := new GroupPartitionState.Load(State().SlotOf(KeyOf(pos)));
      slot.RemovePending(pos.ref.offset);
      slot.MarkAcked(pos.ref.offset);
      groups := groups[KeyOf(pos) := slot.Value()];
      r := Done;
    }

    method PushDeadLetter(p: PendingDelivery, reason: Reason, timestamp: nat) returns (error: Option<Error>)
      modifies this`deadLetters
      ensures match StoredEnvelope(topics, p.pos.ref)
              case Err(e) => error == Some(e) && deadLetters == old(deadLetters)
              case Ok(envelope) =>
                && error == None
                && deadLetters == old(deadLetters) + [DeadLetter(p.pos, envelope, reason, p.attempt, timestamp)]
    {
      var envelope := StoredEnvelope(topics, p.pos.ref);
      if envelope.Err? {
        return Some(envelope.error);
      }
      deadLetters := deadLetters + [DeadLetter(p.pos, envelope.value, reason, p.attempt, timestamp)];
      error := None;
    }

    /** `schedule_pending_retry_or_dlq`: by now the delivery has left the pending map, and it leaves its
        slot before the retry time is known to fit. */
    method SchedulePendingRetryOrDlq(p: PendingDelivery, timestamp: nat, reason: Reason) returns (error: Option<Error>)
      modifies this`groups, this`deadLetters
      ensures Applied(State(), error) == Schedule(config, topics, old(State()), p, timestamp, reason)
    {
      var key, o := KeyOf(p.pos), p.pos.ref.offset;
      var slot := new GroupPartitionState.Load(State().SlotOf(key));
      slot.RemovePending(o);
      if p.attempt + 1 > config.maxAttempts {
        slot.MarkDeadLettered(o);
        groups := groups[key := slot.Value()];
        error := PushDeadLetter(p, reason, timestamp);
      } else {
        var readyAt := match config.backoffMillis
                       case None => Ok(timestamp)
                       case Some(backoff) => AddMillis(timestamp, backoff, BackoffMillis);
        if readyAt.Ok? {
          slot.MarkRetryScheduled(o, RetryEntry(p.pos.ref, readyAt.value));
        }
        groups := groups[key := slot.Value()];
        error := if readyAt.Err? then Some(readyAt.error) else None;
      }
    }

    method NackDelivery(id: Text, consumer: Text, reason: Option<Text>, timestamp: nat) returns (r: Response)
      modifies this`groups, this`pending, this`deadLetters
      ensures Answered(View(), r) == NackNow(config, old(View()), id, consumer, reason, timestamp)
    {
      var found := PendingFor(State(), id, consumer);
      if found.Err? {
        return Failed(found.error);
      }
      pending := pending - {id};
      var error := SchedulePendingRetryOrDlq(found.value, timestamp, NackReason(reason));
      r := if error.Some? then Failed(error.value) else Done;
    }

    /** The expiry loop of `retry_ready`, up to the first error. */
    method Expire(ids: seq<Text>, now: nat) returns (error: Option<Error>)
      requires forall id :: id in ids ==> id in pending
      requires NoDuplicates(ids)
      modifies this`groups, this`pending, this`deadLetters
      ensures Applied(State(), error) == ExpireEach(config, topics, old(State()), ids, now)
    {
      for i := 0 to |ids|
        invariant ExpireEach(config, topics, old(State()), ids[..i], now) == Applied(State(), None)
        invariant forall j :: i <= j < |ids| ==> ids[j] in pending && pending[ids[j]] == old(pending)[ids[j]]
      {
        assert ids[i] in ids && ids[..i + 1][..i] == ids[..i];
        var p := pending[ids[i]];
        pending := pending - {ids[i]};
        error := SchedulePendingRetryOrDlq(p, now, Expired);
        if error.Some? {
          ExpireStops(config, topics, old(State()), ids, now, i + 1);
          return;
        }
      }
      assert ids[..|ids|] == ids;
      error := None;
    }

    /** The availability loop of `retry_ready`. */
    method FreeReady(ps: seq<Position>, now: nat) returns (count: nat)
      modifies this`groups
      ensures (State(), count) == FreeEach(old(State()), ps, now)
    {
      count := 0;
      for i := 0 to |ps|
        invariant (State(), count) == FreeEach(old(State()), ps[..i], now)
      {
        assert ps[..i + 1][..i] == ps[..i];
        var key, o := KeyOf(ps[i]), ps[i].ref.offset;
        var slot := new GroupPartitionState.Load(State().SlotOf(key));
        if o in slot.retry && slot.retry[o].readyAt <= now {
          slot.MarkRetryAvailable(o);
          count := count + 1;
        }
        groups := groups[key := slot.Value()];
      }
      assert ps[..|ps|] == ps;
    }

    method RunRetryReady(now: nat) returns (r: Response)
      modifies this`groups, this`pending, this`deadLetters
      ensures Answered(View(), r) == MaintainNow(config, old(View()), now)
    {
      TextOrder();
      var ids := Traverse(TextLeq, ExpiredSet(State(), now));
      assert forall id :: id in ids ==> id in Elements(ids);
      var before := |deadLetters|;
      var error := Expire(ids, now);
      if error.Some? {
        return Failed(error.value);
      }
      var deadLettered := if before <= |deadLetters| then |deadLetters| - before else 0;
      PositionOrder();
      var ready := Traverse(PositionLeq, ReadySet(State(), now));
      var count := FreeReady(ready, now);
      r := Maintained(RetrySummary(|ready|, |ids|, count, deadLettered));
    }
  }

  ghost function Behind(consumed: seq<ConsumedMessage>, rest: (DeliveryState, Result<seq<ConsumedMessage>, Error>))
    : (DeliveryState, Result<seq<ConsumedMessage>, Error>)
  {
    match rest.1
    case Err(e) => rest
    case Ok(messages) => (rest.0, Ok(consumed + messages))
  }

  lemma BehindNothing(rest: (DeliveryState, Result<seq<ConsumedMessage>, Error>))
    ensures Behind([], rest) == rest
  {
    if rest.1.Ok? { assert [] + rest.1.value == rest.1.value; }
  }

  lemma DeliverNext(cfg: Config, d: DeliveryState, cmd: Command, recs: seq<Record>, i: nat,
                    consumed: seq<ConsumedMessage>)
    requires cmd.Consume? && i < |recs|
    ensures var pos := RecordPosition(cmd.group, cmd.topic, recs[i]);
      var attempt := d.SlotOf(KeyOf(pos)).NextAttempt(recs[i].offset);
      Behind(consumed, DeliverOneByOne(cfg, d, cmd, recs[i..])) ==
      match AddMillis(cmd.timestamp, LeaseOf(cfg, cmd.lease).0, LeaseOf(cfg, cmd.lease).1)
      case Err(e) => (Touch(d, KeyOf(pos)), Err(e))
      case Ok(expires) =>
        var e := DeliveryEvent(cfg.deliveryId(pos, attempt), cmd.consumer, pos, attempt, cmd.timestamp, expires);
        Behind(consumed + [ConsumedMessage(e, recs[i].envelope)],
               DeliverOneByOne(cfg, d.Consumed(e), cmd, recs[i + 1..]))
  {
    assert recs[i..][0] == recs[i] && recs[i..][1..] == recs[i + 1..];
    match AddMillis(cmd.timestamp, LeaseOf(cfg, cmd.lease).0, LeaseOf(cfg, cmd.lease).1) {
      case Err(_) =>
      case Ok(expires) =>
        var pos := RecordPosition(cmd.group, cmd.topic, recs[i]);
        var attempt := d.SlotOf(KeyOf(pos)).NextAttempt(recs[i].offset);
        var e := DeliveryEvent(cfg.deliveryId(pos, attempt), cmd.consumer, pos, attempt, cmd.timestamp, expires);
        var (_, rest) := DeliverOneByOne(cfg, d.Consumed(e), cmd, recs[i + 1..]);
        if rest.Ok? {
          assert consumed + ([ConsumedMessage(e, recs[i].envelope)] + rest.value)
              == consumed + [ConsumedMessage(e, recs[i].envelope)] + rest.value;
        }
    }
  }

  lemma {:induction false} ExpireStops(cfg: Config, topics: TopicTable, d: DeliveryState, ids: seq<Text>, now: nat,
                                       i: nat)
    requires (forall id :: id in ids ==> id in d.pending) && i <= |ids|
    requires ExpireEach(cfg, topics, d, ids[..i], now).error.Some?
    ensures ExpireEach(cfg, topics, d, ids, now) == ExpireEach(cfg, topics, d, ids[..i], now)
    decreases |ids|
  {
    if i == |ids| {
      assert ids[..i] == ids;
    } else {
      assert ids[..|ids| - 1][..i] == ids[..i];
      ExpireStops(cfg, topics, d, ids[..|ids| - 1], now, i);
    }
  }
}
