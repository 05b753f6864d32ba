/** The durable broker as it runs: fields updated in place, each command proved to do what `Durable`
    says it does. */
module LocalBroker {
  import opened Common
  import opened Ordering
  import opened Domain
  import opened GroupState
  import opened Delivery
  import opened Replay
  import opened Publish
  import opened Durable
  import opened Maintenance
  import opened Commit
  import opened Scanning
  import opened Recovering
  import opened StateLog
  import Disk

  class DurableBroker {
    const config: Config
    var catalog: map<Text, PartitionCount>
    var logs: Logs
    var roundRobin: map<Text, nat>
    var groups: map<SlotKey, Slot>
    var pending: map<Text, PendingDelivery>
    var deadLetters: seq<DeadLetter>
    var index: Index
    var events: seq<Event>

    function State(): DeliveryState
      reads this
    {
      DeliveryState(groups, pending, deadLetters)
    }

    function CoreState(): Core
      reads this
    {
      Core(catalog, logs, State())
    }

    function View(): Broker
      reads this
    {
      Broker(CoreState(), roundRobin, index, events)
    }

    /** A broker over the given message logs and state log, before recovery. */
    constructor (config: Config, logs: Logs, events: seq<Event>)
      ensures this.config == config && View() == Broker(EmptyCore(logs), map[], map[], events)
    {
      this.config, this.logs, this.events := config, logs, events;
      catalog, roundRobin, groups, pending, deadLetters, index := map[], map[], map[], map[], [], map[];
    }

    // ---- topics and publishing ----

    /** `StateLog::append`, failing without a trace when `io` is false. */
    method AppendEvent(event: Event, io: bool)
      modifies this`events
      ensures events == if io then old(events) + [event] else old(events)
    {
      if io {
        events := events + [event];
      }
    }

    /** `logsOpen` tells whether the topic's message logs can be opened, which comes before the append. */
    method CreateTopic(name: Text, partitions: PartitionCount, logsOpen: bool, io: bool) returns (r: Response)
      modifies this
      ensures Stepped(View(), r) == StepCreate(old(View()), name, partitions, logsOpen && io)
    {
      if name in catalog {
        return Failed(TopicAlreadyExists(name));
      }
      if !logsOpen {
        return Failed(Io);
      }
      AppendEvent(TopicCreated(name, partitions), io);
      if !io {
        return Failed(Io);
      }
      catalog := catalog[name := partitions];
      roundRobin := roundRobin[name := 0];
      r := Created(name, partitions);
    }

    method PublishMessage(topic: Text, envelope: Envelope, io: bool) returns (r: Response)
      modifies this
      ensures Stepped(View(), r) == StepPublish(config, old(View()), topic, envelope, io)
    {
      if topic !in catalog {
        return Failed(TopicNotFound(topic));
      }
      var check := CheckIdempotency(config, topic, envelope, index);
      if check.Conflict? {
        return Failed(IdempotencyKeyConflict(topic));
      }
      if check.Retry? {
        return Published(topic, check.record.partition, check.record.offset, check.record.messageId, true);
      }
      var next := if topic in roundRobin then roundRobin[topic] else 0;
      var partition := SelectPartition(config, catalog[topic], next, envelope);
      if !io {
        return Failed(Io);
      }
      var log := LogOf(logs, LogId(topic, partition));
      var offset := |log|;
      logs := logs[LogId(topic, partition) := log + [envelope]];
      if envelope.partitionKey.None? {
        roundRobin := roundRobin[topic := Advance(next, catalog[topic])];
      }
      match check {
        case New(key, fingerprint) =>
          index := index[IndexKey(topic, key) := IdempotencyRecord(fingerprint, partition, offset, envelope.id)];
        case _ =>
      }
      r := Published(topic, partition, offset, envelope.id, false);
    }

    // ---- consuming ----

    /** `select_available_deliveries`: partition by partition and record by record, until enough are found. */
    method SelectAvailableDeliveries(cmd: Command)
        returns (r: Result<(seq<DeliveryEvent>, seq<ConsumedMessage>), Error>)
      requires cmd.Consume? && cmd.topic in catalog && cmd.maxMessages > 0
      ensures r == Selecting(config, CoreState(), cmd)
    {
      var c, count := CoreState(), catalog[cmd.topic];
      var es, messages := [], [];
      ghost var seen, picked := [], [];
      var p: nat := 0;
      while p < count && |es| < cmd.maxMessages
        invariant 0 <= p <= count
        invariant SelectedUpTo(config, c, cmd, seen, picked, es, messages)
        invariant |es| < cmd.maxMessages ==> seen == RecordsOf(logs, cmd.topic, p)
      {
        var log := LogOf(logs, LogId(cmd.topic, p));
        NextPartition(logs, cmd.topic, p);
        var i: nat := 0;
        while i < |log| && |es| < cmd.maxMessages
          invariant 0 <= i <= |log|
          invariant SelectedUpTo(config, c, cmd, seen, picked, es, messages)
          invariant |es| < cmd.maxMessages ==> seen == RecordsBefore(logs, cmd.topic, p, i)
        {
          ghost var record := Record(p, i, log[i]);
          NextRecord(logs, cmd.topic, count, p, i);
          var slot := State().SlotOf(SlotKey(cmd.group, cmd.topic, p));
          if slot.IsAvailable(i) {
            var pos := Position(cmd.group, MessageRef(cmd.topic, p, i));
            var attempt := slot.NextAttempt(i);
            var (lease, field) := LeaseOf(config, cmd.lease);
            var expires := AddMillis(cmd.timestamp, lease, field);
            if expires.Err? {
              PickedStep(State(), cmd.group, cmd.topic, RecordsOf(logs, cmd.topic, count), seen, picked, record);
              SelectionFails(config, c, cmd, seen + [record], picked + [record]);
              return Err(expires.error);
            }
            SelectTakes(config, c, cmd, seen, picked, es, messages, record, expires.value);
            var id := config.deliveryId(pos, attempt);
            var event := DeliveryEvent(id, cmd.consumer, pos, attempt, cmd.timestamp, expires.value);
            es := es + [event];
            messages := messages + [ConsumedMessage(event, log[i])];
            picked := picked + [record];
          } else {
            SelectSkips(config, c, cmd, seen, picked, es, messages, record);
          }
          seen := seen + [record];
          i := i + 1;
        }
        p := p + 1;
      }
      PickedAll(State(), cmd.group, cmd.topic, RecordsOf(logs, cmd.topic, count), seen, picked, cmd.maxMessages);
      r := Ok((es, messages));
    }

    method ApplyConsumedDelivery(e: DeliveryEvent)
      modifies this`groups, this`pending
      ensures State() == old(State()).Consumed(e)
    {
      var key := KeyOf(e.pos);
      var slot := new GroupPartitionState.Load(State().SlotOf(key));
      slot.MarkPending(e.pos.ref.offset, e.id, e.attempt);
      groups := groups[key := slot.Value()];
      pending := pending[e.id := PendingDelivery(e.pos, e.consumer, e.attempt, e.leaseExpiresAt)];
    }

    method ApplyConsumed(es: seq<DeliveryEvent>)
      modifies this`groups, this`pending
      ensures State() == ConsumeAll(old(State()), es)
    {
      for i := 0 to |es|
        invariant ConsumeAll(State(), es[i..]) == ConsumeAll(old(State()), es)
      {
        assert es[i..][0] == es[i] && es[i..][1..] == es[i + 1..];
        ApplyConsumedDelivery(es[i]);
      }
    }

    method ConsumeMessages(cmd: Command, io: bool) returns (r: Response)
      requires cmd.Consume?
      modifies this
      ensures Stepped(View(), r) == StepConsume(config, old(View()), cmd, io)
    {
      if cmd.topic !in catalog {
        return Failed(TopicNotFound(cmd.topic));
      }
      if cmd.maxMessages == 0 {
        return Delivered([]);
      }
      var selected := SelectAvailableDeliveries(cmd);
      if selected.Err? {
        return Failed(selected.error);
      }
      var (es, messages) := selected.value;
      if es == [] {
        return Delivered([]);
      }
      AppendEvent(MessagesConsumed(es), io);
      if !io {
        return Failed(Io);
      }
      ApplyConsumed(es);
      r := Delivered(messages);
    }

    // ---- settling deliveries ----

    method ApplyAck(id: Text, pos: Position)
      modifies this`groups, this`pending
      ensures State() == old(State()).Acked(id, pos)
    {
      pending := pending - {id};
      var slot := new GroupPartitionState.Load(State().SlotOf(KeyOf(pos)));
      slot.RemovePending(pos.ref.offset);
      slot.MarkAcked(pos.ref.offset);
      groups := groups[KeyOf(pos) := slot.Value()];
    }

    method AckDelivery(id: Text, consumer: Text, timestamp: nat, io: bool) returns (r: Response)
      modifies this
      ensures Stepped(View(), r) == StepAck(old(View()), id, consumer, timestamp, io)
    {
      var found := PendingFor(State(), id, consumer);
      if found.Err? {
        return Failed(found.error);
      }
      AppendEvent(MessageAcked(id, consumer, found.value.pos, timestamp), io);
      if !io {
        return Failed(Io);
      }
      ApplyAck(id, found.value.pos);
      r := Done;
    }

    method ApplyPendingOutcome(id: Text, pos: Position, settlement: Settlement, letter: Option<DeadLetter>)
        returns (error: Option<Error>)
      modifies this`groups, this`pending, this`deadLetters
      ensures Applied(State(), error) == old(State()).Settled(id, pos, settlement, letter)
    {
      pending := pending - {id};
      var slot := new GroupPartitionState.Load(State().SlotOf(KeyOf(pos)));
      slot.RemovePending(pos.ref.offset);
      match settlement {
        case RetryScheduled(readyAt) =>
          slot.MarkRetryScheduled(pos.ref.offset, RetryEntry(pos.ref, readyAt));
          groups := groups[KeyOf(pos) := slot.Value()];
        case DeadLettered(_, _) =>
          slot.MarkDeadLettered(pos.ref.offset);
          groups := groups[KeyOf(pos) := slot.Value()];
          if letter.None? {
            return Some(Corruption);
          }
          deadLetters := deadLetters + [letter.value];
      }
      error := None;
    }

    method NackDelivery(id: Text, consumer: Text, reason: Option<Text>, timestamp: nat, io: bool) returns (r: Response)
      modifies this
      ensures Stepped(View(), r) == StepNack(config, old(View()), id, consumer, reason, timestamp, io)
    {
      var found := PendingFor(State(), id, consumer);
      if found.Err? {
        return Failed(found.error);
      }
      var p := found.value;
      var computed := ComputeOutcome(config, CoreState(), p, timestamp, NackReason(reason));
      if computed.Err? {
        return Failed(computed.error);
      }
      AppendEvent(MessageNacked(id, consumer, p.pos, p.attempt, timestamp, computed.value.settlement), io);
      if !io {
        return Failed(Io);
      }
      var error := ApplyPendingOutcome(id, p.pos, computed.value.settlement, computed.value.letter);
      r := if error.Some? then Failed(error.value) else Done;
    }

    // ---- retry maintenance ----

    method ApplyRetryAvailable(pos: Position, timestamp: nat) returns (error: Option<Error>)
      modifies this`groups
      ensures Applied(State(), error) == old(State()).Readied(pos, timestamp)
    {
      var slot := new GroupPartitionState.Load(State().SlotOf(KeyOf(pos)));
      groups := groups[KeyOf(pos) := slot.Value()];
      if pos.ref.offset !in slot.retry || slot.retry[pos.ref.offset].readyAt > timestamp {
        return Some(Corruption);
      }
      slot.MarkRetryAvailable(pos.ref.offset);
      groups := groups[KeyOf(pos) := slot.Value()];
      error := None;
    }

    /** Outcomes of the expired deliveries and what they make available, before anything is changed. */
    method ComputeExpired(ids: seq<Text>, now: nat)
        returns (outs: Result<seq<Computed>, Error>, expired: seq<ExpiredDelivery>, due: seq<Position>, dead: nat)
      requires forall id :: id in ids ==> id in pending
      ensures outs == ComputeAll(config, CoreState(), ids, now)
      ensures outs.Ok? ==> expired == ExpiredEvents(State(), ids, now, outs.value)
      ensures outs.Ok? ==> due == DueAtOnce(State(), ids, now, outs.value) && dead == CountDead(outs.value)
    {
      var done: seq<Computed> := [];
      expired, due, dead := [], [], 0;
      for i := 0 to |ids|
        invariant |done| == i && ComputeAll(config, CoreState(), ids[..i], now) == Ok(done)
        invariant expired == ExpiredEvents(State(), ids[..i], now, done)
        invariant due == DueAtOnce(State(), ids[..i], now, done) && dead == CountDead(done)
      {
        assert ids[i] in ids && ids[..i + 1][..i] == ids[..i];
        var p := pending[ids[i]];
        var computed := ComputeOutcome(config, CoreState(), p, now, Expired);
        if computed.Err? {
          ComputeStops(config, CoreState(), ids, now, i + 1);
          return Err(computed.error), expired, due, dead;
        }
        var settlement := computed.value.settlement;
        if settlement.DeadLettered? {
          dead := dead + 1;
        }
        if settlement.RetryScheduled? && settlement.readyAt <= now {
          due := due + [p.pos];
        }
        expired := expired + [ExpiredDelivery(ids[i], p.consumer, p.pos, p.attempt, now, settlement)];
        OutcomeAdded(State(), ids, now, done, computed.value);
        done := done + [computed.value];
      }
      assert ids[..|ids|] == ids;
      outs := Ok(done);
    }

    /** Apply the outcomes one after the other, up to the first error. */
    method SettleExpired(ids: seq<Text>, outs: seq<Computed>) returns (error: Option<Error>)
      requires |outs| == |ids| && forall id :: id in ids ==> id in pending
      modifies this`groups, this`pending, this`deadLetters
      ensures Applied(State(), error) == SettleEach(old(State()), ids, outs)
    {
      var expired := pending;
      for i := 0 to |ids|
        invariant SettleEach(old(State()), ids[..i], outs[..i]) == Applied(State(), None)
      {
        assert ids[i] in ids && ids[..i + 1][..i] == ids[..i] && outs[..i + 1][..i] == outs[..i];
        error := ApplyPendingOutcome(ids[i], expired[ids[i]].pos, outs[i].settlement, outs[i].letter);
        if error.Some? {
          SettleStops(old(State()), ids, outs, i + 1);
          return;
        }
      }
      assert ids[..|ids|] == ids && outs[..|outs|] == outs;
      error := None;
    }

    method FreeDue(ps: seq<Position>, now: nat) returns (error: Option<Error>, count: nat)
      modifies this`groups
      ensures Applied(State(), error) == ReadyEach(old(State()), ps, now)
      ensures error.None? ==> count == |ps|
    {
      count := 0;
      for i := 0 to |ps|
        invariant ReadyEach(old(State()), ps[..i], now) == Applied(State(), None) && count == i
      {
        assert ps[..i + 1][..i] == ps[..i];
        error := ApplyRetryAvailable(ps[i], now);
        if error.Some? {
          ReadyStops(old(State()), ps, now, i + 1);
          return;
        }
        count := count + 1;
      }
      assert ps[..|ps|] == ps;
      error := None;
    }

    method ApplyMaintenance(ids: seq<Text>, outs: seq<Computed>, available: seq<Position>, now: nat)
        returns (error: Option<Error>, count: nat)
      requires |outs| == |ids| && forall id :: id in ids ==> id in pending
      requires available == Available(State(), ids, now, outs)
      modifies this`groups, this`pending, this`deadLetters
      ensures Applied(State(), error) == Maintain(old(State()), ids, now, outs)
      ensures error.None? ==> count == |available|
    {
      count := 0;
      error := SettleExpired(ids, outs);
      if error.None? {
        error, count := FreeDue(available, now);
      }
    }

    method CollectExpired(now: nat) returns (ids: seq<Text>)
      ensures ids == ExpiredIds(State(), now) && forall id :: id in ids ==> id in pending
    {
      TextOrder();
      ids := Traverse(TextLeq, ExpiredSet(State(), now));
      ExpiredIdsPending(State(), now);
    }

    method CollectReady(now: nat) returns (ready: seq<Position>)
      ensures ready == ReadyPositions(State(), now)
    {
      PositionOrder();
      ready := Traverse(PositionLeq, ReadySet(State(), now));
    }

    /** The second half of a pass: log what was computed, then apply it. */
    method LogAndApply(now: nat, io: bool, ids: seq<Text>, outs: seq<Computed>, expired: seq<ExpiredDelivery>,
                       available: seq<Position>, dead: nat) returns (r: Response)
      requires |outs| == |ids| && forall id :: id in ids ==> id in pending
      requires expired == ExpiredEvents(State(), ids, now, outs) && available == Available(State(), ids, now, outs)
      modifies this
      ensures !io ==> View() == old(View()) && r == Failed(Io)
      ensures var done := Maintain(old(State()), ids, now, outs);
        var summary := RetrySummary(|available|, |ids|, |available|, dead);
        io ==> Stepped(View(), r) ==
               Reply(old(View()), done, RetryMaintenanceApplied(now, expired, available), Maintained(summary))
    {
      AppendEvent(RetryMaintenanceApplied(now, expired, available), io);
      if !io {
        return Failed(Io);
      }
      var error, count := ApplyMaintenance(ids, outs, available, now);
      r := if error.Some? then Failed(error.value) else Maintained(RetrySummary(|available|, |ids|, count, dead));
    }

    method RunRetryReady(now: nat, io: bool) returns (r: Response)
      modifies this
      ensures Stepped(View(), r) == StepRetryReady(config, old(View()), now, io)
    {
      var ids := CollectExpired(now);
      PassIs(config, View(), now, io, ids);
      var ready := CollectReady(now);
      var outs, expired, due, dead := ComputeExpired(ids, now);
      if outs.Err? {
        return Failed(outs.error);
      }
      r := LogAndApply(now, io, ids, outs.value, expired, ready + due, dead);
    }

    // ---- opening ----

    method ReplayTopicCreated(topic: Text, partitions: PartitionCount) returns (error: Option<Error>)
      modifies this`catalog
      ensures Replays(ReplayOp(old(CoreState()), OpenTopic(topic, partitions)), error, CoreState())
    {
      if topic in catalog {
        return Some(Corruption);
      }
      catalog := catalog[topic := partitions];
      error := None;
    }

    method ReplayConsumedDelivery(e: DeliveryEvent) returns (error: Option<Error>)
      modifies this`groups, this`pending
      ensures Replays(ReplayOp(old(CoreState()), Deliver(e)), error, CoreState())
    {
      if !CoreState().HasMessage(e.pos.ref) {
        return Some(Corruption);
      }
      if e.id in pending {
        return Some(Corruption);
      }
      if !State().SlotOf(KeyOf(e.pos)).IsAvailable(e.pos.ref.offset) {
        return Some(Corruption);
      }
      ApplyConsumedDelivery(e);
      error := None;
    }

    method ReplayAck(id: Text, consumer: Text, pos: Position) returns (error: Option<Error>)
      modifies this`groups, this`pending
      ensures Replays(ReplayOp(old(CoreState()), Acknowledge(id, consumer, pos)), error, CoreState())
    {
      if !Matches(State(), id, consumer, pos) {
        return Some(Corruption);
      }
      ApplyAck(id, pos);
      error := None;
    }

    /** Replaying a NACK or an expiry: the dead letter is rebuilt from the message log. */
    method ReplayOutcome(id: Text, consumer: Text, pos: Position, attempt: nat, timestamp: nat, settlement: Settlement)
        returns (error: Option<Error>)
      modifies this`groups, this`pending, this`deadLetters
      ensures Replays(ReplayOp(old(CoreState()), Settle(id, consumer, pos, attempt, timestamp, settlement)),
                      error, CoreState())
    {
      if !Matches(State(), id, consumer, pos) || pending[id].attempt != attempt {
        return Some(Corruption);
      }
      var letter := LetterFor(CoreState(), pos, settlement, timestamp);
      if letter.Err? {
        return Some(letter.error);
      }
      error := ApplyPendingOutcome(id, pos, settlement, letter.value);
    }

    /** The loops over the entries of one event. */
    method ReplayDeliveries(es: seq<DeliveryEvent>) returns (error: Option<Error>)
      modifies this`groups, this`pending
      ensures Replays(ReplayOps(old(CoreState()), DeliverAll(es)), error, CoreState())
    {
      for i := 0 to |es|
        invariant ReplayOps(CoreState(), DeliverAll(es)[i..]) == ReplayOps(old(CoreState()), DeliverAll(es))
        invariant catalog == old(catalog) && logs == old(logs) && deadLetters == old(deadLetters)
      {
        FirstOp(CoreState(), DeliverAll(es), i);
        error := ReplayConsumedDelivery(es[i]);
        if error.Some? {
          return;
        }
      }
      error := None;
    }

    method ReplayExpired(es: seq<ExpiredDelivery>) returns (error: Option<Error>)
      modifies this`groups, this`pending, this`deadLetters
      ensures Replays(ReplayOps(old(CoreState()), SettleAll(es)), error, CoreState())
    {
      for i := 0 to |es|
        invariant ReplayOps(CoreState(), SettleAll(es)[i..]) == ReplayOps(old(CoreState()), SettleAll(es))
        invariant catalog == old(catalog) && logs == old(logs)
      {
        FirstOp(CoreState(), SettleAll(es), i);
        var e := es[i];
        error := ReplayOutcome(e.id, e.consumer, e.pos, e.attempt, e.timestamp, e.settlement);
        if error.Some? {
          return;
        }
      }
      error := None;
    }

    method ReplayAvailable(ps: seq<Position>, timestamp: nat) returns (error: Option<Error>)
      modifies this`groups
      ensures Replays(ReplayOps(old(CoreState()), ReadyAll(ps, timestamp)), error, CoreState())
    {
      for i := 0 to |ps|
        invariant ReplayOps(CoreState(), ReadyAll(ps, timestamp)[i..]) ==
            ReplayOps(old(CoreState()), ReadyAll(ps, timestamp))
        invariant catalog == old(catalog) && logs == old(logs)
        invariant pending == old(pending) && deadLetters == old(deadLetters)
      {
        FirstOp(CoreState(), ReadyAll(ps, timestamp), i);
        error := ApplyRetryAvailable(ps[i], timestamp);
        if error.Some? {
          return;
        }
      }
      error := None;
    }

    /** `apply_recovered_event` */
    method ApplyRecoveredEvent(event: Event) returns (error: Option<Error>)
      modifies this`catalog, this`groups, this`pending, this`deadLetters
      ensures Replays(ReplayOps(old(CoreState()), Ops(event)), error, CoreState())
    {
      match event {
        case TopicCreated(topic, partitions) =>
          SingleOp(CoreState(), OpenTopic(topic, partitions));
          error := ReplayTopicCreated(topic, partitions);
        case MessagesConsumed(deliveries) =>
          error := ReplayDeliveries(deliveries);
        case MessageAcked(id, consumer, pos, _) =>
          SingleOp(CoreState(), Acknowledge(id, consumer, pos));
          error := ReplayAck(id, consumer, pos);
        case MessageNacked(id, consumer, pos, attempt, timestamp, settlement) =>
          SingleOp(CoreState(), Settle(id, consumer, pos, attempt, timestamp, settlement));
          error := ReplayOutcome(id, consumer, pos, attempt, timestamp, settlement);
        case RetryMaintenanceApplied(timestamp, expired, available) =>
          ReplayAppend(CoreState(), SettleAll(expired), ReadyAll(available, timestamp));
          error := ReplayExpired(expired);
          if error.None? {
            error := ReplayAvailable(available, timestamp);
          }
      }
    }

    method ReplayEvents(log: seq<Event>) returns (error: Option<Error>)
      modifies this`catalog, this`groups, this`pending, this`deadLetters
      ensures Replays(ReplayOps(old(CoreState()), AllOps(log)), error, CoreState())
    {
      for i := 0 to |log|
        invariant ReplayOps(old(CoreState()), AllOps(log[..i])) == Ok(CoreState())
      {
        assert log[..i + 1][..i] == log[..i];
        ReplayAppend(old(CoreState()), AllOps(log[..i]), Ops(log[i]));
        error := ApplyRecoveredEvent(log[i]);
        if error.Some? {
          ReplayStops(old(CoreState()), log, i + 1);
          return;
        }
      }
      assert log[..|log|] == log;
      error := None;
    }

    /** One record of the scan, against the common index. */
    method NoteRecord(topic: Text, ghost before: Index, ghost seen: seq<Record>,
                      ghost keys: map<Text, IdempotencyRecord>, index: Index, record: Record)
        returns (r: Result<Index, Error>, ghost noted: map<Text, IdempotencyRecord>)
      requires ScannedTo(config, topic, seen, keys, before, index)
      ensures r.Ok? ==> ScannedTo(config, topic, seen + [record], noted, before, r.value)
      ensures r.Err? ==> r.error == Corruption && ScanKeys(config, topic, seen + [record]) == Err(Corruption)
      ensures Unkeyed(seen + [record]) == Unkeyed(seen) + if record.envelope.partitionKey.None? then 1 else 0
    {
      ScanOne(config, topic, seen, keys, before, index, record);
      r, noted := Ok(index), keys;
      match record.envelope.idempotencyKey {
        case None =>
        case Some(key) =>
          var entry := Entry(config, topic, record);
          if IndexKey(topic, key) !in index {
            r, noted := Ok(index[IndexKey(topic, key) := entry]), keys[key := entry];
          } else if index[IndexKey(topic, key)].fingerprint != entry.fingerprint {
            r := Err(Corruption);
          }
      }
    }

    /** `recover_publish_state` for one topic: one scan of its records rebuilds both the keys, added to
        those of the topics before, and the number of unkeyed messages. */
    method ScanTopic(topic: Text, before: Index) returns (r: Result<(Index, nat), Error>)
      requires topic in catalog && forall key :: key in before ==> key.topic != topic
      ensures r == TopicScan(config, topic, before, RecordsOf(logs, topic, catalog[topic]))
    {
      var index, unkeyed, count := before, 0, catalog[topic];
      ghost var seen, keys := [], map[];
      var p: nat := 0;
      while p < count
        invariant 0 <= p <= count && seen == RecordsOf(logs, topic, p)
        invariant ScannedTo(config, topic, seen, keys, before, index) && unkeyed == Unkeyed(seen)
      {
        var log := LogOf(logs, LogId(topic, p));
        NextPartition(logs, topic, p);
        var i: nat := 0;
        while i < |log|
          invariant 0 <= i <= |log| && seen == RecordsBefore(logs, topic, p, i)
          invariant ScannedTo(config, topic, seen, keys, before, index) && unkeyed == Unkeyed(seen)
        {
          var record := Record(p, i, log[i]);
          NextRecord(logs, topic, count, p, i);
          if record.envelope.partitionKey.None? {
            unkeyed := unkeyed + 1;
          }
          var noted;
          noted, keys := NoteRecord(topic, before, seen, keys, index, record);
          if noted.Err? {
            ScanFailsFrom(config, topic, seen + [record], RecordsOf(logs, topic, count));
            return Err(noted.error);
          }
          index := noted.value;
          seen := seen + [record];
          i := i + 1;
        }
        p := p + 1;
      }
      r := Ok((index, unkeyed));
    }

    /** One round of `recover_publish_state`. */
    method RecoverTopic(ghost topics: seq<Text>, ghost j: nat, topic: Text, index: Index, counters: map<Text, nat>)
        returns (r: Result<(Index, map<Text, nat>), Error>)
      requires ListsTopics(catalog, topics) && j < |topics| && topic == topics[j]
      requires AllRecovered(config, CoreState(), index, counters, topics[..j])
      ensures r.Ok? ==> AllRecovered(config, CoreState(), r.value.0, r.value.1, topics[..j + 1])
      ensures r.Err? ==> r.error == Corruption && !(forall t :: TopicScans(config, CoreState(), t))
    {
      NextTopic(config, CoreState(), index, counters, topics, j);
      var scan := ScanTopic(topic, index);
      if scan.Err? {
        TopicFails(config, CoreState(), topic);
        return Err(scan.error);
      }
      r := Ok((scan.value.0, counters[topic := scan.value.1 % catalog[topic]]));
    }

    method TopicsInOrder() returns (topics: seq<Text>)
      ensures ListsTopics(catalog, topics)
    {
      TextOrder();
      topics := Traverse(TextLeq, catalog.Keys);
      TopicsListed(catalog, topics);
    }

    /** `recover_publish_state`: topic by topic, in name order. */
    method RecoverPublishState() returns (error: Option<Error>)
      modifies this`index, this`roundRobin
      ensures error.None? <==> forall t :: TopicScans(config, CoreState(), t)
      ensures error.Some? ==> error.value == Corruption
      ensures error.None? ==> index == RecoveredIndex(config, CoreState())
      ensures error.None? ==> roundRobin == RecoveredRoundRobin(CoreState())
    {
      var topics := TopicsInOrder();
      var recovered: Index := map[];
      var counters: map<Text, nat> := map[];
      for j := 0 to |topics|
        invariant AllRecovered(config, CoreState(), recovered, counters, topics[..j])
      {
        var r := RecoverTopic(topics, j, topics[j], recovered, counters);
        if r.Err? {
          return Some(r.error);
        }
        recovered, counters := r.value.0, r.value.1;
      }
      AllTopicsRecovered(config, CoreState(), recovered, counters, topics);
      index, roundRobin := recovered, counters;
      error := None;
    }

    /** `release_recovered_pending`: every delivery in flight leaves both indexes. */
    method ReleaseRecoveredPending()
      requires State().Valid()
      modifies this`groups, this`pending
      ensures State() == old(State()).Release(old(pending).Keys)
    {
      var recovered := pending;
      var rest := recovered.Keys;
      ReleaseNothing(State());
      assert recovered.Keys - rest == {};
      pending := map[];
      while rest != {}
        invariant rest <= recovered.Keys && pending == map[]
        invariant groups == old(State()).Release(recovered.Keys - rest).groups
        decreases rest
      {
        var id :| id in rest;
        var pos := recovered[id].pos;
        ReleaseOne(old(State()), recovered.Keys - rest, id);
        var slot := new GroupPartitionState.Load(State().SlotOf(KeyOf(pos)));
        slot.RemovePending(pos.ref.offset);
        groups := groups[KeyOf(pos) := slot.Value()];
        assert recovered.Keys - rest + {id} == recovered.Keys - (rest - {id});
        rest := rest - {id};
      }
      assert recovered.Keys - {} == recovered.Keys && recovered - recovered.Keys == map[];
    }

    /** `open`, on a broker that has only its logs: replay, rebuild the publish state, release. */
    method Open() returns (error: Option<Error>)
      requires View() == Broker(EmptyCore(logs), map[], map[], events)
      modifies this
      ensures match Durable.Open(config, old(logs), old(events))
              case Ok(b) => error == None && View() == b
              case Err(e) => error == Some(e)
    {
      error := ReplayEvents(events);
      if error.Some? {
        return;
      }
      ReplayKeepsLogs(EmptyCore(old(logs)), AllOps(events));
      RecoveredStateIsValid(old(logs), events);
      error := RecoverPublishState();
      if error.Some? {
        return;
      }
      ReleaseRecoveredPending();
    }
  }

  /** `open` on a directory: recover the state log's bytes, then the broker over its events. */
  method OpenDirectory(config: Config, codec: StateCodec, logs: Logs, file: seq<byte>)
      returns (kept: seq<byte>, r: Result<DurableBroker, Disk.OpenError>)
    ensures kept == Kept(file)
    ensures var o := Disk.OpenDirectory(config, codec, logs, file);
      && (o.Err? ==> r == Err(o.error))
      && (o.Ok? ==> r.Ok? && fresh(r.value) && Disk.Opened(r.value.View(), kept) == o.value)
  {
    var events;
    kept, events := RecoverStateEvents(codec, file);
    if events.Err? {
      return kept, Err(Disk.MalformedLine(events.error));
    }
    var broker := new DurableBroker(config, logs, events.value);
    var error := broker.Open();
    r := if error.Some? then Err(Disk.Rejected(error.value)) else Ok(broker);
  }
}
