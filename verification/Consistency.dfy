/** The invariant of both brokers over everything they can reach. */
module Consistency {
  import opened Common
  import opened Domain
  import opened Delivery
  import opened Replay
  import opened Publish
  import opened Durable
  import opened Maintenance
  import opened Commit
  import opened Sessions
  import opened Attempts
  import opened Memory
  import opened Refinement

  /** Durable broker, in any session of any chain that opens: the four sets of a slot are disjoint and its
      cursor is the least unacknowledged offset; the two indexes of in-flight deliveries are inverse to
      each other with equal attempt numbers; the dead-letter list has each dead-lettered offset once. */
  lemma {:induction false} ReachableStateIsConsistent(cfg: Config, used: set<(Position, nat)>,
                                                      sessions: seq<seq<Call>>, last: seq<Call>)
    requires cfg.Valid() && Distinct(cfg, used) && SessionsUse(cfg, sessions, used)
    requires Reopened(cfg, sessions).Ok? && AllUse(cfg, Reopened(cfg, sessions).value, last, used)
    ensures Run(cfg, Reopened(cfg, sessions).value, last).core.Valid()
  {
    OpenedHasSlack(cfg, used, sessions);
    RunHistory(cfg, used, Reopened(cfg, sessions).value, last, 1);
  }

  // ---- the in-memory broker ----

  ghost predicate InStore(topics: TopicTable, d: DeliveryState, id: Text) {
    id in d.pending ==> StoredEnvelope(topics, d.pending[id].pos.ref).Ok?
  }

  /** The same invariant, and every message in flight exists under the id of its delivery. */
  ghost predicate Consistent(cfg: Config, used: set<(Position, nat)>, topics: TopicTable, d: DeliveryState) {
    d.Valid() && Owned(cfg, used, d) && forall id :: InStore(topics, d, id)
  }

  function Selected(m: MemoryBroker, cmd: Command): seq<Record>
    requires cmd.Consume? && cmd.topic in m.topics
  {
    var partitions := m.topics[cmd.topic].partitions;
    Take(AvailableRecords(m.delivery, cmd.group, cmd.topic, StoredRecords(partitions, |partitions|)), cmd.maxMessages)
  }

  /** `recs` can be delivered one after the other from `d`, as deliveries among `used`. */
  ghost predicate Deliverables(used: set<(Position, nat)>, topics: TopicTable, d: DeliveryState, cmd: Command,
                               recs: seq<Record>)
    requires cmd.Consume?
  {
    && (forall i, j :: 0 <= i < j < |recs| ==> Before(recs[i], recs[j]))
    && forall i :: 0 <= i < |recs| ==> DeliverableRecord(used, topics, d, cmd, recs[i])
  }

  ghost predicate DeliverableRecord(used: set<(Position, nat)>, topics: TopicTable, d: DeliveryState, cmd: Command,
                                    r: Record)
    requires cmd.Consume?
  {
    var pos := RecordPosition(cmd.group, cmd.topic, r);
    && Deliverable(d, cmd.group, cmd.topic, r) && StoredEnvelope(topics, pos.ref).Ok?
    && (pos, d.SlotOf(KeyOf(pos)).NextAttempt(r.offset)) in used
  }

  /** The deliveries the command makes are among `used`. */
  ghost predicate Makes(m: MemoryBroker, cmd: Command, used: set<(Position, nat)>) {
    cmd.Consume? && cmd.topic in m.topics ==>
      forall r :: r in Selected(m, cmd) ==>
        var pos := RecordPosition(cmd.group, cmd.topic, r);
        (pos, m.delivery.SlotOf(KeyOf(pos)).NextAttempt(r.offset)) in used
  }

  lemma SelectedAreDeliverable(used: set<(Position, nat)>, m: MemoryBroker, cmd: Command)
    requires cmd.Consume? && cmd.topic in m.topics && Makes(m, cmd, used)
    ensures Deliverables(used, m.topics, m.delivery, cmd, Selected(m, cmd))
  {
    var partitions := m.topics[cmd.topic].partitions;
    var logs: Logs := map p | 0 <= p < |partitions| :: LogId(cmd.topic, p) := partitions[p];
    var c := Core(map[cmd.topic := |partitions|], logs, m.delivery);
    SameRecords(logs, cmd.topic, partitions, |partitions|);
    SelectionIsSound(c, cmd.group, cmd.topic, cmd.maxMessages);
    var recs := Selected(m, cmd);
    forall i | 0 <= i < |recs| ensures DeliverableRecord(used, m.topics, m.delivery, cmd, recs[i]) {
      assert recs[i] in recs && c.HasMessage(RecordPosition(cmd.group, cmd.topic, recs[i]).ref);
    }
  }

  lemma DeliverOne(cfg: Config, used: set<(Position, nat)>, topics: TopicTable, d: DeliveryState, cmd: Command,
                   r: Record, e: DeliveryEvent)
    requires cmd.Consume? && Distinct(cfg, used)
    requires Consistent(cfg, used, topics, d) && DeliverableRecord(used, topics, d, cmd, r)
    requires e.pos == RecordPosition(cmd.group, cmd.topic, r)
    requires e.attempt == d.SlotOf(KeyOf(e.pos)).NextAttempt(r.offset)
    requires e.id == cfg.deliveryId(e.pos, e.attempt)
    ensures Consistent(cfg, used, topics, d.Consumed(e))
  {
    assert IdOwned(cfg, used, d, e.id) && d.IdLinked(e.id);
    ConsumedKeepsValid(d, e);
    forall id ensures IdOwned(cfg, used, d.Consumed(e), id) { assert IdOwned(cfg, used, d, id); }
    forall id ensures InStore(topics, d.Consumed(e), id) { assert InStore(topics, d, id); }
  }

  lemma {:induction false} DeliveringKeepsConsistent(cfg: Config, used: set<(Position, nat)>, topics: TopicTable,
                                                     d: DeliveryState,
                                                     cmd: Command, recs: seq<Record>)
    requires cmd.Consume? && Distinct(cfg, used)
    requires Consistent(cfg, used, topics, d) && Deliverables(used, topics, d, cmd, recs)
    ensures Consistent(cfg, used, topics, DeliverOneByOne(cfg, d, cmd, recs).0)
    decreases |recs|
  {
    if recs == [] {
    } else {
      assert DeliverableRecord(used, topics, d, cmd, recs[0]);
      var pos := RecordPosition(cmd.group, cmd.topic, recs[0]);
      var attempt := d.SlotOf(KeyOf(pos)).NextAttempt(recs[0].offset);
      match AddMillis(cmd.timestamp, LeaseOf(cfg, cmd.lease).0, LeaseOf(cfg, cmd.lease).1) {
        case Err(_) => TouchedIsConsistent(cfg, used, topics, d, KeyOf(pos));
        case Ok(expires) =>
          var e := DeliveryEvent(cfg.deliveryId(pos, attempt), cmd.consumer, pos, attempt, cmd.timestamp, expires);
          DeliverOne(cfg, used, topics, d, cmd, recs[0], e);
          forall i | 0 <= i < |recs[1..]| ensures DeliverableRecord(used, topics, d.Consumed(e), cmd, recs[1..][i]) {
            assert DeliverableRecord(used, topics, d, cmd, recs[i + 1]) && Before(recs[0], recs[i + 1]);
          }
          DeliveringKeepsConsistent(cfg, used, topics, d.Consumed(e), cmd, recs[1..]);
      }
    }
  }

  lemma TouchedIsConsistent(cfg: Config, used: set<(Position, nat)>, topics: TopicTable, d: DeliveryState, key: SlotKey)
    requires Consistent(cfg, used, topics, d)
    ensures Consistent(cfg, used, topics, Touch(d, key))
  {
    forall k ensures SameSlot(d, d, k) {}
    TouchSame(d, d, key);
    SameValid(d, Touch(d, key));
    forall id ensures IdOwned(cfg, used, Touch(d, key), id) { assert IdOwned(cfg, used, d, id); }
    forall id ensures InStore(topics, Touch(d, key), id) { assert InStore(topics, d, id); }
  }

  /** Fewer deliveries in flight, everything else as before. */
  lemma FewerInFlight(cfg: Config, used: set<(Position, nat)>, topics: TopicTable, d: DeliveryState,
                      d': DeliveryState, ids: set<Text>)
    requires Consistent(cfg, used, topics, d) && d'.Valid() && d'.pending == d.pending - ids
    ensures Consistent(cfg, used, topics, d')
  {
    forall id ensures IdOwned(cfg, used, d', id) { assert IdOwned(cfg, used, d, id); }
    forall id ensures InStore(topics, d', id) { assert InStore(topics, d, id); }
  }

  /** A delivery that left flight without being settled, as after an overflow: its message is available again. */
  lemma DroppedKeepsValid(d: DeliveryState, id: Text)
    requires d.Valid() && id in d.pending
    ensures var key, o := KeyOf(d.pending[id].pos), d.pending[id].pos.ref.offset;
      DropPending(d, id).(groups := d.groups[key := d.SlotOf(key).Unpend(o)]).Valid()
  {
    var pos := d.pending[id].pos;
    var key, o := KeyOf(pos), pos.ref.offset;
    var d' := DropPending(d, id).(groups := d.groups[key := d.SlotOf(key).Unpend(o)]);
    assert d.SlotValid(key) && d.IdLinked(id);
    SlotsKept(d, d', key);
    LinkRemoved(d, d', id);
    forall x ensures d'.RetryLinked(key, x) { assert d.RetryLinked(key, x); }
    RetriesKept(d, d', key);
    LettersKept(d, d', key);
  }

  /** Settling in place keeps the invariant even when the retry time overflows halfway. */
  lemma ScheduleKeepsConsistent(cfg: Config, used: set<(Position, nat)>, topics: TopicTable, d: DeliveryState, id: Text,
                                timestamp: nat, reason: Reason)
    requires Consistent(cfg, used, topics, d) && id in d.pending
    ensures var after := Schedule(cfg, topics, DropPending(d, id), d.pending[id], timestamp, reason).state;
      Consistent(cfg, used, topics, after) && after.pending == d.pending - {id}
  {
    var p := d.pending[id];
    var done := Schedule(cfg, topics, DropPending(d, id), p, timestamp, reason);
    assert InStore(topics, d, id);
    if p.attempt + 1 > cfg.maxAttempts {
      var letter := DeadLetter(p.pos, StoredEnvelope(topics, p.pos.ref).value, reason, p.attempt, timestamp);
      BuryKeepsValid(d, id, DeadLettered(reason, p.attempt), letter);
      assert done.state == d.Settled(id, p.pos, DeadLettered(reason, p.attempt), Some(letter)).state;
    } else if done.error.None? {
      var at := done.state.SlotOf(KeyOf(p.pos)).retry[p.pos.ref.offset].readyAt;
      RetryKeepsValid(d, id, at);
      assert done.state == d.Settled(id, p.pos, RetryScheduled(at), None).state;
    } else {
      DroppedKeepsValid(d, id);
    }
    FewerInFlight(cfg, used, topics, d, done.state, {id});
  }

  lemma {:induction false} ExpiryKeepsConsistent(cfg: Config, used: set<(Position, nat)>, topics: TopicTable,
                                                 d: DeliveryState,
                                                 ids: seq<Text>, now: nat)
    requires Consistent(cfg, used, topics, d) && NoDuplicates(ids) && forall id :: id in ids ==> id in d.pending
    ensures var done := ExpireEach(cfg, topics, d, ids, now);
      && Consistent(cfg, used, topics, done.state)
      && (done.error.None? ==> done.state.pending == d.pending - Elements(ids))
    decreases |ids|
  {
    if ids == [] {
    } else {
      var last := |ids| - 1;
      ExpiryKeepsConsistent(cfg, used, topics, d, ids[..last], now);
      var before := ExpireEach(cfg, topics, d, ids[..last], now);
      if before.error.None? {
        LastElement(ids);
        ScheduleKeepsConsistent(cfg, used, topics, before.state, ids[last], now, Expired);
      }
    }
  }

  lemma {:induction false} FreeingKeepsConsistent(cfg: Config, used: set<(Position, nat)>, topics: TopicTable,
                                                  d: DeliveryState,
                                                  ps: seq<Position>, now: nat)
    requires Consistent(cfg, used, topics, d)
    ensures Consistent(cfg, used, topics, FreeEach(d, ps, now).0)
    decreases |ps|
  {
    if ps == [] {
    } else {
      var last := |ps| - 1;
      FreeingKeepsConsistent(cfg, used, topics, d, ps[..last], now);
      var before := FreeEach(d, ps[..last], now).0;
      if IsReady(before, ps[last], now) {
        ReadiedKeepsValid(before, ps[last], now);
        FewerInFlight(cfg, used, topics, before, before.Readied(ps[last], now).state, {});
      } else {
        TouchedIsConsistent(cfg, used, topics, before, KeyOf(ps[last]));
      }
    }
  }

  ghost predicate MemoryConsistent(cfg: Config, used: set<(Position, nat)>, m: MemoryBroker) {
    Consistent(cfg, used, m.topics, m.delivery)
  }

  lemma MoreMessages(cfg: Config, used: set<(Position, nat)>, topics: TopicTable, topics': TopicTable, d: DeliveryState)
    requires Consistent(cfg, used, topics, d)
    requires forall ref :: StoredEnvelope(topics, ref).Ok? ==> StoredEnvelope(topics', ref).Ok?
    ensures Consistent(cfg, used, topics', d)
  {
    forall id ensures InStore(topics', d, id) { assert InStore(topics, d, id); }
  }

  lemma AnswerKeepsConsistent(cfg: Config, used: set<(Position, nat)>, m: MemoryBroker, cmd: Command)
    requires cfg.Valid() && Distinct(cfg, used) && MemoryConsistent(cfg, used, m) && Makes(m, cmd, used)
    ensures MemoryConsistent(cfg, used, Answer(cfg, m, cmd).broker)
  {
    var m' := Answer(cfg, m, cmd).broker;
    match cmd {
      case CreateTopic(_, _) => MoreMessages(cfg, used, m.topics, m'.topics, m.delivery);
      case Publish(_, _) => MoreMessages(cfg, used, m.topics, m'.topics, m.delivery);
      case Consume(topic, _, _, _, _, _) =>
        if topic in m.topics {
          SelectedAreDeliverable(used, m, cmd);
          DeliveringKeepsConsistent(cfg, used, m.topics, m.delivery, cmd, Selected(m, cmd));
        }
      case Ack(id, consumer, _) =>
        if PendingFor(m.delivery, id, consumer).Ok? {
          AckedKeepsValid(m.delivery, id);
          FewerInFlight(cfg, used, m.topics, m.delivery, m'.delivery, {id});
        }
      case Nack(id, consumer, reason, timestamp) =>
        if PendingFor(m.delivery, id, consumer).Ok? {
          ScheduleKeepsConsistent(cfg, used, m.topics, m.delivery, id, timestamp, NackReason(reason));
        }
      case RetryReady(now) =>
        var ids := ExpiredIds(m.delivery, now);
        ExpiredIdsPending(m.delivery, now);
        ExpiryKeepsConsistent(cfg, used, m.topics, m.delivery, ids, now);
        var expired := ExpireEach(cfg, m.topics, m.delivery, ids, now);
        FreeingKeepsConsistent(cfg, used, m.topics, expired.state, ReadyPositions(expired.state, now), now);
    }
  }

  /** The deliveries of the run are among `used`. */
  ghost predicate AllMakes(cfg: Config, cmds: seq<Command>, used: set<(Position, nat)>)
    requires cfg.Valid()
  {
    cmds == []
    || (AllMakes(cfg, cmds[..|cmds| - 1], used)
        && Makes(AnswerAll(cfg, EmptyMemory(), cmds[..|cmds| - 1]), cmds[|cmds| - 1], used))
  }

  /** In-memory broker, after any commands, overflowing retry times included: the same invariant. */
  lemma {:induction false} MemoryStateIsConsistent(cfg: Config, used: set<(Position, nat)>, cmds: seq<Command>)
    requires cfg.Valid() && Distinct(cfg, used) && AllMakes(cfg, cmds, used)
    ensures MemoryConsistent(cfg, used, AnswerAll(cfg, EmptyMemory(), cmds))
    decreases |cmds|
  {
    if cmds == [] {
      EmptyIsValid();
    } else {
      MemoryStateIsConsistent(cfg, used, cmds[..|cmds| - 1]);
      AnswerKeepsConsistent(cfg, used, AnswerAll(cfg, EmptyMemory(), cmds[..|cmds| - 1]), cmds[|cmds| - 1]);
    }
  }
}
