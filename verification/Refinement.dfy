/** The durable broker against the in-memory one: with working appends both give the same answers, and
    the states stay the same except where a retry time overflows. */
module Refinement {
  import opened Common
  import opened Domain
  import opened GroupState
  import opened Delivery
  import opened Replay
  import opened Publish
  import opened Durable
  import opened Maintenance
  import opened Commit
  import opened Idempotency
  import opened Sessions
  import opened Attempts
  import opened Memory

  /** Equal up to default slots, which cannot be told from missing ones. */
  ghost predicate SameDelivery(d: DeliveryState, e: DeliveryState) {
    d.pending == e.pending && d.deadLetters == e.deadLetters && forall k :: SameSlot(d, e, k)
  }

  ghost predicate SameSlot(d: DeliveryState, e: DeliveryState, k: SlotKey) {
    d.SlotOf(k) == e.SlotOf(k)
  }

  ghost predicate SameTopic(b: Broker, m: MemoryBroker, t: Text) {
    && (t in m.topics <==> t in b.core.catalog)
    && (t in m.topics ==>
          && |m.topics[t].partitions| == b.core.catalog[t] && m.topics[t].nextRoundRobin == NextOf(b, t)
          && forall p :: 0 <= p < b.core.catalog[t] ==> m.topics[t].partitions[p] == b.core.Log(t, p))
  }

  ghost predicate Related(b: Broker, m: MemoryBroker) {
    (forall t :: SameTopic(b, m, t)) && b.index == m.index && SameDelivery(b.core.delivery, m.delivery)
  }

  // ---- topics and publishing ----

  lemma CreateRelated(cfg: Config, b: Broker, m: MemoryBroker, name: Text, partitions: PartitionCount)
    requires Sound(cfg, b) && Related(b, m)
    ensures var s, a := StepCreate(b, name, partitions, true), Create(m, name, partitions);
      s.response == a.response && Related(s.broker, a.broker)
  {
    var s, a := StepCreate(b, name, partitions, true), Create(m, name, partitions);
    assert SameTopic(b, m, name);
    if name !in m.topics {
      forall t ensures SameTopic(s.broker, a.broker, t) {
        assert SameTopic(b, m, t);
        if t == name {
          forall p | 0 <= p < partitions ensures a.broker.topics[name].partitions[p] == s.broker.core.Log(name, p) {
            assert Rooted(b.core, LogId(name, p));
          }
        }
      }
    }
  }

  lemma PublishRelated(cfg: Config, b: Broker, m: MemoryBroker, topic: Text, envelope: Envelope)
    requires cfg.Valid() && Related(b, m)
    ensures var s, a := StepPublish(cfg, b, topic, envelope, true), Append(cfg, m, topic, envelope);
      s.response == a.response && Related(s.broker, a.broker)
  {
    var s, a := StepPublish(cfg, b, topic, envelope, true), Append(cfg, m, topic, envelope);
    assert SameTopic(b, m, topic);
    forall t ensures SameTopic(s.broker, a.broker, t) { assert SameTopic(b, m, t); }
  }

  // ---- consuming ----

  lemma {:induction false} SameRecords(logs: Logs, topic: Text, partitions: seq<seq<Envelope>>, count: nat)
    requires count <= |partitions| && forall p :: 0 <= p < count ==> partitions[p] == LogOf(logs, LogId(topic, p))
    ensures StoredRecords(partitions, count) == RecordsOf(logs, topic, count)
  {
    if count == 0 {
    } else {
      SameRecords(logs, topic, partitions, count - 1);
    }
  }

  lemma {:induction false} SameAvailable(d: DeliveryState, e: DeliveryState, group: Text, topic: Text,
                                         recs: seq<Record>)
    requires SameDelivery(d, e)
    ensures AvailableRecords(d, group, topic, recs) == AvailableRecords(e, group, topic, recs)
  {
    if recs == [] {
    } else {
      SameAvailable(d, e, group, topic, recs[..|recs| - 1]);
      assert SameSlot(d, e, SlotKey(group, topic, recs[|recs| - 1].partition));
    }
  }

  lemma SameConsumed(d: DeliveryState, e: DeliveryState, x: DeliveryEvent)
    requires SameDelivery(d, e)
    ensures SameDelivery(d.Consumed(x), e.Consumed(x))
  {
    forall k ensures SameSlot(d.Consumed(x), e.Consumed(x), k) {
      assert SameSlot(d, e, k) && SameSlot(d, e, KeyOf(x.pos));
    }
  }

  /** A delivery does not change the attempt number another message would get. */
  lemma LaterDeliveries(cfg: Config, d: DeliveryState, cmd: Command, expires: nat, recs: seq<Record>)
    requires cmd.Consume? && recs != [] && forall i, j :: 0 <= i < j < |recs| ==> Before(recs[i], recs[j])
    ensures var es := DeliveriesFor(cfg, d, cmd.topic, cmd.group, cmd.consumer, cmd.timestamp, expires, recs);
      var d' := d.Consumed(es[0]);
      DeliveriesFor(cfg, d', cmd.topic, cmd.group, cmd.consumer, cmd.timestamp, expires, recs[1..]) == es[1..]
  {
    var es := DeliveriesFor(cfg, d, cmd.topic, cmd.group, cmd.consumer, cmd.timestamp, expires, recs);
    var later := DeliveriesFor(cfg, d.Consumed(es[0]), cmd.topic, cmd.group, cmd.consumer, cmd.timestamp, expires,
        recs[1..]);
    forall i | 0 <= i < |later| ensures later[i] == es[1..][i] {
      assert Before(recs[0], recs[i + 1]);
    }
  }

  lemma {:induction false} OneByOne(cfg: Config, d: DeliveryState, e: DeliveryState, cmd: Command, expires: nat,
                                    recs: seq<Record>)
    requires cmd.Consume? && SameDelivery(d, e)
    requires AddMillis(cmd.timestamp, LeaseOf(cfg, cmd.lease).0, LeaseOf(cfg, cmd.lease).1) == Ok(expires)
    requires forall i, j :: 0 <= i < j < |recs| ==> Before(recs[i], recs[j])
    ensures var es := DeliveriesFor(cfg, d, cmd.topic, cmd.group, cmd.consumer, cmd.timestamp, expires, recs);
      && DeliverOneByOne(cfg, e, cmd, recs).1 == Ok(Messages(es, recs))
      && SameDelivery(ConsumeAll(d, es), DeliverOneByOne(cfg, e, cmd, recs).0)
    decreases |recs|
  {
    var es := DeliveriesFor(cfg, d, cmd.topic, cmd.group, cmd.consumer, cmd.timestamp, expires, recs);
    if recs == [] {
      assert es == [] && Messages(es, recs) == [];
    } else {
      assert SameSlot(d, e, KeyOf(es[0].pos));
      SameConsumed(d, e, es[0]);
      LaterDeliveries(cfg, d, cmd, expires, recs);
      OneByOne(cfg, d.Consumed(es[0]), e.Consumed(es[0]), cmd, expires, recs[1..]);
      assert Messages(es, recs) == [ConsumedMessage(es[0], recs[0].envelope)] + Messages(es[1..], recs[1..]);
    }
  }

  lemma TouchSame(d: DeliveryState, e: DeliveryState, key: SlotKey)
    requires SameDelivery(d, e)
    ensures SameDelivery(d, Touch(e, key))
  {
    forall k ensures SameSlot(d, Touch(e, key), k) { assert SameSlot(d, e, k); }
  }

  lemma {:induction false} ConsumeRelated(cfg: Config, b: Broker, m: MemoryBroker, cmd: Command)
    requires cmd.Consume? && Related(b, m)
    ensures var s, a := StepConsume(cfg, b, cmd, true), ConsumeNow(cfg, m, cmd);
      s.response == a.response && Related(s.broker, a.broker)
  {
    var s, a := StepConsume(cfg, b, cmd, true), ConsumeNow(cfg, m, cmd);
    assert SameTopic(b, m, cmd.topic);
    if cmd.topic in m.topics {
      var t := m.topics[cmd.topic];
      SameRecords(b.core.logs, cmd.topic, t.partitions, |t.partitions|);
      SameAvailable(b.core.delivery, m.delivery, cmd.group, cmd.topic, StoredRecords(t.partitions, |t.partitions|));
      SelectionIsSound(b.core, cmd.group, cmd.topic, cmd.maxMessages);
      var recs := Selection(b.core, cmd.group, cmd.topic, cmd.maxMessages);
      if recs != [] {
        match AddMillis(cmd.timestamp, LeaseOf(cfg, cmd.lease).0, LeaseOf(cfg, cmd.lease).1) {
          case Ok(expires) => OneByOne(cfg, b.core.delivery, m.delivery, cmd, expires, recs);
          case Err(_) => TouchSame(b.core.delivery, m.delivery, KeyOf(RecordPosition(cmd.group, cmd.topic, recs[0])));
        }
      }
      RelatedDelivery(b, m, s.broker, a.broker);
    }
  }

  lemma RelatedDelivery(b: Broker, m: MemoryBroker, b': Broker, m': MemoryBroker)
    requires Related(b, m) && SameDelivery(b'.core.delivery, m'.delivery)
    requires b'.core.catalog == b.core.catalog && b'.core.logs == b.core.logs
    requires b'.roundRobin == b.roundRobin && b'.index == b.index
    requires m'.topics == m.topics && m'.index == m.index
    ensures Related(b', m')
  {
    forall t ensures SameTopic(b', m', t) { assert SameTopic(b, m, t); }
  }

  // ---- settling ----

  lemma SameValid(d: DeliveryState, e: DeliveryState)
    requires SameDelivery(d, e) && d.Valid()
    ensures e.Valid()
  {
    forall k ensures e.SlotValid(k) { assert d.SlotValid(k) && SameSlot(d, e, k); }
    forall k, o ensures e.SlotLinked(k, o) { assert d.SlotLinked(k, o) && SameSlot(d, e, k); }
    forall id ensures e.IdLinked(id) {
      assert d.IdLinked(id);
      if id in d.pending { assert SameSlot(d, e, KeyOf(d.pending[id].pos)); }
    }
    forall k, o ensures e.RetryLinked(k, o) { assert d.RetryLinked(k, o) && SameSlot(d, e, k); }
    forall pos ensures e.IsDead(pos) <==> d.IsDead(pos) { assert SameSlot(d, e, KeyOf(pos)); }
    assert forall pos :: e.HasLetter(pos) <==> d.HasLetter(pos);
  }

  lemma SameUpdate(d: DeliveryState, e: DeliveryState, d': DeliveryState, e': DeliveryState, key: SlotKey, slot: Slot)
    requires SameDelivery(d, e) && d'.groups == d.groups[key := slot] && e'.groups == e.groups[key := slot]
    requires d'.pending == e'.pending && d'.deadLetters == e'.deadLetters
    ensures SameDelivery(d', e')
  {
    forall k ensures SameSlot(d', e', k) { assert SameSlot(d, e, k); }
  }

  /** The branch in which computing a retry time overflows. */
  ghost predicate Overflows(cfg: Config, p: PendingDelivery, timestamp: nat) {
    p.attempt + 1 <= cfg.maxAttempts && cfg.backoffMillis.Some? && timestamp + cfg.backoffMillis.value > U64_MAX
  }

  ghost predicate SameMessages(b: Broker, m: MemoryBroker) {
    forall t :: SameTopic(b, m, t)
  }

  lemma ScheduleMatches(cfg: Config, b: Broker, m: MemoryBroker, d: DeliveryState, e: DeliveryState, id: Text,
                        p: PendingDelivery, timestamp: nat, reason: Reason)
    requires SameMessages(b, m) && SameDelivery(d, e) && b.core.HasMessage(p.pos.ref) && p.attempt + 1 <= U32_MAX
    ensures var out := ComputeOutcome(cfg, b.core, p, timestamp, reason);
      var done := Schedule(cfg, m.topics, DropPending(e, id), p, timestamp, reason);
      && (out.Err? <==> Overflows(cfg, p, timestamp))
      && (out.Ok? ==> done.error == None)
      && (out.Ok? ==> d.Settled(id, p.pos, out.value.settlement, out.value.letter).error == None)
      && (out.Ok? ==> SameDelivery(d.Settled(id, p.pos, out.value.settlement, out.value.letter).state, done.state))
      && (out.Err? ==> done.error == Some(out.error))
      && done.state.pending == e.pending - {id}
  {
    assert SameTopic(b, m, p.pos.ref.topic);
    var key, o := KeyOf(p.pos), p.pos.ref.offset;
    assert SameSlot(d, e, key);
    var out := ComputeOutcome(cfg, b.core, p, timestamp, reason);
    if out.Ok? {
      var d' := d.Settled(id, p.pos, out.value.settlement, out.value.letter).state;
      var done := Schedule(cfg, m.topics, DropPending(e, id), p, timestamp, reason);
      var slot := d.SlotOf(key).Unpend(o);
      match out.value.settlement {
        case RetryScheduled(at) =>
          SameUpdate(d, e, d', done.state, key, slot.ScheduleRetry(o, RetryEntry(p.pos.ref, at)));
        case DeadLettered(_, _) =>
          SameUpdate(d, e, d', done.state, key, slot.Bury(o));
      }
    }
  }

  /** Attempt numbers in flight leave room for the next one in 32 bits. */
  ghost predicate RoomForNext(d: DeliveryState) {
    forall id :: id in d.pending ==> d.pending[id].attempt + 1 <= U32_MAX
  }

  lemma NackRelated(cfg: Config, b: Broker, m: MemoryBroker, id: Text, consumer: Text, reason: Option<Text>,
                    timestamp: nat)
    requires Related(b, m) && b.core.Valid() && RoomForNext(b.core.delivery)
    ensures var s := StepNack(cfg, b, id, consumer, reason, timestamp, true);
      var a := NackNow(cfg, m, id, consumer, reason, timestamp);
      && s.response == a.response
      && (Related(s.broker, a.broker) <==>
            !(PendingFor(b.core.delivery, id, consumer).Ok? && Overflows(cfg, b.core.delivery.pending[id], timestamp)))
  {
    var s := StepNack(cfg, b, id, consumer, reason, timestamp, true);
    var a := NackNow(cfg, m, id, consumer, reason, timestamp);
    if PendingFor(b.core.delivery, id, consumer).Ok? {
      var p := b.core.delivery.pending[id];
      assert b.core.IdHasMessage(id);
      ScheduleMatches(cfg, b, m, b.core.delivery, m.delivery, id, p, timestamp, NackReason(reason));
      if !Overflows(cfg, p, timestamp) {
        var out := ComputeOutcome(cfg, b.core, p, timestamp, NackReason(reason)).value;
        ComputedMatchesReplay(cfg, b.core, p, timestamp, NackReason(reason));
        SettledStep(b.core.delivery, id, out.settlement, out.letter, timestamp);
        RelatedDelivery(b, m, s.broker, a.broker);
      } else {
        assert id in s.broker.core.delivery.pending && id !in a.broker.delivery.pending;
      }
    }
  }

  lemma AckRelated(cfg: Config, b: Broker, m: MemoryBroker, id: Text, consumer: Text, timestamp: nat)
    requires Related(b, m)
    ensures var s, a := StepAck(b, id, consumer, timestamp, true), AckNow(m, id, consumer);
      s.response == a.response && Related(s.broker, a.broker)
  {
    var s, a := StepAck(b, id, consumer, timestamp, true), AckNow(m, id, consumer);
    if PendingFor(b.core.delivery, id, consumer).Ok? {
      var key := KeyOf(b.core.delivery.pending[id].pos);
      assert SameSlot(b.core.delivery, m.delivery, key);
      SameUpdate(b.core.delivery, m.delivery, s.broker.core.delivery, a.broker.delivery, key,
          s.broker.core.delivery.groups[key]);
      RelatedDelivery(b, m, s.broker, a.broker);
    }
  }

  // ---- retry maintenance ----

  /** Both brokers expiring `ids`: the durable one computes all outcomes before it changes anything. */
  ghost predicate ExpiredAlike(cfg: Config, b: Broker, m: MemoryBroker, ids: seq<Text>, now: nat)
    requires forall id :: id in ids ==> id in b.core.delivery.pending && id in m.delivery.pending
  {
    var outs := ComputeAll(cfg, b.core, ids, now);
    var done := ExpireEach(cfg, m.topics, m.delivery, ids, now);
    && (outs.Err? <==> exists id :: id in ids && Overflows(cfg, b.core.delivery.pending[id], now))
    && (outs.Ok? ==> done.error == None && SettleEach(b.core.delivery, ids, outs.value).error == None)
    && (outs.Ok? ==> SameDelivery(SettleEach(b.core.delivery, ids, outs.value).state, done.state))
    && (outs.Err? ==> done.error == Some(outs.error))
    && (ids != [] ==> ids[0] !in done.state.pending)
  }

  lemma ExpireFailed(cfg: Config, b: Broker, m: MemoryBroker, ids: seq<Text>, now: nat)
    requires Related(b, m) && ids != [] && forall id :: id in ids ==> id in b.core.delivery.pending
    requires ExpiredAlike(cfg, b, m, ids[..|ids| - 1], now) && ComputeAll(cfg, b.core, ids[..|ids| - 1], now).Err?
    ensures ExpiredAlike(cfg, b, m, ids, now)
  {
    var id :| id in ids[..|ids| - 1] && Overflows(cfg, b.core.delivery.pending[id], now);
    assert id in ids;
  }

  /** Both brokers settling the last of the expired deliveries, the others being settled already. */
  ghost predicate LastAlike(cfg: Config, b: Broker, m: MemoryBroker, ids: seq<Text>, now: nat)
    requires ids != [] && forall id :: id in ids ==> id in b.core.delivery.pending && id in m.delivery.pending
    requires ComputeAll(cfg, b.core, ids[..|ids| - 1], now).Ok?
  {
    var last, p := |ids| - 1, b.core.delivery.pending[ids[|ids| - 1]];
    var d := SettleEach(b.core.delivery, ids[..last], ComputeAll(cfg, b.core, ids[..last], now).value).state;
    var out := ComputeOutcome(cfg, b.core, p, now, Expired);
    var done := ExpireEach(cfg, m.topics, m.delivery, ids, now);
    && (out.Err? <==> Overflows(cfg, p, now))
    && (out.Ok? ==> done.error == None)
    && (out.Ok? ==> d.Settled(ids[last], p.pos, out.value.settlement, out.value.letter).error == None)
    && (out.Ok? ==> SameDelivery(d.Settled(ids[last], p.pos, out.value.settlement, out.value.letter).state, done.state))
    && (out.Err? ==> done.error == Some(out.error))
    && ids[0] !in done.state.pending
  }

  lemma {:induction false} LastOutcome(cfg: Config, b: Broker, m: MemoryBroker, ids: seq<Text>, now: nat)
    requires Related(b, m) && (forall id :: b.core.IdHasMessage(id)) && RoomForNext(b.core.delivery)
    requires ids != [] && forall id :: id in ids ==> id in b.core.delivery.pending
    requires ExpiredAlike(cfg, b, m, ids[..|ids| - 1], now) && ComputeAll(cfg, b.core, ids[..|ids| - 1], now).Ok?
    ensures LastAlike(cfg, b, m, ids, now)
  {
    var last := |ids| - 1;
    var d := SettleEach(b.core.delivery, ids[..last], ComputeAll(cfg, b.core, ids[..last], now).value).state;
    var e := ExpireEach(cfg, m.topics, m.delivery, ids[..last], now).state;
    assert b.core.IdHasMessage(ids[last]);
    ScheduleMatches(cfg, b, m, d, e, ids[last], b.core.delivery.pending[ids[last]], now, Expired);
  }

  /** Some outcome fails exactly if some retry time overflows. */
  lemma {:induction false} FailsIffOverflow(cfg: Config, c: Core, ids: seq<Text>, now: nat)
    requires ids != [] && forall id :: id in ids ==> id in c.delivery.pending
    requires ComputeAll(cfg, c, ids[..|ids| - 1], now).Ok?
    requires !(exists id :: id in ids[..|ids| - 1] && Overflows(cfg, c.delivery.pending[id], now))
    requires var p := c.delivery.pending[ids[|ids| - 1]];
      ComputeOutcome(cfg, c, p, now, Expired).Err? <==> Overflows(cfg, p, now)
    ensures ComputeAll(cfg, c, ids, now).Err? <==> exists id :: id in ids && Overflows(cfg, c.delivery.pending[id], now)
  {
    var last := |ids| - 1;
    assert ids == ids[..last] + [ids[last]];
  }

  lemma {:induction false} ExpireOneMore(cfg: Config, b: Broker, m: MemoryBroker, ids: seq<Text>, now: nat)
    requires ids != [] && forall id :: id in ids ==> id in b.core.delivery.pending && id in m.delivery.pending
    requires ExpiredAlike(cfg, b, m, ids[..|ids| - 1], now) && ComputeAll(cfg, b.core, ids[..|ids| - 1], now).Ok?
    requires LastAlike(cfg, b, m, ids, now)
    ensures ExpiredAlike(cfg, b, m, ids, now)
  {
    FailsIffOverflow(cfg, b.core, ids, now);
    if ComputeAll(cfg, b.core, ids, now).Ok? {
      var last := |ids| - 1;
      var outs := ComputeAll(cfg, b.core, ids, now).value;
      assert outs[..last] == ComputeAll(cfg, b.core, ids[..last], now).value;
    }
  }

  lemma {:induction false} ExpireMatches(cfg: Config, b: Broker, m: MemoryBroker, ids: seq<Text>, now: nat)
    requires Related(b, m) && (forall id :: b.core.IdHasMessage(id)) && RoomForNext(b.core.delivery)
    requires forall id :: id in ids ==> id in b.core.delivery.pending
    ensures ExpiredAlike(cfg, b, m, ids, now)
    decreases |ids|
  {
    if ids == [] {
      assert SettleEach(b.core.delivery, ids, []).state == b.core.delivery;
    } else {
      ExpireMatches(cfg, b, m, ids[..|ids| - 1], now);
      if ComputeAll(cfg, b.core, ids[..|ids| - 1], now).Ok? {
        LastOutcome(cfg, b, m, ids, now);
        ExpireOneMore(cfg, b, m, ids, now);
      } else {
        ExpireFailed(cfg, b, m, ids, now);
      }
    }
  }

  /** The slot without the scheduled retries of the listed positions. */
  ghost function Unlisted(slot: Slot, k: SlotKey, listed: set<Position>): Slot {
    slot.(retry := map o | o in slot.retry && At(k, o) !in listed :: slot.retry[o])
  }

  /** Making listed retries available removes exactly them, in whatever order they are listed. */
  lemma {:induction false} ReadyEachDrops(d: DeliveryState, ps: seq<Position>, now: nat)
    requires ReadyEach(d, ps, now).error == None
    ensures var done := ReadyEach(d, ps, now).state;
      && done.pending == d.pending && done.deadLetters == d.deadLetters
      && forall k :: done.SlotOf(k) == Unlisted(d.SlotOf(k), k, Elements(ps))
    decreases |ps|
  {
    if ps == [] {
      assert forall k :: Unlisted(d.SlotOf(k), k, {}).retry == d.SlotOf(k).retry;
    } else {
      var last := |ps| - 1;
      ReadyEachDrops(d, ps[..last], now);
      LastElement(ps);
      var done := ReadyEach(d, ps, now).state;
      forall k ensures done.SlotOf(k) == Unlisted(d.SlotOf(k), k, Elements(ps)) {
        UnlistedOneMore(d.SlotOf(k), k, Elements(ps[..last]), ps[last]);
      }
    }
  }

  lemma UnlistedOneMore(slot: Slot, k: SlotKey, listed: set<Position>, p: Position)
    ensures Unlisted(slot, k, listed + {p}) ==
      if KeyOf(p) == k then Unlisted(slot, k, listed).MakeAvailable(p.ref.offset) else Unlisted(slot, k, listed)
  {
    var slot' := Unlisted(slot, k, listed + {p});
    forall o | o in slot.retry
      ensures At(k, o) in listed + {p} <==> At(k, o) in listed || (KeyOf(p) == k && o == p.ref.offset) {}
    var earlier := Unlisted(slot, k, listed).retry;
    assert slot'.retry == if KeyOf(p) == k then earlier - {p.ref.offset} else earlier;
  }

  /** Freeing some of the due retries leaves the next one due. */
  lemma StillReady(c: Core, ps: seq<Position>, now: nat)
    requires ps != [] && c.delivery.Valid() && NoDuplicates(ps) && forall p :: p in ps ==> IsReady(c.delivery, p, now)
    ensures IsReady(ReadyEach(c.delivery, ps[..|ps| - 1], now).state, ps[|ps| - 1], now)
    ensures ReadyEach(c.delivery, ps[..|ps| - 1], now).error == None
  {
    LastElement(ps);
    ReadyEachIsReplay(c, ps[..|ps| - 1], now);
  }

  lemma {:induction false} FreeEachIsReady(c: Core, ps: seq<Position>, now: nat)
    requires c.delivery.Valid() && NoDuplicates(ps) && forall p :: p in ps ==> IsReady(c.delivery, p, now)
    ensures FreeEach(c.delivery, ps, now) == (ReadyEach(c.delivery, ps, now).state, |ps|)
    decreases |ps|
  {
    if ps == [] {
    } else {
      FreeEachIsReady(c, ps[..|ps| - 1], now);
      StillReady(c, ps, now);
    }
  }

  lemma ReadyPositionsExact(d: DeliveryState, now: nat)
    requires d.Valid()
    ensures NoDuplicates(ReadyPositions(d, now)) && forall p :: p in ReadyPositions(d, now) <==> IsReady(d, p, now)
  {
    forall p ensures p in ReadyPositions(d, now) <==> IsReady(d, p, now) {
      ReadyMember(d, p, now);
      assert p in ReadyPositions(d, now) <==> p in Elements(ReadyPositions(d, now));
    }
  }

  /** What each broker makes available: collected before the expiry and extended, or collected after it. */
  lemma {:induction false} SameReadied(cfg: Config, b: Broker, ids: seq<Text>, now: nat, outs: seq<Computed>,
                                       e: DeliveryState)
    requires b.core.delivery.Valid() && Outcomes(cfg, b.core, ids, now, outs) && |outs| == |ids|
    requires SameDelivery(SettleEach(b.core.delivery, ids, outs).state, e)
    ensures var d, ready := b.core.delivery, ReadyPositions(e, now);
      && |Available(d, ids, now, outs)| == |ready| && FreeEach(e, ready, now).1 == |ready|
      && SameDelivery(Maintain(d, ids, now, outs).state, FreeEach(e, ready, now).0)
  {
    var settled, listed := SettleEach(b.core.delivery, ids, outs).state, Available(b.core.delivery, ids, now, outs);
    var ready := ReadyPositions(e, now);
    SettleEachIsReplay(cfg, b.core, ids, now, outs);
    AvailabilityList(cfg, b.core, ids, now, outs);
    SameValid(settled, e);
    ReadyPositionsExact(e, now);
    forall p ensures p in ready <==> p in listed { assert SameSlot(settled, e, KeyOf(p)); }
    assert Elements(ready) == Elements(listed);
    DistinctCount(ready);
    DistinctCount(listed);
    FreeEachIsReady(b.core.(delivery := e), ready, now);
    SameDrops(b.core, settled, e, listed, ready, now);
  }

  lemma {:induction false} SameDrops(c: Core, d: DeliveryState, e: DeliveryState, ps: seq<Position>,
                                     qs: seq<Position>, now: nat)
    requires SameDelivery(d, e) && d.Valid() && e.Valid() && Elements(ps) == Elements(qs)
    requires NoDuplicates(ps) && forall p :: p in ps ==> IsReady(d, p, now)
    requires NoDuplicates(qs) && forall p :: p in qs ==> IsReady(e, p, now)
    ensures SameDelivery(ReadyEach(d, ps, now).state, ReadyEach(e, qs, now).state)
  {
    ReadyEachIsReplay(c.(delivery := d), ps, now);
    ReadyEachIsReplay(c.(delivery := e), qs, now);
    ReadyEachDrops(d, ps, now);
    ReadyEachDrops(e, qs, now);
    forall k ensures SameSlot(ReadyEach(d, ps, now).state, ReadyEach(e, qs, now).state, k) { assert SameSlot(d, e, k); }
  }

  /** Some expired delivery is to be retried at a time that overflows. */
  ghost predicate ExpiryOverflows(cfg: Config, d: DeliveryState, now: nat) {
    exists id :: id in ExpiredSet(d, now) && Overflows(cfg, d.pending[id], now)
  }

  lemma {:induction false} PassRelated(cfg: Config, b: Broker, m: MemoryBroker, now: nat, outs: seq<Computed>)
    requires Related(b, m) && b.core.delivery.Valid()
    requires Outcomes(cfg, b.core, ExpiredIds(b.core.delivery, now), now, outs)
    requires |outs| == |ExpiredIds(b.core.delivery, now)|
    requires ExpiredIds(b.core.delivery, now) == ExpiredIds(m.delivery, now)
    requires forall id :: id in ExpiredIds(m.delivery, now) ==> id in m.delivery.pending
    requires ExpiredAlike(cfg, b, m, ExpiredIds(b.core.delivery, now), now)
    ensures var s, a := StepRetryReady(cfg, b, now, true), MaintainNow(cfg, m, now);
      s.response == a.response && Related(s.broker, a.broker)
  {
    var d, ids := b.core.delivery, ExpiredIds(b.core.delivery, now);
    var s, a := StepRetryReady(cfg, b, now, true), MaintainNow(cfg, m, now);
    SameReadied(cfg, b, ids, now, outs, ExpireEach(cfg, m.topics, m.delivery, ids, now).state);
    assert Maintain(d, ids, now, outs).error == None by { MaintenanceReplays(cfg, b.core, ids, now, outs); }
    DeadLettersCounted(cfg, b.core, ids, now, outs);
    RelatedDelivery(b, m, s.broker, a.broker);
  }

  lemma {:induction false} RetryReadyRelated(cfg: Config, b: Broker, m: MemoryBroker, now: nat)
    requires Related(b, m) && b.core.Valid() && RoomForNext(b.core.delivery)
    ensures var s, a := StepRetryReady(cfg, b, now, true), MaintainNow(cfg, m, now);
      && s.response == a.response
      && (Related(s.broker, a.broker) <==> !ExpiryOverflows(cfg, b.core.delivery, now))
  {
    var d, ids := b.core.delivery, ExpiredIds(b.core.delivery, now);
    ExpiredIdsPending(d, now);
    assert ExpiredSet(d, now) == ExpiredSet(m.delivery, now);
    ExpireMatches(cfg, b, m, ids, now);
    if ComputeAll(cfg, b.core, ids, now).Ok? {
      PassRelated(cfg, b, m, now, ComputeAll(cfg, b.core, ids, now).value);
    } else {
      var s, a := StepRetryReady(cfg, b, now, true), MaintainNow(cfg, m, now);
      assert ids[0] in s.broker.core.delivery.pending && ids[0] !in a.broker.delivery.pending;
    }
  }

  // ---- the theorems ----

  /** The command runs into a retry time past 64 bits. */
  ghost predicate OverflowHits(cfg: Config, b: Broker, cmd: Command) {
    match cmd
    case Nack(id, consumer, _, timestamp) =>
      PendingFor(b.core.delivery, id, consumer).Ok? && Overflows(cfg, b.core.delivery.pending[id], timestamp)
    case RetryReady(now) => ExpiryOverflows(cfg, b.core.delivery, now)
    case _ => false
  }

  /** From related states every command gets the same answer from both brokers, errors included, and
      the states stay related if and only if no retry time overflowed: the in-memory broker has by then
      removed the delivery, the durable one has not. */
  lemma {:induction false} SameAnswer(cfg: Config, b: Broker, m: MemoryBroker, cmd: Command)
    requires cfg.Valid() && Sound(cfg, b) && b.core.Valid() && RoomForNext(b.core.delivery) && Related(b, m)
    ensures Step(cfg, b, cmd, true).response == Answer(cfg, m, cmd).response
    ensures Related(Step(cfg, b, cmd, true).broker, Answer(cfg, m, cmd).broker) <==> !OverflowHits(cfg, b, cmd)
  {
    match cmd {
      case CreateTopic(name, partitions) => CreateRelated(cfg, b, m, name, partitions);
      case Publish(topic, envelope) => PublishRelated(cfg, b, m, topic, envelope);
      case Consume(_, _, _, _, _, _) => ConsumeRelated(cfg, b, m, cmd);
      case Ack(id, consumer, timestamp) => AckRelated(cfg, b, m, id, consumer, timestamp);
      case Nack(id, consumer, reason, timestamp) => NackRelated(cfg, b, m, id, consumer, reason, timestamp);
      case RetryReady(now) => RetryReadyRelated(cfg, b, m, now);
    }
  }

  /** The commands as calls whose appends all succeed. */
  function Working(cmds: seq<Command>): seq<Call> {
    seq(|cmds|, i requires 0 <= i < |cmds| => Call(cmds[i], true))
  }

  ghost function Answers(cfg: Config, m: MemoryBroker, cmds: seq<Command>): seq<Response>
    requires cfg.Valid()
  {
    if cmds == [] then []
    else
      var init := cmds[..|cmds| - 1];
      Answers(cfg, m, init) + [Answer(cfg, AnswerAll(cfg, m, init), cmds[|cmds| - 1]).response]
  }

  lemma RoomWithinPolicy(cfg: Config, b: Broker)
    requires cfg.maxAttempts < U32_MAX && b.core.Valid() && LiveHistory(cfg, b, 0)
    ensures RoomForNext(b.core.delivery)
  {
    var d := b.core.delivery;
    forall id | id in d.pending ensures d.pending[id].attempt + 1 <= U32_MAX {
      var pos := d.pending[id].pos;
      assert d.IdLinked(id) && d.SlotLinked(KeyOf(pos), pos.ref.offset) && d.SlotValid(KeyOf(pos));
      assert PositionHistory(cfg, d, AllOps(b.events), pos, 0);
    }
  }

  lemma WorkingSnoc(cmds: seq<Command>)
    requires cmds != []
    ensures Working(cmds) == Working(cmds[..|cmds| - 1]) + [Call(cmds[|cmds| - 1], true)]
  {
  }

  /** The durable broker after the first `i` commands. */
  ghost function DurableAfter(cfg: Config, cmds: seq<Command>, i: nat): Broker
    requires i <= |cmds|
  {
    Run(cfg, FreshBroker(), Working(cmds[..i]))
  }

  /** What both brokers have come to after the first `k` commands: the same answers, and related states. */
  ghost predicate Agree(cfg: Config, cmds: seq<Command>, k: nat)
    requires cfg.Valid() && k <= |cmds|
  {
    && Responses(cfg, FreshBroker(), Working(cmds[..k])) == Answers(cfg, EmptyMemory(), cmds[..k])
    && Related(DurableAfter(cfg, cmds, k), AnswerAll(cfg, EmptyMemory(), cmds[..k]))
  }

  /** Command `i` runs into a retry time past 64 bits. */
  ghost predicate OverflowsAt(cfg: Config, cmds: seq<Command>, i: nat)
    requires i < |cmds|
  {
    OverflowHits(cfg, DurableAfter(cfg, cmds, i), cmds[i])
  }

  ghost predicate RoomAt(cfg: Config, cmds: seq<Command>, i: nat)
    requires i <= |cmds|
  {
    RoomForNext(DurableAfter(cfg, cmds, i).core.delivery)
  }

  /** The run makes deliveries among `used` only, and its attempt numbers fit 32 bits. */
  ghost predicate GoodRun(cfg: Config, used: set<(Position, nat)>, cmds: seq<Command>) {
    && Distinct(cfg, used) && AllUse(cfg, FreshBroker(), Working(cmds), used)
    && forall i :: 0 <= i <= |cmds| ==> RoomAt(cfg, cmds, i)
  }

  lemma FirstCommands(cfg: Config, used: set<(Position, nat)>, cmds: seq<Command>, i: nat)
    requires AllUse(cfg, FreshBroker(), Working(cmds), used) && i <= |cmds|
    ensures AllUse(cfg, FreshBroker(), Working(cmds[..i]), used)
    decreases |cmds| - i
  {
    if i == |cmds| {
      assert cmds[..i] == cmds;
    } else {
      FirstCommands(cfg, used, cmds, i + 1);
      OneFewer(cmds, i);
    }
  }

  lemma OneFewer(cmds: seq<Command>, i: nat)
    requires i < |cmds|
    ensures cmds[..i + 1][..i] == cmds[..i] && Working(cmds[..i + 1]) == Working(cmds[..i]) + [Call(cmds[i], true)]
    ensures Working(cmds[..i + 1])[..i] == Working(cmds[..i])
  {
    WorkingSnoc(cmds[..i + 1]);
  }

  lemma DurableIsSound(cfg: Config, used: set<(Position, nat)>, cmds: seq<Command>, i: nat)
    requires cfg.Valid() && Distinct(cfg, used) && AllUse(cfg, FreshBroker(), Working(cmds), used) && i <= |cmds|
    ensures Sound(cfg, DurableAfter(cfg, cmds, i)) && Live(cfg, used, DurableAfter(cfg, cmds, i))
    ensures LiveHistory(cfg, DurableAfter(cfg, cmds, i), 0)
  {
    FirstCommands(cfg, used, cmds, i);
    FreshIsSound(cfg);
    RunKeepsSound(cfg, FreshBroker(), Working(cmds[..i]));
    FreshHistory(cfg);
    EmptyIsValid();
    RunHistory(cfg, used, FreshBroker(), Working(cmds[..i]), 0);
  }

  /** A maximum below 2^32 - 1 keeps attempt numbers within 32 bits. */
  lemma PolicyGivesRoom(cfg: Config, used: set<(Position, nat)>, cmds: seq<Command>)
    requires cfg.Valid() && cfg.maxAttempts < U32_MAX
    requires Distinct(cfg, used) && AllUse(cfg, FreshBroker(), Working(cmds), used)
    ensures GoodRun(cfg, used, cmds)
  {
    forall i | 0 <= i <= |cmds| ensures RoomAt(cfg, cmds, i) {
      DurableIsSound(cfg, used, cmds, i);
      RoomWithinPolicy(cfg, DurableAfter(cfg, cmds, i));
    }
  }

  /** One command further, the brokers agree exactly if no retry time overflows. */
  lemma {:induction false} AgreeOneMore(cfg: Config, used: set<(Position, nat)>, cmds: seq<Command>, k: nat)
    requires cfg.Valid() && GoodRun(cfg, used, cmds) && k < |cmds| && Agree(cfg, cmds, k)
    ensures Agree(cfg, cmds, k + 1) <==> !OverflowsAt(cfg, cmds, k)
  {
    var b, m := DurableAfter(cfg, cmds, k), AnswerAll(cfg, EmptyMemory(), cmds[..k]);
    DurableIsSound(cfg, used, cmds, k);
    assert RoomAt(cfg, cmds, k);
    SameAnswer(cfg, b, m, cmds[k]);
    OneFewer(cmds, k);
  }

  lemma AgreeAtStart(cfg: Config, cmds: seq<Command>)
    requires cfg.Valid()
    ensures Agree(cfg, cmds, 0)
  {
    assert Working(cmds[..0]) == [];
  }

  /** If each step keeps `agree` exactly where it does not fail, `agree` holds throughout exactly if no step fails. */
  lemma {:induction false} ThroughoutIff(agree: seq<bool>, fails: seq<bool>)
    requires |agree| == |fails| + 1 && agree[0]
    requires forall k :: 0 <= k < |fails| && agree[k] ==> (agree[k + 1] <==> !fails[k])
    ensures (forall k :: 0 <= k < |agree| ==> agree[k]) <==> (forall i :: 0 <= i < |fails| ==> !fails[i])
  {
    if fails == [] {
    } else {
      var n := |fails| - 1;
      var agree', fails' := agree[..n + 1], fails[..n];
      assert forall k :: 0 <= k <= n ==> agree'[k] == agree[k];
      assert forall i :: 0 <= i < n ==> fails'[i] == fails[i];
      ThroughoutIff(agree', fails');
      assert (forall k :: 0 <= k < |agree| ==> agree[k]) <==> (forall k :: 0 <= k <= n ==> agree'[k]) && agree[n + 1];
      assert (forall i :: 0 <= i < |fails| ==> !fails[i]) <==> (forall i :: 0 <= i < n ==> !fails'[i]) && !fails[n];
    }
  }

  /** In one session with working appends, the durable broker and the in-memory one agree after every
      command - the same results, errors and maintenance counts, the same delivery state, and the
      dead-letter list in the same order - if and only if no command runs into an overflowing retry time. */
  lemma {:induction false} BrokersAgree(cfg: Config, used: set<(Position, nat)>, cmds: seq<Command>)
    requires cfg.Valid() && GoodRun(cfg, used, cmds)
    ensures (forall k :: 0 <= k <= |cmds| ==> Agree(cfg, cmds, k)) <==>
            (forall i :: 0 <= i < |cmds| ==> !OverflowsAt(cfg, cmds, i))
  {
    var n := |cmds|;
    var agree := seq(n + 1, k requires 0 <= k <= n => Agree(cfg, cmds, k));
    var fails := seq(n, i requires 0 <= i < n => OverflowsAt(cfg, cmds, i));
    forall k | 0 <= k < n && agree[k] ensures agree[k + 1] <==> !fails[k] {
      AgreeOneMore(cfg, used, cmds, k);
    }
    AgreeAtStart(cfg, cmds);
    ThroughoutIff(agree, fails);
    assert forall k :: 0 <= k <= n ==> agree[k] == Agree(cfg, cmds, k);
    assert forall i :: 0 <= i < n ==> fails[i] == OverflowsAt(cfg, cmds, i);
  }

  // ---- the difference is visible ----

  /** Acknowledging `id` succeeds in the durable broker, while the in-memory one does not know it. */
  ghost predicate TellsApart(cfg: Config, b: Broker, m: MemoryBroker, id: Text, consumer: Text, timestamp: nat)
    requires cfg.Valid()
  {
    && Step(cfg, b, Ack(id, consumer, timestamp), true).response == Done
    && Answer(cfg, m, Ack(id, consumer, timestamp)).response == Failed(DeliveryNotFound(id))
  }

  lemma {:induction false} OnlyBackoffFails(cfg: Config, b: Broker, ids: seq<Text>, now: nat)
    requires (forall id :: b.core.IdHasMessage(id)) && RoomForNext(b.core.delivery)
    requires (forall id :: id in ids ==> id in b.core.delivery.pending) && ComputeAll(cfg, b.core, ids, now).Err?
    ensures ComputeAll(cfg, b.core, ids, now).error == InvalidConfig(BackoffMillis)
    decreases |ids|
  {
    assert b.core.IdHasMessage(ids[|ids| - 1]);
    if ComputeAll(cfg, b.core, ids[..|ids| - 1], now).Err? {
      OnlyBackoffFails(cfg, b, ids[..|ids| - 1], now);
    }
  }

  lemma NackDiverges(cfg: Config, b: Broker, m: MemoryBroker, cmd: Command)
    requires cfg.Valid() && b.core.Valid() && RoomForNext(b.core.delivery) && Related(b, m)
    requires cmd.Nack? && OverflowHits(cfg, b, cmd)
    ensures Step(cfg, b, cmd, true) == Stepped(b, Failed(InvalidConfig(BackoffMillis)))
    ensures cmd.id !in Answer(cfg, m, cmd).broker.delivery.pending
  {
    var p := b.core.delivery.pending[cmd.id];
    assert b.core.IdHasMessage(cmd.id);
    ScheduleMatches(cfg, b, m, b.core.delivery, m.delivery, cmd.id, p, cmd.timestamp, NackReason(cmd.reason));
  }

  /** An in-memory pass whose expiry fails leaves what the expiry has done. */
  lemma FailedPass(cfg: Config, m: MemoryBroker, now: nat, ids: seq<Text>)
    requires ids == ExpiredIds(m.delivery, now) && forall id :: id in ids ==> id in m.delivery.pending
    requires ExpireEach(cfg, m.topics, m.delivery, ids, now).error.Some?
    ensures MaintainNow(cfg, m, now).broker.delivery == ExpireEach(cfg, m.topics, m.delivery, ids, now).state
  {
  }

  lemma PassDiverges(cfg: Config, b: Broker, m: MemoryBroker, now: nat) returns (id: Text)
    requires b.core.Valid() && RoomForNext(b.core.delivery) && Related(b, m)
    requires ExpiryOverflows(cfg, b.core.delivery, now)
    ensures StepRetryReady(cfg, b, now, true) == Stepped(b, Failed(InvalidConfig(BackoffMillis)))
    ensures id in b.core.delivery.pending && id !in MaintainNow(cfg, m, now).broker.delivery.pending
  {
    var ids := ExpiredIds(b.core.delivery, now);
    ExpiredIdsPending(b.core.delivery, now);
    assert ExpiredSet(b.core.delivery, now) == ExpiredSet(m.delivery, now);
    ExpireMatches(cfg, b, m, ids, now);
    OnlyBackoffFails(cfg, b, ids, now);
    PassIs(cfg, b, now, true, ids);
    FailedPass(cfg, m, now, ids);
    id := ids[0];
  }

  /** The delivery that only the in-memory broker has lost. */
  lemma {:induction false} LostDelivery(cfg: Config, b: Broker, m: MemoryBroker, cmd: Command) returns (id: Text)
    requires cfg.Valid() && b.core.Valid() && RoomForNext(b.core.delivery) && Related(b, m)
    requires OverflowHits(cfg, b, cmd)
    ensures Step(cfg, b, cmd, true) == Stepped(b, Failed(InvalidConfig(BackoffMillis)))
    ensures id in b.core.delivery.pending && id !in Answer(cfg, m, cmd).broker.delivery.pending
  {
    if cmd.Nack? {
      NackDiverges(cfg, b, m, cmd);
      id := cmd.id;
    } else {
      id := PassDiverges(cfg, b, m, cmd.now);
    }
  }

  lemma AckTellsApart(cfg: Config, b: Broker, m: MemoryBroker, id: Text, timestamp: nat)
    requires cfg.Valid() && id in b.core.delivery.pending && id !in m.delivery.pending
    ensures TellsApart(cfg, b, m, id, b.core.delivery.pending[id].consumer, timestamp)
  {
  }

  /** After an overflowing retry time an acknowledgement tells the brokers apart: both have answered
      the same error, but only the in-memory one has lost a delivery. */
  lemma {:induction false} DivergenceIsVisible(cfg: Config, b: Broker, m: MemoryBroker, cmd: Command, timestamp: nat)
    requires cfg.Valid() && Sound(cfg, b) && b.core.Valid() && RoomForNext(b.core.delivery) && Related(b, m)
    requires OverflowHits(cfg, b, cmd)
    ensures Step(cfg, b, cmd, true).response == Answer(cfg, m, cmd).response == Failed(InvalidConfig(BackoffMillis))
    ensures exists id, consumer ::
      TellsApart(cfg, Step(cfg, b, cmd, true).broker, Answer(cfg, m, cmd).broker, id, consumer, timestamp)
  {
    SameAnswer(cfg, b, m, cmd);
    var id := LostDelivery(cfg, b, m, cmd);
    AckTellsApart(cfg, b, Answer(cfg, m, cmd).broker, id, timestamp);
  }

  /** Create, publish, consume, then a NACK so late that adding the backoff overflows, then an ACK. */
  function DivergingRun(cfg: Config, topic: Text, group: Text, consumer: Text, envelope: Envelope): seq<Command> {
    var id := cfg.deliveryId(Position(group, MessageRef(topic, 0, 0)), 1);
    [CreateTopic(topic, 1), Publish(topic, envelope), Consume(topic, group, consumer, 1, 0, None),
     Nack(id, consumer, None, U64_MAX), Ack(id, consumer, U64_MAX)]
  }

  /** What command `i` of a run answers in either broker. */
  ghost function DurableAnswer(cfg: Config, cmds: seq<Command>, i: nat): Response
    requires i < |cmds|
  {
    Step(cfg, DurableAfter(cfg, cmds, i), cmds[i], true).response
  }

  ghost function MemoryAnswer(cfg: Config, cmds: seq<Command>, i: nat): Response
    requires cfg.Valid() && i < |cmds|
  {
    Answer(cfg, AnswerAll(cfg, EmptyMemory(), cmds[..i]), cmds[i]).response
  }

  /** Up to its NACK the run is the first session of `Sessions`. */
  lemma {:induction false} DivergingRunStarts(cfg: Config, topic: Text, group: Text, consumer: Text, envelope: Envelope)
    requires cfg.Valid() && cfg.leaseMillis <= U64_MAX
    ensures var first := DivergingRun(cfg, topic, group, consumer, envelope)[..3];
      && AllUse(cfg, FreshBroker(), Working(first), TwoAttempts(topic, group))
      && OneInFlight(cfg, Run(cfg, FreshBroker(), Working(first)), topic, group, consumer, envelope)
  {
    var first := DivergingRun(cfg, topic, group, consumer, envelope)[..3];
    assert Working(first) == FirstSession(topic, group, consumer, envelope);
    FirstSessionEnds(cfg, topic, group, consumer, envelope);
  }

  /** So far the brokers agree. */
  lemma {:induction false} DivergingRunAgrees(cfg: Config, used: set<(Position, nat)>, first: seq<Command>)
    requires cfg.Valid() && cfg.maxAttempts < U32_MAX && Distinct(cfg, used)
    requires AllUse(cfg, FreshBroker(), Working(first), used)
    requires forall i :: 0 <= i < |first| ==> !first[i].Nack? && !first[i].RetryReady?
    ensures var b := Run(cfg, FreshBroker(), Working(first));
      && b.core.Valid() && RoomForNext(b.core.delivery) && Related(b, AnswerAll(cfg, EmptyMemory(), first))
  {
    PolicyGivesRoom(cfg, used, first);
    forall i | 0 <= i < |first| ensures !OverflowsAt(cfg, first, i) {}
    BrokersAgree(cfg, used, first);
    assert Agree(cfg, first, |first|) && RoomAt(cfg, first, |first|) && first[..|first|] == first;
    DurableIsSound(cfg, used, first, |first|);
  }

  lemma LateNackOverflows(cfg: Config, b: Broker, topic: Text, group: Text, consumer: Text, envelope: Envelope)
    requires OneInFlight(cfg, b, topic, group, consumer, envelope)
    requires cfg.backoffMillis.Some? && cfg.backoffMillis.value > 0 && 1 < cfg.maxAttempts
    ensures OverflowHits(cfg, b, DivergingRun(cfg, topic, group, consumer, envelope)[3])
  {
  }

  lemma AfterOneMore(cfg: Config, cmds: seq<Command>, i: nat)
    requires cfg.Valid() && i < |cmds|
    ensures DurableAfter(cfg, cmds, i + 1) == Step(cfg, DurableAfter(cfg, cmds, i), cmds[i], true).broker
    ensures AnswerAll(cfg, EmptyMemory(), cmds[..i + 1]) ==
            Answer(cfg, AnswerAll(cfg, EmptyMemory(), cmds[..i]), cmds[i]).broker
  {
    OneFewer(cmds, i);
  }

  /** Once the brokers have diverged over a NACK, an ACK of the same delivery shows it. */
  lemma {:induction false} AckAfterNack(cfg: Config, cmds: seq<Command>, i: nat)
    requires cfg.Valid() && i + 1 < |cmds| && cmds[i].Nack?
    requires cmds[i + 1] == Ack(cmds[i].id, cmds[i].consumer, cmds[i].timestamp)
    requires var b, m := DurableAfter(cfg, cmds, i), AnswerAll(cfg, EmptyMemory(), cmds[..i]);
      && b.core.Valid() && RoomForNext(b.core.delivery) && Related(b, m) && OverflowHits(cfg, b, cmds[i])
    ensures DurableAnswer(cfg, cmds, i + 1) == Done
    ensures MemoryAnswer(cfg, cmds, i + 1) == Failed(DeliveryNotFound(cmds[i].id))
  {
    var b, m := DurableAfter(cfg, cmds, i), AnswerAll(cfg, EmptyMemory(), cmds[..i]);
    NackDiverges(cfg, b, m, cmds[i]);
    AfterOneMore(cfg, cmds, i);
    AckTellsApart(cfg, b, Answer(cfg, m, cmds[i]).broker, cmds[i].id, cmds[i].timestamp);
  }

  lemma {:induction false} DivergingRunReaches(cfg: Config, topic: Text, group: Text, consumer: Text,
                                               envelope: Envelope)
    requires cfg.Valid() && cfg.leaseMillis <= U64_MAX && Distinct(cfg, TwoAttempts(topic, group))
    requires cfg.backoffMillis.Some? && cfg.backoffMillis.value > 0 && 1 < cfg.maxAttempts < U32_MAX
    ensures var cmds := DivergingRun(cfg, topic, group, consumer, envelope);
      var b, m := DurableAfter(cfg, cmds, 3), AnswerAll(cfg, EmptyMemory(), cmds[..3]);
      b.core.Valid() && RoomForNext(b.core.delivery) && Related(b, m) && OverflowHits(cfg, b, cmds[3])
  {
    var first := DivergingRun(cfg, topic, group, consumer, envelope)[..3];
    DivergingRunStarts(cfg, topic, group, consumer, envelope);
    DivergingRunAgrees(cfg, TwoAttempts(topic, group), first);
    LateNackOverflows(cfg, Run(cfg, FreshBroker(), Working(first)), topic, group, consumer, envelope);
  }

  /** So "the two brokers behave alike" fails on a concrete run: with any backoff, and more than one
      attempt allowed, the last of these commands succeeds in one broker and fails in the other. */
  lemma {:induction false} BrokersDisagree(cfg: Config, topic: Text, group: Text, consumer: Text, envelope: Envelope)
    requires cfg.Valid() && cfg.leaseMillis <= U64_MAX && Distinct(cfg, TwoAttempts(topic, group))
    requires cfg.backoffMillis.Some? && cfg.backoffMillis.value > 0 && 1 < cfg.maxAttempts < U32_MAX
    ensures var cmds := DivergingRun(cfg, topic, group, consumer, envelope);
      && DurableAnswer(cfg, cmds, 4) == Done
      && MemoryAnswer(cfg, cmds, 4) == Failed(DeliveryNotFound(cmds[4].id))
  {
    var cmds := DivergingRun(cfg, topic, group, consumer, envelope);
    DivergingRunReaches(cfg, topic, group, consumer, envelope);
    AckAfterNack(cfg, cmds, 3);
  }
}
