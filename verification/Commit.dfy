/** The append is the commit point: a command either changes nothing, or publishes one message, or
    logs one event whose replay gives exactly the state the command left behind. */
module Commit {
  import opened Common
  import opened Domain
  import opened Delivery
  import opened Replay
  import opened Publish
  import opened Durable
  import opened Maintenance

  // ---- delivery ids ----

  /** No two of the deliveries `used`, each a position and an attempt number, share an id. */
  ghost predicate Distinct(cfg: Config, used: set<(Position, nat)>) {
    forall x, y :: x in used && y in used && cfg.deliveryId(x.0, x.1) == cfg.deliveryId(y.0, y.1) ==> x == y
  }

  ghost predicate IdOwned(cfg: Config, used: set<(Position, nat)>, d: DeliveryState, id: Text) {
    id in d.pending ==>
      var p := d.pending[id];
      id == cfg.deliveryId(p.pos, p.attempt) && (p.pos, p.attempt) in used
  }

  /** Every id in flight is the one of its position and attempt. */
  ghost predicate Owned(cfg: Config, used: set<(Position, nat)>, d: DeliveryState) {
    forall id :: IdOwned(cfg, used, d, id)
  }

  ghost predicate OwnOp(cfg: Config, used: set<(Position, nat)>, op: Op) {
    op.Deliver? ==>
      op.event.id == cfg.deliveryId(op.event.pos, op.event.attempt) && (op.event.pos, op.event.attempt) in used
  }

  ghost predicate OwnOps(cfg: Config, used: set<(Position, nat)>, ops: seq<Op>) {
    forall i :: 0 <= i < |ops| ==> OwnOp(cfg, used, ops[i])
  }

  lemma OpKeepsOwned(cfg: Config, used: set<(Position, nat)>, c: Core, op: Op)
    requires Owned(cfg, used, c.delivery) && OwnOp(cfg, used, op) && ReplayOp(c, op).Ok?
    ensures Owned(cfg, used, ReplayOp(c, op).value.delivery)
  {
    var d' := ReplayOp(c, op).value.delivery;
    forall id ensures IdOwned(cfg, used, d', id) {
      assert IdOwned(cfg, used, c.delivery, id);
    }
  }

  lemma {:induction false} ReplayKeepsOwned(cfg: Config, used: set<(Position, nat)>, c: Core, ops: seq<Op>)
    requires Owned(cfg, used, c.delivery) && OwnOps(cfg, used, ops) && ReplayOps(c, ops).Ok?
    ensures Owned(cfg, used, ReplayOps(c, ops).value.delivery)
    decreases |ops|
  {
    if ops == [] {
    } else {
      OpKeepsOwned(cfg, used, c, ops[0]);
      ReplayKeepsOwned(cfg, used, ReplayOp(c, ops[0]).value, ops[1..]);
    }
  }

  // ---- retry policy ----

  /** A delivery gets the next attempt number; a settlement dead-letters exactly when the next attempt
      would exceed the policy, and then records the attempt reached. */
  ghost predicate ByPolicy(cfg: Config, c: Core, op: Op) {
    match op
    case Deliver(e) => e.attempt == c.delivery.SlotOf(KeyOf(e.pos)).NextAttempt(e.pos.ref.offset)
    case Settle(_, _, _, attempt, _, settlement) =>
      && (settlement.DeadLettered? <==> attempt + 1 > cfg.maxAttempts)
      && (settlement.DeadLettered? ==> settlement.attemptCount == attempt)
    case _ => true
  }

  ghost predicate AllByPolicy(cfg: Config, c: Core, ops: seq<Op>)
    decreases |ops|
  {
    ops == []
    || (ByPolicy(cfg, c, ops[0]) && (ReplayOp(c, ops[0]).Ok? ==> AllByPolicy(cfg, ReplayOp(c, ops[0]).value, ops[1..])))
  }

  lemma {:induction false} UndeliveredByPolicy(cfg: Config, c: Core, ops: seq<Op>)
    requires forall i :: 0 <= i < |ops| ==> !ops[i].Deliver? && ByPolicy(cfg, c, ops[i])
    ensures AllByPolicy(cfg, c, ops)
    decreases |ops|
  {
    if ops != [] && ReplayOp(c, ops[0]).Ok? {
      UndeliveredByPolicy(cfg, ReplayOp(c, ops[0]).value, ops[1..]);
    }
  }

  // ---- consume ----

  lemma {:induction false} AvailableSubsequence(d: DeliveryState, group: Text, topic: Text, recs: seq<Record>)
    requires forall i, j :: 0 <= i < j < |recs| ==> Before(recs[i], recs[j])
    ensures var picked := AvailableRecords(d, group, topic, recs);
      && (forall r :: r in picked <==> r in recs && Deliverable(d, group, topic, r))
      && (forall i, j :: 0 <= i < j < |picked| ==> Before(picked[i], picked[j]))
  {
    if recs == [] {
    } else {
      var init, r := recs[..|recs| - 1], recs[|recs| - 1];
      AvailableSubsequence(d, group, topic, init);
      var picked := AvailableRecords(d, group, topic, init);
      assert recs == init + [r];
      forall x | x in picked ensures Before(x, r) {
        var i :| 0 <= i < |init| && init[i] == x;
        assert Before(recs[i], recs[|recs| - 1]);
      }
    }
  }

  /** What a consume command selects: distinct, existing, available messages in canonical order. */
  lemma SelectionIsSound(c: Core, group: Text, topic: Text, max: nat)
    requires topic in c.catalog
    ensures var recs := Selection(c, group, topic, max);
      && |recs| <= max
      && (forall i, j :: 0 <= i < j < |recs| ==> Before(recs[i], recs[j]))
      && (forall i :: 0 <= i < |recs| ==>
            Deliverable(c.delivery, group, topic, recs[i])
            && c.HasMessage(RecordPosition(group, topic, recs[i]).ref)
            && recs[i].envelope == c.Log(topic, recs[i].partition)[recs[i].offset])
  {
    var count := c.catalog[topic];
    var all, recs := RecordsOf(c.logs, topic, count), Selection(c, group, topic, max);
    forall i, j | 0 <= i < j < |all| ensures Before(all[i], all[j]) { CanonicalOrder(c.logs, topic, count, i, j); }
    AvailableSubsequence(c.delivery, group, topic, all);
    forall i | 0 <= i < |recs|
      ensures Deliverable(c.delivery, group, topic, recs[i])
      ensures c.HasMessage(RecordPosition(group, topic, recs[i]).ref)
      ensures recs[i].envelope == c.Log(topic, recs[i].partition)[recs[i].offset]
    {
      assert recs[i] in AvailableRecords(c.delivery, group, topic, all);
      var k :| 0 <= k < |all| && all[k] == recs[i];
      RecordAt(c.logs, topic, count, k);
    }
  }

  ghost predicate Fresh(c: Core, e: DeliveryEvent) {
    && c.HasMessage(e.pos.ref) && e.id !in c.delivery.pending
    && c.delivery.SlotOf(KeyOf(e.pos)).IsAvailable(e.pos.ref.offset)
  }

  ghost predicate Apart(es: seq<DeliveryEvent>) {
    forall i, j :: 0 <= i < j < |es| ==> es[i].pos != es[j].pos && es[i].id != es[j].id
  }

  lemma FreshAfter(c: Core, e: DeliveryEvent, x: DeliveryEvent)
    requires Fresh(c, x) && e.pos != x.pos && e.id != x.id
    ensures Fresh(c.(delivery := c.delivery.Consumed(e)), x)
  {
  }

  /** Delivering distinct fresh messages one after the other replays. */
  lemma {:induction false} DeliverEach(cfg: Config, c: Core, es: seq<DeliveryEvent>)
    requires Apart(es) && forall i :: 0 <= i < |es| ==> Fresh(c, es[i])
    requires forall i :: 0 <= i < |es| ==> ByPolicy(cfg, c, Deliver(es[i]))
    ensures ReplayOps(c, DeliverAll(es)) == Ok(c.(delivery := ConsumeAll(c.delivery, es)))
    ensures AllByPolicy(cfg, c, DeliverAll(es))
    decreases |es|
  {
    if es == [] {
      assert DeliverAll(es) == [];
    } else {
      var c1 := c.(delivery := c.delivery.Consumed(es[0]));
      assert ByPolicy(cfg, c, Deliver(es[0]));
      assert Fresh(c, es[0]);
      assert DeliverAll(es)[1..] == DeliverAll(es[1..]);
      forall i | 0 <= i < |es[1..]| ensures Fresh(c1, es[1..][i]) && ByPolicy(cfg, c1, Deliver(es[1..][i])) {
        assert Fresh(c, es[i + 1]) && ByPolicy(cfg, c, Deliver(es[i + 1]));
        FreshAfter(c, es[0], es[i + 1]);
      }
      DeliverEach(cfg, c1, es[1..]);
    }
  }

  /** The deliveries the command would make are among `used`. */
  ghost predicate UsesOnly(c: Core, cmd: Command, used: set<(Position, nat)>) {
    cmd.Consume? && cmd.topic in c.catalog ==>
      forall r :: r in Selection(c, cmd.group, cmd.topic, cmd.maxMessages) ==>
        var pos := RecordPosition(cmd.group, cmd.topic, r);
        (pos, c.delivery.SlotOf(KeyOf(pos)).NextAttempt(r.offset)) in used
  }

  lemma SelectedAreFresh(cfg: Config, used: set<(Position, nat)>, c: Core, cmd: Command, expires: nat)
    requires cmd.Consume? && cmd.topic in c.catalog && UsesOnly(c, cmd, used)
    requires c.Valid() && Owned(cfg, used, c.delivery) && Distinct(cfg, used)
    ensures var recs := Selection(c, cmd.group, cmd.topic, cmd.maxMessages);
      var es := DeliveriesFor(cfg, c.delivery, cmd.topic, cmd.group, cmd.consumer, cmd.timestamp, expires, recs);
      && Apart(es) && (forall i :: 0 <= i < |es| ==> Fresh(c, es[i]) && ByPolicy(cfg, c, Deliver(es[i])))
      && OwnOps(cfg, used, DeliverAll(es))
  {
    var recs := Selection(c, cmd.group, cmd.topic, cmd.maxMessages);
    var es := DeliveriesFor(cfg, c.delivery, cmd.topic, cmd.group, cmd.consumer, cmd.timestamp, expires, recs);
    SelectionIsSound(c, cmd.group, cmd.topic, cmd.maxMessages);
    forall i | 0 <= i < |es| ensures Fresh(c, es[i]) && ByPolicy(cfg, c, Deliver(es[i])) {
      assert IdOwned(cfg, used, c.delivery, es[i].id) && c.delivery.IdLinked(es[i].id);
      assert Deliverable(c.delivery, cmd.group, cmd.topic, recs[i]);
    }
    forall i, j | 0 <= i < j < |es| ensures es[i].pos != es[j].pos && es[i].id != es[j].id {
      assert Before(recs[i], recs[j]);
    }
  }

  // ---- the theorem ----

  ghost predicate Live(cfg: Config, used: set<(Position, nat)>, b: Broker) {
    b.core.Valid() && Owned(cfg, used, b.core.delivery)
  }

  /** No event: at most one message was appended, and delivery state is untouched. */
  ghost predicate Unlogged(b: Broker, s: Stepped) {
    && s.broker.events == b.events
    && s.broker.core == b.core.(logs := s.broker.core.logs) && Extends(b.core.logs, s.broker.core.logs)
    && (s.response.Failed? ==> s.broker == b)
  }

  /** One event was appended, the command succeeded, and replaying the event gives its result. */
  ghost predicate Logged(cfg: Config, used: set<(Position, nat)>, b: Broker, s: Stepped, e: Event) {
    && s.broker.events == b.events + [e] && !s.response.Failed?
    && ReplayOps(b.core, Ops(e)) == Ok(s.broker.core)
    && OwnOps(cfg, used, Ops(e)) && AllByPolicy(cfg, b.core, Ops(e))
  }

  ghost predicate Commits(cfg: Config, used: set<(Position, nat)>, b: Broker, s: Stepped) {
    Unlogged(b, s) || exists e :: Logged(cfg, used, b, s, e)
  }

  lemma SingleOp(c: Core, op: Op)
    ensures ReplayOps(c, [op]) == ReplayOp(c, op)
  {
    ReplayOpsSnoc(c, [], op);
    assert [] + [op] == [op];
  }

  lemma CreateCommits(cfg: Config, used: set<(Position, nat)>, b: Broker, name: Text, partitions: PartitionCount,
                      io: bool)
    ensures Commits(cfg, used, b, StepCreate(b, name, partitions, io))
  {
    var s := StepCreate(b, name, partitions, io);
    SingleOp(b.core, OpenTopic(name, partitions));
    UndeliveredByPolicy(cfg, b.core, [OpenTopic(name, partitions)]);
    assert Unlogged(b, s) || Logged(cfg, used, b, s, TopicCreated(name, partitions));
  }

  lemma PublishCommits(cfg: Config, used: set<(Position, nat)>, b: Broker, topic: Text, envelope: Envelope, io: bool)
    ensures Commits(cfg, used, b, StepPublish(cfg, b, topic, envelope, io))
  {
  }

  lemma ConsumeCommits(cfg: Config, used: set<(Position, nat)>, b: Broker, cmd: Command, io: bool)
    requires cmd.Consume? && Distinct(cfg, used) && Live(cfg, used, b) && UsesOnly(b.core, cmd, used)
    ensures Commits(cfg, used, b, StepConsume(cfg, b, cmd, io))
  {
    var s := StepConsume(cfg, b, cmd, io);
    if !Unlogged(b, s) {
      var expires := cmd.timestamp + LeaseOf(cfg, cmd.lease).0;
      var es := DeliveriesFor(cfg, b.core.delivery, cmd.topic, cmd.group, cmd.consumer, cmd.timestamp, expires,
                              Selection(b.core, cmd.group, cmd.topic, cmd.maxMessages));
      SelectedAreFresh(cfg, used, b.core, cmd, expires);
      DeliverEach(cfg, b.core, es);
      assert Logged(cfg, used, b, s, MessagesConsumed(es));
    }
  }

  lemma AckCommits(cfg: Config, used: set<(Position, nat)>, b: Broker, id: Text, consumer: Text, timestamp: nat,
                   io: bool)
    ensures Commits(cfg, used, b, StepAck(b, id, consumer, timestamp, io))
  {
    var s := StepAck(b, id, consumer, timestamp, io);
    if !Unlogged(b, s) {
      var pos := b.core.delivery.pending[id].pos;
      SingleOp(b.core, Acknowledge(id, consumer, pos));
      UndeliveredByPolicy(cfg, b.core, [Acknowledge(id, consumer, pos)]);
      assert Logged(cfg, used, b, s, MessageAcked(id, consumer, pos, timestamp));
    }
  }

  lemma NackCommits(cfg: Config, used: set<(Position, nat)>, b: Broker, id: Text, consumer: Text, reason: Option<Text>,
                    timestamp: nat, io: bool)
    requires b.core.Valid()
    ensures Commits(cfg, used, b, StepNack(cfg, b, id, consumer, reason, timestamp, io))
  {
    var s := StepNack(cfg, b, id, consumer, reason, timestamp, io);
    if !Unlogged(b, s) {
      var p := b.core.delivery.pending[id];
      var out := ComputeOutcome(cfg, b.core, p, timestamp, NackReason(reason)).value;
      ComputedMatchesReplay(cfg, b.core, p, timestamp, NackReason(reason));
      SettledStep(b.core.delivery, id, out.settlement, out.letter, timestamp);
      SettleIsReplay(b.core, id, timestamp, out);
      SingleOp(b.core, Settle(id, consumer, p.pos, p.attempt, timestamp, out.settlement));
      UndeliveredByPolicy(cfg, b.core, [Settle(id, consumer, p.pos, p.attempt, timestamp, out.settlement)]);
      assert Logged(cfg, used, b, s, MessageNacked(id, consumer, p.pos, p.attempt, timestamp, out.settlement));
    }
  }

  lemma ExpiredIdsPending(d: DeliveryState, now: nat)
    ensures var ids := ExpiredIds(d, now);
      && NoDuplicates(ids) && (forall id :: id in ids <==> id in ExpiredSet(d, now))
      && forall id :: id in ids ==> id in d.pending
  {
    var ids := ExpiredIds(d, now);
    forall id ensures id in ids <==> id in ExpiredSet(d, now) {
      assert id in ids <==> id in Elements(ids);
    }
  }

  /** A whole maintenance pass: both loops run to the end without meeting an error, replaying its
      event does the same, and afterwards no retry is due. */
  lemma {:induction false} MaintenanceReplays(cfg: Config, c: Core, ids: seq<Text>, now: nat, outs: seq<Computed>)
    requires c.delivery.Valid() && Outcomes(cfg, c, ids, now, outs) && |outs| == |ids|
    ensures var done := Maintain(c.delivery, ids, now, outs);
      && done.error == None && done.state.Valid()
      && ReplayOps(c, Ops(MaintenanceEvent(c.delivery, ids, now, outs))) == Ok(c.(delivery := done.state))
      && (forall p :: !IsReady(done.state, p, now))
  {
    var d := c.delivery;
    var available := Available(d, ids, now, outs);
    SettleEachIsReplay(cfg, c, ids, now, outs);
    AvailabilityList(cfg, c, ids, now, outs);
    var c1 := c.(delivery := SettleEach(d, ids, outs).state);
    ReadyEachIsReplay(c1, available, now);
    ReplayInTwo(c, MaintenanceEvent(d, ids, now, outs), c1, c1.(delivery := Maintain(d, ids, now, outs).state));
  }

  lemma ReplayInTwo(c: Core, e: Event, c1: Core, c2: Core)
    requires e.RetryMaintenanceApplied?
    requires ReplayOps(c, SettleAll(e.expired)) == Ok(c1)
    requires ReplayOps(c1, ReadyAll(e.available, e.timestamp)) == Ok(c2)
    ensures ReplayOps(c, Ops(e)) == Ok(c2)
  {
    ReplayAppend(c, SettleAll(e.expired), ReadyAll(e.available, e.timestamp));
  }

  lemma MaintenanceDeliversNothing(cfg: Config, used: set<(Position, nat)>, c: Core, e: Event)
    requires e.RetryMaintenanceApplied?
    requires forall i :: 0 <= i < |e.expired| ==> ByPolicy(cfg, c, SettleOf(e.expired[i]))
    ensures OwnOps(cfg, used, Ops(e)) && AllByPolicy(cfg, c, Ops(e))
  {
    var settles := SettleAll(e.expired);
    forall i | 0 <= i < |Ops(e)| ensures !Ops(e)[i].Deliver? && ByPolicy(cfg, c, Ops(e)[i]) {
      assert Ops(e)[i] == if i < |settles| then settles[i] else ReadyAll(e.available, e.timestamp)[i - |settles|];
    }
    UndeliveredByPolicy(cfg, c, Ops(e));
  }

  lemma {:induction false} ExpiredByPolicy(cfg: Config, c: Core, ids: seq<Text>, now: nat, outs: seq<Computed>)
    requires Outcomes(cfg, c, ids, now, outs) && |outs| == |ids|
    ensures forall i :: 0 <= i < |ids| ==> ByPolicy(cfg, c, SettleOf(ExpiredEvents(c.delivery, ids, now, outs)[i]))
    decreases |ids|
  {
    if ids == [] {
    } else {
      var last := |ids| - 1;
      OutcomesInit(cfg, c, ids, now, outs);
      ExpiredByPolicy(cfg, c, ids[..last], now, outs[..last]);
      var es := ExpiredEvents(c.delivery, ids, now, outs);
      var es' := ExpiredEvents(c.delivery, ids[..last], now, outs[..last]);
      forall i | 0 <= i < |ids| ensures ByPolicy(cfg, c, SettleOf(es[i])) {
        if i < last { assert es[i] == es'[i]; }
      }
    }
  }

  lemma RetryReadyCommits(cfg: Config, used: set<(Position, nat)>, b: Broker, now: nat, io: bool)
    requires b.core.Valid()
    ensures Commits(cfg, used, b, StepRetryReady(cfg, b, now, io))
  {
    var d, ids := b.core.delivery, ExpiredIds(b.core.delivery, now);
    ExpiredIdsPending(d, now);
    if ComputeAll(cfg, b.core, ids, now).Ok? && io {
      var outs := ComputeAll(cfg, b.core, ids, now).value;
      var e := MaintenanceEvent(d, ids, now, outs);
      MaintenanceReplays(cfg, b.core, ids, now, outs);
      ExpiredByPolicy(cfg, b.core, ids, now, outs);
      MaintenanceDeliversNothing(cfg, used, b.core, e);
      assert Logged(cfg, used, b, StepRetryReady(cfg, b, now, io), e);
    }
  }

  lemma StepCommits(cfg: Config, used: set<(Position, nat)>, b: Broker, cmd: Command, io: bool)
    requires Distinct(cfg, used) && Live(cfg, used, b) && UsesOnly(b.core, cmd, used)
    ensures Commits(cfg, used, b, Step(cfg, b, cmd, io))
  {
    match cmd {
      case CreateTopic(name, partitions) => CreateCommits(cfg, used, b, name, partitions, io);
      case Publish(topic, envelope) => PublishCommits(cfg, used, b, topic, envelope, io);
      case Consume(_, _, _, _, _, _) => ConsumeCommits(cfg, used, b, cmd, io);
      case Ack(id, consumer, timestamp) => AckCommits(cfg, used, b, id, consumer, timestamp, io);
      case Nack(id, consumer, reason, timestamp) => NackCommits(cfg, used, b, id, consumer, reason, timestamp, io);
      case RetryReady(now) => RetryReadyCommits(cfg, used, b, now, io);
    }
  }

  lemma CommitKeepsLive(cfg: Config, used: set<(Position, nat)>, b: Broker, s: Stepped)
    requires Live(cfg, used, b) && Commits(cfg, used, b, s)
    ensures Live(cfg, used, s.broker)
  {
    if Unlogged(b, s) {
      forall id ensures s.broker.core.IdHasMessage(id) {
        assert b.core.IdHasMessage(id);
        if id in b.core.delivery.pending {
          var ref := b.core.delivery.pending[id].pos.ref;
          assert LogOf(b.core.logs, LogId(ref.topic, ref.partition))
              <= LogOf(s.broker.core.logs, LogId(ref.topic, ref.partition));
        }
      }
    } else {
      var e :| Logged(cfg, used, b, s, e);
      ReplayKeepsValid(b.core, Ops(e));
      ReplayKeepsOwned(cfg, used, b.core, Ops(e));
    }
  }

  /** From any consistent state, a command that returns an error has changed neither the state nor the
      log, and once an event is appended the command succeeds with what replaying the event gives. */
  lemma {:induction false} CommitPoint(cfg: Config, used: set<(Position, nat)>, b: Broker, cmd: Command, io: bool)
    requires Distinct(cfg, used) && Live(cfg, used, b) && UsesOnly(b.core, cmd, used)
    ensures var s := Step(cfg, b, cmd, io);
      && (s.response.Failed? ==> s.broker == b)
      && (s.broker.events == b.events || exists e :: Logged(cfg, used, b, s, e))
      && Live(cfg, used, s.broker)
  {
    StepCommits(cfg, used, b, cmd, io);
    CommitKeepsLive(cfg, used, b, Step(cfg, b, cmd, io));
  }
}
