/** Reopening a directory after any chain of sessions: what recovery gives back, and exactly when it
    succeeds. Releasing in-flight deliveries at open writes no event, so the replay of the whole log
    and the live state drift apart by the released deliveries; the drift is harmless until one of
    them is delivered again. */
module Reopen {
  import opened Common
  import opened Domain
  import opened GroupState
  import opened Delivery
  import opened Replay
  import opened Durable
  import opened Commit

  /** Some delivery among `ids` is in flight for `pos`. */
  ghost predicate InFlight(d: DeliveryState, ids: set<Text>, pos: Position) {
    exists id :: id in ids && id in d.pending && d.pending[id].pos == pos
  }

  ghost predicate Hits(d: DeliveryState, ids: set<Text>, op: Op) {
    op.Deliver? && InFlight(d, ids, op.event.pos)
  }

  /** The deliveries `ids` are still in flight, as they were. */
  ghost predicate Held(d: DeliveryState, d': DeliveryState, ids: set<Text>) {
    forall id :: id in ids && id in d.pending ==> id in d'.pending && d'.pending[id] == d.pending[id]
  }

  /** The step does the same to the full state as to the released one, and holds on to `ids`. */
  ghost predicate InStep(c: Core, ids: set<Text>, op: Op) {
    && ReplayOp(c, op).Ok?
    && ReplayOp(c.Release(ids), op) == Ok(ReplayOp(c, op).value.Release(ids))
    && Held(c.delivery, ReplayOp(c, op).value.delivery, ids)
  }

  // ---- one step, with and without the released deliveries ----

  lemma ReleasedUpdate(d: DeliveryState, ids: set<Text>, key: SlotKey, slot: Slot)
    ensures DeliveryState(d.groups[key := slot], d.pending, d.deadLetters).Release(ids).groups
         == d.Release(ids).groups[key := Without(slot, ids)]
  {
  }

  lemma DeliverReleased(c: Core, ids: set<Text>, e: DeliveryEvent)
    requires c.Valid() && InFlight(c.delivery, ids, e.pos)
    ensures ReplayOp(c, Deliver(e)) == Err(Corruption)
  {
    var id :| id in ids && id in c.delivery.pending && c.delivery.pending[id].pos == e.pos;
    assert c.delivery.IdLinked(id);
  }

  lemma ConsumedOnFull(d: DeliveryState, ids: set<Text>, e: DeliveryEvent)
    requires e.id !in ids
    ensures d.Consumed(e).Release(ids) == d.Release(ids).Consumed(e)
  {
    var key, o := KeyOf(e.pos), e.pos.ref.offset;
    var slot := d.SlotOf(key);
    ReleasedSlot(d, ids, key);
    assert Without(slot.Pend(o, e.id, e.attempt), ids) == Without(slot, ids).Pend(o, e.id, e.attempt);
    ReleasedUpdate(d, ids, key, slot.Pend(o, e.id, e.attempt));
  }

  lemma DeliverOnFull(cfg: Config, used: set<(Position, nat)>, c: Core, ids: set<Text>, e: DeliveryEvent)
    requires Distinct(cfg, used) && c.Valid() && Owned(cfg, used, c.delivery) && OwnOp(cfg, used, Deliver(e))
    requires ids <= c.delivery.pending.Keys && ReplayOp(c.Release(ids), Deliver(e)).Ok?
    requires !InFlight(c.delivery, ids, e.pos)
    ensures InStep(c, ids, Deliver(e))
  {
    var d := c.delivery;
    ReleasedSlot(d, ids, KeyOf(e.pos));
    assert d.SlotLinked(KeyOf(e.pos), e.pos.ref.offset);
    assert IdOwned(cfg, used, d, e.id);
    ConsumedOnFull(d, ids, e);
  }

  lemma AcknowledgeOnFull(c: Core, ids: set<Text>, op: Op)
    requires c.Valid() && op.Acknowledge? && ids <= c.delivery.pending.Keys && ReplayOp(c.Release(ids), op).Ok?
    ensures InStep(c, ids, op)
  {
    var d, key, o := c.delivery, KeyOf(op.pos), op.pos.ref.offset;
    var slot := d.SlotOf(key).Unpend(o).Acknowledge(o);
    ReleasedSlot(d, ids, key);
    assert Without(slot, ids) == Without(d.SlotOf(key), ids).Unpend(o).Acknowledge(o);
    ReleasedUpdate(d, ids, key, slot);
    assert d.Acked(op.id, op.pos).Release(ids) == d.Release(ids).Acked(op.id, op.pos);
  }

  lemma SettledOnFull(d: DeliveryState, ids: set<Text>, id: Text, pos: Position, settlement: Settlement,
                      letter: Option<DeadLetter>)
    ensures var full := d.Settled(id, pos, settlement, letter);
      var part := d.Release(ids).Settled(id, pos, settlement, letter);
      full.state.Release(ids) == part.state && full.error == part.error
  {
    var key, o := KeyOf(pos), pos.ref.offset;
    var slot := d.SlotOf(key).Unpend(o);
    ReleasedSlot(d, ids, key);
    assert Without(slot, ids) == Without(d.SlotOf(key), ids).Unpend(o);
    match settlement {
      case RetryScheduled(readyAt) => ReleasedUpdate(d, ids, key, slot.ScheduleRetry(o, RetryEntry(pos.ref, readyAt)));
      case DeadLettered(_, _) => ReleasedUpdate(d, ids, key, slot.Bury(o));
    }
  }

  lemma SettleOnFull(c: Core, ids: set<Text>, op: Op)
    requires op.Settle? && ids <= c.delivery.pending.Keys && ReplayOp(c.Release(ids), op).Ok?
    ensures InStep(c, ids, op)
  {
    assert LetterFor(c.Release(ids), op.pos, op.settlement, op.timestamp) ==
        LetterFor(c, op.pos, op.settlement, op.timestamp);
    SettledOnFull(c.delivery, ids, op.id, op.pos, op.settlement,
                  LetterFor(c, op.pos, op.settlement, op.timestamp).value);
  }

  lemma MakeAvailableOnFull(c: Core, ids: set<Text>, op: Op)
    requires op.MakeAvailable? && ReplayOp(c.Release(ids), op).Ok?
    ensures InStep(c, ids, op)
  {
    var d, key, o := c.delivery, KeyOf(op.pos), op.pos.ref.offset;
    ReleasedSlot(d, ids, key);
    ReleasedUpdate(d, ids, key, d.SlotOf(key).MakeAvailable(o));
    assert Without(d.SlotOf(key).MakeAvailable(o), ids) == Without(d.SlotOf(key), ids).MakeAvailable(o);
    assert d.Readied(op.pos, op.timestamp).state.Release(ids) == d.Release(ids).Readied(op.pos, op.timestamp).state;
  }

  /** A step that fits the released state fits the full one too, unless it delivers a released message. */
  lemma OpOnFull(cfg: Config, used: set<(Position, nat)>, c: Core, ids: set<Text>, op: Op)
    requires Distinct(cfg, used) && c.Valid() && Owned(cfg, used, c.delivery) && OwnOp(cfg, used, op)
    requires ids <= c.delivery.pending.Keys && ReplayOp(c.Release(ids), op).Ok?
    ensures Hits(c.delivery, ids, op) ==> ReplayOp(c, op) == Err(Corruption)
    ensures !Hits(c.delivery, ids, op) ==> InStep(c, ids, op)
  {
    match op {
      case OpenTopic(_, _) =>
      case Deliver(e) =>
        if InFlight(c.delivery, ids, e.pos) {
          DeliverReleased(c, ids, e);
        } else {
          DeliverOnFull(cfg, used, c, ids, e);
        }
      case Acknowledge(_, _, _) => AcknowledgeOnFull(c, ids, op);
      case Settle(_, _, _, _, _, _) => SettleOnFull(c, ids, op);
      case MakeAvailable(_, _) => MakeAvailableOnFull(c, ids, op);
    }
  }

  // ---- whole sequences of steps ----

  ghost predicate AnyHit(d: DeliveryState, ids: set<Text>, ops: seq<Op>) {
    exists i :: 0 <= i < |ops| && Hits(d, ids, ops[i])
  }

  lemma HeldHits(d: DeliveryState, d': DeliveryState, ids: set<Text>, op: Op)
    requires Held(d, d', ids) && ids <= d.pending.Keys
    ensures Hits(d', ids, op) <==> Hits(d, ids, op)
  {
    if op.Deliver? {
      if InFlight(d, ids, op.event.pos) {
        var id :| id in ids && id in d.pending && d.pending[id].pos == op.event.pos;
        assert id in d'.pending && d'.pending[id].pos == op.event.pos;
      }
      if InFlight(d', ids, op.event.pos) {
        var id :| id in ids && id in d'.pending && d'.pending[id].pos == op.event.pos;
        assert id in d.pending;
      }
    }
  }

  ghost predicate AllInStep(c: Core, ids: set<Text>, ops: seq<Op>) {
    && ReplayOps(c, ops).Ok?
    && ReplayOps(c.Release(ids), ops) == Ok(ReplayOps(c, ops).value.Release(ids))
    && Held(c.delivery, ReplayOps(c, ops).value.delivery, ids)
  }

  lemma {:induction false} OpsOnFull(cfg: Config, used: set<(Position, nat)>, c: Core, ids: set<Text>, ops: seq<Op>)
    requires Distinct(cfg, used) && c.Valid() && Owned(cfg, used, c.delivery) && OwnOps(cfg, used, ops)
    requires ids <= c.delivery.pending.Keys && ReplayOps(c.Release(ids), ops).Ok?
    ensures AnyHit(c.delivery, ids, ops) ==> ReplayOps(c, ops) == Err(Corruption)
    ensures !AnyHit(c.delivery, ids, ops) ==> AllInStep(c, ids, ops)
    decreases |ops|
  {
    if ops == [] {
    } else {
      assert OwnOp(cfg, used, ops[0]);
      OpOnFull(cfg, used, c, ids, ops[0]);
      if !Hits(c.delivery, ids, ops[0]) {
        var c' := ReplayOp(c, ops[0]).value;
        OpKeepsValid(c, ops[0]);
        OpKeepsOwned(cfg, used, c, ops[0]);
        OpsOnFull(cfg, used, c', ids, ops[1..]);
        forall i | 0 <= i < |ops| ensures Hits(c'.delivery, ids, ops[i]) <==> Hits(c.delivery, ids, ops[i]) {
          HeldHits(c.delivery, c'.delivery, ids, ops[i]);
        }
        if AnyHit(c.delivery, ids, ops) {
          var i :| 0 <= i < |ops| && Hits(c.delivery, ids, ops[i]);
          assert Hits(c'.delivery, ids, ops[1..][i - 1]);
        }
        if AnyHit(c'.delivery, ids, ops[1..]) {
          var i :| 0 <= i < |ops[1..]| && Hits(c'.delivery, ids, ops[1..][i]);
          assert Hits(c.delivery, ids, ops[i + 1]);
        }
      }
    }
  }

  // ---- one session ----

  ghost function Recovered(b: Broker): Result<Core, Error> {
    PlainReplay(b.core.logs, b.events)
  }

  /** The live state is the replay of the whole log without the deliveries `ids`, released at open. */
  ghost predicate Drift(cfg: Config, used: set<(Position, nat)>, b: Broker, ids: set<Text>) {
    && Recovered(b).Ok? && ids <= Recovered(b).value.delivery.pending.Keys
    && b.core == Recovered(b).value.Release(ids)
    && Owned(cfg, used, Recovered(b).value.delivery)
  }

  /** The log no longer replays, and no further message or event mends it. */
  ghost predicate Broken(b: Broker) {
    forall logs :: Extends(b.core.logs, logs) ==> PlainReplay(logs, b.events) == Err(Corruption)
  }

  lemma DriftIsLive(cfg: Config, used: set<(Position, nat)>, b: Broker, ids: set<Text>)
    requires Drift(cfg, used, b, ids)
    ensures Recovered(b).value.Valid() && Live(cfg, used, b)
  {
    var p := Recovered(b).value;
    RecoveredStateIsValid(b.core.logs, b.events);
    ReleaseKeepsValid(p.delivery, ids);
    forall id ensures b.core.IdHasMessage(id) { assert p.IdHasMessage(id); }
    forall id ensures IdOwned(cfg, used, b.core.delivery, id) { assert IdOwned(cfg, used, p.delivery, id); }
  }

  lemma ReplayOnGrownLogs(b: Broker, logs: Logs)
    requires Recovered(b).Ok? && Extends(b.core.logs, logs)
    ensures PlainReplay(logs, b.events) == Ok(Recovered(b).value.(logs := logs))
  {
    ReplayOnMoreMessages(EmptyCore(b.core.logs), AllOps(b.events), logs);
  }

  lemma RecoveredLogs(b: Broker)
    requires Recovered(b).Ok?
    ensures Recovered(b).value.logs == b.core.logs
  {
    ReplayKeepsLogs(EmptyCore(b.core.logs), AllOps(b.events));
  }

  lemma UnloggedDrifts(cfg: Config, used: set<(Position, nat)>, b: Broker, s: Stepped, ids: set<Text>)
    requires Drift(cfg, used, b, ids) && Unlogged(b, s)
    ensures Drift(cfg, used, s.broker, ids)
    ensures Held(Recovered(b).value.delivery, Recovered(s.broker).value.delivery, ids)
  {
    ReplayOnGrownLogs(b, s.broker.core.logs);
  }

  lemma {:induction false} LoggedDrifts(cfg: Config, used: set<(Position, nat)>, b: Broker, s: Stepped,
                                        ids: set<Text>, e: Event)
    requires Distinct(cfg, used) && Drift(cfg, used, b, ids) && Logged(cfg, used, b, s, e)
    requires !AnyHit(Recovered(b).value.delivery, ids, Ops(e))
    ensures Drift(cfg, used, s.broker, ids)
    ensures Held(Recovered(b).value.delivery, Recovered(s.broker).value.delivery, ids)
  {
    var p := Recovered(b).value;
    DriftIsLive(cfg, used, b, ids);
    OpsOnFull(cfg, used, p, ids, Ops(e));
    ReplayKeepsOwned(cfg, used, p, Ops(e));
    ReplayKeepsLogs(b.core, Ops(e));
    ReplaySnoc(b.core.logs, b.events, e);
  }

  lemma {:induction false} LoggedBreaks(cfg: Config, used: set<(Position, nat)>, b: Broker, s: Stepped,
                                        ids: set<Text>, e: Event)
    requires Distinct(cfg, used) && Drift(cfg, used, b, ids) && Logged(cfg, used, b, s, e)
    requires AnyHit(Recovered(b).value.delivery, ids, Ops(e))
    ensures Broken(s.broker)
  {
    var p := Recovered(b).value;
    DriftIsLive(cfg, used, b, ids);
    ReplayKeepsLogs(b.core, Ops(e));
    forall logs | Extends(s.broker.core.logs, logs) ensures PlainReplay(logs, s.broker.events) == Err(Corruption) {
      ReplayOnGrownLogs(b, logs);
      var p' := p.(logs := logs);
      RecoveredStateIsValid(logs, b.events);
      RecoveredLogs(b);
      ReplayOnMoreMessages(b.core, Ops(e), logs);
      assert p'.Release(ids) == b.core.(logs := logs);
      OpsOnFull(cfg, used, p', ids, Ops(e));
      ReplaySnoc(logs, b.events, e);
    }
  }

  lemma {:induction false} StepGrows(cfg: Config, b: Broker, cmd: Command, io: bool)
    ensures var b' := Step(cfg, b, cmd, io).broker;
      && (b'.events == b.events || exists e :: b'.events == b.events + [e])
      && Extends(b.core.logs, b'.core.logs)
  {
  }

  lemma {:induction false} StillBroken(cfg: Config, b: Broker, cmd: Command, io: bool)
    requires Broken(b)
    ensures Broken(Step(cfg, b, cmd, io).broker)
  {
    var b' := Step(cfg, b, cmd, io).broker;
    StepGrows(cfg, b, cmd, io);
    forall logs | Extends(b'.core.logs, logs) ensures PlainReplay(logs, b'.events) == Err(Corruption) {
      forall id ensures LogOf(b.core.logs, id) <= LogOf(logs, id) {
        assert LogOf(b.core.logs, id) <= LogOf(b'.core.logs, id) <= LogOf(logs, id);
      }
      assert Extends(b.core.logs, logs);
      if b'.events != b.events {
        var e :| b'.events == b.events + [e];
        ReplaySnoc(logs, b.events, e);
      }
    }
  }
}
