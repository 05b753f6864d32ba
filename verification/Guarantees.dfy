/** What consumers can rely on, said without the functions that compute it: what a consume command
    hands out, when a lease ends, and that a finished message is never delivered again. */
module Guarantees {
  import opened Common
  import opened Domain
  import opened Delivery
  import opened Replay
  import opened Publish
  import opened Durable
  import opened Maintenance
  import opened Commit
  import opened Reopen
  import opened Sessions

  // ---- finished messages ----

  /** The group has acknowledged the message or given it up. */
  ghost predicate Finished(d: DeliveryState, pos: Position) {
    pos.ref.offset in d.SlotOf(KeyOf(pos)).acked || pos.ref.offset in d.SlotOf(KeyOf(pos)).dead
  }

  ghost predicate Delivers(op: Op, pos: Position) {
    op.Deliver? && op.event.pos == pos
  }

  ghost predicate NeverDelivers(ops: seq<Op>, pos: Position) {
    forall i :: 0 <= i < |ops| ==> !Delivers(ops[i], pos)
  }

  lemma OpKeepsFinished(c: Core, op: Op, pos: Position)
    requires c.Valid() && Finished(c.delivery, pos) && ReplayOp(c, op).Ok?
    ensures Finished(ReplayOp(c, op).value.delivery, pos) && !Delivers(op, pos)
  {
  }

  lemma {:induction false} OpsKeepFinished(c: Core, ops: seq<Op>, pos: Position)
    requires c.Valid() && Finished(c.delivery, pos) && ReplayOps(c, ops).Ok?
    ensures Finished(ReplayOps(c, ops).value.delivery, pos) && NeverDelivers(ops, pos)
    decreases |ops|
  {
    if ops == [] {
    } else {
      OpKeepsFinished(c, ops[0], pos);
      OpKeepsValid(c, ops[0]);
      OpsKeepFinished(ReplayOp(c, ops[0]).value, ops[1..], pos);
      forall i | 0 <= i < |ops| ensures !Delivers(ops[i], pos) {
        if i > 0 { assert !Delivers(ops[1..][i - 1], pos); }
      }
    }
  }

  /** What a session from `b` to `end` has done to a finished message: nothing. */
  ghost predicate LeftAlone(cfg: Config, used: set<(Position, nat)>, b: Broker, end: Broker, pos: Position) {
    && Live(cfg, used, end) && Finished(end.core.delivery, pos)
    && b.events <= end.events && NeverDelivers(LoggedOps(b, end), pos)
  }

  lemma {:induction false} FinishedStep(cfg: Config, used: set<(Position, nat)>, b: Broker, mid: Broker,
                                        pos: Position, cmd: Command, io: bool)
    requires Distinct(cfg, used) && UsesOnly(mid.core, cmd, used) && LeftAlone(cfg, used, b, mid, pos)
    ensures LeftAlone(cfg, used, b, Step(cfg, mid, cmd, io).broker, pos)
  {
    var s := Step(cfg, mid, cmd, io);
    StepCommits(cfg, used, mid, cmd, io);
    CommitKeepsLive(cfg, used, mid, s);
    if !Unlogged(mid, s) {
      var e :| Logged(cfg, used, mid, s, e);
      OpsKeepFinished(mid.core, Ops(e), pos);
      EventsTail(mid.events, |b.events|, e);
    }
  }

  /** Once a group has acknowledged or dead-lettered a message, no later command of the session delivers
      it to the group again. */
  lemma {:induction false} FinishedIsForever(cfg: Config, used: set<(Position, nat)>, b: Broker, calls: seq<Call>,
                                             pos: Position)
    requires Distinct(cfg, used) && AllUse(cfg, b, calls, used) && Live(cfg, used, b) && Finished(b.core.delivery, pos)
    ensures LeftAlone(cfg, used, b, Run(cfg, b, calls), pos)
  {
    if calls == [] {
      assert b.events[|b.events|..] == [];
    } else {
      var init, last := calls[..|calls| - 1], calls[|calls| - 1];
      FinishedIsForever(cfg, used, b, init, pos);
      FinishedStep(cfg, used, b, Run(cfg, b, init), pos, last.command, last.io);
    }
  }

  /** Reopening neither forgets a finished message nor finishes one. */
  lemma {:induction false} ReopenKeepsFinished(cfg: Config, used: set<(Position, nat)>, b: Broker, calls: seq<Call>,
                                               pos: Position)
    requires cfg.Valid() && Distinct(cfg, used) && AllUse(cfg, b, calls, used) && JustOpened(cfg, used, b)
    requires NextOpen(cfg, b, calls).Ok?
    ensures Finished(NextOpen(cfg, b, calls).value.core.delivery, pos) <==>
            Finished(Run(cfg, b, calls).core.delivery, pos)
  {
    ReopenStep(cfg, used, b, calls);
    var end := Run(cfg, b, calls);
    ReleasedSlot(end.core.delivery, end.core.delivery.pending.Keys, KeyOf(pos));
  }

  lemma {:induction false} FinishedOneMore(cfg: Config, used: set<(Position, nat)>, chain: seq<seq<Call>>,
                                           last: seq<Call>, pos: Position)
    requires cfg.Valid() && Distinct(cfg, used) && SessionsUse(cfg, chain, used)
    requires Reopened(cfg, chain).Ok? && AllUse(cfg, Reopened(cfg, chain).value, last, used)
    requires Finished(Reopened(cfg, chain).value.core.delivery, pos)
    requires NextOpen(cfg, Reopened(cfg, chain).value, last).Ok?
    ensures Finished(NextOpen(cfg, Reopened(cfg, chain).value, last).value.core.delivery, pos)
  {
    var b := Reopened(cfg, chain).value;
    ReopenedChain(cfg, used, chain);
    DriftIsLive(cfg, used, b, Recovered(b).value.delivery.pending.Keys);
    FinishedIsForever(cfg, used, b, last, pos);
    ReopenKeepsFinished(cfg, used, b, last, pos);
  }

  /** So over any further sessions it stays finished, for as long as the directory opens. */
  lemma {:induction false} FinishedAcrossSessions(cfg: Config, used: set<(Position, nat)>, sessions: seq<seq<Call>>,
                                                  more: seq<seq<Call>>, pos: Position)
    requires cfg.Valid() && Distinct(cfg, used) && SessionsUse(cfg, sessions + more, used)
    requires Reopened(cfg, sessions).Ok? && Finished(Reopened(cfg, sessions).value.core.delivery, pos)
    requires Reopened(cfg, sessions + more).Ok?
    ensures Finished(Reopened(cfg, sessions + more).value.core.delivery, pos)
    decreases |more|
  {
    if more == [] {
      assert sessions + more == sessions;
    } else {
      var init, last := more[..|more| - 1], more[|more| - 1];
      assert (sessions + more)[..|sessions + more| - 1] == sessions + init;
      FinishedAcrossSessions(cfg, used, sessions, init, pos);
      FinishedOneMore(cfg, used, sessions + init, last, pos);
    }
  }

  // ---- what a consume command hands out ----

  lemma {:induction false} ConsumedInFlight(d: DeliveryState, es: seq<DeliveryEvent>, i: nat)
    requires Apart(es) && i < |es|
    ensures InFlightAs(ConsumeAll(d, es), es[i])
    decreases |es|
  {
    var rest := es[1..];
    forall j, k | 0 <= j < k < |rest| ensures rest[j].pos != rest[k].pos && rest[j].id != rest[k].id {}
    if i > 0 {
      ConsumedInFlight(d.Consumed(es[0]), rest, i - 1);
    } else {
      assert InFlightAs(d.Consumed(es[0]), es[0]);
      OthersStay(d.Consumed(es[0]), rest, es[0].id);
    }
  }

  lemma {:induction false} OthersStay(d: DeliveryState, es: seq<DeliveryEvent>, id: Text)
    requires id in d.pending && forall i :: 0 <= i < |es| ==> es[i].id != id
    ensures id in ConsumeAll(d, es).pending && ConsumeAll(d, es).pending[id] == d.pending[id]
    decreases |es|
  {
    if es == [] {
    } else {
      OthersStay(d.Consumed(es[0]), es[1..], id);
    }
  }

  lemma {:induction false} ConsumedUnavailable(d: DeliveryState, es: seq<DeliveryEvent>, pos: Position)
    ensures AvailableTo(ConsumeAll(d, es), pos) <==>
            AvailableTo(d, pos) && forall i :: 0 <= i < |es| ==> es[i].pos != pos
    decreases |es|
  {
    if es == [] {
    } else {
      ConsumedUnavailable(d.Consumed(es[0]), es[1..], pos);
      assert AvailableTo(d.Consumed(es[0]), pos) <==> AvailableTo(d, pos) && es[0].pos != pos;
      forall i | 1 <= i < |es| ensures es[i] == es[1..][i - 1] {}
    }
  }

  /** The message is available to the group. */
  ghost predicate AvailableTo(d: DeliveryState, pos: Position) {
    d.SlotOf(KeyOf(pos)).IsAvailable(pos.ref.offset)
  }

  ghost predicate InFlightAs(d: DeliveryState, e: DeliveryEvent) {
    e.id in d.pending && d.pending[e.id] == PendingDelivery(e.pos, e.consumer, e.attempt, e.leaseExpiresAt)
  }

  /** A message was handed out properly: it is the stored one, it was available to the group and no longer
      is, and it is in flight under a new id, for the asking consumer, as the next attempt, until the lease
      asked for, or else the configured one, has passed. */
  ghost predicate HandedOut(cfg: Config, cmd: Command, before: Core, after: Core, m: ConsumedMessage)
    requires cmd.Consume?
  {
    var e := m.delivery;
    && e.pos.group == cmd.group && e.pos.ref.topic == cmd.topic && before.HasMessage(e.pos.ref)
    && m.envelope == before.Log(e.pos.ref.topic, e.pos.ref.partition)[e.pos.ref.offset]
    && AvailableTo(before.delivery, e.pos) && !AvailableTo(after.delivery, e.pos)
    && e.id !in before.delivery.pending && InFlightAs(after.delivery, e)
    && e.consumer == cmd.consumer && e.deliveredAt == cmd.timestamp
    && e.attempt == before.delivery.SlotOf(KeyOf(e.pos)).Attempts(e.pos.ref.offset) + 1
    && e.leaseExpiresAt <= U64_MAX
    && e.leaseExpiresAt == cmd.timestamp + match cmd.lease case Some(millis) => millis case None => cfg.leaseMillis
  }

  /** No message of the topic is left for the group. */
  ghost predicate Drained(c: Core, group: Text, topic: Text) {
    forall pos: Position :: pos.group == group && pos.ref.topic == topic && c.HasMessage(pos.ref) ==>
      !AvailableTo(c.delivery, pos)
  }

  lemma AvailableIsListed(c: Core, group: Text, topic: Text, pos: Position)
    requires topic in c.catalog && pos.group == group && pos.ref.topic == topic
    requires c.HasMessage(pos.ref) && AvailableTo(c.delivery, pos)
    ensures var r := Record(pos.ref.partition, pos.ref.offset, c.Log(topic, pos.ref.partition)[pos.ref.offset]);
      r in AvailableRecords(c.delivery, group, topic, RecordsOf(c.logs, topic, c.catalog[topic]))
  {
    var all := RecordsOf(c.logs, topic, c.catalog[topic]);
    forall i, j | 0 <= i < j < |all|
      ensures Before(all[i], all[j])
    {
      CanonicalOrder(c.logs, topic, c.catalog[topic], i, j);
    }
    AvailableSubsequence(c.delivery, group, topic, all);
    RecordListed(c.logs, topic, c.catalog[topic], pos.ref.partition, pos.ref.offset);
  }

  /** A consume command that asks for more than it gets has emptied the topic for the group. */
  lemma {:induction false} ShortMeansDrained(c: Core, cmd: Command, es: seq<DeliveryEvent>)
    requires cmd.Consume? && cmd.topic in c.catalog
    requires var recs := Selection(c, cmd.group, cmd.topic, cmd.maxMessages);
      && |recs| < cmd.maxMessages && |es| == |recs|
      && forall i :: 0 <= i < |es| ==> es[i].pos == RecordPosition(cmd.group, cmd.topic, recs[i])
    ensures Drained(c.(delivery := ConsumeAll(c.delivery, es)), cmd.group, cmd.topic)
  {
    var recs := Selection(c, cmd.group, cmd.topic, cmd.maxMessages);
    forall pos: Position | pos.group == cmd.group && pos.ref.topic == cmd.topic && c.HasMessage(pos.ref)
      ensures !AvailableTo(ConsumeAll(c.delivery, es), pos)
    {
      ConsumedUnavailable(c.delivery, es, pos);
      if AvailableTo(c.delivery, pos) {
        AvailableIsListed(c, cmd.group, cmd.topic, pos);
        var p, o := pos.ref.partition, pos.ref.offset;
        var i :| 0 <= i < |recs| && recs[i] == Record(p, o, c.Log(cmd.topic, p)[o]);
        assert es[i].pos == pos;
      }
    }
  }

  /** A successful consume hands out at most as many messages as asked for, each properly, and fewer only
      if nothing is left; all other deliveries in flight stay as they are. */
  lemma {:induction false} ConsumeHandsOut(cfg: Config, used: set<(Position, nat)>, b: Broker, cmd: Command, io: bool)
    requires cmd.Consume? && Distinct(cfg, used) && Live(cfg, used, b) && UsesOnly(b.core, cmd, used)
    requires StepConsume(cfg, b, cmd, io).response.Delivered?
    ensures var s := StepConsume(cfg, b, cmd, io);
      && |s.response.messages| <= cmd.maxMessages
      && (forall i :: 0 <= i < |s.response.messages| ==>
            HandedOut(cfg, cmd, b.core, s.broker.core, s.response.messages[i]))
      && (|s.response.messages| < cmd.maxMessages ==> Drained(s.broker.core, cmd.group, cmd.topic))
      && (forall id :: id in b.core.delivery.pending ==>
            id in s.broker.core.delivery.pending && s.broker.core.delivery.pending[id] == b.core.delivery.pending[id])
  {
    var s, d := StepConsume(cfg, b, cmd, io), b.core.delivery;
    var recs := Selection(b.core, cmd.group, cmd.topic, cmd.maxMessages);
    SelectionIsSound(b.core, cmd.group, cmd.topic, cmd.maxMessages);
    var expires := cmd.timestamp + LeaseOf(cfg, cmd.lease).0;
    var es := DeliveriesFor(cfg, d, cmd.topic, cmd.group, cmd.consumer, cmd.timestamp, expires, recs);
    SelectedAreFresh(cfg, used, b.core, cmd, expires);
    assert recs == [] ==> ConsumeAll(d, es) == d;
    if |recs| < cmd.maxMessages { ShortMeansDrained(b.core, cmd, es); }
    forall i | 0 <= i < |recs| ensures HandedOut(cfg, cmd, b.core, s.broker.core, s.response.messages[i]) {
      assert Fresh(b.core, es[i]);
      ConsumedInFlight(d, es, i);
      ConsumedUnavailable(d, es, es[i].pos);
    }
    forall id | id in d.pending
      ensures id in s.broker.core.delivery.pending && s.broker.core.delivery.pending[id] == d.pending[id]
    {
      forall i | 0 <= i < |es| ensures es[i].id != id { assert Fresh(b.core, es[i]); }
      OthersStay(d, es, id);
    }
  }

  // ---- leases and retries ----

  lemma {:induction false} PassSettles(cfg: Config, c: Core, ids: seq<Text>, now: nat, outs: seq<Computed>)
    requires c.delivery.Valid() && Outcomes(cfg, c, ids, now, outs) && |outs| == |ids|
    ensures var d' := Maintain(c.delivery, ids, now, outs).state;
      && d'.pending == c.delivery.pending - Elements(ids)
      && |d'.deadLetters| == |c.delivery.deadLetters| + CountDead(outs)
  {
    SettleEachIsReplay(cfg, c, ids, now, outs);
    AvailabilityList(cfg, c, ids, now, outs);
    var settled := SettleEach(c.delivery, ids, outs).state;
    ReadyEachIsReplay(c.(delivery := settled), Available(c.delivery, ids, now, outs), now);
    ReadyKeepsLetters(settled, Available(c.delivery, ids, now, outs), now);
    DeadLettersCounted(cfg, c, ids, now, outs);
  }

  /** After a successful maintenance pass exactly the deliveries whose lease had not passed are in flight,
      unchanged, no scheduled retry is due, and the summary counts what happened. */
  lemma {:induction false} MaintenanceSettles(cfg: Config, b: Broker, now: nat, io: bool)
    requires b.core.Valid() && StepRetryReady(cfg, b, now, io).response.Maintained?
    ensures var s, d := StepRetryReady(cfg, b, now, io), b.core.delivery;
      var d' := s.broker.core.delivery;
      && d'.pending == (map id | id in d.pending && d.pending[id].leaseExpiresAt > now :: d.pending[id])
      && (forall pos :: !IsReady(d', pos, now))
      && s.response.summary.leaseExpired == |ExpiredSet(d, now)|
      && s.response.summary.deadLettered == |d'.deadLetters| - |d.deadLetters|
  {
    var ids := ExpiredIds(b.core.delivery, now);
    ExpiredIdsPending(b.core.delivery, now);
    DistinctCount(ids);
    var outs := ComputeAll(cfg, b.core, ids, now).value;
    MaintenanceReplays(cfg, b.core, ids, now, outs);
    PassSettles(cfg, b.core, ids, now, outs);
    assert Elements(ids) == ExpiredSet(b.core.delivery, now);
  }

  lemma {:induction false} ReadyKeepsLetters(d: DeliveryState, ps: seq<Position>, now: nat)
    ensures ReadyEach(d, ps, now).state.deadLetters == d.deadLetters
    decreases |ps|
  {
    if ps == [] {
    } else {
      ReadyKeepsLetters(d, ps[..|ps| - 1], now);
    }
  }
}
