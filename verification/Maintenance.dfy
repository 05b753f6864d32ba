/** Retry maintenance, step by step: settling the expired deliveries one after the other and then
    making the due retries available never meets an inconsistent state, in any order. */
module Maintenance {
  import opened Common
  import opened Domain
  import opened Delivery
  import opened Replay
  import opened Durable

  ghost predicate IsReady(d: DeliveryState, pos: Position, now: nat) {
    var slot := d.SlotOf(KeyOf(pos));
    pos.ref.offset in slot.retry && slot.retry[pos.ref.offset].readyAt <= now
  }

  /** Exactly the positions `ps` became due on the way from `d` to `d'`. */
  ghost predicate Gains(d: DeliveryState, d': DeliveryState, now: nat, ps: seq<Position>) {
    forall p :: IsReady(d', p, now) <==> IsReady(d, p, now) || p in ps
  }

  /** Exactly the positions `ps` stopped being due on the way from `d` to `d'`. */
  ghost predicate Loses(d: DeliveryState, d': DeliveryState, now: nat, ps: seq<Position>) {
    forall p :: IsReady(d', p, now) <==> IsReady(d, p, now) && p !in ps
  }

  lemma ReadyMember(d: DeliveryState, pos: Position, now: nat)
    requires d.Valid()
    ensures pos in ReadySet(d, now) <==> IsReady(d, pos, now)
  {
    assert d.RetryLinked(KeyOf(pos), pos.ref.offset);
    if pos in ReadySet(d, now) {
      var k, o :| k in d.groups && o in d.groups[k].retry && d.groups[k].retry[o].readyAt <= now
                  && pos == Position(k.group, d.groups[k].retry[o].ref);
      assert d.RetryLinked(k, o);
    }
  }

  lemma {:induction false} ReplayOpsSnoc(c: Core, ops: seq<Op>, op: Op)
    ensures ReplayOps(c, ops + [op]) ==
            match ReplayOps(c, ops) case Err(e) => Err(e) case Ok(c') => ReplayOp(c', op)
  {
    ReplayAppend(c, ops, [op]);
    if ReplayOps(c, ops).Ok? {
      var c' := ReplayOps(c, ops).value;
      assert [op][1..] == [];
      assert ReplayOps(c', [op]) == ReplayOp(c', op);
    }
  }

  /** Settling one delivery in flight: it leaves both indexes, and at most its own retry becomes due. */
  lemma SettledStep(d: DeliveryState, id: Text, settlement: Settlement, letter: Option<DeadLetter>, now: nat)
    requires d.Valid() && id in d.pending
    requires settlement.DeadLettered? <==> letter.Some?
    requires letter.Some? ==> letter.value.pos == d.pending[id].pos
    ensures var pos := d.pending[id].pos;
      var done := d.Settled(id, pos, settlement, letter);
      && done.error == None && done.state.Valid() && done.state.pending == d.pending - {id}
      && Gains(d, done.state, now, DueOf(settlement, pos, now))
  {
    var pos := d.pending[id].pos;
    assert d.IdLinked(id) && d.SlotValid(KeyOf(pos));
    match settlement {
      case RetryScheduled(readyAt) => RetryKeepsValid(d, id, readyAt);
      case DeadLettered(_, _) => BuryKeepsValid(d, id, settlement, letter.value);
    }
  }

  /** The outcome computed for a delivery carries exactly the letter replay rebuilds from the log. */
  lemma ComputedMatchesReplay(cfg: Config, c: Core, p: PendingDelivery, timestamp: nat, reason: Reason)
    requires ComputeOutcome(cfg, c, p, timestamp, reason).Ok?
    ensures var out := ComputeOutcome(cfg, c, p, timestamp, reason).value;
      && (out.settlement.DeadLettered? <==> out.letter.Some?)
      && (out.letter.Some? ==> out.letter.value.pos == p.pos)
      && LetterFor(c, p.pos, out.settlement, timestamp) == Ok(out.letter)
  {
  }

  /** `outs` are the outcomes computed for `ids`. */
  ghost predicate Outcomes(cfg: Config, c: Core, ids: seq<Text>, now: nat, outs: seq<Computed>) {
    && (forall id :: id in ids ==> id in c.delivery.pending) && NoDuplicates(ids)
    && ComputeAll(cfg, c, ids, now) == Ok(outs)
  }

  lemma OutcomesInit(cfg: Config, c: Core, ids: seq<Text>, now: nat, outs: seq<Computed>)
    requires Outcomes(cfg, c, ids, now, outs) && ids != []
    ensures var last := |ids| - 1;
      && |outs| == |ids| && Outcomes(cfg, c, ids[..last], now, outs[..last])
      && ComputeOutcome(cfg, c, c.delivery.pending[ids[last]], now, Expired) == Ok(outs[last])
  {
    var last := |ids| - 1;
    var done := ComputeAll(cfg, c, ids[..last], now).value;
    assert outs == done + [outs[last]] && outs[..last] == done;
  }

  /** What settling the deliveries `ids` comes to ... */
  ghost predicate SettledAll(c: Core, ids: seq<Text>, now: nat, outs: seq<Computed>)
    requires |outs| == |ids| && forall id :: id in ids ==> id in c.delivery.pending
  {
    var d, done := c.delivery, SettleEach(c.delivery, ids, outs);
    && done.error == None && done.state.Valid()
    && done.state.pending == d.pending - Elements(ids)
    && Gains(d, done.state, now, DueAtOnce(d, ids, now, outs))
  }

  /** ... which replaying the event for them does too. */
  ghost predicate SettledByReplay(c: Core, ids: seq<Text>, now: nat, outs: seq<Computed>)
    requires |outs| == |ids| && forall id :: id in ids ==> id in c.delivery.pending
  {
    ReplayOps(c, SettleAll(ExpiredEvents(c.delivery, ids, now, outs))) ==
    Ok(c.(delivery := SettleEach(c.delivery, ids, outs).state))
  }

  lemma ExpiredEventsSnoc(d: DeliveryState, ids: seq<Text>, now: nat, outs: seq<Computed>)
    requires |outs| == |ids| && ids != [] && forall id :: id in ids ==> id in d.pending
    ensures var last := |ids| - 1;
      SettleAll(ExpiredEvents(d, ids, now, outs)) ==
      SettleAll(ExpiredEvents(d, ids[..last], now, outs[..last])) + [SettleOf(ExpiredEvents(d, ids, now, outs)[last])]
  {
  }

  /** Replaying one settlement of a delivery in flight does what settling it did. */
  lemma SettleIsReplay(c: Core, id: Text, now: nat, out: Computed)
    requires id in c.delivery.pending
    requires LetterFor(c, c.delivery.pending[id].pos, out.settlement, now) == Ok(out.letter)
    requires c.delivery.Settled(id, c.delivery.pending[id].pos, out.settlement, out.letter).error == None
    ensures var p := c.delivery.pending[id];
      ReplayOp(c, Settle(id, p.consumer, p.pos, p.attempt, now, out.settlement)) ==
      Ok(c.(delivery := c.delivery.Settled(id, p.pos, out.settlement, out.letter).state))
  {
  }

  lemma {:induction false} SettleOneMore(cfg: Config, c: Core, ids: seq<Text>, now: nat, outs: seq<Computed>)
    requires Outcomes(cfg, c, ids, now, outs) && ids != [] && |outs| == |ids|
    requires SettledAll(c, ids[..|ids| - 1], now, outs[..|ids| - 1])
    ensures SettledAll(c, ids, now, outs)
  {
    var d, last := c.delivery, |ids| - 1;
    var before, id, out := SettleEach(d, ids[..last], outs[..last]).state, ids[last], outs[last];
    OutcomesInit(cfg, c, ids, now, outs);
    LastElement(ids);
    ComputedMatchesReplay(cfg, c, d.pending[id], now, Expired);
    SettledStep(before, id, out.settlement, out.letter, now);
    assert SettleEach(d, ids, outs) == before.Settled(id, d.pending[id].pos, out.settlement, out.letter);
  }

  lemma {:induction false} ReplayOneMore(cfg: Config, c: Core, ids: seq<Text>, now: nat, outs: seq<Computed>)
    requires Outcomes(cfg, c, ids, now, outs) && ids != [] && |outs| == |ids|
    requires SettledAll(c, ids[..|ids| - 1], now, outs[..|ids| - 1])
    requires SettledByReplay(c, ids[..|ids| - 1], now, outs[..|ids| - 1])
    requires SettleEach(c.delivery, ids, outs).error == None
    ensures SettledByReplay(c, ids, now, outs)
  {
    var d, last := c.delivery, |ids| - 1;
    var before, id, out := SettleEach(d, ids[..last], outs[..last]).state, ids[last], outs[last];
    OutcomesInit(cfg, c, ids, now, outs);
    LastElement(ids);
    ComputedMatchesReplay(cfg, c, d.pending[id], now, Expired);
    SettleIsReplay(c.(delivery := before), id, now, out);
    ExpiredEventsSnoc(d, ids, now, outs);
    ReplayOpsSnoc(c, SettleAll(ExpiredEvents(d, ids[..last], now, outs[..last])),
                  SettleOf(ExpiredEvents(d, ids, now, outs)[last]));
  }

  lemma {:induction false} SettleEachIsReplay(cfg: Config, c: Core, ids: seq<Text>, now: nat, outs: seq<Computed>)
    requires c.delivery.Valid() && Outcomes(cfg, c, ids, now, outs)
    ensures |outs| == |ids| && SettledAll(c, ids, now, outs) && SettledByReplay(c, ids, now, outs)
    decreases |ids|
  {
    if ids == [] {
      assert SettleAll(ExpiredEvents(c.delivery, ids, now, outs)) == [];
    } else {
      var last := |ids| - 1;
      OutcomesInit(cfg, c, ids, now, outs);
      SettleEachIsReplay(cfg, c, ids[..last], now, outs[..last]);
      SettleOneMore(cfg, c, ids, now, outs);
      ReplayOneMore(cfg, c, ids, now, outs);
    }
  }

  ghost predicate ReadiedAll(c: Core, ps: seq<Position>, now: nat) {
    var done := ReadyEach(c.delivery, ps, now);
    && done.error == None && done.state.Valid() && done.state.pending == c.delivery.pending
    && Loses(c.delivery, done.state, now, ps)
  }

  ghost predicate ReadiedByReplay(c: Core, ps: seq<Position>, now: nat) {
    ReplayOps(c, ReadyAll(ps, now)) == Ok(c.(delivery := ReadyEach(c.delivery, ps, now).state))
  }

  lemma ReadyOneMore(c: Core, ps: seq<Position>, now: nat)
    requires ps != [] && ReadiedAll(c, ps[..|ps| - 1], now) && ReadiedByReplay(c, ps[..|ps| - 1], now)
    requires IsReady(c.delivery, ps[|ps| - 1], now) && ps[|ps| - 1] !in ps[..|ps| - 1]
    ensures ReadiedAll(c, ps, now) && ReadiedByReplay(c, ps, now)
  {
    var last := |ps| - 1;
    var before, p := ReadyEach(c.delivery, ps[..last], now).state, ps[last];
    assert IsReady(before, p, now);
    ReadiedKeepsValid(before, p, now);
    assert ReadiedByReplay(c, ps, now) by {
      assert ReadyAll(ps, now) == ReadyAll(ps[..last], now) + [MakeAvailable(p, now)];
      ReplayOpsSnoc(c, ReadyAll(ps[..last], now), MakeAvailable(p, now));
    }
    LosesOneMore(c.delivery, before, before.Readied(p, now).state, now, ps[..last], p);
    assert ps == ps[..last] + [p];
  }

  lemma LosesOneMore(d: DeliveryState, before: DeliveryState, after: DeliveryState, now: nat, ps: seq<Position>,
                     p: Position)
    requires Loses(d, before, now, ps) && after == before.Readied(p, now).state && IsReady(before, p, now)
    ensures Loses(d, after, now, ps + [p])
  {
    assert forall q :: q in ps + [p] <==> q in ps || q == p;
  }

  /** Making a list of distinct due retries available succeeds, and leaves exactly the others due. */
  lemma {:induction false} ReadyEachIsReplay(c: Core, ps: seq<Position>, now: nat)
    requires c.delivery.Valid() && NoDuplicates(ps) && forall p :: p in ps ==> IsReady(c.delivery, p, now)
    ensures ReadiedAll(c, ps, now) && ReadiedByReplay(c, ps, now)
    decreases |ps|
  {
    if ps == [] {
      assert ReadyAll(ps, now) == [];
    } else {
      ReadyEachIsReplay(c, ps[..|ps| - 1], now);
      ReadyOneMore(c, ps, now);
    }
  }

  lemma {:induction false} DueWerePending(d: DeliveryState, ids: seq<Text>, now: nat, outs: seq<Computed>)
    requires d.Valid() && |outs| == |ids| && NoDuplicates(ids) && forall id :: id in ids ==> id in d.pending
    ensures forall p :: p in DueAtOnce(d, ids, now, outs) ==> exists id :: id in ids && d.pending[id].pos == p
    ensures NoDuplicates(DueAtOnce(d, ids, now, outs))
    decreases |ids|
  {
    if ids == [] {
    } else {
      var last := |ids| - 1;
      DueWerePending(d, ids[..last], now, outs[..last]);
      var before := DueAtOnce(d, ids[..last], now, outs[..last]);
      forall p | p in before ensures p != d.pending[ids[last]].pos {
        var id :| id in ids[..last] && d.pending[id].pos == p;
        assert id != ids[last] && d.IdLinked(id) && d.IdLinked(ids[last]);
      }
      ConcatDistinct(before, DueOf(outs[last].settlement, d.pending[ids[last]].pos, now));
    }
  }

  /** The list of retries a maintenance pass makes available has no duplicates, is disjoint from what
      is in flight, and is exactly what is due once the expired deliveries have been settled. */
  lemma AvailabilityList(cfg: Config, c: Core, ids: seq<Text>, now: nat, outs: seq<Computed>)
    requires c.delivery.Valid() && Outcomes(cfg, c, ids, now, outs)
    ensures var d := c.delivery;
      var ps := ReadyPositions(d, now) + DueAtOnce(d, ids, now, outs);
      var settled := SettleEach(d, ids, outs).state;
      NoDuplicates(ps) && forall p :: p in ps <==> IsReady(settled, p, now)
  {
    var d := c.delivery;
    var ready, due := ReadyPositions(d, now), DueAtOnce(d, ids, now, outs);
    SettleEachIsReplay(cfg, c, ids, now, outs);
    DueWerePending(d, ids, now, outs);
    forall p ensures p in ready <==> IsReady(d, p, now) {
      ReadyMember(d, p, now);
      assert p in ready <==> p in Elements(ready);
    }
    forall p | p in due ensures p !in ready {
      var id :| id in ids && d.pending[id].pos == p;
      assert d.IdLinked(id) && d.SlotValid(KeyOf(p));
    }
    ConcatDistinct(ready, due);
  }

  /** Each dead-lettered delivery of a pass adds one entry to the dead-letter list. */
  lemma {:induction false} DeadLettersCounted(cfg: Config, c: Core, ids: seq<Text>, now: nat, outs: seq<Computed>)
    requires Outcomes(cfg, c, ids, now, outs) && |outs| == |ids| && c.delivery.Valid()
    ensures |SettleEach(c.delivery, ids, outs).state.deadLetters| == |c.delivery.deadLetters| + CountDead(outs)
    decreases |ids|
  {
    if ids == [] {
    } else {
      var last := |ids| - 1;
      OutcomesInit(cfg, c, ids, now, outs);
      DeadLettersCounted(cfg, c, ids[..last], now, outs[..last]);
      SettleEachIsReplay(cfg, c, ids[..last], now, outs[..last]);
      ComputedMatchesReplay(cfg, c, c.delivery.pending[ids[last]], now, Expired);
    }
  }

  /** A pass, once its expired deliveries are listed and their outcomes computed. */
  lemma PassIs(cfg: Config, b: Broker, now: nat, io: bool, ids: seq<Text>)
    requires ids == ExpiredIds(b.core.delivery, now) && forall id :: id in ids ==> id in b.core.delivery.pending
    ensures StepRetryReady(cfg, b, now, io) ==
      match ComputeAll(cfg, b.core, ids, now)
      case Err(e) => Stepped(b, Failed(e))
      case Ok(outs) =>
        if !io then Stepped(b, Failed(Io))
        else
          var d, count := b.core.delivery, |Available(b.core.delivery, ids, now, outs)|;
          Reply(b, Maintain(d, ids, now, outs), MaintenanceEvent(d, ids, now, outs),
                Maintained(RetrySummary(count, |ids|, count, CountDead(outs))))
  {
  }
}
