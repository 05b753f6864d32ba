/** What a retry maintenance pass does, message by message. */
module Passes {
  import opened Common
  import opened Ordering
  import opened Domain
  import opened Delivery
  import opened Replay
  import opened Durable
  import opened Maintenance
  import opened Commit
  import opened Effects

  ghost predicate HasExpired(d: DeliveryState, id: Text, now: nat) {
    id in d.pending && d.pending[id].leaseExpiresAt <= now
  }

  /** Neither a retry time nor an attempt number can be found for the delivery. */
  ghost predicate Undecided(cfg: Config, p: PendingDelivery, now: nat) {
    p.attempt >= U32_MAX || RetryTooLate(cfg, p, now)
  }

  /** What settling an expired delivery makes of its message. */
  ghost predicate Settles(cfg: Config, d': DeliveryState, p: PendingDelivery, now: nat) {
    if p.attempt >= cfg.maxAttempts then StandsDead(d', p.pos)
    else StandsScheduled(d', p.pos, now + Backoff(cfg), p.attempt)
  }

  ghost predicate AmongPositions(d: DeliveryState, ids: seq<Text>, pos: Position)
    requires forall id :: id in ids ==> id in d.pending
  {
    exists i :: 0 <= i < |ids| && d.pending[ids[i]].pos == pos
  }

  // ---- settling ----

  lemma SettlesOn(cfg: Config, d: DeliveryState, d': DeliveryState, p: PendingDelivery, now: nat)
    requires Settles(cfg, d, p, now) && SameFor(d, d', p.pos)
    ensures Settles(cfg, d', p, now)
  {
  }

  /** One more delivery settled. */
  lemma {:induction false} SettlesLast(cfg: Config, c: Core, before: DeliveryState, id: Text, now: nat, out: Computed)
    requires before.Valid() && id in before.pending && c.HasMessage(before.pending[id].pos.ref)
    requires ComputeOutcome(cfg, c, before.pending[id], now, Expired) == Ok(out)
    ensures var p := before.pending[id];
      var after := before.Settled(id, p.pos, out.settlement, out.letter).state;
      && Settles(cfg, after, p, now) && OthersKept(before, after, id)
      && (p.attempt < cfg.maxAttempts ==> after.deadLetters == before.deadLetters)
      && (p.attempt >= cfg.maxAttempts ==>
            && out.letter.Some? && after.deadLetters == before.deadLetters + [out.letter.value]
            && LetterOf(c, p, out.letter.value, now) && out.letter.value.reason == Expired)
  {
    OutcomeDecided(cfg, c, before.pending[id], now, Expired);
    match out.settlement {
      case RetryScheduled(at) => ScheduledStanding(before, id, at);
      case DeadLettered(_, _) => DeadStanding(before, id, out.settlement, out.letter.value);
    }
  }

  /** The last of the deliveries to settle, in the state the others left. */
  lemma {:induction false} LastSettled(cfg: Config, c: Core, ids: seq<Text>, now: nat, outs: seq<Computed>)
    requires c.Valid() && Outcomes(cfg, c, ids, now, outs) && |outs| == |ids| && ids != []
    ensures var last, d := |ids| - 1, c.delivery;
      && Outcomes(cfg, c, ids[..last], now, outs[..last]) && |outs[..last]| == |ids[..last]|
      && var before, id, out := SettleEach(d, ids[..last], outs[..last]).state, ids[last], outs[last];
         && before.Valid() && id in before.pending && before.pending[id] == d.pending[id]
         && c.HasMessage(d.pending[id].pos.ref) && ComputeOutcome(cfg, c, d.pending[id], now, Expired) == Ok(out)
         && SettleEach(d, ids, outs).state == before.Settled(id, d.pending[id].pos, out.settlement, out.letter).state
  {
    var last := |ids| - 1;
    OutcomesInit(cfg, c, ids, now, outs);
    LastElement(ids);
    SettleEachIsReplay(cfg, c, ids[..last], now, outs[..last]);
    assert c.IdHasMessage(ids[last]);
  }

  /** Settling the last delivery leaves the others' messages as they are. */
  lemma {:induction false} SettledBefore(cfg: Config, c: Core, ids: seq<Text>, now: nat, outs: seq<Computed>, i: nat)
    requires c.Valid() && Outcomes(cfg, c, ids, now, outs) && |outs| == |ids| && i < |ids| - 1
    requires var before := SettleEach(c.delivery, ids[..|ids| - 1], outs[..|ids| - 1]).state;
      Settles(cfg, before, c.delivery.pending[ids[i]], now)
    ensures Settles(cfg, SettleEach(c.delivery, ids, outs).state, c.delivery.pending[ids[i]], now)
  {
    var last, d := |ids| - 1, c.delivery;
    var before := SettleEach(d, ids[..last], outs[..last]).state;
    LastSettled(cfg, c, ids, now, outs);
    SettlesLast(cfg, c, before, ids[last], now, outs[last]);
    assert d.IdLinked(ids[i]) && d.IdLinked(ids[last]) && ids[i] != ids[last];
    SettlesOn(cfg, before, SettleEach(d, ids, outs).state, d.pending[ids[i]], now);
  }

  lemma {:induction false} SettledMessages(cfg: Config, c: Core, ids: seq<Text>, now: nat, outs: seq<Computed>, i: nat)
    requires c.Valid() && Outcomes(cfg, c, ids, now, outs) && |outs| == |ids| && i < |ids|
    ensures Settles(cfg, SettleEach(c.delivery, ids, outs).state, c.delivery.pending[ids[i]], now)
    decreases |ids|
  {
    var last := |ids| - 1;
    LastSettled(cfg, c, ids, now, outs);
    if i == last {
      SettlesLast(cfg, c, SettleEach(c.delivery, ids[..last], outs[..last]).state, ids[last], now, outs[last]);
    } else {
      SettledMessages(cfg, c, ids[..last], now, outs[..last], i);
      SettledBefore(cfg, c, ids, now, outs, i);
    }
  }

  lemma {:induction false} UnsettledMessages(cfg: Config, c: Core, ids: seq<Text>, now: nat, outs: seq<Computed>,
                                             pos: Position)
    requires c.Valid() && Outcomes(cfg, c, ids, now, outs) && |outs| == |ids|
    requires !AmongPositions(c.delivery, ids, pos)
    ensures SameFor(c.delivery, SettleEach(c.delivery, ids, outs).state, pos)
    decreases |ids|
  {
    if ids == [] {
    } else {
      var last, d := |ids| - 1, c.delivery;
      var before := SettleEach(d, ids[..last], outs[..last]).state;
      LastSettled(cfg, c, ids, now, outs);
      SettlesLast(cfg, c, before, ids[last], now, outs[last]);
      forall i | 0 <= i < last ensures d.pending[ids[..last][i]].pos != pos { assert d.pending[ids[i]].pos != pos; }
      UnsettledMessages(cfg, c, ids[..last], now, outs[..last], pos);
      SameTwice(d, before, SettleEach(d, ids, outs).state, pos);
    }
  }

  /** The deliveries that are given up, in the order in which they are settled. */
  function GivenUp(cfg: Config, d: DeliveryState, ids: seq<Text>): seq<Text>
    requires forall id :: id in ids ==> id in d.pending
  {
    if ids == [] then []
    else
      GivenUp(cfg, d, ids[..|ids| - 1])
      + (if d.pending[ids[|ids| - 1]].attempt >= cfg.maxAttempts then [ids[|ids| - 1]] else [])
  }

  /** `letters` are the letters of the deliveries `lost`, in the same order. */
  ghost predicate LettersOf(c: Core, lost: seq<Text>, letters: seq<DeadLetter>, now: nat)
    requires forall id :: id in lost ==> id in c.delivery.pending
  {
    && |letters| == |lost|
    && forall i :: 0 <= i < |lost| ==>
         LetterOf(c, c.delivery.pending[lost[i]], letters[i], now) && letters[i].reason == Expired
  }

  lemma {:induction false} GivenUpAmong(cfg: Config, d: DeliveryState, ids: seq<Text>)
    requires forall id :: id in ids ==> id in d.pending
    ensures forall id :: id in GivenUp(cfg, d, ids) <==> id in ids && d.pending[id].attempt >= cfg.maxAttempts
    decreases |ids|
  {
    if ids == [] {
    } else {
      GivenUpAmong(cfg, d, ids[..|ids| - 1]);
      assert ids == ids[..|ids| - 1] + [ids[|ids| - 1]];
    }
  }

  ghost predicate Ascending(ids: seq<Text>) {
    forall i, j :: 0 <= i < j < |ids| ==> TextLeq(ids[i], ids[j]) && ids[i] != ids[j]
  }

  lemma {:induction false} GivenUpAscending(cfg: Config, d: DeliveryState, ids: seq<Text>)
    requires (forall id :: id in ids ==> id in d.pending) && Ascending(ids)
    ensures Ascending(GivenUp(cfg, d, ids))
    decreases |ids|
  {
    if ids == [] {
    } else {
      var last := |ids| - 1;
      GivenUpAscending(cfg, d, ids[..last]);
      GivenUpAmong(cfg, d, ids[..last]);
      var lost := GivenUp(cfg, d, ids[..last]);
      forall i | 0 <= i < |lost| ensures TextLeq(lost[i], ids[last]) && lost[i] != ids[last] {
        assert lost[i] in ids[..last];
        var k :| 0 <= k < last && ids[k] == lost[i];
      }
    }
  }

  lemma {:induction false} SettledLetters(cfg: Config, c: Core, ids: seq<Text>, now: nat, outs: seq<Computed>)
      returns (letters: seq<DeadLetter>)
    requires c.Valid() && Outcomes(cfg, c, ids, now, outs) && |outs| == |ids|
    ensures SettleEach(c.delivery, ids, outs).state.deadLetters == c.delivery.deadLetters + letters
    ensures (forall id :: id in GivenUp(cfg, c.delivery, ids) ==> id in c.delivery.pending)
    ensures LettersOf(c, GivenUp(cfg, c.delivery, ids), letters, now)
    decreases |ids|
  {
    GivenUpAmong(cfg, c.delivery, ids);
    if ids == [] {
      letters := [];
    } else {
      var last, d := |ids| - 1, c.delivery;
      var before := SettleEach(d, ids[..last], outs[..last]).state;
      LastSettled(cfg, c, ids, now, outs);
      SettlesLast(cfg, c, before, ids[last], now, outs[last]);
      letters := SettledLetters(cfg, c, ids[..last], now, outs[..last]);
      if d.pending[ids[last]].attempt >= cfg.maxAttempts {
        var letter := outs[last].letter.value;
        assert d.deadLetters + letters + [letter] == d.deadLetters + (letters + [letter]);
        letters := letters + [letter];
      }
    }
  }

  // ---- making retries available ----

  /** The scheduled retry of the message is gone, and nothing else about it has changed. */
  ghost predicate Freed(d: DeliveryState, d': DeliveryState, pos: Position) {
    var s, s', o := d.SlotOf(KeyOf(pos)), d'.SlotOf(KeyOf(pos)), pos.ref.offset;
    && o !in s'.retry
    && (o in s'.acked <==> o in s.acked) && (o in s'.dead <==> o in s.dead)
    && (o in s'.pending <==> o in s.pending) && (o in s.pending ==> s'.pending[o] == s.pending[o])
    && (o in s'.attempts <==> o in s.attempts) && (o in s.attempts ==> s'.attempts[o] == s.attempts[o])
  }

  lemma FreeOne(d: DeliveryState, p: Position, now: nat, pos: Position)
    requires IsReady(d, p, now)
    ensures var d' := d.Readied(p, now).state;
      && (if pos == p then Freed(d, d', pos) else SameFor(d, d', pos))
      && d'.deadLetters == d.deadLetters && d'.pending == d.pending
  {
    assert At(KeyOf(pos), pos.ref.offset) == pos;
  }

  lemma FreedOn(d: DeliveryState, d': DeliveryState, d'': DeliveryState, pos: Position)
    ensures Freed(d, d', pos) && SameFor(d', d'', pos) ==> Freed(d, d'', pos)
    ensures SameFor(d, d', pos) && Freed(d', d'', pos) ==> Freed(d, d'', pos)
    ensures SameFor(d, d', pos) && SameFor(d', d'', pos) ==> SameFor(d, d'', pos)
  {
  }

  lemma {:induction false} FreesListed(c: Core, ps: seq<Position>, now: nat, pos: Position)
    requires c.delivery.Valid() && NoDuplicates(ps) && forall p :: p in ps ==> IsReady(c.delivery, p, now)
    ensures var d, d' := c.delivery, ReadyEach(c.delivery, ps, now).state;
      && (if pos in ps then Freed(d, d', pos) else SameFor(d, d', pos))
      && d'.deadLetters == d.deadLetters && d'.pending == d.pending
    decreases |ps|
  {
    if ps == [] {
    } else {
      var last := |ps| - 1;
      var before := ReadyEach(c.delivery, ps[..last], now).state;
      LastElement(ps);
      ReadyEachIsReplay(c, ps[..last], now);
      FreesListed(c, ps[..last], now, pos);
      FreeOne(before, ps[last], now, pos);
      FreedOn(c.delivery, before, ReadyEach(c.delivery, ps, now).state, pos);
      assert pos in ps <==> pos in ps[..last] || pos == ps[last];
    }
  }

  // ---- the pass ----

  /** The message of an expired delivery after the pass: given up if all attempts are used up, else to be retried
      after the backoff, or at once if there is none. */
  ghost predicate AfterExpiry(cfg: Config, d': DeliveryState, p: PendingDelivery, now: nat) {
    if p.attempt >= cfg.maxAttempts then StandsDead(d', p.pos)
    else if Backoff(cfg) > 0 then StandsScheduled(d', p.pos, now + Backoff(cfg), p.attempt)
    else Waits(d', p.pos) && AttemptsSoFar(d', p.pos) == p.attempt
  }

  ghost predicate WasExpired(d: DeliveryState, now: nat, pos: Position) {
    exists id :: HasExpired(d, id, now) && d.pending[id].pos == pos
  }

  ghost predicate WasDue(d: DeliveryState, now: nat, pos: Position) {
    var s, o := d.SlotOf(KeyOf(pos)), pos.ref.offset;
    o in s.retry && s.retry[o].readyAt <= now
  }

  /** The messages the pass makes available. */
  ghost function FreedBy(cfg: Config, d: DeliveryState, now: nat): set<Position> {
    (set k, o | k in d.groups && o in d.groups[k].retry && d.groups[k].retry[o].readyAt <= now :: At(k, o))
    + (if Backoff(cfg) > 0 then {}
       else set id | id in d.pending && d.pending[id].leaseExpiresAt <= now && d.pending[id].attempt < cfg.maxAttempts
            :: d.pending[id].pos)
  }

  ghost predicate GivesUp(cfg: Config, c: Core, now: nat, lost: seq<Text>, letters: seq<DeadLetter>) {
    && Ascending(lost) && |letters| == |lost|
    && (forall id :: id in lost <==>
          HasExpired(c.delivery, id, now) && c.delivery.pending[id].attempt >= cfg.maxAttempts)
    && LettersOf(c, lost, letters, now)
  }

  /** Only the deliveries whose lease has passed leave flight; what becomes of each message; the dead letters in
      the order of the delivery ids; and the counts. */
  ghost predicate PassDoes(cfg: Config, b: Broker, b': Broker, now: nat, summary: RetrySummary) {
    var d, d' := b.core.delivery, b'.core.delivery;
    && (forall id :: id in d'.pending <==> id in d.pending && !HasExpired(d, id, now))
    && (forall id :: id in d'.pending ==> d'.pending[id] == d.pending[id])
    && (forall id :: HasExpired(d, id, now) ==> AfterExpiry(cfg, d', d.pending[id], now))
    && (forall p :: WasDue(d, now, p) ==> Freed(d, d', p))
    && (forall p :: !WasDue(d, now, p) && !WasExpired(d, now, p) ==> SameFor(d, d', p))
    && d.deadLetters <= d'.deadLetters
    && (exists lost :: GivesUp(cfg, b.core, now, lost, d'.deadLetters[|d.deadLetters|..]))
    && summary == RetrySummary(|FreedBy(cfg, d, now)|, |ExpiredSet(d, now)|, |FreedBy(cfg, d, now)|,
                               |d'.deadLetters| - |d.deadLetters|)
    && b' == b.(core := b.core.(delivery := d'), events := b'.events) && |b'.events| == |b.events| + 1
    && b.events <= b'.events
  }

  lemma ExpiredListed(d: DeliveryState, now: nat)
    ensures var ids := ExpiredIds(d, now);
      && Ascending(ids) && NoDuplicates(ids) && (forall id :: id in ids <==> HasExpired(d, id, now))
  {
    ExpiredIdsPending(d, now);
    var ids := ExpiredIds(d, now);
    assert forall i, j :: 0 <= i <= j < |ids| ==> TextLeq(ids[i], ids[j]);
  }

  /** What is due once the expired deliveries are settled: what was due before, and the retries due at once. */
  lemma {:induction false} DueAfterSettling(cfg: Config, c: Core, ids: seq<Text>, now: nat, outs: seq<Computed>,
                                            pos: Position)
    requires c.Valid() && Outcomes(cfg, c, ids, now, outs) && |outs| == |ids|
    requires forall id :: id in ids <==> HasExpired(c.delivery, id, now)
    ensures IsReady(SettleEach(c.delivery, ids, outs).state, pos, now) <==> pos in FreedBy(cfg, c.delivery, now)
    ensures WasDue(c.delivery, now, pos) ==> !AmongPositions(c.delivery, ids, pos)
  {
    var d := c.delivery;
    assert At(KeyOf(pos), pos.ref.offset) == pos && d.SlotValid(KeyOf(pos));
    if AmongPositions(d, ids, pos) {
      var i :| 0 <= i < |ids| && d.pending[ids[i]].pos == pos;
      SettledMessages(cfg, c, ids, now, outs, i);
      assert d.IdLinked(ids[i]);
      ExpiredAreFreed(cfg, d, now, ids[i]);
    } else {
      UnsettledMessages(cfg, c, ids, now, outs, pos);
      forall id | HasExpired(d, id, now) ensures d.pending[id].pos != pos { assert id in ids; }
      DueAreFreed(cfg, d, now, pos);
    }
  }

  lemma ExpiredAreFreed(cfg: Config, d: DeliveryState, now: nat, id: Text)
    requires d.Valid() && HasExpired(d, id, now)
    ensures d.pending[id].pos in FreedBy(cfg, d, now) <==> Backoff(cfg) == 0 && d.pending[id].attempt < cfg.maxAttempts
  {
    var pos := d.pending[id].pos;
    assert d.IdLinked(id) && d.SlotValid(KeyOf(pos)) && At(KeyOf(pos), pos.ref.offset) == pos;
    forall i | i in d.pending && d.pending[i].pos == pos ensures i == id { assert d.IdLinked(i); }
  }

  lemma DueAreFreed(cfg: Config, d: DeliveryState, now: nat, pos: Position)
    requires !WasExpired(d, now, pos)
    ensures pos in FreedBy(cfg, d, now) <==> WasDue(d, now, pos)
  {
    assert At(KeyOf(pos), pos.ref.offset) == pos;
    forall id | id in d.pending && d.pending[id].leaseExpiresAt <= now ensures d.pending[id].pos != pos {
      assert HasExpired(d, id, now);
    }
    forall k, o | At(k, o) == pos ensures k == KeyOf(pos) && o == pos.ref.offset {}
  }

  /** The state a working pass leaves. */
  ghost function PassLeaves(d: DeliveryState, ids: seq<Text>, now: nat, outs: seq<Computed>): DeliveryState
    requires |outs| == |ids| && forall id :: id in ids ==> id in d.pending
  {
    ReadyEach(SettleEach(d, ids, outs).state, Available(d, ids, now, outs), now).state
  }

  /** A working pass: `ids` are the expired deliveries in order, `outs` what is decided for them. */
  ghost predicate Works(cfg: Config, c: Core, ids: seq<Text>, now: nat, outs: seq<Computed>) {
    && c.Valid() && Outcomes(cfg, c, ids, now, outs) && |outs| == |ids| && Ascending(ids)
    && forall id :: id in ids <==> HasExpired(c.delivery, id, now)
  }

  lemma {:induction false} ListedFreed(cfg: Config, c: Core, ids: seq<Text>, now: nat, outs: seq<Computed>,
                                       pos: Position)
    requires Works(cfg, c, ids, now, outs)
    ensures var settled, d' := SettleEach(c.delivery, ids, outs).state, PassLeaves(c.delivery, ids, now, outs);
      && (if pos in FreedBy(cfg, c.delivery, now) then Freed(settled, d', pos) else SameFor(settled, d', pos))
      && d'.deadLetters == settled.deadLetters && d'.pending == settled.pending
  {
    AvailabilityList(cfg, c, ids, now, outs);
    SettleEachIsReplay(cfg, c, ids, now, outs);
    var settled := SettleEach(c.delivery, ids, outs).state;
    FreesListed(c.(delivery := settled), Available(c.delivery, ids, now, outs), now, pos);
    DueAfterSettling(cfg, c, ids, now, outs, pos);
  }

  lemma {:induction false} ExpiredEnd(cfg: Config, c: Core, ids: seq<Text>, now: nat, outs: seq<Computed>, id: Text)
    requires Works(cfg, c, ids, now, outs) && HasExpired(c.delivery, id, now)
    ensures AfterExpiry(cfg, PassLeaves(c.delivery, ids, now, outs), c.delivery.pending[id], now)
  {
    var i :| 0 <= i < |ids| && ids[i] == id;
    SettledMessages(cfg, c, ids, now, outs, i);
    ListedFreed(cfg, c, ids, now, outs, c.delivery.pending[id].pos);
    ExpiredAreFreed(cfg, c.delivery, now, id);
  }

  lemma {:induction false} OthersEnd(cfg: Config, c: Core, ids: seq<Text>, now: nat, outs: seq<Computed>, pos: Position)
    requires Works(cfg, c, ids, now, outs)
    ensures var d, d' := c.delivery, PassLeaves(c.delivery, ids, now, outs);
      && (WasDue(d, now, pos) ==> Freed(d, d', pos))
      && (!WasDue(d, now, pos) && !WasExpired(d, now, pos) ==> SameFor(d, d', pos))
  {
    var d, settled := c.delivery, SettleEach(c.delivery, ids, outs).state;
    DueAfterSettling(cfg, c, ids, now, outs, pos);
    if !WasExpired(d, now, pos) || WasDue(d, now, pos) {
      assert !AmongPositions(d, ids, pos);
      UnsettledMessages(cfg, c, ids, now, outs, pos);
      ListedFreed(cfg, c, ids, now, outs, pos);
      FreedOn(d, settled, PassLeaves(d, ids, now, outs), pos);
    }
  }

  lemma {:induction false} PendingEnd(cfg: Config, c: Core, ids: seq<Text>, now: nat, outs: seq<Computed>)
    requires Works(cfg, c, ids, now, outs)
    ensures var d, d' := c.delivery, PassLeaves(c.delivery, ids, now, outs);
      && (forall id :: id in d'.pending <==> id in d.pending && !HasExpired(d, id, now))
      && (forall id :: id in d'.pending ==> d'.pending[id] == d.pending[id])
  {
    SettleEachIsReplay(cfg, c, ids, now, outs);
    ListedFreed(cfg, c, ids, now, outs, Position([], MessageRef([], 0, 0)));
    forall id ensures id in Elements(ids) <==> HasExpired(c.delivery, id, now) {
      assert id in Elements(ids) <==> id in ids;
    }
  }

  lemma {:induction false} LettersEnd(cfg: Config, c: Core, ids: seq<Text>, now: nat, outs: seq<Computed>)
    requires Works(cfg, c, ids, now, outs)
    ensures var d, d' := c.delivery, PassLeaves(c.delivery, ids, now, outs);
      && d.deadLetters <= d'.deadLetters
      && exists lost :: GivesUp(cfg, c, now, lost, d'.deadLetters[|d.deadLetters|..])
  {
    var d, d' := c.delivery, PassLeaves(c.delivery, ids, now, outs);
    var letters := SettledLetters(cfg, c, ids, now, outs);
    ListedFreed(cfg, c, ids, now, outs, Position([], MessageRef([], 0, 0)));
    GivenUpAmong(cfg, d, ids);
    GivenUpAscending(cfg, d, ids);
    assert d'.deadLetters[|d.deadLetters|..] == letters;
    assert GivesUp(cfg, c, now, GivenUp(cfg, d, ids), letters);
  }

  lemma {:induction false} CountsEnd(cfg: Config, c: Core, ids: seq<Text>, now: nat, outs: seq<Computed>)
    requires Works(cfg, c, ids, now, outs)
    ensures |Available(c.delivery, ids, now, outs)| == |FreedBy(cfg, c.delivery, now)|
    ensures |ids| == |ExpiredSet(c.delivery, now)|
    ensures CountDead(outs) == |PassLeaves(c.delivery, ids, now, outs).deadLetters| - |c.delivery.deadLetters|
  {
    var listed, expired := Available(c.delivery, ids, now, outs), ExpiredSet(c.delivery, now);
    AvailabilityList(cfg, c, ids, now, outs);
    forall p ensures p in Elements(listed) <==> p in FreedBy(cfg, c.delivery, now) {
      DueAfterSettling(cfg, c, ids, now, outs, p);
      assert p in Elements(listed) <==> p in listed;
    }
    assert Elements(listed) == FreedBy(cfg, c.delivery, now);
    DistinctCount(listed);
    forall id ensures id in Elements(ids) <==> id in expired {
      assert id in Elements(ids) <==> id in ids;
      assert HasExpired(c.delivery, id, now) <==> id in expired;
    }
    assert Elements(ids) == expired;
    DistinctCount(ids);
    DeadLettersCounted(cfg, c, ids, now, outs);
    ListedFreed(cfg, c, ids, now, outs, Position([], MessageRef([], 0, 0)));
  }

  lemma {:induction false} WorkingPass(cfg: Config, b: Broker, now: nat, outs: seq<Computed>)
    requires Works(cfg, b.core, ExpiredIds(b.core.delivery, now), now, outs)
    ensures var s := StepRetryReady(cfg, b, now, true);
      s.response.Maintained? && PassDoes(cfg, b, s.broker, now, s.response.summary)
  {
    var d, ids := b.core.delivery, ExpiredIds(b.core.delivery, now);
    PassIs(cfg, b, now, true, ids);
    MaintenanceReplays(cfg, b.core, ids, now, outs);
    SettleEachIsReplay(cfg, b.core, ids, now, outs);
    PendingEnd(cfg, b.core, ids, now, outs);
    LettersEnd(cfg, b.core, ids, now, outs);
    CountsEnd(cfg, b.core, ids, now, outs);
    forall id | HasExpired(d, id, now) ensures AfterExpiry(cfg, PassLeaves(d, ids, now, outs), d.pending[id], now) {
      ExpiredEnd(cfg, b.core, ids, now, outs, id);
    }
    forall p ensures WasDue(d, now, p) ==> Freed(d, PassLeaves(d, ids, now, outs), p)
             ensures !WasDue(d, now, p) && !WasExpired(d, now, p) ==> SameFor(d, PassLeaves(d, ids, now, outs), p) {
      OthersEnd(cfg, b.core, ids, now, outs, p);
    }
  }

  /** The first expired delivery, in the order of ids, for which nothing can be decided. */
  ghost predicate FirstUndecided(cfg: Config, d: DeliveryState, now: nat, id: Text) {
    && HasExpired(d, id, now) && Undecided(cfg, d.pending[id], now)
    && forall i :: HasExpired(d, i, now) && Undecided(cfg, d.pending[i], now) ==> TextLeq(id, i)
  }

  ghost predicate StopsAt(cfg: Config, d: DeliveryState, ids: seq<Text>, now: nat, id: Text, e: Error)
    requires forall i :: i in ids ==> i in d.pending
  {
    && id in d.pending && Undecided(cfg, d.pending[id], now)
    && (forall i :: i in ids && Undecided(cfg, d.pending[i], now) ==> TextLeq(id, i))
    && e == InvalidConfig(if d.pending[id].attempt >= U32_MAX then AttemptNumber else BackoffMillis)
  }

  /** One more delivery: still stopped, or stopping here, or going on. */
  lemma {:induction false} StopsOneMore(cfg: Config, c: Core, ids: seq<Text>, now: nat, id: Text, e: Error)
    requires c.Valid() && Ascending(ids) && ids != [] && forall i :: i in ids ==> i in c.delivery.pending
    requires id in ids[..|ids| - 1] && StopsAt(cfg, c.delivery, ids[..|ids| - 1], now, id, e)
    ensures StopsAt(cfg, c.delivery, ids, now, id, e)
  {
    var last := |ids| - 1;
    var k :| 0 <= k < last && ids[k] == id;
    assert ids == ids[..last] + [ids[last]];
  }

  lemma {:induction false} StopsHere(cfg: Config, c: Core, ids: seq<Text>, now: nat)
    requires c.Valid() && ids != [] && forall i :: i in ids ==> i in c.delivery.pending
    requires ComputeAll(cfg, c, ids[..|ids| - 1], now).Ok? && ComputeAll(cfg, c, ids, now).Err?
    requires forall id :: id in ids[..|ids| - 1] ==> !Undecided(cfg, c.delivery.pending[id], now)
    ensures StopsAt(cfg, c.delivery, ids, now, ids[|ids| - 1], ComputeAll(cfg, c, ids, now).error)
  {
    var last := |ids| - 1;
    assert ids == ids[..last] + [ids[last]] && c.IdHasMessage(ids[last]);
    OutcomeDecided(cfg, c, c.delivery.pending[ids[last]], now, Expired);
    TextOrder();
  }

  lemma {:induction false} DecidesLast(cfg: Config, c: Core, ids: seq<Text>, now: nat)
    requires c.Valid() && ids != [] && (forall i :: i in ids ==> i in c.delivery.pending)
    requires ComputeAll(cfg, c, ids, now).Ok?
    requires forall id :: id in ids[..|ids| - 1] ==> !Undecided(cfg, c.delivery.pending[id], now)
    ensures forall id :: id in ids ==> !Undecided(cfg, c.delivery.pending[id], now)
  {
    var last := |ids| - 1;
    assert ids == ids[..last] + [ids[last]] && c.IdHasMessage(ids[last]);
    OutcomeDecided(cfg, c, c.delivery.pending[ids[last]], now, Expired);
  }

  lemma {:induction false} ComputesOrStops(cfg: Config, c: Core, ids: seq<Text>, now: nat)
    requires c.Valid() && Ascending(ids) && forall id :: id in ids ==> id in c.delivery.pending
    ensures var r := ComputeAll(cfg, c, ids, now);
      && (r.Ok? <==> forall id :: id in ids ==> !Undecided(cfg, c.delivery.pending[id], now))
      && (r.Err? ==> exists id :: id in ids && StopsAt(cfg, c.delivery, ids, now, id, r.error))
    decreases |ids|
  {
    if ids == [] {
    } else {
      var last := |ids| - 1;
      ComputesOrStops(cfg, c, ids[..last], now);
      if ComputeAll(cfg, c, ids[..last], now).Err? {
        var e := ComputeAll(cfg, c, ids[..last], now).error;
        var id :| id in ids[..last] && StopsAt(cfg, c.delivery, ids[..last], now, id, e);
        StopsOneMore(cfg, c, ids, now, id, e);
      } else if ComputeAll(cfg, c, ids, now).Err? {
        StopsHere(cfg, c, ids, now);
      } else {
        DecidesLast(cfg, c, ids, now);
      }
    }
  }

  ghost function WhyUndecided(p: PendingDelivery): Response {
    Failed(InvalidConfig(if p.attempt >= U32_MAX then AttemptNumber else BackoffMillis))
  }

  /** The pass stops before it has changed anything. */
  ghost predicate PassStops(cfg: Config, b: Broker, now: nat, s: Stepped) {
    exists id :: FirstUndecided(cfg, b.core.delivery, now, id)
                 && s == Stepped(b, WhyUndecided(b.core.delivery.pending[id]))
  }

  ghost predicate AnyUndecided(cfg: Config, d: DeliveryState, now: nat) {
    exists id :: HasExpired(d, id, now) && Undecided(cfg, d.pending[id], now)
  }

  lemma {:induction false} ComputedPass(cfg: Config, b: Broker, now: nat)
    requires b.core.Valid()
    ensures var d, ids := b.core.delivery, ExpiredIds(b.core.delivery, now);
      && (forall id :: id in ids ==> id in d.pending)
      && var r := ComputeAll(cfg, b.core, ids, now);
         && (r.Ok? ==> !AnyUndecided(cfg, d, now) && Works(cfg, b.core, ids, now, r.value))
         && (r.Err? ==> AnyUndecided(cfg, d, now) && PassStops(cfg, b, now, Stepped(b, Failed(r.error))))
  {
    var d, ids := b.core.delivery, ExpiredIds(b.core.delivery, now);
    ExpiredListed(d, now);
    assert forall id :: id in ids ==> HasExpired(d, id, now);
    ComputesOrStops(cfg, b.core, ids, now);
    if ComputeAll(cfg, b.core, ids, now).Err? {
      var id :| id in ids && StopsAt(cfg, d, ids, now, id, ComputeAll(cfg, b.core, ids, now).error);
      assert FirstUndecided(cfg, d, now, id);
    }
  }

  /** A pass settles every expired delivery and frees every due retry; if for some expired delivery nothing can be
      decided, it reports the first of them and changes nothing. */
  lemma {:induction false} PassEffect(cfg: Config, b: Broker, now: nat, io: bool)
    requires b.core.Valid()
    ensures var s := Step(cfg, b, RetryReady(now), io);
      if AnyUndecided(cfg, b.core.delivery, now) then PassStops(cfg, b, now, s)
      else if !io then s == Stepped(b, Failed(Io))
      else s.response.Maintained? && PassDoes(cfg, b, s.broker, now, s.response.summary)
  {
    var ids := ExpiredIds(b.core.delivery, now);
    ComputedPass(cfg, b, now);
    PassIs(cfg, b, now, io, ids);
    if ComputeAll(cfg, b.core, ids, now).Ok? && io {
      WorkingPass(cfg, b, now, ComputeAll(cfg, b.core, ids, now).value);
    }
  }
}
