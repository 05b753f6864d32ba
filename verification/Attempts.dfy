/** How often a message is delivered: attempt numbers count up from one without gaps, never past the
    retry policy within a session, and past it by at most one through crash releases. */
module Attempts {
  import opened Common
  import opened Domain
  import opened Delivery
  import opened Replay
  import opened Durable
  import opened Commit
  import opened Reopen
  import opened Sessions

  /** Attempt numbers of the deliveries of `pos`, in log order. */
  ghost function Issued(ops: seq<Op>, pos: Position): seq<nat> {
    if ops == [] then []
    else
      var op := ops[|ops| - 1];
      Issued(ops[..|ops| - 1], pos) + (if op.Deliver? && op.event.pos == pos then [op.event.attempt] else [])
  }

  /** 1, 2, ..., n */
  function CountUp(n: nat): seq<nat> {
    seq(n, i => i + 1)
  }

  /** How `n` deliveries so far show in the state. `slack` is 1 once a crash may have released a
      delivery that had reached the limit, else 0. */
  ghost predicate Trail(cfg: Config, d: DeliveryState, pos: Position, n: nat, slack: nat) {
    var slot, o := d.SlotOf(KeyOf(pos)), pos.ref.offset;
    && n <= cfg.maxAttempts + slack
    && (o !in slot.acked && o !in slot.dead ==>
          && slot.Attempts(o) == n
          && (o in slot.retry ==> n < cfg.maxAttempts)
          && (slot.IsAvailable(o) ==> n < cfg.maxAttempts + slack))
  }

  ghost predicate PositionHistory(cfg: Config, d: DeliveryState, ops: seq<Op>, pos: Position, slack: nat) {
    var n := |Issued(ops, pos)|;
    Issued(ops, pos) == CountUp(n) && Trail(cfg, d, pos, n, slack)
  }

  /** A dead letter records an attempt count at the limit, or one past it after a crash release. */
  ghost predicate LetterAtLimit(cfg: Config, d: DeliveryState, i: nat, slack: nat) {
    i < |d.deadLetters| ==> cfg.maxAttempts <= d.deadLetters[i].attemptCount <= cfg.maxAttempts + slack
  }

  ghost predicate History(cfg: Config, d: DeliveryState, ops: seq<Op>, slack: nat) {
    (forall pos :: PositionHistory(cfg, d, ops, pos, slack)) && (forall i: nat :: LetterAtLimit(cfg, d, i, slack))
  }

  lemma IssuedSnoc(ops: seq<Op>, op: Op, pos: Position)
    ensures Issued(ops + [op], pos) ==
            Issued(ops, pos) + if op.Deliver? && op.event.pos == pos then [op.event.attempt] else []
  {
    assert (ops + [op])[..|ops|] == ops;
  }

  lemma TrailStep(cfg: Config, c: Core, op: Op, pos: Position, n: nat, slack: nat)
    requires c.Valid() && ByPolicy(cfg, c, op) && ReplayOp(c, op).Ok? && Trail(cfg, c.delivery, pos, n, slack)
    ensures var d' := ReplayOp(c, op).value.delivery;
      if op.Deliver? && op.event.pos == pos then op.event.attempt == n + 1 && Trail(cfg, d', pos, n + 1, slack)
      else Trail(cfg, d', pos, n, slack)
  {
    var d, key, o := c.delivery, KeyOf(pos), pos.ref.offset;
    assert d.SlotValid(key) && d.SlotLinked(key, o);
    match op {
      case OpenTopic(_, _) =>
      case Deliver(e) =>
      case Acknowledge(id, _, _) => assert d.IdLinked(id);
      case Settle(id, _, _, _, _, _) => assert d.IdLinked(id);
      case MakeAvailable(_, _) =>
    }
  }

  lemma LetterStep(cfg: Config, c: Core, op: Op, n: nat, i: nat, slack: nat)
    requires c.Valid() && ByPolicy(cfg, c, op) && ReplayOp(c, op).Ok? && LetterAtLimit(cfg, c.delivery, i, slack)
    requires op.Settle? ==> Trail(cfg, c.delivery, op.pos, n, slack)
    ensures LetterAtLimit(cfg, ReplayOp(c, op).value.delivery, i, slack)
  {
    if op.Settle? {
      var d := c.delivery;
      assert d.IdLinked(op.id) && d.SlotLinked(KeyOf(op.pos), op.pos.ref.offset) && d.SlotValid(KeyOf(op.pos));
    }
  }

  lemma HistoryStep(cfg: Config, c: Core, ops: seq<Op>, op: Op, slack: nat)
    requires c.Valid() && ByPolicy(cfg, c, op) && ReplayOp(c, op).Ok? && History(cfg, c.delivery, ops, slack)
    ensures History(cfg, ReplayOp(c, op).value.delivery, ops + [op], slack)
  {
    var d' := ReplayOp(c, op).value.delivery;
    forall pos ensures PositionHistory(cfg, d', ops + [op], pos, slack) {
      assert PositionHistory(cfg, c.delivery, ops, pos, slack);
      IssuedSnoc(ops, op, pos);
      TrailStep(cfg, c, op, pos, |Issued(ops, pos)|, slack);
    }
    forall i: nat ensures LetterAtLimit(cfg, d', i, slack) {
      assert LetterAtLimit(cfg, c.delivery, i, slack);
      if op.Settle? { assert PositionHistory(cfg, c.delivery, ops, op.pos, slack); }
      LetterStep(cfg, c, op, if op.Settle? then |Issued(ops, op.pos)| else 0, i, slack);
    }
  }

  lemma {:induction false} HistoryOps(cfg: Config, c: Core, before: seq<Op>, ops: seq<Op>, slack: nat)
    requires c.Valid() && AllByPolicy(cfg, c, ops) && ReplayOps(c, ops).Ok? && History(cfg, c.delivery, before, slack)
    ensures History(cfg, ReplayOps(c, ops).value.delivery, before + ops, slack)
    decreases |ops|
  {
    if ops == [] {
      assert before + ops == before;
    } else {
      HistoryStep(cfg, c, before, ops[0], slack);
      OpKeepsValid(c, ops[0]);
      HistoryOps(cfg, ReplayOp(c, ops[0]).value, before + [ops[0]], ops[1..], slack);
      assert before + [ops[0]] + ops[1..] == before + ops;
    }
  }

  // ---- along a session ----

  ghost predicate LiveHistory(cfg: Config, b: Broker, slack: nat) {
    History(cfg, b.core.delivery, AllOps(b.events), slack)
  }

  lemma {:induction false} RunHistory(cfg: Config, used: set<(Position, nat)>, b: Broker, calls: seq<Call>, slack: nat)
    requires Distinct(cfg, used) && AllUse(cfg, b, calls, used) && Live(cfg, used, b) && LiveHistory(cfg, b, slack)
    ensures Live(cfg, used, Run(cfg, b, calls)) && LiveHistory(cfg, Run(cfg, b, calls), slack)
  {
    if calls == [] {
    } else {
      var init, last := calls[..|calls| - 1], calls[|calls| - 1];
      RunHistory(cfg, used, b, init, slack);
      var mid := Run(cfg, b, init);
      var s := Step(cfg, mid, last.command, last.io);
      StepCommits(cfg, used, mid, last.command, last.io);
      CommitKeepsLive(cfg, used, mid, s);
      if !Unlogged(mid, s) {
        var e :| Logged(cfg, used, mid, s, e);
        AllOpsSnoc(mid.events, e);
        HistoryOps(cfg, mid.core, AllOps(mid.events), Ops(e), slack);
      }
    }
  }

  lemma FreshHistory(cfg: Config)
    requires cfg.Valid()
    ensures LiveHistory(cfg, FreshBroker(), 0)
  {
    forall pos ensures PositionHistory(cfg, EMPTY_DELIVERY, [], pos, 0) {
      assert CountUp(0) == [];
    }
  }

  /** The group has been delivered the message with attempt numbers 1, 2, ..., n in this order, n at
      most `slack` over the policy, and whatever is dead-lettered was attempted up to the policy's limit
      or at most `slack` over it. */
  ghost predicate WithinLimit(cfg: Config, b: Broker, pos: Position, slack: nat) {
    var issued := Issued(AllOps(b.events), pos);
    && issued == CountUp(|issued|) && |issued| <= cfg.maxAttempts + slack
    && forall i :: 0 <= i < |b.core.delivery.deadLetters| ==>
         cfg.maxAttempts <= b.core.delivery.deadLetters[i].attemptCount <= cfg.maxAttempts + slack
  }

  lemma HistoryLimits(cfg: Config, b: Broker, pos: Position, slack: nat)
    requires LiveHistory(cfg, b, slack)
    ensures WithinLimit(cfg, b, pos, slack)
  {
    assert PositionHistory(cfg, b.core.delivery, AllOps(b.events), pos, slack);
    forall i | 0 <= i < |b.core.delivery.deadLetters|
      ensures cfg.maxAttempts <= b.core.delivery.deadLetters[i].attemptCount <= cfg.maxAttempts + slack
    {
      assert LetterAtLimit(cfg, b.core.delivery, i, slack);
    }
  }

  /** In a session from an empty directory each message is delivered at most `maxAttempts` times per
      group, and every dead letter records exactly `maxAttempts` attempts. */
  lemma {:induction false} AttemptsWithinPolicy(cfg: Config, used: set<(Position, nat)>, calls: seq<Call>,
                                                pos: Position)
    requires cfg.Valid() && Distinct(cfg, used) && AllUse(cfg, FreshBroker(), calls, used)
    ensures WithinLimit(cfg, Run(cfg, FreshBroker(), calls), pos, 0)
  {
    FreshHistory(cfg);
    EmptyIsValid();
    RunHistory(cfg, used, FreshBroker(), calls, 0);
    HistoryLimits(cfg, Run(cfg, FreshBroker(), calls), pos, 0);
  }

  // ---- no id twice ----

  lemma {:induction false} IssuedContains(ops: seq<Op>, pos: Position, i: nat)
    requires i < |ops| && ops[i].Deliver? && ops[i].event.pos == pos
    ensures ops[i].event.attempt in Issued(ops, pos)
  {
    if i < |ops| - 1 { IssuedContains(ops[..|ops| - 1], pos, i); }
  }

  lemma {:induction false} IssuedPrefix(ops: seq<Op>, pos: Position, n: nat)
    requires n <= |ops|
    ensures Issued(ops[..n], pos) <= Issued(ops, pos)
  {
    if n < |ops| {
      IssuedPrefix(ops[..|ops| - 1], pos, n);
      assert ops[..|ops| - 1][..n] == ops[..n];
    } else {
      assert ops[..n] == ops;
    }
  }

  lemma AttemptsDiffer(ops: seq<Op>, pos: Position, i: nat, j: nat)
    requires Issued(ops, pos) == CountUp(|Issued(ops, pos)|) && i < j < |ops|
    requires ops[i].Deliver? && ops[j].Deliver? && ops[i].event.pos == ops[j].event.pos == pos
    ensures ops[i].event.attempt != ops[j].event.attempt
  {
    var before := Issued(ops[..j], pos);
    IssuedContains(ops[..j], pos, i);
    IssuedSnoc(ops[..j], ops[j], pos);
    assert ops[..j] + [ops[j]] == ops[..j + 1];
    IssuedPrefix(ops, pos, j + 1);
    assert Issued(ops, pos)[|before|] == ops[j].event.attempt;
    IssuedPrefix(ops, pos, j);
    var k :| 0 <= k < |before| && before[k] == ops[..j][i].event.attempt;
    assert Issued(ops, pos)[k] == before[k];
  }

  ghost predicate OwnLog(cfg: Config, used: set<(Position, nat)>, b: Broker) {
    OwnOps(cfg, used, AllOps(b.events))
  }

  lemma {:induction false} RunOwnLog(cfg: Config, used: set<(Position, nat)>, b: Broker, calls: seq<Call>)
    requires Distinct(cfg, used) && AllUse(cfg, b, calls, used) && Live(cfg, used, b) && OwnLog(cfg, used, b)
    ensures Live(cfg, used, Run(cfg, b, calls)) && OwnLog(cfg, used, Run(cfg, b, calls))
  {
    if calls == [] {
    } else {
      var init, last := calls[..|calls| - 1], calls[|calls| - 1];
      RunOwnLog(cfg, used, b, init);
      var mid := Run(cfg, b, init);
      var s := Step(cfg, mid, last.command, last.io);
      StepCommits(cfg, used, mid, last.command, last.io);
      CommitKeepsLive(cfg, used, mid, s);
      if !Unlogged(mid, s) {
        var e :| Logged(cfg, used, mid, s, e);
        AllOpsSnoc(mid.events, e);
      }
    }
  }

  // ---- along a chain of sessions ----

  /** The history as the replay of the whole log, releasing nothing, sees it. */
  ghost predicate FullHistory(cfg: Config, b: Broker) {
    Recovered(b).Ok? && History(cfg, Recovered(b).value.delivery, AllOps(b.events), 0)
  }

  lemma {:induction false} PolicyOnFull(cfg: Config, used: set<(Position, nat)>, c: Core, ids: set<Text>, ops: seq<Op>)
    requires Distinct(cfg, used) && c.Valid() && Owned(cfg, used, c.delivery) && OwnOps(cfg, used, ops)
    requires ids <= c.delivery.pending.Keys && ReplayOps(c.Release(ids), ops).Ok? && !AnyHit(c.delivery, ids, ops)
    requires AllByPolicy(cfg, c.Release(ids), ops)
    ensures AllByPolicy(cfg, c, ops)
    decreases |ops|
  {
    if ops == [] {
    } else {
      assert OwnOp(cfg, used, ops[0]) && !Hits(c.delivery, ids, ops[0]);
      OpOnFull(cfg, used, c, ids, ops[0]);
      if ops[0].Deliver? { ReleasedSlot(c.delivery, ids, KeyOf(ops[0].event.pos)); }
      var c' := ReplayOp(c, ops[0]).value;
      OpKeepsValid(c, ops[0]);
      OpKeepsOwned(cfg, used, c, ops[0]);
      forall i | 0 <= i < |ops[1..]| ensures !Hits(c'.delivery, ids, ops[1..][i]) {
        assert !Hits(c.delivery, ids, ops[i + 1]);
        HeldHits(c.delivery, c'.delivery, ids, ops[i + 1]);
      }
      PolicyOnFull(cfg, used, c', ids, ops[1..]);
    }
  }

  lemma {:induction false} FullHistoryStep(cfg: Config, used: set<(Position, nat)>, b: Broker, s: Stepped,
                                           ids: set<Text>, e: Event)
    requires Distinct(cfg, used) && Drift(cfg, used, b, ids) && Logged(cfg, used, b, s, e)
    requires FullHistory(cfg, b) && !AnyHit(Recovered(b).value.delivery, ids, Ops(e))
    ensures FullHistory(cfg, s.broker)
  {
    var p := Recovered(b).value;
    DriftIsLive(cfg, used, b, ids);
    OpsOnFull(cfg, used, p, ids, Ops(e));
    PolicyOnFull(cfg, used, p, ids, Ops(e));
    HistoryOps(cfg, p, AllOps(b.events), Ops(e), 0);
    AllOpsSnoc(b.events, e);
    ReplayKeepsLogs(b.core, Ops(e));
    ReplaySnoc(b.core.logs, b.events, e);
  }

  ghost predicate FullOutcome(cfg: Config, used: set<(Position, nat)>, b: Broker, end: Broker, ids: set<Text>) {
    Outcome(cfg, used, b, end, ids)
    && (!AnyHit(Recovered(b).value.delivery, ids, LoggedOps(b, end)) ==> FullHistory(cfg, end))
  }

  lemma {:induction false} FullOutcomeStep(cfg: Config, used: set<(Position, nat)>, b: Broker, mid: Broker,
                                           ids: set<Text>, cmd: Command, io: bool)
    requires Distinct(cfg, used) && UsesOnly(mid.core, cmd, used)
    requires FullOutcome(cfg, used, b, mid, ids) && ids <= Recovered(b).value.delivery.pending.Keys
    ensures FullOutcome(cfg, used, b, Step(cfg, mid, cmd, io).broker, ids)
  {
    var d, s := Recovered(b).value.delivery, Step(cfg, mid, cmd, io);
    OutcomeStep(cfg, used, b, mid, ids, cmd, io);
    if !AnyHit(d, ids, LoggedOps(b, s.broker)) {
      StepGrows(cfg, mid, cmd, io);
      if s.broker.events != mid.events {
        EventsTail(mid.events, |b.events|, s.broker.events[|mid.events|]);
        HitConcat(d, ids, LoggedOps(b, mid), Ops(s.broker.events[|mid.events|]));
      }
      FullHistoryGoesOn(cfg, used, d, mid, ids, cmd, io);
    }
  }

  lemma {:induction false} FullHistoryGoesOn(cfg: Config, used: set<(Position, nat)>, d: DeliveryState, mid: Broker,
                                             ids: set<Text>, cmd: Command, io: bool)
    requires Distinct(cfg, used) && UsesOnly(mid.core, cmd, used) && Drift(cfg, used, mid, ids) && FullHistory(cfg, mid)
    requires ids <= d.pending.Keys && Held(d, Recovered(mid).value.delivery, ids)
    requires var end := Step(cfg, mid, cmd, io).broker;
      |end.events| > |mid.events| ==> !AnyHit(d, ids, Ops(end.events[|mid.events|]))
    ensures FullHistory(cfg, Step(cfg, mid, cmd, io).broker)
  {
    var s := Step(cfg, mid, cmd, io);
    DriftIsLive(cfg, used, mid, ids);
    StepCommits(cfg, used, mid, cmd, io);
    if Unlogged(mid, s) {
      ReplayOnGrownLogs(mid, s.broker.core.logs);
    } else {
      var e :| Logged(cfg, used, mid, s, e);
      assert s.broker.events[|mid.events|] == e;
      HeldAnyHit(d, Recovered(mid).value.delivery, ids, Ops(e));
      FullHistoryStep(cfg, used, mid, s, ids, e);
    }
  }

  lemma {:induction false} SessionFullHistory(cfg: Config, used: set<(Position, nat)>, b: Broker, ids: set<Text>,
                                              calls: seq<Call>)
    requires Distinct(cfg, used) && AllUse(cfg, b, calls, used) && Drift(cfg, used, b, ids) && FullHistory(cfg, b)
    ensures FullOutcome(cfg, used, b, Run(cfg, b, calls), ids)
  {
    if calls == [] {
      assert b.events[|b.events|..] == [];
    } else {
      var init, last := calls[..|calls| - 1], calls[|calls| - 1];
      SessionFullHistory(cfg, used, b, ids, init);
      FullOutcomeStep(cfg, used, b, Run(cfg, b, init), ids, last.command, last.io);
    }
  }

  /** Releasing at open what a crash left in flight gives at most one attempt past the policy. */
  lemma {:induction false} ReleaseGivesSlack(cfg: Config, b: Broker, ids: set<Text>)
    requires FullHistory(cfg, b) && b.core == Recovered(b).value.Release(ids)
    ensures LiveHistory(cfg, b, 1)
  {
    var p := Recovered(b).value;
    forall pos ensures PositionHistory(cfg, b.core.delivery, AllOps(b.events), pos, 1) {
      assert PositionHistory(cfg, p.delivery, AllOps(b.events), pos, 0);
      ReleasedSlot(p.delivery, ids, KeyOf(pos));
    }
    forall i: nat ensures LetterAtLimit(cfg, b.core.delivery, i, 1) { assert LetterAtLimit(cfg, p.delivery, i, 0); }
  }

  lemma {:induction false} ChainHistory(cfg: Config, used: set<(Position, nat)>, sessions: seq<seq<Call>>)
    requires cfg.Valid() && Distinct(cfg, used) && SessionsUse(cfg, sessions, used) && Reopened(cfg, sessions).Ok?
    ensures FullHistory(cfg, Reopened(cfg, sessions).value)
    decreases |sessions|
  {
    if sessions == [] {
      FreshOpens(cfg, used);
      FreshHistory(cfg);
    } else {
      var n := |sessions| - 1;
      ReopenedChain(cfg, used, sessions[..n]);
      ChainHistory(cfg, used, sessions[..n]);
      HistoryThroughReopen(cfg, used, Reopened(cfg, sessions[..n]).value, sessions[n]);
    }
  }

  lemma {:induction false} HistoryThroughReopen(cfg: Config, used: set<(Position, nat)>, b: Broker, calls: seq<Call>)
    requires cfg.Valid() && Distinct(cfg, used) && AllUse(cfg, b, calls, used) && JustOpened(cfg, used, b)
    requires FullHistory(cfg, b) && NextOpen(cfg, b, calls).Ok?
    ensures FullHistory(cfg, NextOpen(cfg, b, calls).value)
  {
    ReopenStep(cfg, used, b, calls);
    SessionFullHistory(cfg, used, b, Recovered(b).value.delivery.pending.Keys, calls);
  }

  lemma {:induction false} OpenedHasSlack(cfg: Config, used: set<(Position, nat)>, sessions: seq<seq<Call>>)
    requires cfg.Valid() && Distinct(cfg, used) && SessionsUse(cfg, sessions, used) && Reopened(cfg, sessions).Ok?
    ensures Live(cfg, used, Reopened(cfg, sessions).value) && LiveHistory(cfg, Reopened(cfg, sessions).value, 1)
  {
    var b := Reopened(cfg, sessions).value;
    ReopenedChain(cfg, used, sessions);
    ChainHistory(cfg, used, sessions);
    var ids := Recovered(b).value.delivery.pending.Keys;
    ReleaseGivesSlack(cfg, b, ids);
    DriftIsLive(cfg, used, b, ids);
  }

  /** Over any chain of sessions with one policy, as long as the directory opens, attempt numbers still
      count up without gaps or repeats, and crash releases raise the limit by at most one. */
  lemma {:induction false} AttemptsAcrossSessions(cfg: Config, used: set<(Position, nat)>, sessions: seq<seq<Call>>,
                                                  last: seq<Call>, pos: Position)
    requires cfg.Valid() && Distinct(cfg, used) && SessionsUse(cfg, sessions, used)
    requires Reopened(cfg, sessions).Ok? && AllUse(cfg, Reopened(cfg, sessions).value, last, used)
    ensures WithinLimit(cfg, Run(cfg, Reopened(cfg, sessions).value, last), pos, 1)
  {
    var b := Reopened(cfg, sessions).value;
    OpenedHasSlack(cfg, used, sessions);
    RunHistory(cfg, used, b, last, 1);
    HistoryLimits(cfg, Run(cfg, b, last), pos, 1);
  }

  /** The attempt numbers of those deliveries fit 32 bits, so computing the next one does not overflow: always
      in a first session, and over any chain unless the policy allows 2^32 - 1 attempts. */
  lemma {:induction false} NextAttemptFits(cfg: Config, used: set<(Position, nat)>, sessions: seq<seq<Call>>,
                                           last: seq<Call>, pos: Position)
    requires cfg.Valid() && Distinct(cfg, used) && SessionsUse(cfg, sessions, used)
    requires Reopened(cfg, sessions).Ok? && AllUse(cfg, Reopened(cfg, sessions).value, last, used)
    requires sessions == [] || cfg.maxAttempts < U32_MAX
    ensures var b := Run(cfg, Reopened(cfg, sessions).value, last);
      var slot := b.core.delivery.SlotOf(KeyOf(pos));
      slot.IsAvailable(pos.ref.offset) ==> slot.NextAttempt(pos.ref.offset) <= U32_MAX
  {
    var slack := if sessions == [] then 0 else 1;
    var start := Reopened(cfg, sessions).value;
    if sessions == [] {
      FreshOpens(cfg, used);
      FreshHistory(cfg);
      EmptyIsValid();
    } else {
      OpenedHasSlack(cfg, used, sessions);
    }
    RunHistory(cfg, used, start, last, slack);
    var b := Run(cfg, start, last);
    assert PositionHistory(cfg, b.core.delivery, AllOps(b.events), pos, slack);
    var slot := b.core.delivery.SlotOf(KeyOf(pos));
    assert b.core.delivery.SlotValid(KeyOf(pos));
  }

  lemma {:induction false} ChainOwnLog(cfg: Config, used: set<(Position, nat)>, sessions: seq<seq<Call>>)
    requires cfg.Valid() && Distinct(cfg, used) && SessionsUse(cfg, sessions, used) && Reopened(cfg, sessions).Ok?
    ensures Live(cfg, used, Reopened(cfg, sessions).value) && OwnLog(cfg, used, Reopened(cfg, sessions).value)
    decreases |sessions|
  {
    OpenedHasSlack(cfg, used, sessions);
    if sessions == [] {
      FreshOpens(cfg, used);
    } else {
      var init, last := sessions[..|sessions| - 1], sessions[|sessions| - 1];
      ChainOwnLog(cfg, used, init);
      ReopenedChain(cfg, used, init);
      RunOwnLog(cfg, used, Reopened(cfg, init).value, last);
      ReopenStep(cfg, used, Reopened(cfg, init).value, last);
    }
  }

  /** No delivery id is issued twice over any chain of sessions, for as long as the directory opens. */
  lemma {:induction false} IdsNeverRepeat(cfg: Config, used: set<(Position, nat)>, sessions: seq<seq<Call>>,
                                          last: seq<Call>, i: nat, j: nat)
    requires cfg.Valid() && Distinct(cfg, used) && SessionsUse(cfg, sessions, used)
    requires Reopened(cfg, sessions).Ok? && AllUse(cfg, Reopened(cfg, sessions).value, last, used)
    ensures var ops := AllOps(Run(cfg, Reopened(cfg, sessions).value, last).events);
      i < j < |ops| && ops[i].Deliver? && ops[j].Deliver? ==> ops[i].event.id != ops[j].event.id
  {
    var start := Reopened(cfg, sessions).value;
    var ops := AllOps(Run(cfg, start, last).events);
    ChainOwnLog(cfg, used, sessions);
    RunOwnLog(cfg, used, start, last);
    if i < j < |ops| && ops[i].Deliver? && ops[j].Deliver? {
      assert OwnOp(cfg, used, ops[i]) && OwnOp(cfg, used, ops[j]);
      AttemptsAcrossSessions(cfg, used, sessions, last, ops[i].event.pos);
      if ops[i].event.pos == ops[j].event.pos {
        AttemptsDiffer(ops, ops[i].event.pos, i, j);
      }
    }
  }
}
