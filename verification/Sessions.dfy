/** Chains of sessions over one directory, each opening what the ones before it left. */
module Sessions {
  import opened Common
  import opened Domain
  import opened Delivery
  import opened Replay
  import opened Publish
  import opened Durable
  import opened Commit
  import opened Idempotency
  import opened Reopen

  /** The deliveries a session makes from `b` on are among `used`. */
  ghost predicate AllUse(cfg: Config, b: Broker, calls: seq<Call>, used: set<(Position, nat)>) {
    calls == []
    || (AllUse(cfg, b, calls[..|calls| - 1], used)
        && UsesOnly(Run(cfg, b, calls[..|calls| - 1]).core, calls[|calls| - 1].command, used))
  }

  /** The deliveries the sessions make are among `used`. */
  ghost predicate SessionsUse(cfg: Config, sessions: seq<seq<Call>>, used: set<(Position, nat)>) {
    sessions == []
    || (SessionsUse(cfg, sessions[..|sessions| - 1], used)
        && (Reopened(cfg, sessions[..|sessions| - 1]).Ok? ==>
              AllUse(cfg, Reopened(cfg, sessions[..|sessions| - 1]).value, sessions[|sessions| - 1], used)))
  }

  /** The broker that opening the directory after `sessions` gives. */
  ghost function Reopened(cfg: Config, sessions: seq<seq<Call>>): Result<Broker, Error> {
    if sessions == [] then Open(cfg, map[], [])
    else
      match Reopened(cfg, sessions[..|sessions| - 1])
      case Err(e) => Err(e)
      case Ok(b) => NextOpen(cfg, b, sessions[|sessions| - 1])
  }

  /** Opening the directory that a session leaves behind. */
  ghost function NextOpen(cfg: Config, b: Broker, calls: seq<Call>): Result<Broker, Error> {
    var end := Run(cfg, b, calls);
    Open(cfg, end.core.logs, end.events)
  }

  /** The operations a session logged after opening as `b` and ending as `end`. */
  ghost function LoggedOps(b: Broker, end: Broker): seq<Op>
    requires |b.events| <= |end.events|
  {
    AllOps(end.events[|b.events|..])
  }

  /** Opened as `b`, the calls deliver a message that the replay of the log up to then shows in flight. */
  ghost predicate Redelivers(cfg: Config, b: Broker, calls: seq<Call>) {
    var end := Run(cfg, b, calls);
    && Recovered(b).Ok? && |b.events| <= |end.events|
    && AnyHit(Recovered(b).value.delivery, Recovered(b).value.delivery.pending.Keys, LoggedOps(b, end))
  }

  /** No session of the chain delivers a message that the plain replay of the sessions before it shows
      in flight. (A session that cannot be opened delivers nothing, but then an earlier one did.) */
  ghost predicate NoRedelivery(cfg: Config, sessions: seq<seq<Call>>) {
    sessions == []
    || (NoRedelivery(cfg, sessions[..|sessions| - 1])
        && (Reopened(cfg, sessions[..|sessions| - 1]).Ok? ==>
              !Redelivers(cfg, Reopened(cfg, sessions[..|sessions| - 1]).value, sessions[|sessions| - 1])))
  }

  // ---- one session ----

  lemma AllOpsSnoc(events: seq<Event>, e: Event)
    ensures AllOps(events + [e]) == AllOps(events) + Ops(e)
  {
    assert (events + [e])[..|events|] == events;
  }

  lemma HitConcat(d: DeliveryState, ids: set<Text>, a: seq<Op>, b: seq<Op>)
    ensures AnyHit(d, ids, a + b) <==> AnyHit(d, ids, a) || AnyHit(d, ids, b)
  {
    if AnyHit(d, ids, a) {
      var i :| 0 <= i < |a| && Hits(d, ids, a[i]);
      assert Hits(d, ids, (a + b)[i]);
    }
    if AnyHit(d, ids, b) {
      var i :| 0 <= i < |b| && Hits(d, ids, b[i]);
      assert Hits(d, ids, (a + b)[|a| + i]);
    }
  }

  lemma HeldAnyHit(d: DeliveryState, d': DeliveryState, ids: set<Text>, ops: seq<Op>)
    requires Held(d, d', ids) && ids <= d.pending.Keys
    ensures AnyHit(d', ids, ops) <==> AnyHit(d, ids, ops)
  {
    forall i | 0 <= i < |ops| ensures Hits(d', ids, ops[i]) <==> Hits(d, ids, ops[i]) {
      HeldHits(d, d', ids, ops[i]);
    }
  }

  /** What a session started from `b` has come to. */
  ghost predicate Outcome(cfg: Config, used: set<(Position, nat)>, b: Broker, end: Broker, ids: set<Text>) {
    && b.events <= end.events && Recovered(b).Ok?
    && (AnyHit(Recovered(b).value.delivery, ids, LoggedOps(b, end)) ==> Broken(end))
    && (!AnyHit(Recovered(b).value.delivery, ids, LoggedOps(b, end)) ==>
          Drift(cfg, used, end, ids) && Held(Recovered(b).value.delivery, Recovered(end).value.delivery, ids))
  }

  lemma {:induction false} OutcomeStep(cfg: Config, used: set<(Position, nat)>, b: Broker, mid: Broker,
                                       ids: set<Text>, cmd: Command, io: bool)
    requires Distinct(cfg, used) && UsesOnly(mid.core, cmd, used)
    requires Outcome(cfg, used, b, mid, ids) && ids <= Recovered(b).value.delivery.pending.Keys
    ensures Outcome(cfg, used, b, Step(cfg, mid, cmd, io).broker, ids)
  {
    var d, s := Recovered(b).value.delivery, Step(cfg, mid, cmd, io);
    var n := |b.events|;
    if AnyHit(d, ids, LoggedOps(b, mid)) {
      StepGrows(cfg, mid, cmd, io);
      StillBroken(cfg, mid, cmd, io);
      if s.broker.events != mid.events {
        var e :| s.broker.events == mid.events + [e];
        EventsTail(mid.events, n, e);
        HitConcat(d, ids, LoggedOps(b, mid), Ops(e));
      }
    } else {
      DriftIsLive(cfg, used, mid, ids);
      StepCommits(cfg, used, mid, cmd, io);
      if Unlogged(mid, s) {
        UnloggedDrifts(cfg, used, mid, s, ids);
      } else {
        var e :| Logged(cfg, used, mid, s, e);
        EventsTail(mid.events, n, e);
        HitConcat(d, ids, LoggedOps(b, mid), Ops(e));
        HeldAnyHit(d, Recovered(mid).value.delivery, ids, Ops(e));
        if AnyHit(d, ids, Ops(e)) {
          LoggedBreaks(cfg, used, mid, s, ids, e);
        } else {
          LoggedDrifts(cfg, used, mid, s, ids, e);
        }
      }
    }
  }

  lemma EventsTail(events: seq<Event>, n: nat, e: Event)
    requires n <= |events|
    ensures AllOps((events + [e])[n..]) == AllOps(events[n..]) + Ops(e)
  {
    assert (events + [e])[n..] == events[n..] + [e];
    AllOpsSnoc(events[n..], e);
  }

  lemma {:induction false} SessionOutcome(cfg: Config, used: set<(Position, nat)>, b: Broker, ids: set<Text>,
                                          calls: seq<Call>)
    requires Distinct(cfg, used) && AllUse(cfg, b, calls, used) && Drift(cfg, used, b, ids)
    ensures Outcome(cfg, used, b, Run(cfg, b, calls), ids)
  {
    if calls == [] {
      assert b.events[|b.events|..] == [];
    } else {
      var init, last := calls[..|calls| - 1], calls[|calls| - 1];
      SessionOutcome(cfg, used, b, ids, init);
      OutcomeStep(cfg, used, b, Run(cfg, b, init), ids, last.command, last.io);
    }
  }

  // ---- opening what a session left ----

  /** The live state with everything in flight released: what a crash and reopen should give. */
  ghost function Released(b: Broker): Broker {
    b.(core := b.core.Release(b.core.delivery.pending.Keys))
  }

  /** A state as opening leaves it. */
  ghost predicate JustOpened(cfg: Config, used: set<(Position, nat)>, b: Broker) {
    && Recovered(b).Ok? && Drift(cfg, used, b, Recovered(b).value.delivery.pending.Keys)
    && Sound(cfg, b)
  }

  lemma ReleaseAll(d: DeliveryState, ids: set<Text>)
    requires d.Valid() && ids <= d.pending.Keys
    ensures d.Release(ids).Release(d.Release(ids).pending.Keys) == d.Release(d.pending.Keys)
  {
    var rest := d.Release(ids).pending.Keys;
    assert d.pending - ids - rest == d.pending - d.pending.Keys;
    forall k | k in d.groups ensures Without(Without(d.groups[k], ids), rest) == Without(d.groups[k], d.pending.Keys) {
      forall o | o in d.groups[k].pending ensures d.groups[k].pending[o] in d.pending { assert d.SlotLinked(k, o); }
    }
  }

  lemma {:induction false} OpenAfter(cfg: Config, used: set<(Position, nat)>, end: Broker, ids: set<Text>)
    requires Drift(cfg, used, end, ids) && Sound(cfg, end)
    ensures Open(cfg, end.core.logs, end.events) == Ok(Released(end))
    ensures JustOpened(cfg, used, Released(end))
  {
    var p := Recovered(end).value;
    DriftIsLive(cfg, used, end, ids);
    RecoveredLogs(end);
    SoundIsRecovered(cfg, end);
    forall t ensures TopicScans(cfg, p, t) { assert TopicScans(cfg, end.core, t); }
    SameRecovery(cfg, p, end.core);
    ReleaseAll(p.delivery, ids);
    SoundIgnoresDelivery(cfg, end, Released(end));
  }

  lemma SameRecovery(cfg: Config, c: Core, c': Core)
    requires c.catalog == c'.catalog && c.logs == c'.logs
    ensures RecoveredRoundRobin(c) == RecoveredRoundRobin(c') && RecoveredIndex(cfg, c) == RecoveredIndex(cfg, c')
  {
    assert forall t :: KeysOf(cfg, c, t) == KeysOf(cfg, c', t);
  }

  lemma FreshOpens(cfg: Config, used: set<(Position, nat)>)
    ensures Open(cfg, map[], []) == Ok(FreshBroker()) && JustOpened(cfg, used, FreshBroker())
  {
    FreshIsSound(cfg);
    OpenAfter(cfg, used, FreshBroker(), {});
    assert Released(FreshBroker()) == FreshBroker();
  }

  // ---- the theorems ----

  lemma {:induction false} ReopenStep(cfg: Config, used: set<(Position, nat)>, b: Broker, calls: seq<Call>)
    requires cfg.Valid() && Distinct(cfg, used) && AllUse(cfg, b, calls, used) && JustOpened(cfg, used, b)
    ensures Redelivers(cfg, b, calls) ==> NextOpen(cfg, b, calls) == Err(Corruption)
    ensures !Redelivers(cfg, b, calls) ==>
      && NextOpen(cfg, b, calls) == Ok(Released(Run(cfg, b, calls)))
      && JustOpened(cfg, used, NextOpen(cfg, b, calls).value)
  {
    var end, ids := Run(cfg, b, calls), Recovered(b).value.delivery.pending.Keys;
    SessionOutcome(cfg, used, b, ids, calls);
    RunKeepsSound(cfg, b, calls);
    if Redelivers(cfg, b, calls) {
      assert Extends(end.core.logs, end.core.logs);
    } else {
      OpenAfter(cfg, used, end, ids);
    }
  }

  /** What holds of the open after a chain of sessions. */
  ghost predicate ChainHolds(cfg: Config, used: set<(Position, nat)>, sessions: seq<seq<Call>>) {
    match Reopened(cfg, sessions)
    case Ok(b) => NoRedelivery(cfg, sessions) && JustOpened(cfg, used, b)
    case Err(e) => !NoRedelivery(cfg, sessions) && e == Corruption
  }

  lemma {:induction false} ChainStep(cfg: Config, used: set<(Position, nat)>, sessions: seq<seq<Call>>)
    requires cfg.Valid() && Distinct(cfg, used) && sessions != []
    requires ChainHolds(cfg, used, sessions[..|sessions| - 1]) && (Reopened(cfg, sessions[..|sessions| - 1]).Ok? ==>
      AllUse(cfg, Reopened(cfg, sessions[..|sessions| - 1]).value, sessions[|sessions| - 1], used))
    ensures ChainHolds(cfg, used, sessions)
  {
    var n := |sessions| - 1;
    match Reopened(cfg, sessions[..n]) {
      case Ok(b) =>
        ReopenStep(cfg, used, b, sessions[n]);
        assert Reopened(cfg, sessions) == NextOpen(cfg, b, sessions[n]);
      case Err(_) =>
    }
  }

  lemma {:induction false} ReopenedChain(cfg: Config, used: set<(Position, nat)>, sessions: seq<seq<Call>>)
    requires cfg.Valid() && Distinct(cfg, used) && SessionsUse(cfg, sessions, used)
    ensures ChainHolds(cfg, used, sessions)
    decreases |sessions|
  {
    if sessions == [] {
      FreshOpens(cfg, used);
    } else {
      ReopenedChain(cfg, used, sessions[..|sessions| - 1]);
      ChainStep(cfg, used, sessions);
    }
  }

  /** The exact reopen condition when failed appends write nothing (`Disk` has the one for appends that leave
      part of their line). After any chain of sessions, with any commands, the next open succeeds if and only
      if no session delivered a message that the plain replay of the sessions before it shows in flight;
      otherwise some open reports corruption. */
  lemma {:induction false} ReopensExactlyWhenNothingWasRedelivered(cfg: Config, used: set<(Position, nat)>,
      sessions: seq<seq<Call>>)
    requires cfg.Valid() && Distinct(cfg, used) && SessionsUse(cfg, sessions, used)
    ensures Reopened(cfg, sessions).Ok? <==> NoRedelivery(cfg, sessions)
    ensures Reopened(cfg, sessions).Err? ==> Reopened(cfg, sessions).error == Corruption
  {
    ReopenedChain(cfg, used, sessions);
  }

  /** Recovery equals the live state: whenever the open after a session succeeds, it gives back exactly
      the state the session ended in - topics, messages, acknowledgements, retries, attempts, cursors,
      dead letters in order, index and counters - with exactly the deliveries in flight released. */
  lemma {:induction false} RecoveryIsLiveStateReleased(cfg: Config, used: set<(Position, nat)>,
                                                       sessions: seq<seq<Call>>, last: seq<Call>)
    requires cfg.Valid() && Distinct(cfg, used) && SessionsUse(cfg, sessions, used)
    requires Reopened(cfg, sessions).Ok? && AllUse(cfg, Reopened(cfg, sessions).value, last, used)
    ensures var live := Run(cfg, Reopened(cfg, sessions).value, last);
      Reopened(cfg, sessions + [last]).Ok? ==> Reopened(cfg, sessions + [last]) == Ok(Released(live))
  {
    ReopenedChain(cfg, used, sessions);
    assert (sessions + [last])[..|sessions|] == sessions;
    ReopenStep(cfg, used, Reopened(cfg, sessions).value, last);
  }

  /** In a session that starts from an empty directory, replaying the log gives the very live state,
      deliveries in flight included. */
  lemma {:induction false} ReplayIsLiveState(cfg: Config, used: set<(Position, nat)>, calls: seq<Call>)
    requires cfg.Valid() && Distinct(cfg, used) && AllUse(cfg, FreshBroker(), calls, used)
    ensures var live := Run(cfg, FreshBroker(), calls);
      PlainReplay(live.core.logs, live.events) == Ok(live.core) && Drift(cfg, used, live, {})
  {
    var live := Run(cfg, FreshBroker(), calls);
    FreshOpens(cfg, used);
    SessionOutcome(cfg, used, FreshBroker(), {}, calls);
    ReleaseNothing(Recovered(live).value.delivery);
  }

  /** So such a session always reopens, to its live state with the deliveries in flight released. */
  lemma {:induction false} SingleSessionRecovers(cfg: Config, used: set<(Position, nat)>, calls: seq<Call>)
    requires cfg.Valid() && Distinct(cfg, used) && AllUse(cfg, FreshBroker(), calls, used)
    ensures Reopened(cfg, [calls]) == Ok(Released(Run(cfg, FreshBroker(), calls)))
    ensures JustOpened(cfg, used, Released(Run(cfg, FreshBroker(), calls)))
  {
    FreshOpens(cfg, used);
    ReopenStep(cfg, used, FreshBroker(), calls);
    assert [calls][..0] == [];
  }

  // ---- the documented promise that fails ----

  lemma OneRecord(logs: Logs, topic: Text, envelope: Envelope)
    requires LogOf(logs, LogId(topic, 0)) == [envelope]
    ensures RecordsOf(logs, topic, 1) == [Record(0, 0, envelope)]
  {
    assert RecordsOf(logs, topic, 0) == [];
    assert PartitionRecords([envelope], 0) == [Record(0, 0, envelope)];
  }

  /** Consuming one message from a one-message topic in which it is available. */
  lemma ConsumeOne(cfg: Config, b: Broker, topic: Text, group: Text, consumer: Text, envelope: Envelope)
    requires topic in b.core.catalog && b.core.catalog[topic] == 1
    requires b.core.Log(topic, 0) == [envelope] && cfg.leaseMillis <= U64_MAX
    requires b.core.delivery.SlotOf(SlotKey(group, topic, 0)).IsAvailable(0)
    ensures var pos := Position(group, MessageRef(topic, 0, 0));
      var attempt := b.core.delivery.SlotOf(KeyOf(pos)).NextAttempt(0);
      var e := DeliveryEvent(cfg.deliveryId(pos, attempt), consumer, pos, attempt, 0, cfg.leaseMillis);
      var after := Step(cfg, b, Consume(topic, group, consumer, 1, 0, None), true).broker;
      && after.events == b.events + [MessagesConsumed([e])]
      && after.core == b.core.(delivery := b.core.delivery.Consumed(e))
      && UsesOnly(b.core, Consume(topic, group, consumer, 1, 0, None), {(pos, attempt)})
  {
    var r := Record(0, 0, envelope);
    OneRecord(b.core.logs, topic, envelope);
    assert [r][..0] == [];
    assert AvailableRecords(b.core.delivery, group, topic, [r]) == [r];
    assert Selection(b.core, group, topic, 1) == [r];
    var d := b.core.delivery;
    var es := DeliveriesFor(cfg, d, topic, group, consumer, 0, cfg.leaseMillis, [r]);
    assert es == [es[0]] && es[1..] == [];
    assert ConsumeAll(d, es) == ConsumeAll(d.Consumed(es[0]), es[1..]) == d.Consumed(es[0]);
  }

  function CreateOne(topic: Text): Call {
    Call(CreateTopic(topic, 1), true)
  }

  function PublishOne(topic: Text, envelope: Envelope): Call {
    Call(Publish(topic, envelope), true)
  }

  function TakeOne(topic: Text, group: Text, consumer: Text): Call {
    Call(Consume(topic, group, consumer, 1, 0, None), true)
  }

  function FirstSession(topic: Text, group: Text, consumer: Text, envelope: Envelope): seq<Call> {
    [CreateOne(topic), PublishOne(topic, envelope), TakeOne(topic, group, consumer)]
  }

  /** The two deliveries of the one message. */
  function TwoAttempts(topic: Text, group: Text): set<(Position, nat)> {
    var pos := Position(group, MessageRef(topic, 0, 0));
    {(pos, 1), (pos, 2)}
  }

  lemma RunSnoc(cfg: Config, b: Broker, calls: seq<Call>, call: Call, used: set<(Position, nat)>)
    ensures Run(cfg, b, calls + [call]) == Step(cfg, Run(cfg, b, calls), call.command, call.io).broker
    ensures AllUse(cfg, b, calls + [call], used) <==>
      AllUse(cfg, b, calls, used) && UsesOnly(Run(cfg, b, calls).core, call.command, used)
  {
    assert (calls + [call])[..|calls|] == calls;
  }

  /** One message published, to be consumed. */
  lemma CreateAndPublish(cfg: Config, topic: Text, envelope: Envelope, used: set<(Position, nat)>)
    requires cfg.Valid()
    ensures var calls := [CreateOne(topic), PublishOne(topic, envelope)];
      && Run(cfg, FreshBroker(), calls).core ==
         Core(map[topic := 1], map[LogId(topic, 0) := [envelope]], EMPTY_DELIVERY)
      && AllUse(cfg, FreshBroker(), calls, used)
  {
    var create, publish := CreateOne(topic), PublishOne(topic, envelope);
    RunSnoc(cfg, FreshBroker(), [], create, used);
    RunSnoc(cfg, FreshBroker(), [create], publish, used);
    assert [] + [create] == [create] && [create] + [publish] == [create, publish];
    var b := Run(cfg, FreshBroker(), [create]);
    assert SelectPartition(cfg, 1, NextOf(b, topic), envelope) == 0;
    assert [] + [envelope] == [envelope];
  }

  /** One message, delivered once and in flight. */
  ghost predicate OneInFlight(cfg: Config, b: Broker, topic: Text, group: Text, consumer: Text, envelope: Envelope) {
    var pos := Position(group, MessageRef(topic, 0, 0));
    b.core == Core(map[topic := 1], map[LogId(topic, 0) := [envelope]],
                   EMPTY_DELIVERY.Consumed(DeliveryEvent(cfg.deliveryId(pos, 1), consumer, pos, 1, 0, cfg.leaseMillis)))
  }

  lemma FirstSessionEnds(cfg: Config, topic: Text, group: Text, consumer: Text, envelope: Envelope)
    requires cfg.Valid() && cfg.leaseMillis <= U64_MAX
    ensures var first := FirstSession(topic, group, consumer, envelope);
      && OneInFlight(cfg, Run(cfg, FreshBroker(), first), topic, group, consumer, envelope)
      && AllUse(cfg, FreshBroker(), first, TwoAttempts(topic, group))
  {
    var used, calls := TwoAttempts(topic, group), [CreateOne(topic), PublishOne(topic, envelope)];
    CreateAndPublish(cfg, topic, envelope, used);
    ConsumeOne(cfg, Run(cfg, FreshBroker(), calls), topic, group, consumer, envelope);
    RunSnoc(cfg, FreshBroker(), calls, TakeOne(topic, group, consumer), used);
    assert calls + [TakeOne(topic, group, consumer)] == FirstSession(topic, group, consumer, envelope);
  }

  lemma {:induction false} SecondSessionHits(cfg: Config, end: Broker, topic: Text, group: Text, consumer: Text,
                                             envelope: Envelope)
    requires OneInFlight(cfg, end, topic, group, consumer, envelope) && cfg.leaseMillis <= U64_MAX
    requires Recovered(Released(end)) == Ok(end.core)
    ensures Redelivers(cfg, Released(end), [TakeOne(topic, group, consumer)])
    ensures AllUse(cfg, Released(end), [TakeOne(topic, group, consumer)], TwoAttempts(topic, group))
  {
    var b, take := Released(end), TakeOne(topic, group, consumer);
    var pos := Position(group, MessageRef(topic, 0, 0));
    assert b.core.delivery.SlotOf(KeyOf(pos)).IsAvailable(0);
    ConsumeOne(cfg, b, topic, group, consumer, envelope);
    assert [] + [take] == [take];
    RunSnoc(cfg, b, [], take, TwoAttempts(topic, group));
    var after := Run(cfg, b, [take]);
    assert after.events[|b.events|..] == [] + [after.events[|b.events|]];
    AllOpsSnoc([], after.events[|b.events|]);
    assert end.core.delivery.pending[cfg.deliveryId(pos, 1)].pos == pos;
    assert LoggedOps(b, after)[0].event.pos == pos;
    assert Hits(end.core.delivery, end.core.delivery.pending.Keys, LoggedOps(b, after)[0]);
  }

  lemma {:induction false} FirstSessionReopens(cfg: Config, topic: Text, group: Text, consumer: Text,
                                               envelope: Envelope)
    requires cfg.Valid() && cfg.leaseMillis <= U64_MAX && Distinct(cfg, TwoAttempts(topic, group))
    ensures var first := FirstSession(topic, group, consumer, envelope);
      var end := Run(cfg, FreshBroker(), first);
      && Reopened(cfg, [first]) == Ok(Released(end)) && JustOpened(cfg, TwoAttempts(topic, group), Released(end))
      && Recovered(Released(end)) == Ok(end.core)
      && OneInFlight(cfg, end, topic, group, consumer, envelope)
  {
    var used, first := TwoAttempts(topic, group), FirstSession(topic, group, consumer, envelope);
    FirstSessionEnds(cfg, topic, group, consumer, envelope);
    SingleSessionRecovers(cfg, used, first);
    ReplayIsLiveState(cfg, used, first);
  }

  lemma OneMoreSession(cfg: Config, sessions: seq<seq<Call>>, calls: seq<Call>)
    requires Reopened(cfg, sessions).Ok?
    ensures Reopened(cfg, sessions + [calls]) == NextOpen(cfg, Reopened(cfg, sessions).value, calls)
  {
    assert (sessions + [calls])[..|sessions|] == sessions;
  }

  lemma RedeliveringSessionBreaks(cfg: Config, used: set<(Position, nat)>, sessions: seq<seq<Call>>, calls: seq<Call>)
    requires cfg.Valid() && Distinct(cfg, used) && Reopened(cfg, sessions).Ok?
    requires JustOpened(cfg, used, Reopened(cfg, sessions).value)
    requires AllUse(cfg, Reopened(cfg, sessions).value, calls, used)
    requires Redelivers(cfg, Reopened(cfg, sessions).value, calls)
    ensures Reopened(cfg, sessions + [calls]) == Err(Corruption)
  {
    ReopenStep(cfg, used, Reopened(cfg, sessions).value, calls);
    OneMoreSession(cfg, sessions, calls);
  }

  lemma {:induction false} SecondSessionBreaks(cfg: Config, topic: Text, group: Text, consumer: Text,
                                               envelope: Envelope)
    requires cfg.Valid() && cfg.leaseMillis <= U64_MAX && Distinct(cfg, TwoAttempts(topic, group))
    ensures var first := FirstSession(topic, group, consumer, envelope);
      Reopened(cfg, [first]).Ok? && Reopened(cfg, [first] + [[TakeOne(topic, group, consumer)]]) == Err(Corruption)
  {
    var first, again := FirstSession(topic, group, consumer, envelope), [TakeOne(topic, group, consumer)];
    FirstSessionReopens(cfg, topic, group, consumer, envelope);
    SecondSessionHits(cfg, Run(cfg, FreshBroker(), first), topic, group, consumer, envelope);
    RedeliveringSessionBreaks(cfg, TwoAttempts(topic, group), [first], again);
  }

  /** "Released deliveries are redelivered" does not survive another reopen: consume a message, reopen,
      consume it again as promised, and the next open reports corruption. */
  lemma RedeliveryBreaksReopen(cfg: Config, topic: Text, group: Text, consumer: Text, envelope: Envelope)
    requires cfg.Valid() && cfg.leaseMillis <= U64_MAX && Distinct(cfg, TwoAttempts(topic, group))
    ensures var first, again := FirstSession(topic, group, consumer, envelope), [TakeOne(topic, group, consumer)];
      && Reopened(cfg, [first]).Ok?
      && Reopened(cfg, [first, again]) == Err(Corruption)
  {
    var first, again := FirstSession(topic, group, consumer, envelope), [TakeOne(topic, group, consumer)];
    SecondSessionBreaks(cfg, topic, group, consumer, envelope);
    assert [first] + [again] == [first, again];
  }
}
