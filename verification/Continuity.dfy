/** Publish state over chains of sessions: what a directory has stored under a key it knows in every later
    session, for as long as it opens. None of this depends on delivery ids. */
module Continuity {
  import opened Common
  import opened Domain
  import opened Replay
  import opened Publish
  import opened Durable
  import opened Idempotency
  import opened Sessions
  import opened Effects

  // ---- topics are what the log says ----

  /** The topics that a sequence of steps leaves, starting from `catalog`. */
  ghost function Topics(catalog: map<Text, PartitionCount>, ops: seq<Op>): map<Text, PartitionCount>
    decreases |ops|
  {
    if ops == [] then catalog
    else Topics(if ops[0].OpenTopic? then catalog[ops[0].topic := ops[0].partitions] else catalog, ops[1..])
  }

  lemma {:induction false} ReplayTopics(c: Core, ops: seq<Op>)
    requires ReplayOps(c, ops).Ok?
    ensures ReplayOps(c, ops).value.catalog == Topics(c.catalog, ops)
    decreases |ops|
  {
    if ops == [] {
    } else {
      ReplayTopics(ReplayOp(c, ops[0]).value, ops[1..]);
    }
  }

  lemma {:induction false} TopicsAppend(catalog: map<Text, PartitionCount>, a: seq<Op>, b: seq<Op>)
    ensures Topics(catalog, a + b) == Topics(Topics(catalog, a), b)
    decreases |a|
  {
    if a == [] {
      assert a + b == b;
    } else {
      assert (a + b)[1..] == a[1..] + b;
      TopicsAppend(if a[0].OpenTopic? then catalog[a[0].topic := a[0].partitions] else catalog, a[1..], b);
    }
  }

  lemma {:induction false} NoTopics(catalog: map<Text, PartitionCount>, ops: seq<Op>)
    requires forall i :: 0 <= i < |ops| ==> !ops[i].OpenTopic?
    ensures Topics(catalog, ops) == catalog
    decreases |ops|
  {
    if ops == [] {
    } else {
      NoTopics(catalog, ops[1..]);
    }
  }

  lemma EventTopics(catalog: map<Text, PartitionCount>, e: Event)
    ensures Topics(catalog, Ops(e)) == if e.TopicCreated? then catalog[e.topic := e.partitions] else catalog
  {
    if e.TopicCreated? {
      assert Ops(e)[1..] == [];
    } else {
      NoTopics(catalog, Ops(e));
    }
  }

  /** The broker knows exactly the topics whose creation it has logged. */
  ghost predicate TopicsLogged(b: Broker) {
    b.core.catalog == Topics(map[], AllOps(b.events))
  }

  /** A command that creates a topic logs it, and no other logs one. */
  lemma StepLogsTopics(cfg: Config, b: Broker, cmd: Command, io: bool)
    ensures var b' := Step(cfg, b, cmd, io).broker;
      || (b'.events == b.events && b'.core.catalog == b.core.catalog)
      || exists e :: b'.events == b.events + [e] && b'.core.catalog ==
           if e.TopicCreated? then b.core.catalog[e.topic := e.partitions] else b.core.catalog
  {
    var b' := Step(cfg, b, cmd, io).broker;
    if b'.events != b.events { assert b'.events == b.events + [b'.events[|b.events|]]; }
  }

  lemma StepKeepsTopics(cfg: Config, b: Broker, cmd: Command, io: bool)
    requires TopicsLogged(b)
    ensures TopicsLogged(Step(cfg, b, cmd, io).broker)
  {
    var b' := Step(cfg, b, cmd, io).broker;
    StepLogsTopics(cfg, b, cmd, io);
    if b'.events != b.events {
      var e :| b'.events == b.events + [e] && b'.core.catalog ==
               if e.TopicCreated? then b.core.catalog[e.topic := e.partitions] else b.core.catalog;
      AllOpsSnoc(b.events, e);
      TopicsAppend(map[], AllOps(b.events), Ops(e));
      EventTopics(b.core.catalog, e);
    }
  }

  lemma {:induction false} RunKeepsTopics(cfg: Config, b: Broker, calls: seq<Call>)
    requires TopicsLogged(b)
    ensures TopicsLogged(Run(cfg, b, calls))
  {
    if calls == [] {
    } else {
      var init, last := calls[..|calls| - 1], calls[|calls| - 1];
      RunKeepsTopics(cfg, b, init);
      StepKeepsTopics(cfg, Run(cfg, b, init), last.command, last.io);
    }
  }

  // ---- opening gives the publish state back ----

  ghost predicate SamePublishState(b: Broker, b': Broker) {
    && b'.core.catalog == b.core.catalog && b'.core.logs == b.core.logs
    && b'.roundRobin == b.roundRobin && b'.index == b.index
  }

  /** If what a sound session left opens at all, the open rebuilds its publish state exactly. */
  lemma {:induction false} OpenRebuilds(cfg: Config, end: Broker)
    requires Sound(cfg, end) && TopicsLogged(end) && Open(cfg, end.core.logs, end.events).Ok?
    ensures var back := Open(cfg, end.core.logs, end.events).value;
      SamePublishState(end, back) && Sound(cfg, back) && TopicsLogged(back)
  {
    var c, back := PlainReplay(end.core.logs, end.events).value, Open(cfg, end.core.logs, end.events).value;
    ReplayTopics(EmptyCore(end.core.logs), AllOps(end.events));
    ReplayKeepsLogs(EmptyCore(end.core.logs), AllOps(end.events));
    SameRecovery(cfg, c, end.core);
    SoundIsRecovered(cfg, end);
    SoundIgnoresDelivery(cfg, end, back);
  }

  lemma {:induction false} ChainIsSound(cfg: Config, sessions: seq<seq<Call>>)
    requires cfg.Valid() && Reopened(cfg, sessions).Ok?
    ensures Sound(cfg, Reopened(cfg, sessions).value) && TopicsLogged(Reopened(cfg, sessions).value)
    decreases |sessions|
  {
    if sessions == [] {
      FreshOpens(cfg, {});
      FreshIsSound(cfg);
    } else {
      var init, last := sessions[..|sessions| - 1], sessions[|sessions| - 1];
      ChainIsSound(cfg, init);
      SessionRebuilds(cfg, Reopened(cfg, init).value, last);
    }
  }

  lemma {:induction false} SessionRebuilds(cfg: Config, b: Broker, calls: seq<Call>)
    requires cfg.Valid() && Sound(cfg, b) && TopicsLogged(b) && NextOpen(cfg, b, calls).Ok?
    ensures var back := NextOpen(cfg, b, calls).value;
      SamePublishState(Run(cfg, b, calls), back) && Sound(cfg, back) && TopicsLogged(back)
  {
    RunKeepsSound(cfg, b, calls);
    RunKeepsTopics(cfg, b, calls);
    OpenRebuilds(cfg, Run(cfg, b, calls));
  }

  // ---- the theorems ----

  /** In any session of any chain that opens, whichever appends fail: a topic's log holds at most one record
      of a key, the index points at exactly that record, and at nothing else. */
  lemma {:induction false} OneRecordPerKey(cfg: Config, sessions: seq<seq<Call>>, last: seq<Call>, topic: Text,
                                           key: Text)
    requires cfg.Valid() && Reopened(cfg, sessions).Ok?
    ensures var b := Run(cfg, Reopened(cfg, sessions).value, last);
      topic in b.core.catalog ==>
        var recs := RecordsOf(b.core.logs, topic, b.core.catalog[topic]);
        && KeysUnique(recs)
        && (IndexKey(topic, key) in b.index <==> exists i :: 0 <= i < |recs| && HasKey(recs[i], key))
        && (forall i :: 0 <= i < |recs| && HasKey(recs[i], key) ==>
              b.index[IndexKey(topic, key)] == Entry(cfg, topic, recs[i]))
  {
    var b := Run(cfg, Reopened(cfg, sessions).value, last);
    ChainIsSound(cfg, sessions);
    RunKeepsSound(cfg, Reopened(cfg, sessions).value, last);
    if topic in b.core.catalog {
      SoundKeys(cfg, b, topic, key);
    }
  }

  /** The next unkeyed message goes to partition (unkeyed messages so far) mod P, so after N of them partition
      p holds exactly its share (N + P - 1 - p) / P, whatever else was done, and over any reopens. */
  lemma {:induction false} UnkeyedSpread(cfg: Config, sessions: seq<seq<Call>>, last: seq<Call>, topic: Text, p: nat)
    requires cfg.Valid() && Reopened(cfg, sessions).Ok?
    ensures var b := Run(cfg, Reopened(cfg, sessions).value, last);
      topic in b.core.catalog && p < b.core.catalog[topic] ==>
        var count := b.core.catalog[topic];
        var total := Unkeyed(RecordsOf(b.core.logs, topic, count));
        NextOf(b, topic) == total % count && UnkeyedIn(b.core.logs, topic, p) == Share(total, count, p)
  {
    var b := Run(cfg, Reopened(cfg, sessions).value, last);
    ChainIsSound(cfg, sessions);
    RunKeepsSound(cfg, Reopened(cfg, sessions).value, last);
    assert KnownSound(cfg, b.core, topic) && CounterSound(b, topic);
  }

  /** The message at `offset` of a partition has no key, or is where its key belongs. */
  ghost predicate PlacedAt(cfg: Config, c: Core, id: LogId, offset: nat) {
    var log := LogOf(c.logs, id);
    offset < |log| && log[offset].partitionKey.Some? && id.topic in c.catalog ==>
      id.partition == cfg.keyPartition(log[offset].partitionKey.value, c.catalog[id.topic])
  }

  ghost predicate AllPlaced(cfg: Config, c: Core) {
    forall id, offset: nat :: PlacedAt(cfg, c, id, offset)
  }

  lemma PublishKeepsPlaces(cfg: Config, b: Broker, topic: Text, envelope: Envelope, io: bool)
    requires cfg.Valid() && Sound(cfg, b) && AllPlaced(cfg, b.core)
    ensures AllPlaced(cfg, StepPublish(cfg, b, topic, envelope, io).broker.core)
  {
    var c, c' := b.core, StepPublish(cfg, b, topic, envelope, io).broker.core;
    PublishEffect(cfg, b, topic, envelope, io);
    forall id, offset: nat ensures PlacedAt(cfg, c', id, offset) {
      assert PlacedAt(cfg, c, id, offset);
    }
  }

  lemma StepKeepsPlaces(cfg: Config, b: Broker, cmd: Command, io: bool)
    requires cfg.Valid() && Sound(cfg, b) && AllPlaced(cfg, b.core)
    ensures AllPlaced(cfg, Step(cfg, b, cmd, io).broker.core)
  {
    var c' := Step(cfg, b, cmd, io).broker.core;
    match cmd {
      case CreateTopic(name, partitions) =>
        CreateEffect(cfg, b, name, partitions, io);
        forall id, offset: nat ensures PlacedAt(cfg, c', id, offset) {
          assert PlacedAt(cfg, b.core, id, offset) && Rooted(b.core, id);
        }
      case Publish(topic, envelope) => PublishKeepsPlaces(cfg, b, topic, envelope, io);
      case _ =>
        DeliveryFrame(cfg, b, cmd, io);
        forall id, offset: nat ensures PlacedAt(cfg, c', id, offset) { assert PlacedAt(cfg, b.core, id, offset); }
    }
  }

  lemma {:induction false} RunKeepsPlaces(cfg: Config, b: Broker, calls: seq<Call>)
    requires cfg.Valid() && Sound(cfg, b) && AllPlaced(cfg, b.core)
    ensures AllPlaced(cfg, Run(cfg, b, calls).core)
  {
    if calls == [] {
    } else {
      var init, last := calls[..|calls| - 1], calls[|calls| - 1];
      RunKeepsPlaces(cfg, b, init);
      RunKeepsSound(cfg, b, init);
      StepKeepsPlaces(cfg, Run(cfg, b, init), last.command, last.io);
    }
  }

  lemma {:induction false} ChainKeepsPlaces(cfg: Config, sessions: seq<seq<Call>>)
    requires cfg.Valid() && Reopened(cfg, sessions).Ok?
    ensures AllPlaced(cfg, Reopened(cfg, sessions).value.core)
    decreases |sessions|
  {
    if sessions == [] {
      FreshOpens(cfg, {});
    } else {
      var init, last := sessions[..|sessions| - 1], sessions[|sessions| - 1];
      var b := Reopened(cfg, init).value;
      ChainKeepsPlaces(cfg, init);
      ChainIsSound(cfg, init);
      RunKeepsPlaces(cfg, b, last);
      SessionRebuilds(cfg, b, last);
      var c, c' := Run(cfg, b, last).core, Reopened(cfg, sessions).value.core;
      forall id, offset: nat ensures PlacedAt(cfg, c', id, offset) { assert PlacedAt(cfg, c, id, offset); }
    }
  }

  /** In any session of any chain that opens, all messages of one partition key are in the one partition that the
      hash of the key names. */
  lemma {:induction false} KeyedTogether(cfg: Config, sessions: seq<seq<Call>>, last: seq<Call>, topic: Text, p: nat,
                                         offset: nat)
    requires cfg.Valid() && Reopened(cfg, sessions).Ok?
    ensures var c := Run(cfg, Reopened(cfg, sessions).value, last).core;
      topic in c.catalog && offset < |c.Log(topic, p)| && c.Log(topic, p)[offset].partitionKey.Some? ==>
        p == cfg.keyPartition(c.Log(topic, p)[offset].partitionKey.value, c.catalog[topic])
  {
    ChainIsSound(cfg, sessions);
    ChainKeepsPlaces(cfg, sessions);
    RunKeepsPlaces(cfg, Reopened(cfg, sessions).value, last);
    assert PlacedAt(cfg, Run(cfg, Reopened(cfg, sessions).value, last).core, LogId(topic, p), offset);
  }

  /** Once a keyed publish has succeeded, publishing again under its key stores nothing, after whatever else
      was done in the session. */
  lemma {:induction false} RetryReturnsOriginal(cfg: Config, b: Broker, topic: Text, first: Envelope,
                                                between: seq<Call>, again: Envelope, io: bool)
    requires first.idempotencyKey.Some? && again.idempotencyKey == first.idempotencyKey
    requires StepPublish(cfg, b, topic, first, true).response.Published?
    ensures var s := StepPublish(cfg, b, topic, first, true);
      AnswersFromIndex(cfg, Run(cfg, s.broker, between), topic, first, s.response, again, io)
  {
    var s := StepPublish(cfg, b, topic, first, true);
    RunRemembers(cfg, s.broker, between);
    PublishedIsKnown(cfg, b, topic, first, again, Run(cfg, s.broker, between), io);
  }

  /** `later` knows all topics and keys that `b` does. */
  ghost predicate KnowsAll(b: Broker, later: Broker) {
    Remembers(b.index, later.index) && forall t :: t in b.core.catalog ==> t in later.core.catalog
  }

  lemma KnowsOn(a: Broker, b: Broker, c: Broker)
    requires KnowsAll(a, b) && KnowsAll(b, c)
    ensures KnowsAll(a, c)
  {
  }

  /** What a session knew at its end, the next one knows all along. */
  lemma {:induction false} NextSessionKnows(cfg: Config, b: Broker, session: seq<Call>, last: seq<Call>)
    requires cfg.Valid() && Sound(cfg, b) && TopicsLogged(b) && NextOpen(cfg, b, session).Ok?
    ensures KnowsAll(Run(cfg, b, session), Run(cfg, NextOpen(cfg, b, session).value, last))
  {
    SessionRebuilds(cfg, b, session);
    RunRemembers(cfg, NextOpen(cfg, b, session).value, last);
  }

  lemma {:induction false} ChainRemembers(cfg: Config, sessions: seq<seq<Call>>, later: seq<seq<Call>>, last: seq<Call>)
    requires cfg.Valid() && Reopened(cfg, sessions + later).Ok?
    ensures Reopened(cfg, sessions).Ok?
    ensures KnowsAll(Reopened(cfg, sessions).value, Run(cfg, Reopened(cfg, sessions + later).value, last))
    decreases |later|
  {
    if later == [] {
      assert sessions + later == sessions;
      RunRemembers(cfg, Reopened(cfg, sessions).value, last);
    } else {
      var init, session := later[..|later| - 1], later[|later| - 1];
      assert (sessions + later)[..|sessions + later| - 1] == sessions + init;
      ChainRemembers(cfg, sessions, init, session);
      ChainIsSound(cfg, sessions + init);
      var b := Reopened(cfg, sessions + init).value;
      NextSessionKnows(cfg, b, session, last);
      var end := Run(cfg, Reopened(cfg, sessions + later).value, last);
      KnowsOn(Reopened(cfg, sessions).value, Run(cfg, b, session), end);
    }
  }

  lemma {:induction false} RunInTwo(cfg: Config, b: Broker, a: seq<Call>, more: seq<Call>)
    ensures Run(cfg, b, a + more) == Run(cfg, Run(cfg, b, a), more)
    decreases |more|
  {
    if more == [] {
      assert a + more == a;
    } else {
      RunInTwo(cfg, b, a, more[..|more| - 1]);
      assert (a + more)[..|a + more| - 1] == a + more[..|more| - 1];
    }
  }

  function PublishingSession(before: seq<Call>, topic: Text, first: Envelope, between: seq<Call>): seq<Call> {
    before + ([Call(Publish(topic, first), true)] + between)
  }

  /** The session ends knowing the message it published. */
  lemma {:induction false} PublishingSessionRemembers(cfg: Config, start: Broker, before: seq<Call>, topic: Text,
                                                      first: Envelope, between: seq<Call>)
    ensures KnowsAll(StepPublish(cfg, Run(cfg, start, before), topic, first, true).broker,
                     Run(cfg, start, PublishingSession(before, topic, first, between)))
  {
    var b, call := Run(cfg, start, before), Call(Publish(topic, first), true);
    RunInTwo(cfg, start, before, [call] + between);
    RunInTwo(cfg, b, [call], between);
    assert [call][..0] == [];
    RunRemembers(cfg, StepPublish(cfg, b, topic, first, true).broker, between);
  }

  lemma {:induction false} SessionThenChain(cfg: Config, sessions: seq<seq<Call>>, session: seq<Call>,
                                            later: seq<seq<Call>>, last: seq<Call>)
    requires cfg.Valid() && Reopened(cfg, sessions).Ok? && Reopened(cfg, sessions + [session] + later).Ok?
    ensures KnowsAll(Run(cfg, Reopened(cfg, sessions).value, session),
                     Run(cfg, Reopened(cfg, sessions + [session] + later).value, last))
  {
    ChainRemembers(cfg, sessions + [session], later, last);
    assert (sessions + [session])[..|sessions|] == sessions;
    ChainIsSound(cfg, sessions);
    SessionRebuilds(cfg, Reopened(cfg, sessions).value, session);
  }

  /** ... and after any number of reopens: a keyed publish that succeeded in some session is answered from
      the index in every later one, for as long as the directory opens. */
  lemma {:induction false} RetryAcrossSessions(cfg: Config, sessions: seq<seq<Call>>, before: seq<Call>, topic: Text,
                                               first: Envelope, between: seq<Call>, later: seq<seq<Call>>,
                                               last: seq<Call>, again: Envelope, io: bool)
    requires cfg.Valid() && first.idempotencyKey.Some? && again.idempotencyKey == first.idempotencyKey
    requires Reopened(cfg, sessions).Ok?
    requires var b := Run(cfg, Reopened(cfg, sessions).value, before);
      StepPublish(cfg, b, topic, first, true).response.Published?
    requires Reopened(cfg, sessions + [PublishingSession(before, topic, first, between)] + later).Ok?
    ensures var chain := sessions + [PublishingSession(before, topic, first, between)] + later;
      var published := StepPublish(cfg, Run(cfg, Reopened(cfg, sessions).value, before), topic, first, true);
      AnswersFromIndex(cfg, Run(cfg, Reopened(cfg, chain).value, last), topic, first, published.response, again, io)
  {
    var session := PublishingSession(before, topic, first, between);
    var b, end := Run(cfg, Reopened(cfg, sessions).value, before),
        Run(cfg, Reopened(cfg, sessions + [session] + later).value, last);
    PublishingSessionRemembers(cfg, Reopened(cfg, sessions).value, before, topic, first, between);
    SessionThenChain(cfg, sessions, session, later, last);
    PublishedIsKnown(cfg, b, topic, first, again, end, io);
  }
}
