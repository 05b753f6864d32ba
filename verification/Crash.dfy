/** A crash that cuts the state log at any byte: recovery gives the state after a prefix of the
    commands, over all the messages already stored. */
module Crash {
  import opened Common
  import opened Domain
  import opened Delivery
  import opened Replay
  import opened Publish
  import opened Durable
  import opened Commit
  import opened Idempotency
  import opened Reopen
  import opened Sessions
  import opened StateLog

  /** From `b` to `b'` topics and messages were only added, and the log only appended to. */
  ghost predicate Grows(b: Broker, b': Broker) {
    && b.events <= b'.events && Extends(b.core.logs, b'.core.logs)
    && forall t :: SameTopicSize(b.core, b'.core, t)
  }

  ghost predicate SameTopicSize(c: Core, c': Core, t: Text) {
    t in c.catalog ==> t in c'.catalog && c'.catalog[t] == c.catalog[t]
  }

  lemma GrowsFurther(a: Broker, b: Broker, c: Broker)
    requires Grows(a, b) && Grows(b, c)
    ensures Grows(a, c)
  {
    forall id ensures LogOf(a.core.logs, id) <= LogOf(c.core.logs, id) {
      assert LogOf(a.core.logs, id) <= LogOf(b.core.logs, id) <= LogOf(c.core.logs, id);
    }
    forall t ensures SameTopicSize(a.core, c.core, t) {
      assert SameTopicSize(a.core, b.core, t) && SameTopicSize(b.core, c.core, t);
    }
  }

  lemma CommandGrows(cfg: Config, b: Broker, cmd: Command, io: bool)
    ensures Grows(b, Step(cfg, b, cmd, io).broker)
  {
    StepGrows(cfg, b, cmd, io);
    forall t ensures SameTopicSize(b.core, Step(cfg, b, cmd, io).broker.core, t) {}
  }

  lemma {:induction false} RunGrows(cfg: Config, b: Broker, calls: seq<Call>, i: nat)
    requires i <= |calls|
    ensures Grows(Run(cfg, b, calls[..i]), Run(cfg, b, calls))
    decreases |calls|
  {
    if i == |calls| {
      assert calls[..i] == calls;
      forall t ensures SameTopicSize(Run(cfg, b, calls).core, Run(cfg, b, calls).core, t) {}
    } else {
      var init, last := calls[..|calls| - 1], calls[|calls| - 1];
      RunGrows(cfg, b, init, i);
      assert init[..i] == calls[..i];
      CommandGrows(cfg, Run(cfg, b, init), last.command, last.io);
      GrowsFurther(Run(cfg, b, calls[..i]), Run(cfg, b, init), Run(cfg, b, calls));
    }
  }

  /** A run passes through every length of its log, since a command appends at most one event. */
  lemma {:induction false} PassesThrough(cfg: Config, b: Broker, calls: seq<Call>, k: nat) returns (i: nat)
    requires |b.events| <= k <= |Run(cfg, b, calls).events|
    ensures i <= |calls| && |Run(cfg, b, calls[..i]).events| == k
  {
    if k == |Run(cfg, b, calls).events| {
      i := |calls|;
      assert calls[..i] == calls;
    } else {
      var init, last := calls[..|calls| - 1], calls[|calls| - 1];
      StepGrows(cfg, Run(cfg, b, init), last.command, last.io);
      i := PassesThrough(cfg, b, init, k);
      assert init[..i] == calls[..i];
    }
  }

  lemma {:induction false} PrefixUses(cfg: Config, b: Broker, calls: seq<Call>, used: set<(Position, nat)>, i: nat)
    requires AllUse(cfg, b, calls, used) && i <= |calls|
    ensures AllUse(cfg, b, calls[..i], used)
    decreases |calls|
  {
    if i == |calls| {
      assert calls[..i] == calls;
    } else {
      PrefixUses(cfg, b, calls[..|calls| - 1], used, i);
      assert calls[..|calls| - 1][..i] == calls[..i];
    }
  }

  /** The broker opened after a crash: topics and delivery state as of `mid` with everything in flight
      released, over the messages, counters and keys of `end`. */
  ghost predicate OpensAsOf(cfg: Config, mid: Broker, end: Broker, back: Broker) {
    && back.events == mid.events
    && back.core == mid.core.(logs := end.core.logs).Release(mid.core.delivery.pending.Keys)
    && (forall t :: t in back.roundRobin <==> t in mid.core.catalog)
    && (forall t :: t in mid.core.catalog ==> t in end.roundRobin && back.roundRobin[t] == end.roundRobin[t])
    && (forall key: IndexKey :: key in back.index <==> key in end.index && key.topic in mid.core.catalog)
    && (forall key :: key in back.index ==> back.index[key] == end.index[key])
  }

  lemma {:induction false} PrefixOpens(cfg: Config, mid: Broker, end: Broker)
    requires Recovered(mid) == Ok(mid.core) && Grows(mid, end) && Sound(cfg, end)
    ensures Open(cfg, end.core.logs, mid.events).Ok?
    ensures OpensAsOf(cfg, mid, end, Open(cfg, end.core.logs, mid.events).value)
  {
    var c := mid.core.(logs := end.core.logs);
    ReplayOnGrownLogs(mid, end.core.logs);
    SoundIsRecovered(cfg, end);
    forall t ensures TopicScans(cfg, c, t)
             ensures t in c.catalog ==> KeysOf(cfg, c, t) == KeysOf(cfg, end.core, t) {
      assert TopicScans(cfg, end.core, t) && SameTopicSize(mid.core, end.core, t);
    }
    var back := Open(cfg, end.core.logs, mid.events).value;
    forall t | t in mid.core.catalog ensures t in end.roundRobin && back.roundRobin[t] == end.roundRobin[t] {
      assert CounterSound(end, t) && SameTopicSize(mid.core, end.core, t);
    }
    forall key: IndexKey
      ensures key in back.index <==> key in end.index && key.topic in mid.core.catalog
      ensures key in back.index ==> back.index[key] == end.index[key]
    {
      assert IndexSound(cfg, end, key.topic, key.key) && SameTopicSize(mid.core, end.core, key.topic);
      assert key == IndexKey(key.topic, key.key);
    }
  }

  /** What a crash at byte `n` of the state log comes to: recovery reads the events of the first `i`
      calls and opens in the state they left, over all stored messages. */
  ghost predicate CrashLeaves(cfg: Config, codec: StateCodec, calls: seq<Call>, n: nat, i: nat)
    requires i <= |calls|
  {
    var mid, end := Run(cfg, FreshBroker(), calls[..i]), Run(cfg, FreshBroker(), calls);
    n <= |LogBytes(codec, end.events)| ==>
      && Recover(codec, LogBytes(codec, end.events)[..n]) == Ok(mid.events)
      && Kept(LogBytes(codec, end.events)[..n]) == LogBytes(codec, mid.events)
      && Open(cfg, end.core.logs, mid.events).Ok?
      && OpensAsOf(cfg, mid, end, Open(cfg, end.core.logs, mid.events).value)
  }

  /** Cutting the state log of a session at any byte: the directory reopens, in the state after some
      prefix of the calls ... */
  lemma CutStateLogReopens(cfg: Config, used: set<(Position, nat)>, codec: StateCodec, calls: seq<Call>, n: nat)
    requires cfg.Valid() && codec.Faithful() && Distinct(cfg, used) && AllUse(cfg, FreshBroker(), calls, used)
    requires n <= |LogBytes(codec, Run(cfg, FreshBroker(), calls).events)|
    ensures exists i: nat :: i <= |calls| && CrashLeaves(cfg, codec, calls, n, i)
  {
    var end := Run(cfg, FreshBroker(), calls);
    var k := WholeLines(codec, end.events, n);
    CutLogRecovers(codec, end.events, n);
    var i := PassesThrough(cfg, FreshBroker(), calls, k);
    var mid := Run(cfg, FreshBroker(), calls[..i]);
    RunGrows(cfg, FreshBroker(), calls, i);
    assert mid.events == end.events[..k];
    PrefixUses(cfg, FreshBroker(), calls, used, i);
    ReplayIsLiveState(cfg, used, calls[..i]);
    FreshIsSound(cfg);
    RunKeepsSound(cfg, FreshBroker(), calls);
    PrefixOpens(cfg, mid, end);
    assert CrashLeaves(cfg, codec, calls, n, i);
  }

  /** ... which has every event whose line, and those before it, survived the cut: of the log's prefixes
      exactly those are kept whose lines lie within it. */
  lemma {:induction false} SurvivingLinesAreKept(codec: StateCodec, log: seq<Event>, part: seq<Event>, n: nat)
    requires codec.Faithful() && part <= log && n <= |LogBytes(codec, log)|
    ensures var kept := Recover(codec, LogBytes(codec, log)[..n]);
      kept.Ok? && (|LogBytes(codec, part)| <= n <==> part <= kept.value)
  {
    assert part == log[..|part|];
    CutLogRecovers(codec, log, n);
    WholeLinesFit(codec, log, n, |part|);
    assert LogBytes(codec, []) == [];
  }

  // ---- cutting the message logs as well ----

  /** The message that the step delivers is stored. */
  ghost predicate Stored(logs: Logs, op: Op) {
    op.Deliver? ==> op.event.pos.ref.offset < |LogOf(logs, LogId(op.event.pos.ref.topic, op.event.pos.ref.partition))|
  }

  ghost predicate AllStored(logs: Logs, ops: seq<Op>) {
    forall i :: 0 <= i < |ops| ==> Stored(logs, ops[i])
  }

  lemma OpOnFewerMessages(c: Core, op: Op, logs: Logs)
    requires Extends(logs, c.logs) && c.(logs := logs).Valid() && ReplayOp(c, op).Ok?
    ensures ReplayOp(c.(logs := logs), op) ==
            if Stored(logs, op) then Ok(ReplayOp(c, op).value.(logs := logs)) else Err(Corruption)
  {
    match op {
      case Deliver(e) =>
      case Settle(id, _, pos, _, _, _) =>
        assert c.(logs := logs).IdHasMessage(id);
        var log := LogId(pos.ref.topic, pos.ref.partition);
        assert LogOf(logs, log) <= LogOf(c.logs, log);
      case _ =>
    }
  }

  /** Over fewer messages a log that replays does the same, or fails at a delivery whose message is lost. */
  lemma {:induction false} ReplayOnFewerMessages(c: Core, ops: seq<Op>, logs: Logs)
    requires Extends(logs, c.logs) && c.(logs := logs).Valid() && ReplayOps(c, ops).Ok?
    ensures ReplayOps(c.(logs := logs), ops) ==
            if AllStored(logs, ops) then Ok(ReplayOps(c, ops).value.(logs := logs)) else Err(Corruption)
    decreases |ops|
  {
    if ops == [] {
    } else {
      OpOnFewerMessages(c, ops[0], logs);
      assert AllStored(logs, ops) <==> Stored(logs, ops[0]) && AllStored(logs, ops[1..]) by {
        forall i | 1 <= i < |ops| ensures ops[i] == ops[1..][i - 1] {}
      }
      if Stored(logs, ops[0]) {
        OpKeepsValid(c.(logs := logs), ops[0]);
        ReplayOnFewerMessages(ReplayOp(c, ops[0]).value, ops[1..], logs);
      }
    }
  }

  /** Fewer messages hold no more keys, so the recovery scan still succeeds. */
  lemma {:induction false} FewerScan(cfg: Config, topic: Text, count: nat, logs: Logs, logs': Logs)
    requires Extends(logs, logs') && KeysUnique(RecordsOf(logs', topic, count))
    ensures ScanKeys(cfg, topic, RecordsOf(logs, topic, count)).Ok?
  {
    var recs, all := RecordsOf(logs, topic, count), RecordsOf(logs', topic, count);
    ScanFailsIffClash(cfg, topic, recs);
    forall i: nat, j: nat | ShareKey(recs, i, j) ensures !Clash(cfg, topic, recs, i, j) {
      var x := IndexIn(topic, count, logs, logs', i);
      var y := IndexIn(topic, count, logs, logs', j);
      if i < j {
        CanonicalOrder(logs, topic, count, i, j);
      } else if j < i {
        CanonicalOrder(logs, topic, count, j, i);
      }
    }
  }

  /** Where a record of the fewer messages is among the more. */
  lemma {:induction false} IndexIn(topic: Text, count: nat, logs: Logs, logs': Logs, i: nat) returns (x: nat)
    requires Extends(logs, logs') && i < |RecordsOf(logs, topic, count)|
    ensures x < |RecordsOf(logs', topic, count)|
    ensures RecordsOf(logs', topic, count)[x] == RecordsOf(logs, topic, count)[i]
  {
    RecordAt(logs, topic, count, i);
    var r := RecordsOf(logs, topic, count)[i];
    assert LogOf(logs, LogId(topic, r.partition)) <= LogOf(logs', LogId(topic, r.partition));
    RecordListed(logs', topic, count, r.partition, r.offset);
    x :| 0 <= x < |RecordsOf(logs', topic, count)| && RecordsOf(logs', topic, count)[x] == r;
  }

  /** The broker opened over `logs`: topics and delivery state as of `mid`, with everything in flight
      released, and the keys and counters of the messages that are left. */
  ghost predicate OpensOver(cfg: Config, mid: Broker, logs: Logs, back: Broker) {
    && back.events == mid.events
    && back.core == mid.core.(logs := logs).Release(mid.core.delivery.pending.Keys)
    && back.roundRobin == RecoveredRoundRobin(back.core) && back.index == RecoveredIndex(cfg, back.core)
  }

  /** Opening with the state log as of `mid` and the messages of `end`, some of them lost: it fails exactly
      if a delivery in that log is of a lost message. */
  lemma {:induction false} OpenOverFewer(cfg: Config, used: set<(Position, nat)>, mid: Broker, ids: set<Text>,
                                         end: Broker, logs: Logs)
    requires Drift(cfg, used, mid, ids) && Grows(mid, end) && Sound(cfg, end) && Extends(logs, end.core.logs)
    ensures var r := Open(cfg, logs, mid.events);
      if AllStored(logs, AllOps(mid.events)) then r.Ok? && OpensOver(cfg, mid, logs, r.value) else r == Err(Corruption)
  {
    var p := Recovered(mid).value;
    ReplayOnGrownLogs(mid, end.core.logs);
    EmptyIsValid();
    ReplayOnFewerMessages(EmptyCore(end.core.logs), AllOps(mid.events), logs);
    if AllStored(logs, AllOps(mid.events)) {
      var c := p.(logs := logs);
      forall t ensures TopicScans(cfg, c, t) {
        if t in c.catalog {
          assert SameTopicSize(mid.core, end.core, t) && KnownSound(cfg, end.core, t);
          FewerScan(cfg, t, c.catalog[t], logs, end.core.logs);
        }
      }
      DriftIsLive(cfg, used, mid, ids);
      RecoveredStateIsValid(mid.core.logs, mid.events);
      ReleaseAll(p.delivery, ids);
      SameRecovery(cfg, c, c.Release(c.delivery.pending.Keys));
    }
  }

  // ---- over a chain of sessions ----

  /** Call `i` of session `s`, in a chain that opened up to there. */
  ghost predicate Point(cfg: Config, chain: seq<seq<Call>>, s: nat, i: nat) {
    s < |chain| && i <= |chain[s]| && Reopened(cfg, chain[..s]).Ok?
  }

  /** The broker before call `i` of session `s`. */
  ghost function AtPoint(cfg: Config, chain: seq<seq<Call>>, s: nat, i: nat): Broker
    requires Point(cfg, chain, s, i)
  {
    Run(cfg, Reopened(cfg, chain[..s]).value, chain[s][..i])
  }

  /** The broker at the end of the chain. */
  ghost function EndOf(cfg: Config, chain: seq<seq<Call>>): Broker
    requires chain != [] && Reopened(cfg, chain[..|chain| - 1]).Ok?
  {
    Run(cfg, Reopened(cfg, chain[..|chain| - 1]).value, chain[|chain| - 1])
  }

  lemma ReleasedGrows(b: Broker)
    ensures Grows(b, Released(b))
  {
    forall id ensures LogOf(b.core.logs, id) <= LogOf(Released(b).core.logs, id) {}
    forall t ensures SameTopicSize(b.core, Released(b).core, t) {}
  }

  /** From the end of a session on the next one only adds. */
  lemma {:induction false} NextSessionGrows(cfg: Config, used: set<(Position, nat)>, chain: seq<seq<Call>>)
    requires cfg.Valid() && Distinct(cfg, used) && SessionsUse(cfg, chain, used)
    requires |chain| > 1 && Reopened(cfg, chain[..|chain| - 1]).Ok?
    ensures var init := chain[..|chain| - 1];
      && Reopened(cfg, init[..|init| - 1]).Ok? && Grows(EndOf(cfg, init), EndOf(cfg, chain))
      && EndOf(cfg, init).events == Reopened(cfg, init).value.events
  {
    var init, last := chain[..|chain| - 1], chain[|chain| - 1];
    var n, b := |init| - 1, Reopened(cfg, init).value;
    ReopenedChain(cfg, used, init[..n]);
    ReopenStep(cfg, used, Reopened(cfg, init[..n]).value, init[n]);
    ReleasedGrows(EndOf(cfg, init));
    RunGrows(cfg, b, last, 0);
    assert last[..0] == [];
    GrowsFurther(EndOf(cfg, init), b, EndOf(cfg, chain));
  }

  /** A chain passes through every length of its log, and from there on only adds messages. */
  lemma {:induction false} ChainPassesThrough(cfg: Config, used: set<(Position, nat)>, chain: seq<seq<Call>>, k: nat)
      returns (s: nat, i: nat)
    requires cfg.Valid() && Distinct(cfg, used) && SessionsUse(cfg, chain, used)
    requires chain != [] && Reopened(cfg, chain[..|chain| - 1]).Ok? && k <= |EndOf(cfg, chain).events|
    ensures Point(cfg, chain, s, i) && |AtPoint(cfg, chain, s, i).events| == k
    ensures Grows(AtPoint(cfg, chain, s, i), EndOf(cfg, chain))
    decreases |chain|
  {
    var init, last := chain[..|chain| - 1], chain[|chain| - 1];
    var b := Reopened(cfg, init).value;
    if k >= |b.events| {
      s := |chain| - 1;
      i := PassesThrough(cfg, b, last, k);
      RunGrows(cfg, b, last, i);
    } else {
      s, i := EarlierPoint(cfg, used, chain, k);
    }
  }

  lemma {:induction false} EarlierPoint(cfg: Config, used: set<(Position, nat)>, chain: seq<seq<Call>>, k: nat)
      returns (s: nat, i: nat)
    requires cfg.Valid() && Distinct(cfg, used) && SessionsUse(cfg, chain, used)
    requires chain != [] && Reopened(cfg, chain[..|chain| - 1]).Ok?
    requires k < |Reopened(cfg, chain[..|chain| - 1]).value.events|
    ensures Point(cfg, chain, s, i) && |AtPoint(cfg, chain, s, i).events| == k
    ensures Grows(AtPoint(cfg, chain, s, i), EndOf(cfg, chain))
    decreases |chain|, 0
  {
    var init := chain[..|chain| - 1];
    FreshOpens(cfg, used);
    NextSessionGrows(cfg, used, chain);
    s, i := ChainPassesThrough(cfg, used, init, k);
    assert init[..s] == chain[..s] && init[s] == chain[s];
    GrowsFurther(AtPoint(cfg, chain, s, i), EndOf(cfg, init), EndOf(cfg, chain));
  }

  lemma {:induction false} PrefixSessionsUse(cfg: Config, chain: seq<seq<Call>>, used: set<(Position, nat)>, s: nat)
    requires SessionsUse(cfg, chain, used) && s <= |chain|
    ensures SessionsUse(cfg, chain[..s], used)
    decreases |chain|
  {
    if s == |chain| {
      assert chain[..s] == chain;
    } else {
      PrefixSessionsUse(cfg, chain[..|chain| - 1], used, s);
      assert chain[..|chain| - 1][..s] == chain[..s];
    }
  }

  /** What the session has done up to a point of the chain. */
  lemma {:induction false} PointOutcome(cfg: Config, used: set<(Position, nat)>, chain: seq<seq<Call>>, s: nat, i: nat)
    requires cfg.Valid() && Distinct(cfg, used) && SessionsUse(cfg, chain, used) && Point(cfg, chain, s, i)
    ensures var b := Reopened(cfg, chain[..s]).value;
      Recovered(b).Ok? && Outcome(cfg, used, b, AtPoint(cfg, chain, s, i), Recovered(b).value.delivery.pending.Keys)
  {
    var b := Reopened(cfg, chain[..s]).value;
    PrefixSessionsUse(cfg, chain, used, s + 1);
    assert chain[..s + 1][..s] == chain[..s];
    ReopenedChain(cfg, used, chain[..s]);
    PrefixUses(cfg, b, chain[s], used, i);
    SessionOutcome(cfg, used, b, Recovered(b).value.delivery.pending.Keys, chain[s][..i]);
  }

  /** Opening with the state log as of a point of the chain, over some of the messages of its end. */
  lemma {:induction false} PointOpens(cfg: Config, used: set<(Position, nat)>, chain: seq<seq<Call>>, s: nat, i: nat,
                                      end: Broker, logs: Logs)
    requires cfg.Valid() && Distinct(cfg, used) && SessionsUse(cfg, chain, used) && Point(cfg, chain, s, i)
    requires Grows(AtPoint(cfg, chain, s, i), end) && Sound(cfg, end) && Extends(logs, end.core.logs)
    ensures var mid := AtPoint(cfg, chain, s, i);
      var r := Open(cfg, logs, mid.events);
      && (r.Ok? <==> !Redelivers(cfg, Reopened(cfg, chain[..s]).value, chain[s][..i])
                     && AllStored(logs, AllOps(mid.events)))
      && (r.Ok? ==> OpensOver(cfg, mid, logs, r.value))
  {
    var b, mid := Reopened(cfg, chain[..s]).value, AtPoint(cfg, chain, s, i);
    PointOutcome(cfg, used, chain, s, i);
    if Redelivers(cfg, b, chain[s][..i]) {
      assert PlainReplay(end.core.logs, mid.events).Err?;
      if PlainReplay(logs, mid.events).Ok? {
        ReplayOnMoreMessages(EmptyCore(logs), AllOps(mid.events), end.core.logs);
      }
    } else {
      OpenOverFewer(cfg, used, mid, Recovered(b).value.delivery.pending.Keys, end, logs);
    }
  }

  /** A crash that cuts the state log at any byte, anywhere in a chain of sessions, and each message log at any
      message. The state log recovers to what some point of the chain had logged. The directory opens if and
      only if the session had not redelivered anything by then and every delivery in what is left of the log
      is of a message that is left; it then has the state of that point, with everything in flight released. */
  lemma {:induction false} CutDirectoryOpensIff(cfg: Config, used: set<(Position, nat)>, codec: StateCodec,
                                                chain: seq<seq<Call>>, n: nat, logs: Logs) returns (s: nat, i: nat)
    requires cfg.Valid() && codec.Faithful() && Distinct(cfg, used) && SessionsUse(cfg, chain, used)
    requires chain != [] && Reopened(cfg, chain[..|chain| - 1]).Ok?
    requires n <= |LogBytes(codec, EndOf(cfg, chain).events)| && Extends(logs, EndOf(cfg, chain).core.logs)
    ensures Point(cfg, chain, s, i)
    ensures var mid := AtPoint(cfg, chain, s, i);
      var cut := LogBytes(codec, EndOf(cfg, chain).events)[..n];
      && Recover(codec, cut) == Ok(mid.events) && Kept(cut) == LogBytes(codec, mid.events)
      && (Open(cfg, logs, mid.events).Ok? <==>
            !Redelivers(cfg, Reopened(cfg, chain[..s]).value, chain[s][..i]) && AllStored(logs, AllOps(mid.events)))
      && (Open(cfg, logs, mid.events).Ok? ==> OpensOver(cfg, mid, logs, Open(cfg, logs, mid.events).value))
  {
    var end := EndOf(cfg, chain);
    var k := WholeLines(codec, end.events, n);
    CutLogRecovers(codec, end.events, n);
    s, i := ChainPassesThrough(cfg, used, chain, k);
    assert AtPoint(cfg, chain, s, i).events == end.events[..k];
    ReopenedChain(cfg, used, chain[..|chain| - 1]);
    RunKeepsSound(cfg, Reopened(cfg, chain[..|chain| - 1]).value, chain[|chain| - 1]);
    PointOpens(cfg, used, chain, s, i, end, logs);
  }
}
