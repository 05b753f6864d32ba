/** Opening a directory and retry maintenance step by step: replaying event by event, rebuilding the
    publish state topic by topic, releasing delivery by delivery, and stopping at the first error. */
module Recovering {
  import opened Common
  import opened Ordering
  import opened Domain
  import opened Delivery
  import opened Replay
  import opened Publish
  import opened Durable

  // ---- recovering the publish state ----

  /** The keys of one topic as entries of the common index. */
  function Tagged(topic: Text, keys: map<Text, IdempotencyRecord>): Index {
    map key | key in keys :: IndexKey(topic, key) := keys[key]
  }

  /** What the scan of one topic's records adds to the index, and its number of unkeyed messages. */
  function TopicScan(cfg: Config, topic: Text, before: Index, recs: seq<Record>): Result<(Index, nat), Error> {
    match ScanKeys(cfg, topic, recs)
    case Err(e) => Err(e)
    case Ok(keys) => Ok((before + Tagged(topic, keys), Unkeyed(recs)))
  }

  ghost predicate ScannedTo(cfg: Config, topic: Text, seen: seq<Record>, keys: map<Text, IdempotencyRecord>,
                            before: Index, index: Index) {
    && (forall key :: key in before ==> key.topic != topic)
    && ScanKeys(cfg, topic, seen) == Ok(keys) && index == before + Tagged(topic, keys)
    && forall key :: IndexKey(topic, key) in index <==> key in keys
  }

  /** One record of the scan, seen through the common index instead of the topic's own keys. */
  lemma {:induction false} ScanOne(cfg: Config, topic: Text, seen: seq<Record>, keys: map<Text, IdempotencyRecord>,
                                   before: Index, index: Index, r: Record)
    requires ScannedTo(cfg, topic, seen, keys, before, index)
    ensures Unkeyed(seen + [r]) == Unkeyed(seen) + if r.envelope.partitionKey.None? then 1 else 0
    ensures match r.envelope.idempotencyKey
      case None => ScannedTo(cfg, topic, seen + [r], keys, before, index)
      case Some(key) =>
        var entry := Entry(cfg, topic, r);
        if IndexKey(topic, key) !in index then
          ScannedTo(cfg, topic, seen + [r], keys[key := entry], before, index[IndexKey(topic, key) := entry])
        else if index[IndexKey(topic, key)].fingerprint == entry.fingerprint then
          ScannedTo(cfg, topic, seen + [r], keys, before, index)
        else
          ScanKeys(cfg, topic, seen + [r]) == Err(Corruption)
  {
    assert (seen + [r])[..|seen|] == seen;
    if r.envelope.idempotencyKey.Some? {
      var key, entry := r.envelope.idempotencyKey.value, Entry(cfg, topic, r);
      assert key in keys ==> IndexKey(topic, key) in Tagged(topic, keys) && index[IndexKey(topic, key)] == keys[key];
      assert index[IndexKey(topic, key) := entry] == before + Tagged(topic, keys[key := entry]);
    }
  }

  lemma {:induction false} ScanFailsFrom(cfg: Config, topic: Text, seen: seq<Record>, all: seq<Record>)
    requires seen <= all && ScanKeys(cfg, topic, seen).Err?
    ensures ScanKeys(cfg, topic, all) == ScanKeys(cfg, topic, seen)
    decreases |all|
  {
    if seen != all {
      ScanFailsFrom(cfg, topic, seen, all[..|all| - 1]);
    }
  }

  /** Topic `t` has been recovered if it is among `done`, and is not there yet otherwise. */
  ghost predicate RecoveredTopic(cfg: Config, c: Core, index: Index, counters: map<Text, nat>, done: seq<Text>,
                                 t: Text) {
    && (t in done ==> TopicScans(cfg, c, t))
    && (t in counters <==> t in done && t in c.catalog)
    && (t in counters ==> counters[t] == Unkeyed(RecordsOf(c.logs, t, c.catalog[t])) % c.catalog[t])
    && (forall key :: IndexKey(t, key) in index <==> t in done && key in KeysOf(cfg, c, t))
    && (forall key :: IndexKey(t, key) in index ==> index[IndexKey(t, key)] == KeysOf(cfg, c, t)[key])
  }

  ghost predicate AllRecovered(cfg: Config, c: Core, index: Index, counters: map<Text, nat>, done: seq<Text>) {
    forall t :: RecoveredTopic(cfg, c, index, counters, done, t)
  }

  ghost predicate ListsTopics(catalog: map<Text, PartitionCount>, topics: seq<Text>) {
    NoDuplicates(topics) && forall t :: t in topics <==> t in catalog
  }

  lemma TopicsListed(catalog: map<Text, PartitionCount>, topics: seq<Text>)
    requires TotalOrder(TextLeq) && topics == InOrder(TextLeq, catalog.Keys)
    ensures ListsTopics(catalog, topics)
  {
    forall t ensures t in topics <==> t in catalog { assert t in topics <==> t in Elements(topics); }
  }

  /** Scanning topic `j`: none of its keys are there yet, and adding what the scan finds recovers it. */
  lemma {:induction false} NextTopic(cfg: Config, c: Core, index: Index, counters: map<Text, nat>, topics: seq<Text>,
                                     j: nat)
    requires ListsTopics(c.catalog, topics) && j < |topics| && AllRecovered(cfg, c, index, counters, topics[..j])
    ensures topics[j] in c.catalog && forall key :: key in index ==> key.topic != topics[j]
    ensures var keys := KeysOf(cfg, c, topics[j]);
      var count := Unkeyed(RecordsOf(c.logs, topics[j], c.catalog[topics[j]])) % c.catalog[topics[j]];
      TopicScans(cfg, c, topics[j]) ==>
        AllRecovered(cfg, c, index + Tagged(topics[j], keys), counters[topics[j] := count], topics[..j + 1])
  {
    var done, topic := topics[..j], topics[j];
    assert topics[..j + 1] == done + [topic] && topic in topics && topic !in done;
    forall key | key in index ensures key.topic != topic {
      assert RecoveredTopic(cfg, c, index, counters, done, key.topic) && key == IndexKey(key.topic, key.key);
    }
    if TopicScans(cfg, c, topic) {
      TopicRecovered(cfg, c, index, counters, done, topic);
    }
  }

  lemma {:induction false} TopicRecovered(cfg: Config, c: Core, index: Index, counters: map<Text, nat>,
                                          done: seq<Text>, topic: Text)
    requires AllRecovered(cfg, c, index, counters, done)
    requires topic in c.catalog && topic !in done && TopicScans(cfg, c, topic)
    ensures var index' := index + Tagged(topic, KeysOf(cfg, c, topic));
      var counters' := counters[topic := Unkeyed(RecordsOf(c.logs, topic, c.catalog[topic])) % c.catalog[topic]];
      AllRecovered(cfg, c, index', counters', done + [topic])
  {
    var index' := index + Tagged(topic, KeysOf(cfg, c, topic));
    var counters' := counters[topic := Unkeyed(RecordsOf(c.logs, topic, c.catalog[topic])) % c.catalog[topic]];
    forall t ensures RecoveredTopic(cfg, c, index', counters', done + [topic], t) {
      assert RecoveredTopic(cfg, c, index, counters, done, t);
      assert t in done + [topic] <==> t in done || t == topic;
    }
  }

  /** A topic whose scan finds a conflict makes the recovery fail. */
  lemma TopicFails(cfg: Config, c: Core, t: Text)
    requires t in c.catalog && ScanKeys(cfg, t, RecordsOf(c.logs, t, c.catalog[t])).Err?
    ensures !(forall topic :: TopicScans(cfg, c, topic))
    ensures ScanKeys(cfg, t, RecordsOf(c.logs, t, c.catalog[t])).error == Corruption
  {
    assert !TopicScans(cfg, c, t);
    ScanFailsIffClash(cfg, t, RecordsOf(c.logs, t, c.catalog[t]));
  }

  lemma {:induction false} AllTopicsRecovered(cfg: Config, c: Core, index: Index, counters: map<Text, nat>,
                                              topics: seq<Text>)
    requires ListsTopics(c.catalog, topics) && AllRecovered(cfg, c, index, counters, topics[..|topics|])
    ensures index == RecoveredIndex(cfg, c) && counters == RecoveredRoundRobin(c)
    ensures forall t :: TopicScans(cfg, c, t)
  {
    assert topics[..|topics|] == topics;
    forall t ensures TopicScans(cfg, c, t)
             ensures t in counters <==> t in RecoveredRoundRobin(c)
             ensures t in counters ==> counters[t] == RecoveredRoundRobin(c)[t] {
      assert RecoveredTopic(cfg, c, index, counters, topics, t);
    }
    var all := RecoveredIndex(cfg, c);
    forall ik: IndexKey ensures ik in index <==> ik in all
                        ensures ik in index ==> index[ik] == all[ik] {
      assert RecoveredTopic(cfg, c, index, counters, topics, ik.topic) && ik == IndexKey(ik.topic, ik.key);
    }
  }

  // ---- releasing ----

  /** Releasing one more delivery takes exactly its own offset out of its slot. */
  lemma ReleaseOne(d: DeliveryState, ids: set<Text>, id: Text)
    requires d.Valid() && id in d.pending && id !in ids
    ensures var key, o := KeyOf(d.pending[id].pos), d.pending[id].pos.ref.offset;
      d.Release(ids + {id}).groups == d.Release(ids).groups[key := d.Release(ids).SlotOf(key).Unpend(o)]
  {
    var key, o := KeyOf(d.pending[id].pos), d.pending[id].pos.ref.offset;
    assert d.IdLinked(id) && key in d.groups;
    forall k | k in d.groups
      ensures Without(d.groups[k], ids + {id}) ==
              if k == key then Without(d.groups[k], ids).Unpend(o) else Without(d.groups[k], ids)
    {
      forall x | x in d.groups[k].pending && d.groups[k].pending[x] == id ensures k == key && x == o {
        assert d.SlotLinked(k, x);
      }
    }
  }

  // ---- replaying ----

  /** The replay whose result is `r` is reported as `error`, and if it succeeded the state is `c`. */
  ghost predicate Replays(r: Result<Core, Error>, error: Option<Error>, c: Core) {
    match r
    case Ok(done) => error == None && c == done
    case Err(e) => error == Some(e)
  }

  lemma FirstOp(c: Core, ops: seq<Op>, i: nat)
    requires i < |ops|
    ensures ReplayOps(c, ops[i..]) ==
            match ReplayOp(c, ops[i]) case Err(e) => Err(e) case Ok(c') => ReplayOps(c', ops[i + 1..])
  {
    assert ops[i..][1..] == ops[i + 1..];
  }

  lemma {:induction false} ReplayStops(c: Core, log: seq<Event>, i: nat)
    requires i <= |log| && ReplayOps(c, AllOps(log[..i])).Err?
    ensures ReplayOps(c, AllOps(log)) == ReplayOps(c, AllOps(log[..i]))
    decreases |log|
  {
    if i == |log| {
      assert log[..i] == log;
    } else {
      var init := log[..|log| - 1];
      assert init[..i] == log[..i];
      ReplayStops(c, init, i);
      ReplayAppend(c, AllOps(init), Ops(log[|log| - 1]));
    }
  }

  // ---- retry maintenance ----

  /** One more outcome is one more entry of the event, and possibly one more retry due. */
  lemma OutcomeAdded(d: DeliveryState, ids: seq<Text>, now: nat, outs: seq<Computed>, out: Computed)
    requires |outs| < |ids| && forall id :: id in ids ==> id in d.pending
    ensures var i := |outs|;
      var p := d.pending[ids[i]];
      && (outs + [out])[..i] == outs
      && ExpiredEvents(d, ids[..i + 1], now, outs + [out]) ==
         ExpiredEvents(d, ids[..i], now, outs)
         + [ExpiredDelivery(ids[i], p.consumer, p.pos, p.attempt, now, out.settlement)]
      && DueAtOnce(d, ids[..i + 1], now, outs + [out]) ==
         DueAtOnce(d, ids[..i], now, outs) + DueOf(out.settlement, p.pos, now)
  {
    var i := |outs|;
    assert ids[i] in ids && ids[..i + 1][..i] == ids[..i] && (outs + [out])[..i] == outs;
  }

  lemma {:induction false} ComputeStops(cfg: Config, c: Core, ids: seq<Text>, now: nat, i: nat)
    requires (forall id :: id in ids ==> id in c.delivery.pending) && i <= |ids|
    requires ComputeAll(cfg, c, ids[..i], now).Err?
    ensures ComputeAll(cfg, c, ids, now) == ComputeAll(cfg, c, ids[..i], now)
    decreases |ids|
  {
    if i == |ids| {
      assert ids[..i] == ids;
    } else {
      assert ids[..|ids| - 1][..i] == ids[..i];
      ComputeStops(cfg, c, ids[..|ids| - 1], now, i);
    }
  }

  lemma {:induction false} SettleStops(d: DeliveryState, ids: seq<Text>, outs: seq<Computed>, i: nat)
    requires |outs| == |ids| && (forall id :: id in ids ==> id in d.pending) && i <= |ids|
    requires SettleEach(d, ids[..i], outs[..i]).error.Some?
    ensures SettleEach(d, ids, outs) == SettleEach(d, ids[..i], outs[..i])
    decreases |ids|
  {
    if i == |ids| {
      assert ids[..i] == ids && outs[..i] == outs;
    } else {
      var last := |ids| - 1;
      assert ids[..last][..i] == ids[..i] && outs[..last][..i] == outs[..i];
      SettleStops(d, ids[..last], outs[..last], i);
    }
  }

  lemma {:induction false} ReadyStops(d: DeliveryState, ps: seq<Position>, now: nat, i: nat)
    requires i <= |ps| && ReadyEach(d, ps[..i], now).error.Some?
    ensures ReadyEach(d, ps, now) == ReadyEach(d, ps[..i], now)
    decreases |ps|
  {
    if i == |ps| {
      assert ps[..i] == ps;
    } else {
      assert ps[..|ps| - 1][..i] == ps[..i];
      ReadyStops(d, ps[..|ps| - 1], now, i);
    }
  }
}
