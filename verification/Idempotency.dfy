/** Publish state over whole runs: the live index and counters are at every moment what recovery
    would rebuild, no key is stored twice, and unkeyed messages spread evenly. */
module Idempotency {
  import opened Common
  import opened Domain
  import opened Replay
  import opened Publish
  import opened Durable

  ghost predicate KeysUnique(recs: seq<Record>) {
    forall i, j :: 0 <= i < j < |recs| && recs[i].envelope.idempotencyKey.Some? ==>
      recs[i].envelope.idempotencyKey != recs[j].envelope.idempotencyKey
  }

  /** Unkeyed messages of partition `p` when `total` were spread over `count` partitions in turn. */
  function Share(total: nat, count: PartitionCount, p: nat): int
    requires p < count
  {
    (total + count - 1 - p) / count
  }

  function UnkeyedIn(logs: Logs, topic: Text, p: nat): nat {
    Unkeyed(PartitionRecords(LogOf(logs, LogId(topic, p)), p))
  }

  ghost predicate Balanced(logs: Logs, topic: Text, count: PartitionCount) {
    forall p :: 0 <= p < count ==>
      UnkeyedIn(logs, topic, p) == Share(Unkeyed(RecordsOf(logs, topic, count)), count, p)
  }

  /** The logs of one topic: no key twice, so the scan succeeds, and unkeyed messages spread evenly. */
  ghost predicate TopicSound(cfg: Config, logs: Logs, topic: Text, count: PartitionCount) {
    var recs := RecordsOf(logs, topic, count);
    ScanKeys(cfg, topic, recs).Ok? && KeysUnique(recs) && Balanced(logs, topic, count)
  }

  ghost predicate KnownSound(cfg: Config, c: Core, t: Text) {
    t in c.catalog ==> TopicSound(cfg, c.logs, t, c.catalog[t])
  }

  ghost predicate CounterSound(b: Broker, t: Text) {
    && (t in b.roundRobin <==> t in b.core.catalog)
    && (t in b.core.catalog ==>
          b.roundRobin[t] == Unkeyed(RecordsOf(b.core.logs, t, b.core.catalog[t])) % b.core.catalog[t])
  }

  /** The index holds a key exactly when the scan of its topic finds it, with the record found. */
  ghost predicate IndexSound(cfg: Config, b: Broker, t: Text, key: Text) {
    && (IndexKey(t, key) in b.index <==> key in KeysOf(cfg, b.core, t))
    && (key in KeysOf(cfg, b.core, t) ==> b.index[IndexKey(t, key)] == KeysOf(cfg, b.core, t)[key])
  }

  /** No messages outside the partitions of known topics. */
  ghost predicate Rooted(c: Core, id: LogId) {
    LogOf(c.logs, id) != [] ==> id.topic in c.catalog && id.partition < c.catalog[id.topic]
  }

  ghost predicate Sound(cfg: Config, b: Broker) {
    && (forall t :: KnownSound(cfg, b.core, t))
    && (forall t :: CounterSound(b, t))
    && (forall t, key :: IndexSound(cfg, b, t, key))
    && (forall id :: Rooted(b.core, id))
  }

  /** In a sound state the counters and the index are what recovery would rebuild from the logs. */
  lemma {:induction false} SoundIsRecovered(cfg: Config, b: Broker)
    requires Sound(cfg, b)
    ensures forall t :: TopicScans(cfg, b.core, t)
    ensures b.roundRobin == RecoveredRoundRobin(b.core)
    ensures b.index == RecoveredIndex(cfg, b.core)
  {
    forall t ensures TopicScans(cfg, b.core, t) { assert KnownSound(cfg, b.core, t); }
    var rr, ix := RecoveredRoundRobin(b.core), RecoveredIndex(cfg, b.core);
    forall t ensures t in b.roundRobin <==> t in rr
             ensures t in rr ==> b.roundRobin[t] == rr[t] { assert CounterSound(b, t); }
    forall ik: IndexKey ensures ik in b.index <==> ik in ix
                        ensures ik in ix ==> b.index[ik] == ix[ik] {
      assert IndexSound(cfg, b, ik.topic, ik.key);
      assert ik == IndexKey(ik.topic, ik.key);
    }
  }

  // ---- appending one record ----

  lemma AppendToLastPartition(logs: Logs, logs': Logs, topic: Text, p: nat, envelope: Envelope)
    requires logs' == logs[LogId(topic, p) := LogOf(logs, LogId(topic, p)) + [envelope]]
    ensures RecordsOf(logs', topic, p + 1) ==
            RecordsOf(logs, topic, p + 1) + [Record(p, |LogOf(logs, LogId(topic, p))|, envelope)]
  {
    RecordsSame(logs, logs', topic, p);
    var log, r := LogOf(logs, LogId(topic, p)), Record(p, |LogOf(logs, LogId(topic, p))|, envelope);
    assert PartitionRecords(log + [envelope], p) == PartitionRecords(log, p) + [r];
    assert RecordsOf(logs, topic, p) + (PartitionRecords(log, p) + [r]) ==
        RecordsOf(logs, topic, p) + PartitionRecords(log, p) + [r];
  }

  lemma Regroup<T>(a: seq<T>, x: T, b: seq<T>, c: seq<T>)
    ensures a + b + c == a + (b + c) && a + [x] + b + c == a + [x] + (b + c)
  {
  }

  lemma {:induction false} RecordsAppend(logs: Logs, logs': Logs, topic: Text, count: nat, p: nat, envelope: Envelope)
      returns (a: seq<Record>, b: seq<Record>)
    requires p < count
    requires logs' == logs[LogId(topic, p) := LogOf(logs, LogId(topic, p)) + [envelope]]
    ensures RecordsOf(logs, topic, count) == a + b
    ensures RecordsOf(logs', topic, count) == a + [Record(p, |LogOf(logs, LogId(topic, p))|, envelope)] + b
  {
    if p == count - 1 {
      a, b := RecordsOf(logs, topic, count), [];
      AppendToLastPartition(logs, logs', topic, p, envelope);
    } else {
      a, b := RecordsAppend(logs, logs', topic, count - 1, p, envelope);
      var last := PartitionRecords(LogOf(logs, LogId(topic, count - 1)), count - 1);
      Regroup(a, Record(p, |LogOf(logs, LogId(topic, p))|, envelope), b, last);
      b := b + last;
    }
  }

  lemma {:induction false} RecordsSame(logs: Logs, logs': Logs, topic: Text, count: nat)
    requires forall p :: 0 <= p < count ==> LogOf(logs, LogId(topic, p)) == LogOf(logs', LogId(topic, p))
    ensures RecordsOf(logs, topic, count) == RecordsOf(logs', topic, count)
  {
    if count == 0 {
    } else {
      RecordsSame(logs, logs', topic, count - 1);
    }
  }

  lemma {:induction false} UnkeyedInsert(a: seq<Record>, r: Record, b: seq<Record>)
    ensures Unkeyed(a + [r] + b) == Unkeyed(a + b) + if r.envelope.partitionKey.None? then 1 else 0
    decreases |b|
  {
    if b == [] {
      assert a + [r] + b == a + [r] && a + b == a && (a + [r])[..|a|] == a;
    } else {
      var init, x := b[..|b| - 1], b[|b| - 1];
      UnkeyedInsert(a, r, init);
      assert (a + [r] + b)[..|a| + |b|] == a + [r] + init && (a + b)[..|a| + |b| - 1] == a + init;
    }
  }

  lemma {:induction false} ScanInsert(cfg: Config, topic: Text, a: seq<Record>, r: Record, b: seq<Record>)
    requires ScanKeys(cfg, topic, a + b).Ok?
    requires r.envelope.idempotencyKey.Some? ==> r.envelope.idempotencyKey.value !in ScanKeys(cfg, topic, a + b).value
    ensures var seen := ScanKeys(cfg, topic, a + b).value;
      ScanKeys(cfg, topic, a + [r] + b) ==
      Ok(WithKey(cfg, topic, seen, r))
    decreases |b|
  {
    if b == [] {
      assert a + [r] + b == a + [r] && a + b == a && (a + [r])[..|a|] == a;
    } else {
      var init, x := b[..|b| - 1], b[|b| - 1];
      assert (a + [r] + b)[..|a| + |b|] == a + [r] + init && (a + b)[..|a| + |b| - 1] == a + init;
      ScanInsert(cfg, topic, a, r, init);
      var seen, seen' := ScanKeys(cfg, topic, a + init).value, ScanKeys(cfg, topic, a + b).value;
      if r.envelope.idempotencyKey.Some? && x.envelope.idempotencyKey.Some? {
        var k, j := r.envelope.idempotencyKey.value, x.envelope.idempotencyKey.value;
        assert j in seen' && j != k;
        assert seen[k := Entry(cfg, topic, r)][j := Entry(cfg, topic, x)]
            == seen[j := Entry(cfg, topic, x)][k := Entry(cfg, topic, r)];
      }
    }
  }

  lemma UniqueInsert(cfg: Config, topic: Text, a: seq<Record>, r: Record, b: seq<Record>)
    requires KeysUnique(a + b) && ScanKeys(cfg, topic, a + b).Ok?
    requires r.envelope.idempotencyKey.Some? ==> r.envelope.idempotencyKey.value !in ScanKeys(cfg, topic, a + b).value
    ensures KeysUnique(a + [r] + b)
  {
    var before, after := a + b, a + [r] + b;
    KeysSeen(cfg, topic, before);
    forall i, j | 0 <= i < j < |after| && after[i].envelope.idempotencyKey.Some?
      ensures after[i].envelope.idempotencyKey != after[j].envelope.idempotencyKey
    {
      var i', j' := if i > |a| then i - 1 else i, if j > |a| then j - 1 else j;
      if i != |a| && j != |a| {
        assert after[i] == before[i'] && after[j] == before[j'];
      } else if i == |a| {
        assert !HasKey(before[j'], r.envelope.idempotencyKey.value);
      } else {
        assert HasKey(before[i'], before[i'].envelope.idempotencyKey.value);
      }
    }
  }

  // ---- round robin ----

  /** Moving on from `total` to `total + 1` gives one more message to exactly partition `total % count`. */
  lemma {:induction false} ShareStep(total: nat, count: PartitionCount, p: nat)
    requires p < count
    ensures Share(total + 1, count, p) == Share(total, count, p) + if p == total % count then 1 else 0
    ensures Share(0, count, p) == 0
  {
    var q, r := total / count, total % count;
    assert total == q * count + r;
    var s := r + count - 1 - p;
    assert (total + count - 1 - p) == q * count + s;
    DivideBlock(q, s, count);
    DivideBlock(q, s + 1, count);
    DivideBlock(0, count - 1 - p, count);
  }

  lemma {:induction false} DivideBlock(q: nat, s: nat, count: PartitionCount)
    requires s < 2 * count
    ensures (q * count + s) / count == q + if s >= count then 1 else 0
  {
    var rest := if s >= count then s - count else s;
    var quotient := if s >= count then q + 1 else q;
    assert q * count + s == quotient * count + rest;
    assert (quotient * count + rest) / count == quotient by {
      Quotient(quotient, rest, count);
    }
  }

  lemma {:induction false} Quotient(q: nat, r: nat, count: PartitionCount)
    requires r < count
    ensures (q * count + r) / count == q
  {
    var d := (q * count + r) / count;
    assert d * count <= q * count + r < (d + 1) * count;
    Monotone(d + 1, q, count);
    Monotone(q + 1, d, count);
  }

  lemma Monotone(a: int, b: int, count: PartitionCount)
    ensures a <= b ==> a * count <= b * count
  {
  }

  // ---- every command keeps the publish state sound ----

  lemma {:induction false} NoRecords(logs: Logs, topic: Text, count: nat)
    requires forall p :: 0 <= p < count ==> LogOf(logs, LogId(topic, p)) == []
    ensures RecordsOf(logs, topic, count) == []
  {
    if count == 0 {
    } else {
      NoRecords(logs, topic, count - 1);
    }
  }

  lemma NewTopicSound(cfg: Config, logs: Logs, topic: Text, count: PartitionCount)
    requires forall p :: 0 <= p < count ==> LogOf(logs, LogId(topic, p)) == []
    ensures TopicSound(cfg, logs, topic, count) && RecordsOf(logs, topic, count) == []
  {
    NoRecords(logs, topic, count);
    forall p | 0 <= p < count ensures Share(0, count, p) == 0 { ShareStep(0, count, p); }
  }

  lemma CreateKeepsSound(cfg: Config, b: Broker, name: Text, partitions: PartitionCount, io: bool)
    requires Sound(cfg, b)
    ensures Sound(cfg, StepCreate(b, name, partitions, io).broker)
  {
    var b' := StepCreate(b, name, partitions, io).broker;
    if name !in b.core.catalog && io {
      forall p | 0 <= p < partitions
        ensures LogOf(b.core.logs, LogId(name, p)) == []
      {
        assert Rooted(b.core, LogId(name, p));
      }
      NewTopicSound(cfg, b.core.logs, name, partitions);
      forall t ensures KnownSound(cfg, b'.core, t) { assert KnownSound(cfg, b.core, t); }
      forall t ensures CounterSound(b', t) { assert CounterSound(b, t); }
      forall t, key ensures IndexSound(cfg, b', t, key) { assert IndexSound(cfg, b, t, key); }
      forall id ensures Rooted(b'.core, id) { assert Rooted(b.core, id); }
    }
  }

  lemma UnkeyedAppend(logs: Logs, logs': Logs, topic: Text, p: nat, envelope: Envelope, q: nat)
    requires logs' == logs[LogId(topic, p) := LogOf(logs, LogId(topic, p)) + [envelope]]
    ensures UnkeyedIn(logs', topic, q) ==
            UnkeyedIn(logs, topic, q) + if q == p && envelope.partitionKey.None? then 1 else 0
  {
    if q == p {
      var before := PartitionRecords(LogOf(logs, LogId(topic, p)), p);
      var r := Record(p, |LogOf(logs, LogId(topic, p))|, envelope);
      assert PartitionRecords(LogOf(logs', LogId(topic, p)), p) == before + [r] + [];
      assert before + [] == before;
      UnkeyedInsert(before, r, []);
    }
  }

  lemma {:induction false} AppendKeepsBalance(logs: Logs, logs': Logs, topic: Text, count: PartitionCount, p: nat,
                                              envelope: Envelope, total: nat)
    requires Balanced(logs, topic, count) && p < count && total == Unkeyed(RecordsOf(logs, topic, count))
    requires logs' == logs[LogId(topic, p) := LogOf(logs, LogId(topic, p)) + [envelope]]
    requires envelope.partitionKey.None? ==> p == total % count
    requires Unkeyed(RecordsOf(logs', topic, count)) == total + if envelope.partitionKey.None? then 1 else 0
    ensures Balanced(logs', topic, count)
  {
    forall q | 0 <= q < count
      ensures UnkeyedIn(logs', topic, q) == Share(Unkeyed(RecordsOf(logs', topic, count)), count, q)
    {
      UnkeyedAppend(logs, logs', topic, p, envelope, q);
      ShareStep(total, count, q);
    }
  }

  ghost predicate KeyIsNew(cfg: Config, topic: Text, recs: seq<Record>, envelope: Envelope) {
    && ScanKeys(cfg, topic, recs).Ok?
    && (envelope.idempotencyKey.Some? ==> envelope.idempotencyKey.value !in ScanKeys(cfg, topic, recs).value)
  }

  function WithKey(cfg: Config, topic: Text, seen: map<Text, IdempotencyRecord>,
                   r: Record): map<Text, IdempotencyRecord> {
    match r.envelope.idempotencyKey
    case None => seen
    case Some(key) => seen[key := Entry(cfg, topic, r)]
  }

  /** The records of a topic after one more message with a new key, or none. */
  lemma {:induction false} AppendKeepsTopic(cfg: Config, logs: Logs, logs': Logs, topic: Text,
                                            count: PartitionCount, p: nat, envelope: Envelope)
    requires TopicSound(cfg, logs, topic, count) && p < count
    requires logs' == logs[LogId(topic, p) := LogOf(logs, LogId(topic, p)) + [envelope]]
    requires envelope.partitionKey.None? ==> p == Unkeyed(RecordsOf(logs, topic, count)) % count
    requires KeyIsNew(cfg, topic, RecordsOf(logs, topic, count), envelope)
    ensures TopicSound(cfg, logs', topic, count)
    ensures var recs, recs' := RecordsOf(logs, topic, count), RecordsOf(logs', topic, count);
      && Unkeyed(recs') == Unkeyed(recs) + (if envelope.partitionKey.None? then 1 else 0)
      && ScanKeys(cfg, topic, recs') ==
         Ok(WithKey(cfg, topic, ScanKeys(cfg, topic, recs).value, Record(p, |LogOf(logs, LogId(topic, p))|, envelope)))
  {
    var r := Record(p, |LogOf(logs, LogId(topic, p))|, envelope);
    var a, z := RecordsAppend(logs, logs', topic, count, p, envelope);
    UnkeyedInsert(a, r, z);
    ScanInsert(cfg, topic, a, r, z);
    UniqueInsert(cfg, topic, a, r, z);
    AppendKeepsBalance(logs, logs', topic, count, p, envelope, Unkeyed(RecordsOf(logs, topic, count)));
  }

  lemma {:induction false} OtherTopicKept(cfg: Config, logs: Logs, logs': Logs, id: LogId, log: seq<Envelope>,
                                          topic: Text, count: PartitionCount)
    requires TopicSound(cfg, logs, topic, count) && logs' == logs[id := log] && id.topic != topic
    ensures TopicSound(cfg, logs', topic, count) && RecordsOf(logs', topic, count) == RecordsOf(logs, topic, count)
  {
    RecordsSame(logs, logs', topic, count);
    forall p | 0 <= p < count ensures UnkeyedIn(logs', topic, p) == UnkeyedIn(logs, topic, p) {}
  }

  /** What a successful append changes, topic by topic. */
  lemma {:induction false} AppendEffect(cfg: Config, b: Broker, topic: Text, envelope: Envelope)
    requires cfg.Valid() && Sound(cfg, b) && StepPublish(cfg, b, topic, envelope, true).broker != b
    ensures topic in b.core.catalog && TopicScans(cfg, b.core, topic)
    ensures var b' := StepPublish(cfg, b, topic, envelope, true).broker;
      var count, p := b.core.catalog[topic], SelectPartition(cfg, b.core.catalog[topic], NextOf(b, topic), envelope);
      var recs, recs' := RecordsOf(b.core.logs, topic, count), RecordsOf(b'.core.logs, topic, count);
      && p < count && TopicSound(cfg, b'.core.logs, topic, count)
      && Unkeyed(recs') == Unkeyed(recs) + (if envelope.partitionKey.None? then 1 else 0)
      && ScanKeys(cfg, topic, recs') ==
         Ok(WithKey(cfg, topic, ScanKeys(cfg, topic, recs).value, Record(p, |b.core.Log(topic, p)|, envelope)))
      && b'.core.logs == b.core.logs[LogId(topic, p) := b.core.Log(topic, p) + [envelope]]
  {
    var b' := StepPublish(cfg, b, topic, envelope, true).broker;
    var count := b.core.catalog[topic];
    assert CounterSound(b, topic) && KnownSound(cfg, b.core, topic);
    if envelope.idempotencyKey.Some? { assert IndexSound(cfg, b, topic, envelope.idempotencyKey.value); }
    AppendKeepsTopic(cfg, b.core.logs, b'.core.logs, topic, count,
                     SelectPartition(cfg, count, NextOf(b, topic), envelope), envelope);
  }

  lemma PublishKeepsSound(cfg: Config, b: Broker, topic: Text, envelope: Envelope, io: bool)
    requires cfg.Valid() && Sound(cfg, b)
    ensures Sound(cfg, StepPublish(cfg, b, topic, envelope, io).broker)
  {
    var b' := StepPublish(cfg, b, topic, envelope, io).broker;
    if b' != b {
      AppendEffect(cfg, b, topic, envelope);
      var c, c', count := b.core, b'.core, b.core.catalog[topic];
      var id := LogId(topic, SelectPartition(cfg, count, NextOf(b, topic), envelope));
      forall t | t in c.catalog && t != topic
        ensures KnownSound(cfg, c', t) && RecordsOf(c'.logs, t, c.catalog[t]) == RecordsOf(c.logs, t, c.catalog[t])
      {
        assert KnownSound(cfg, c, t);
        OtherTopicKept(cfg, c.logs, c'.logs, id, c'.logs[id], t, c.catalog[t]);
      }
      forall t ensures KnownSound(cfg, c', t) {}
      assert forall t :: CounterSound(b', t) by {
        assert CounterSound(b, topic);
        CounterStep(b, b', topic, envelope.partitionKey.None?);
      }
      assert forall t, key :: IndexSound(cfg, b', t, key) by {
        IndexStep(cfg, b, b', Record(id.partition, |c.Log(topic, id.partition)|, envelope), topic);
      }
      forall i ensures Rooted(c', i) { assert Rooted(c, i); }
    }
  }

  lemma IndexStep(cfg: Config, b: Broker, b': Broker, r: Record, topic: Text)
    requires (forall t, key :: IndexSound(cfg, b, t, key)) && b'.core.catalog == b.core.catalog
    requires topic in b.core.catalog
    requires forall t :: t in b.core.catalog && t != topic ==>
      RecordsOf(b'.core.logs, t, b.core.catalog[t]) == RecordsOf(b.core.logs, t, b.core.catalog[t])
    requires KeysOf(cfg, b'.core, topic) == WithKey(cfg, topic, KeysOf(cfg, b.core, topic), r)
    requires b'.index == match r.envelope.idempotencyKey
                         case None => b.index
                         case Some(key) => b.index[IndexKey(topic, key) := Entry(cfg, topic, r)]
    ensures forall t, key :: IndexSound(cfg, b', t, key)
  {
    forall t, key ensures IndexSound(cfg, b', t, key) {
      assert IndexSound(cfg, b, t, key);
      if t != topic { assert KeysOf(cfg, b'.core, t) == KeysOf(cfg, b.core, t); }
    }
  }

  lemma CounterStep(b: Broker, b': Broker, topic: Text, unkeyed: bool)
    requires (forall t :: CounterSound(b, t)) && topic in b.core.catalog && b'.core.catalog == b.core.catalog
    requires forall t :: t in b.core.catalog && t != topic ==>
      RecordsOf(b'.core.logs, t, b.core.catalog[t]) == RecordsOf(b.core.logs, t, b.core.catalog[t])
    requires var count := b.core.catalog[topic];
      Unkeyed(RecordsOf(b'.core.logs, topic, count)) ==
      Unkeyed(RecordsOf(b.core.logs, topic, count)) + if unkeyed then 1 else 0
    requires b'.roundRobin ==
      if unkeyed then b.roundRobin[topic := Advance(NextOf(b, topic), b.core.catalog[topic])] else b.roundRobin
    ensures forall t :: CounterSound(b', t)
  {
    var count := b.core.catalog[topic];
    assert CounterSound(b, topic);
    NextCount(Unkeyed(RecordsOf(b.core.logs, topic, count)), count);
    forall t ensures CounterSound(b', t) { assert CounterSound(b, t); }
  }

  lemma {:induction false} NextCount(total: nat, count: PartitionCount)
    ensures (total + 1) % count == Advance(total % count, count)
  {
    assert total == (total / count) * count + total % count;
    NextRemainder(total / count, total % count, count);
  }

  lemma {:induction false} NextRemainder(q: nat, r: nat, count: PartitionCount)
    requires r < count
    ensures (q * count + r + 1) % count == Advance(r, count)
  {
    if r + 1 < count {
      Remainder(q, r + 1, count);
      Remainder(0, r + 1, count);
    } else {
      assert q * count + r + 1 == (q + 1) * count + 0;
      Remainder(q + 1, 0, count);
      Remainder(1, 0, count);
    }
  }

  lemma {:induction false} Remainder(q: nat, r: nat, count: PartitionCount)
    requires r < count
    ensures (q * count + r) % count == r
  {
    Quotient(q, r, count);
  }

  // ---- whole runs ----

  lemma SoundIgnoresDelivery(cfg: Config, b: Broker, b': Broker)
    requires Sound(cfg, b) && b'.core.catalog == b.core.catalog && b'.core.logs == b.core.logs
    requires b'.roundRobin == b.roundRobin && b'.index == b.index
    ensures Sound(cfg, b')
  {
    forall t ensures KnownSound(cfg, b'.core, t) { assert KnownSound(cfg, b.core, t); }
    forall t ensures CounterSound(b', t) { assert CounterSound(b, t); }
    forall t, key ensures IndexSound(cfg, b', t, key) { assert IndexSound(cfg, b, t, key); }
    forall id ensures Rooted(b'.core, id) { assert Rooted(b.core, id); }
  }

  /** Delivery commands leave topics, messages and publish state alone. */
  lemma DeliveryFrame(cfg: Config, b: Broker, cmd: Command, io: bool)
    requires !cmd.CreateTopic? && !cmd.Publish?
    ensures var b' := Step(cfg, b, cmd, io).broker;
      && b'.core.catalog == b.core.catalog && b'.core.logs == b.core.logs
      && b'.roundRobin == b.roundRobin && b'.index == b.index
  {
  }

  lemma StepKeepsSound(cfg: Config, b: Broker, cmd: Command, io: bool)
    requires cfg.Valid() && Sound(cfg, b)
    ensures Sound(cfg, Step(cfg, b, cmd, io).broker)
  {
    match cmd {
      case CreateTopic(name, partitions) => CreateKeepsSound(cfg, b, name, partitions, io);
      case Publish(topic, envelope) => PublishKeepsSound(cfg, b, topic, envelope, io);
      case _ =>
        DeliveryFrame(cfg, b, cmd, io);
        SoundIgnoresDelivery(cfg, b, Step(cfg, b, cmd, io).broker);
    }
  }

  lemma {:induction false} RunKeepsSound(cfg: Config, b: Broker, calls: seq<Call>)
    requires cfg.Valid() && Sound(cfg, b)
    ensures Sound(cfg, Run(cfg, b, calls))
  {
    if calls == [] {
    } else {
      var init, last := calls[..|calls| - 1], calls[|calls| - 1];
      RunKeepsSound(cfg, b, init);
      StepKeepsSound(cfg, Run(cfg, b, init), last.command, last.io);
    }
  }

  lemma FreshIsSound(cfg: Config)
    ensures Sound(cfg, FreshBroker())
  {
  }

  /** In a sound state no key is stored twice, and the index points at exactly the record that has it. */
  lemma {:induction false} SoundKeys(cfg: Config, b: Broker, topic: Text, key: Text)
    requires Sound(cfg, b) && topic in b.core.catalog
    ensures var recs := RecordsOf(b.core.logs, topic, b.core.catalog[topic]);
      && KeysUnique(recs)
      && (IndexKey(topic, key) in b.index <==> exists i :: 0 <= i < |recs| && HasKey(recs[i], key))
      && (forall i :: 0 <= i < |recs| && HasKey(recs[i], key) ==>
            b.index[IndexKey(topic, key)] == Entry(cfg, topic, recs[i]))
  {
    assert KnownSound(cfg, b.core, topic) && IndexSound(cfg, b, topic, key);
    var recs := RecordsOf(b.core.logs, topic, b.core.catalog[topic]);
    KeysSeen(cfg, topic, recs);
    forall i | 0 <= i < |recs| && HasKey(recs[i], key)
      ensures b.index[IndexKey(topic, key)] == Entry(cfg, topic, recs[i])
    {
      assert FirstOfKey(recs, i, key);
    }
  }

  /** A publish answered from the index: a replayed one or a conflicting one. */
  ghost predicate Duplicate(call: Call, r: Response) {
    call.command.Publish? && ((r.Published? && r.deduplicated) || (r.Failed? && r.error.IdempotencyKeyConflict?))
  }

  ghost function Responses(cfg: Config, b: Broker, calls: seq<Call>): (rs: seq<Response>)
    ensures |rs| == |calls|
  {
    if calls == [] then []
    else
      var init, last := calls[..|calls| - 1], calls[|calls| - 1];
      Responses(cfg, b, init) + [Step(cfg, Run(cfg, b, init), last.command, last.io).response]
  }

  /** The calls that are no duplicates, and their answers. */
  ghost function Originals(calls: seq<Call>, rs: seq<Response>): (seq<Call>, seq<Response>)
    requires |calls| == |rs|
  {
    if calls == [] then ([], [])
    else
      var last := |calls| - 1;
      var (kept, answers) := Originals(calls[..last], rs[..last]);
      if Duplicate(calls[last], rs[last]) then (kept, answers) else (kept + [calls[last]], answers + [rs[last]])
  }

  /** Deleting every replayed or conflicting publish from a run changes no log, no counter, no index
      entry, no delivery state, no event, and no other answer. */
  lemma {:induction false} DuplicatesLeaveNoTrace(cfg: Config, b: Broker, calls: seq<Call>)
    ensures var (kept, answers) := Originals(calls, Responses(cfg, b, calls));
      Run(cfg, b, kept) == Run(cfg, b, calls) && Responses(cfg, b, kept) == answers
  {
    if calls == [] {
    } else {
      var init, last := calls[..|calls| - 1], calls[|calls| - 1];
      DuplicatesLeaveNoTrace(cfg, b, init);
      var rs := Responses(cfg, b, init);
      var s := Step(cfg, Run(cfg, b, init), last.command, last.io);
      assert (rs + [s.response])[..|rs|] == rs;
      var kept := Originals(init, rs).0;
      if Duplicate(last, s.response) {
        DuplicateIsQuiet(cfg, Run(cfg, b, init), last);
      } else {
        assert (kept + [last])[..|kept|] == kept;
      }
    }
  }

  lemma DuplicateIsQuiet(cfg: Config, b: Broker, call: Call)
    requires Duplicate(call, Step(cfg, b, call.command, call.io).response)
    ensures Step(cfg, b, call.command, call.io).broker == b
  {
  }

  // ---- retrying a publish ----

  /** Index entries stay as they are. */
  ghost predicate Remembers(before: Index, after: Index) {
    forall key :: key in before ==> key in after && after[key] == before[key]
  }

  lemma StepRemembers(cfg: Config, b: Broker, cmd: Command, io: bool)
    ensures Remembers(b.index, Step(cfg, b, cmd, io).broker.index)
  {
    if !cmd.CreateTopic? && !cmd.Publish? { DeliveryFrame(cfg, b, cmd, io); }
  }

  lemma {:induction false} RunRemembers(cfg: Config, b: Broker, calls: seq<Call>)
    ensures Remembers(b.index, Run(cfg, b, calls).index)
    ensures forall t :: t in b.core.catalog ==> t in Run(cfg, b, calls).core.catalog
  {
    if calls == [] {
    } else {
      var init, last := calls[..|calls| - 1], calls[|calls| - 1];
      RunRemembers(cfg, b, init);
      StepRemembers(cfg, Run(cfg, b, init), last.command, last.io);
      if !last.command.CreateTopic? && !last.command.Publish? {
        DeliveryFrame(cfg, Run(cfg, b, init), last.command, last.io);
      }
    }
  }

  /** What publishing `again` does in a broker that has stored `first` under the same key: nothing but tell
      the identity of the first message, or a conflict if the intent is another. */
  ghost predicate AnswersFromIndex(cfg: Config, b: Broker, topic: Text, first: Envelope, r: Response, again: Envelope,
                                   io: bool)
    requires r.Published?
  {
    StepPublish(cfg, b, topic, again, io) ==
    Stepped(b, if cfg.fingerprint(topic, again) == cfg.fingerprint(topic, first)
               then Published(topic, r.partition, r.offset, r.messageId, true)
               else Failed(IdempotencyKeyConflict(topic)))
  }

  /** A successful keyed publish is in the index from then on. */
  lemma {:induction false} PublishedIsKnown(cfg: Config, b: Broker, topic: Text, first: Envelope, again: Envelope,
                                            later: Broker, io: bool)
    requires first.idempotencyKey.Some? && again.idempotencyKey == first.idempotencyKey
    requires StepPublish(cfg, b, topic, first, true).response.Published?
    requires Remembers(StepPublish(cfg, b, topic, first, true).broker.index, later.index) && topic in later.core.catalog
    ensures AnswersFromIndex(cfg, later, topic, first, StepPublish(cfg, b, topic, first, true).response, again, io)
  {
    var s := StepPublish(cfg, b, topic, first, true);
    var key := IndexKey(topic, first.idempotencyKey.value);
    assert key in s.broker.index && s.broker.index[key] ==
      IdempotencyRecord(cfg.fingerprint(topic, first), s.response.partition, s.response.offset, s.response.messageId);
  }
}
