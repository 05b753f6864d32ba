/** Publish state: the idempotency index and the round-robin counter of each topic, both of which
    recovery rebuilds from the message logs alone. */
module Publish {
  import opened Common
  import opened Domain
  import opened Replay

  datatype Record = Record(partition: nat, offset: nat, envelope: Envelope)

  datatype IdempotencyRecord = IdempotencyRecord(fingerprint: Text, partition: nat, offset: nat, messageId: Text)

  datatype IndexKey = IndexKey(topic: Text, key: Text)

  type Index = map<IndexKey, IdempotencyRecord>

  function PartitionRecords(log: seq<Envelope>, partition: nat): seq<Record> {
    seq(|log|, i requires 0 <= i < |log| => Record(partition, i, log[i]))
  }

  /** The retained records of the first `count` partitions in canonical order: by partition, then offset. */
  function RecordsOf(logs: Logs, topic: Text, count: nat): seq<Record> {
    if count == 0 then []
    else RecordsOf(logs, topic, count - 1) + PartitionRecords(LogOf(logs, LogId(topic, count - 1)), count - 1)
  }

  function Unkeyed(recs: seq<Record>): nat {
    if recs == [] then 0
    else Unkeyed(recs[..|recs| - 1]) + (if recs[|recs| - 1].envelope.partitionKey.None? then 1 else 0)
  }

  function Entry(cfg: Config, topic: Text, r: Record): IdempotencyRecord {
    IdempotencyRecord(cfg.fingerprint(topic, r.envelope), r.partition, r.offset, r.envelope.id)
  }

  /** One record against the keys seen before it: the first record of a key stays, an equivalent
      one is ignored and a conflicting one is corruption. */
  function Note(cfg: Config, topic: Text, seen: map<Text, IdempotencyRecord>, r: Record)
    : Result<map<Text, IdempotencyRecord>, Error>
  {
    match r.envelope.idempotencyKey
    case None => Ok(seen)
    case Some(key) =>
      var entry := Entry(cfg, topic, r);
      if key !in seen then Ok(seen[key := entry])
      else if seen[key].fingerprint == entry.fingerprint then Ok(seen)
      else Err(Corruption)
  }

  function ScanKeys(cfg: Config, topic: Text, recs: seq<Record>): Result<map<Text, IdempotencyRecord>, Error> {
    if recs == [] then Ok(map[])
    else
      match ScanKeys(cfg, topic, recs[..|recs| - 1])
      case Err(e) => Err(e)
      case Ok(seen) => Note(cfg, topic, seen, recs[|recs| - 1])
  }

  ghost predicate HasKey(r: Record, key: Text) {
    r.envelope.idempotencyKey == Some(key)
  }

  ghost predicate ShareKey(recs: seq<Record>, i: nat, j: nat) {
    i < |recs| && j < |recs|
    && recs[i].envelope.idempotencyKey.Some? && HasKey(recs[j], recs[i].envelope.idempotencyKey.value)
  }

  /** Two records of one key carry different publish intents. */
  ghost predicate Clash(cfg: Config, topic: Text, recs: seq<Record>, i: nat, j: nat) {
    ShareKey(recs, i, j) && cfg.fingerprint(topic, recs[i].envelope) != cfg.fingerprint(topic, recs[j].envelope)
  }

  ghost predicate FirstOfKey(recs: seq<Record>, i: nat, key: Text) {
    i < |recs| && HasKey(recs[i], key) && forall j :: 0 <= j < i ==> !HasKey(recs[j], key)
  }

  ghost function UnkeyedAt(recs: seq<Record>): set<nat> {
    set i: nat | i < |recs| && recs[i].envelope.partitionKey.None?
  }

  /** The number of records without a partition key. */
  lemma {:induction false} UnkeyedCounts(recs: seq<Record>)
    ensures Unkeyed(recs) == |UnkeyedAt(recs)|
  {
    if recs == [] {
      assert UnkeyedAt(recs) == {};
    } else {
      var init, last := recs[..|recs| - 1], |recs| - 1;
      UnkeyedCounts(init);
      var before := UnkeyedAt(init);
      assert last !in before;
      assert UnkeyedAt(recs) == if recs[last].envelope.partitionKey.None? then before + {last} else before;
    }
  }

  lemma {:induction false} KeysPresent(cfg: Config, topic: Text, recs: seq<Record>)
    requires ScanKeys(cfg, topic, recs).Ok?
    ensures forall key :: key in ScanKeys(cfg, topic, recs).value <==>
              exists i :: 0 <= i < |recs| && HasKey(recs[i], key)
  {
    if recs == [] {
    } else {
      var init, last := recs[..|recs| - 1], |recs| - 1;
      KeysPresent(cfg, topic, init);
      var seen, seen' := ScanKeys(cfg, topic, init).value, ScanKeys(cfg, topic, recs).value;
      forall key ensures key in seen' <==> exists i :: 0 <= i < |recs| && HasKey(recs[i], key) {
        if key in seen {
          var i :| 0 <= i < |init| && HasKey(init[i], key);
          assert HasKey(recs[i], key);
        }
      }
    }
  }

  lemma {:induction false} FirstsKept(cfg: Config, topic: Text, recs: seq<Record>, i: nat, key: Text)
    requires ScanKeys(cfg, topic, recs).Ok? && FirstOfKey(recs, i, key)
    ensures var seen := ScanKeys(cfg, topic, recs).value;
      key in seen && seen[key] == Entry(cfg, topic, recs[i])
  {
    var init := recs[..|recs| - 1];
    KeysPresent(cfg, topic, init);
    if i < |init| {
      assert FirstOfKey(init, i, key);
      FirstsKept(cfg, topic, init, i, key);
    }
  }

  lemma {:induction false} IntentsAgree(cfg: Config, topic: Text, recs: seq<Record>, i: nat, key: Text)
    requires ScanKeys(cfg, topic, recs).Ok? && i < |recs| && HasKey(recs[i], key)
    ensures var seen := ScanKeys(cfg, topic, recs).value;
      key in seen && seen[key].fingerprint == cfg.fingerprint(topic, recs[i].envelope)
  {
    var init := recs[..|recs| - 1];
    if i < |init| {
      IntentsAgree(cfg, topic, init, i, key);
    }
  }

  lemma {:induction false} KeysSeen(cfg: Config, topic: Text, recs: seq<Record>)
    requires ScanKeys(cfg, topic, recs).Ok?
    ensures var seen := ScanKeys(cfg, topic, recs).value;
      && (forall key :: key in seen <==> exists i :: 0 <= i < |recs| && HasKey(recs[i], key))
      && (forall i: nat, key :: FirstOfKey(recs, i, key) ==> seen[key] == Entry(cfg, topic, recs[i]))
      && (forall i, key :: 0 <= i < |recs| && HasKey(recs[i], key) ==>
            key in seen && seen[key].fingerprint == cfg.fingerprint(topic, recs[i].envelope))
  {
    var seen := ScanKeys(cfg, topic, recs).value;
    KeysPresent(cfg, topic, recs);
    forall i: nat, key | FirstOfKey(recs, i, key) ensures seen[key] == Entry(cfg, topic, recs[i]) {
      FirstsKept(cfg, topic, recs, i, key);
    }
    forall i, key | 0 <= i < |recs| && HasKey(recs[i], key)
      ensures key in seen && seen[key].fingerprint == cfg.fingerprint(topic, recs[i].envelope)
    {
      IntentsAgree(cfg, topic, recs, i, key);
    }
  }

  /** The recovery scan of any log fails exactly when two records of one key conflict. */
  lemma {:induction false} ScanFailsIffClash(cfg: Config, topic: Text, recs: seq<Record>)
    ensures ScanKeys(cfg, topic, recs).Err? <==> exists i: nat, j: nat :: Clash(cfg, topic, recs, i, j)
    ensures ScanKeys(cfg, topic, recs).Err? ==> ScanKeys(cfg, topic, recs).error == Corruption
  {
    if recs == [] {
    } else {
      var init, last := recs[..|recs| - 1], |recs| - 1;
      ScanFailsIffClash(cfg, topic, init);
      if ScanKeys(cfg, topic, init).Err? {
        var i: nat, j: nat :| Clash(cfg, topic, init, i, j);
        assert Clash(cfg, topic, recs, i, j);
      } else {
        KeysSeen(cfg, topic, init);
        if ScanKeys(cfg, topic, recs).Err? {
          var key := recs[last].envelope.idempotencyKey.value;
          var i :| 0 <= i < |init| && HasKey(init[i], key);
          assert Clash(cfg, topic, recs, i, last);
        } else {
          KeysSeen(cfg, topic, recs);
          forall i: nat, j: nat | ShareKey(recs, i, j) ensures !Clash(cfg, topic, recs, i, j) {
            var key := recs[i].envelope.idempotencyKey.value;
            assert HasKey(recs[i], key) && HasKey(recs[j], key);
            var intent := ScanKeys(cfg, topic, recs).value[key].fingerprint;
            assert intent == cfg.fingerprint(topic, recs[i].envelope);
            assert intent == cfg.fingerprint(topic, recs[j].envelope);
          }
        }
      }
    }
  }

  /** ... and otherwise finds the earliest record of every key, in (partition, offset) order. */
  lemma ScanFindsLeast(cfg: Config, logs: Logs, topic: Text, count: nat, key: Text)
    requires ScanKeys(cfg, topic, RecordsOf(logs, topic, count)).Ok?
    ensures var recs := RecordsOf(logs, topic, count);
      var seen := ScanKeys(cfg, topic, recs).value;
      key in seen ==>
        exists i: nat :: FirstOfKey(recs, i, key) && seen[key] == Entry(cfg, topic, recs[i])
          && forall j :: 0 <= j < |recs| && HasKey(recs[j], key) ==> Before(recs[i], recs[j]) || i == j
  {
    var recs := RecordsOf(logs, topic, count);
    var seen := ScanKeys(cfg, topic, recs).value;
    KeysSeen(cfg, topic, recs);
    if key in seen {
      var k :| 0 <= k < |recs| && HasKey(recs[k], key);
      var i := FirstIndex(recs, k, key);
      forall j | 0 <= j < |recs| && HasKey(recs[j], key) ensures Before(recs[i], recs[j]) || i == j {
        if i < j { CanonicalOrder(logs, topic, count, i, j); }
      }
    }
  }

  ghost function FirstIndex(recs: seq<Record>, k: nat, key: Text): (i: nat)
    requires k < |recs| && HasKey(recs[k], key)
    ensures FirstOfKey(recs, i, key)
    decreases k
  {
    if j :| 0 <= j < k && HasKey(recs[j], key) then FirstIndex(recs, j, key) else k
  }

  ghost predicate Before(a: Record, b: Record) {
    a.partition < b.partition || (a.partition == b.partition && a.offset < b.offset)
  }

  lemma {:induction false} RecordAt(logs: Logs, topic: Text, count: nat, i: nat)
    requires i < |RecordsOf(logs, topic, count)|
    ensures var r := RecordsOf(logs, topic, count)[i];
      && r.partition < count && r.offset < |LogOf(logs, LogId(topic, r.partition))|
      && r.envelope == LogOf(logs, LogId(topic, r.partition))[r.offset]
  {
    if i < |RecordsOf(logs, topic, count - 1)| {
      RecordAt(logs, topic, count - 1, i);
    }
  }

  /** Every stored message is among the records. */
  lemma {:induction false} RecordListed(logs: Logs, topic: Text, count: nat, p: nat, o: nat)
    requires p < count && o < |LogOf(logs, LogId(topic, p))|
    ensures Record(p, o, LogOf(logs, LogId(topic, p))[o]) in RecordsOf(logs, topic, count)
  {
    var here := PartitionRecords(LogOf(logs, LogId(topic, count - 1)), count - 1);
    if p == count - 1 {
      assert here[o] == Record(p, o, LogOf(logs, LogId(topic, p))[o]);
      assert here[o] in here;
    } else {
      RecordListed(logs, topic, count - 1, p, o);
    }
  }

  lemma {:induction false} CanonicalOrder(logs: Logs, topic: Text, count: nat, i: nat, j: nat)
    requires i < j < |RecordsOf(logs, topic, count)|
    ensures Before(RecordsOf(logs, topic, count)[i], RecordsOf(logs, topic, count)[j])
  {
    var init := RecordsOf(logs, topic, count - 1);
    if j < |init| {
      CanonicalOrder(logs, topic, count - 1, i, j);
    } else if i < |init| {
      RecordAt(logs, topic, count - 1, i);
    }
  }
}
