/** Scanning the records of a topic in canonical order, and what a consume command has selected when the
    scan has come to some record. */
module Scanning {
  import opened Common
  import opened Domain
  import opened Delivery
  import opened Replay
  import opened Publish
  import opened Durable

  /** The deliveries a consume command makes, with the messages it returns. */
  function Selecting(cfg: Config, c: Core, cmd: Command): Result<(seq<DeliveryEvent>, seq<ConsumedMessage>), Error>
    requires cmd.Consume? && cmd.topic in c.catalog
  {
    var recs := Selection(c, cmd.group, cmd.topic, cmd.maxMessages);
    SelectedSoFar(cfg, c.delivery, cmd, recs)
  }

  function SelectedSoFar(cfg: Config, d: DeliveryState, cmd: Command, recs: seq<Record>)
    : Result<(seq<DeliveryEvent>, seq<ConsumedMessage>), Error>
    requires cmd.Consume?
  {
    if recs == [] then Ok(([], []))
    else
      var (lease, field) := LeaseOf(cfg, cmd.lease);
      match AddMillis(cmd.timestamp, lease, field)
      case Err(e) => Err(e)
      case Ok(expires) =>
        var es := DeliveriesFor(cfg, d, cmd.topic, cmd.group, cmd.consumer, cmd.timestamp, expires, recs);
        Ok((es, Messages(es, recs)))
  }

  lemma {:induction false} AvailableConcat(d: DeliveryState, group: Text, topic: Text, a: seq<Record>, b: seq<Record>)
    ensures AvailableRecords(d, group, topic, a + b) ==
            AvailableRecords(d, group, topic, a) + AvailableRecords(d, group, topic, b)
    decreases |b|
  {
    if b == [] {
      assert a + b == a;
    } else {
      assert (a + b)[..|a + b| - 1] == a + b[..|b| - 1];
      AvailableConcat(d, group, topic, a, b[..|b| - 1]);
    }
  }

  /** A scan of `all` that has seen the records `seen` has picked those of them that are available. */
  ghost predicate Picked(d: DeliveryState, group: Text, topic: Text, all: seq<Record>, seen: seq<Record>,
                         picked: seq<Record>) {
    seen <= all && picked == AvailableRecords(d, group, topic, seen)
  }

  /** However the scan ends, with enough picked or with nothing left to see, it has picked the right ones. */
  lemma PickedAll(d: DeliveryState, group: Text, topic: Text, all: seq<Record>, seen: seq<Record>,
                  picked: seq<Record>, max: nat)
    requires Picked(d, group, topic, all, seen, picked)
    requires |picked| == max || (|picked| < max && seen == all)
    ensures picked == Take(AvailableRecords(d, group, topic, all), max)
  {
    AvailableConcat(d, group, topic, seen, all[|seen|..]);
    assert all == seen + all[|seen|..];
  }

  lemma PickedStep(d: DeliveryState, group: Text, topic: Text, all: seq<Record>, seen: seq<Record>,
                   picked: seq<Record>, r: Record)
    requires Picked(d, group, topic, all, seen, picked) && seen + [r] <= all
    ensures Picked(d, group, topic, all, seen + [r], if Deliverable(d, group, topic, r) then picked + [r] else picked)
  {
    assert (seen + [r])[..|seen|] == seen;
  }

  /** The records before offset `i` of partition `p`, in canonical order. */
  function RecordsBefore(logs: Logs, topic: Text, p: nat, i: nat): seq<Record>
    requires i <= |LogOf(logs, LogId(topic, p))|
  {
    RecordsOf(logs, topic, p) + PartitionRecords(LogOf(logs, LogId(topic, p)), p)[..i]
  }

  lemma {:induction false} RecordsPrefix(logs: Logs, topic: Text, p: nat, count: nat)
    requires p <= count
    ensures RecordsOf(logs, topic, p) <= RecordsOf(logs, topic, count)
  {
    if p < count { RecordsPrefix(logs, topic, p, count - 1); }
  }

  lemma TakeNext(before: seq<Record>, all: seq<Record>, after: seq<Record>, i: nat)
    requires i < |all|
    ensures before + all[..i + 1] == before + all[..i] + [all[i]]
    ensures before + all[..i] + [all[i]] <= before + all + after
  {
  }

  lemma NextRecord(logs: Logs, topic: Text, count: nat, p: nat, i: nat)
    requires p < count && i < |LogOf(logs, LogId(topic, p))|
    ensures RecordsBefore(logs, topic, p, i + 1) ==
            RecordsBefore(logs, topic, p, i) + [Record(p, i, LogOf(logs, LogId(topic, p))[i])]
    ensures RecordsBefore(logs, topic, p, i) + [Record(p, i, LogOf(logs, LogId(topic, p))[i])] <=
            RecordsOf(logs, topic, count)
  {
    RecordsPrefix(logs, topic, p + 1, count);
    var upTo, all := RecordsOf(logs, topic, p + 1), RecordsOf(logs, topic, count);
    TakeNext(RecordsOf(logs, topic, p), PartitionRecords(LogOf(logs, LogId(topic, p)), p), all[|upTo|..], i);
    assert all == upTo + all[|upTo|..];
  }

  lemma NextPartition(logs: Logs, topic: Text, p: nat)
    ensures RecordsBefore(logs, topic, p, 0) == RecordsOf(logs, topic, p)
    ensures RecordsBefore(logs, topic, p, |LogOf(logs, LogId(topic, p))|) == RecordsOf(logs, topic, p + 1)
  {
    var all := PartitionRecords(LogOf(logs, LogId(topic, p)), p);
    assert all[..|all|] == all;
  }

  /** After the records `seen` the scan has selected `picked`, and made these deliveries and messages of them. */
  ghost predicate SelectedUpTo(cfg: Config, c: Core, cmd: Command, seen: seq<Record>, picked: seq<Record>,
                               es: seq<DeliveryEvent>, messages: seq<ConsumedMessage>)
    requires cmd.Consume? && cmd.topic in c.catalog
  {
    && Picked(c.delivery, cmd.group, cmd.topic, RecordsOf(c.logs, cmd.topic, c.catalog[cmd.topic]), seen, picked)
    && |es| == |picked| <= cmd.maxMessages
    && SelectedSoFar(cfg, c.delivery, cmd, picked) == Ok((es, messages))
  }

  lemma SelectSkips(cfg: Config, c: Core, cmd: Command, seen: seq<Record>, picked: seq<Record>,
                    es: seq<DeliveryEvent>, messages: seq<ConsumedMessage>, r: Record)
    requires cmd.Consume? && cmd.topic in c.catalog && SelectedUpTo(cfg, c, cmd, seen, picked, es, messages)
    requires seen + [r] <= RecordsOf(c.logs, cmd.topic, c.catalog[cmd.topic])
    requires !Deliverable(c.delivery, cmd.group, cmd.topic, r)
    ensures SelectedUpTo(cfg, c, cmd, seen + [r], picked, es, messages)
  {
    PickedStep(c.delivery, cmd.group, cmd.topic, RecordsOf(c.logs, cmd.topic, c.catalog[cmd.topic]), seen, picked, r);
  }

  lemma SelectTakes(cfg: Config, c: Core, cmd: Command, seen: seq<Record>, picked: seq<Record>,
                    es: seq<DeliveryEvent>, messages: seq<ConsumedMessage>, r: Record, expires: nat)
    requires cmd.Consume? && cmd.topic in c.catalog && SelectedUpTo(cfg, c, cmd, seen, picked, es, messages)
    requires seen + [r] <= RecordsOf(c.logs, cmd.topic, c.catalog[cmd.topic])
    requires Deliverable(c.delivery, cmd.group, cmd.topic, r) && |es| < cmd.maxMessages
    requires AddMillis(cmd.timestamp, LeaseOf(cfg, cmd.lease).0, LeaseOf(cfg, cmd.lease).1) == Ok(expires)
    ensures var e := DeliveryFor(cfg, c.delivery, cmd.topic, cmd.group, cmd.consumer, cmd.timestamp, expires, r);
      SelectedUpTo(cfg, c, cmd, seen + [r], picked + [r], es + [e], messages + [ConsumedMessage(e, r.envelope)])
  {
    var e := DeliveryFor(cfg, c.delivery, cmd.topic, cmd.group, cmd.consumer, cmd.timestamp, expires, r);
    PickedStep(c.delivery, cmd.group, cmd.topic, RecordsOf(c.logs, cmd.topic, c.catalog[cmd.topic]), seen, picked, r);
    var es' := DeliveriesFor(cfg, c.delivery, cmd.topic, cmd.group, cmd.consumer, cmd.timestamp, expires, picked + [r]);
    assert es' == es + [e];
    assert Messages(es', picked + [r]) == messages + [ConsumedMessage(e, r.envelope)];
  }

  /** Once a message is selected whose lease would overflow, the whole selection fails. */
  lemma SelectionFails(cfg: Config, c: Core, cmd: Command, seen: seq<Record>, picked: seq<Record>)
    requires cmd.Consume? && cmd.topic in c.catalog
    requires Picked(c.delivery, cmd.group, cmd.topic, RecordsOf(c.logs, cmd.topic, c.catalog[cmd.topic]), seen, picked)
    requires 0 < |picked| <= cmd.maxMessages
    requires AddMillis(cmd.timestamp, LeaseOf(cfg, cmd.lease).0, LeaseOf(cfg, cmd.lease).1).Err?
    ensures Selecting(cfg, c, cmd) ==
            Err(AddMillis(cmd.timestamp, LeaseOf(cfg, cmd.lease).0, LeaseOf(cfg, cmd.lease).1).error)
  {
    var all := RecordsOf(c.logs, cmd.topic, c.catalog[cmd.topic]);
    AvailableConcat(c.delivery, cmd.group, cmd.topic, seen, all[|seen|..]);
    assert all == seen + all[|seen|..];
  }
}
