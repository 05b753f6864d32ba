/** What opening a directory does, said on the fields: which events fit the state they meet and what each makes of
    it, when an open fails, and what it gives back of the session before. */
module Openings {
  import opened Common
  import opened Domain
  import opened Delivery
  import opened Replay
  import opened Publish
  import opened Durable
  import opened Commit
  import opened Reopen
  import opened Sessions
  import opened Effects

  // ---- replaying one step ----

  /** The step fits the state: a new topic, a stored message that waits, a delivery in flight exactly as logged, a
      retry that is due. */
  ghost predicate FitsState(c: Core, op: Op) {
    match op
    case OpenTopic(topic, _) => topic !in c.catalog
    case Deliver(e) =>
      && OfTopic(c, e.pos.ref.topic, e.pos.group, e.pos) && e.id !in c.delivery.pending && Waits(c.delivery, e.pos)
    case Acknowledge(id, consumer, pos) => Holds(c.delivery, id, consumer) && c.delivery.pending[id].pos == pos
    case Settle(id, consumer, pos, attempt, _, _) =>
      Holds(c.delivery, id, consumer) && c.delivery.pending[id].pos == pos && c.delivery.pending[id].attempt == attempt
    case MakeAvailable(pos, timestamp) =>
      var s, o := c.delivery.SlotOf(KeyOf(pos)), pos.ref.offset;
      o in s.retry && s.retry[o].readyAt <= timestamp
  }

  lemma StoredIffHas(c: Core, e: DeliveryEvent)
    ensures c.HasMessage(e.pos.ref) <==> OfTopic(c, e.pos.ref.topic, e.pos.group, e.pos)
  {
    if c.HasMessage(e.pos.ref) {
      assert StoredAt(c, e.pos.ref, c.Log(e.pos.ref.topic, e.pos.ref.partition)[e.pos.ref.offset]);
    }
  }

  /** Replay accepts exactly the steps that fit, and reports any other as corruption. */
  lemma {:induction false} AcceptedIffFits(c: Core, op: Op)
    requires c.Valid()
    ensures ReplayOp(c, op).Ok? <==> FitsState(c, op)
    ensures ReplayOp(c, op).Err? ==> ReplayOp(c, op).error == Corruption
  {
    match op {
      case Deliver(e) => StoredIffHas(c, e);
      case Settle(id, _, _, _, _, _) => assert c.IdHasMessage(id);
      case _ =>
    }
  }

  /** The letter that a logged dead-lettering stands for. */
  ghost predicate LetterLogged(c: Core, pos: Position, settlement: Settlement, timestamp: nat, letter: DeadLetter)
    requires settlement.DeadLettered?
  {
    && letter.pos == pos && StoredAt(c, pos.ref, letter.envelope) && letter.reason == settlement.reason
    && letter.attemptCount == settlement.attemptCount && letter.timestamp == timestamp
  }

  /** What a step that fits makes of the state. */
  ghost predicate StepMakes(c: Core, op: Op, c': Core)
    requires FitsState(c, op)
  {
    var d, d' := c.delivery, c'.delivery;
    match op
    case OpenTopic(topic, partitions) =>
      && c' == c.(catalog := c'.catalog) && (forall t :: t in c'.catalog <==> t in c.catalog || t == topic)
      && (forall t :: t in c.catalog ==> c'.catalog[t] == c.catalog[t]) && c'.catalog[topic] == partitions
    case Deliver(e) =>
      && c' == c.(delivery := d') && TakenBy(d, d', e) && (forall p :: p != e.pos ==> SameFor(d, d', p))
      && d'.pending == d.pending[e.id := d'.pending[e.id]] && d'.deadLetters == d.deadLetters
    case Acknowledge(id, _, pos) =>
      && c' == c.(delivery := d') && StandsAcked(d', pos) && OthersKept(d, d', id) && d'.deadLetters == d.deadLetters
    case Settle(id, _, pos, attempt, timestamp, settlement) =>
      && c' == c.(delivery := d') && OthersKept(d, d', id)
      && (match settlement
          case RetryScheduled(at) => StandsScheduled(d', pos, at, attempt) && d'.deadLetters == d.deadLetters
          case DeadLettered(_, _) =>
            && StandsDead(d', pos) && |d'.deadLetters| == |d.deadLetters| + 1 && d.deadLetters <= d'.deadLetters
            && LetterLogged(c, pos, settlement, timestamp, d'.deadLetters[|d.deadLetters|]))
    case MakeAvailable(pos, _) =>
      && c' == c.(delivery := d') && Waits(d', pos) && AttemptsSoFar(d', pos) == AttemptsSoFar(d, pos)
      && (forall p :: p != pos ==> SameFor(d, d', p))
      && d'.pending == d.pending && d'.deadLetters == d.deadLetters
  }

  /** Replaying a step does to the messages what the command that logged it did. */
  lemma {:induction false} FittingStepMakes(c: Core, op: Op)
    requires c.Valid() && FitsState(c, op)
    ensures ReplayOp(c, op).Ok? && StepMakes(c, op, ReplayOp(c, op).value)
  {
    AcceptedIffFits(c, op);
    match op {
      case OpenTopic(_, _) =>
      case Deliver(e) =>
        ConsumedOne(c.delivery, e, e.pos);
        forall p ensures p != e.pos ==> SameFor(c.delivery, c.delivery.Consumed(e), p) {
          ConsumedOne(c.delivery, e, p);
        }
      case Acknowledge(id, _, _) => AckedStanding(c.delivery, id);
      case Settle(id, _, pos, _, timestamp, settlement) =>
        assert c.IdHasMessage(id);
        match settlement {
          case RetryScheduled(at) => ScheduledStanding(c.delivery, id, at);
          case DeadLettered(_, _) =>
            DeadStanding(c.delivery, id, settlement, LetterFor(c, pos, settlement, timestamp).value.value);
        }
      case MakeAvailable(pos, timestamp) => MadeAvailable(c.delivery, pos, timestamp);
    }
  }

  lemma MadeAvailable(d: DeliveryState, pos: Position, timestamp: nat)
    requires d.Valid() && d.Readied(pos, timestamp).error == None
    ensures var d' := d.Readied(pos, timestamp).state;
      && Waits(d', pos) && AttemptsSoFar(d', pos) == AttemptsSoFar(d, pos)
      && (forall p :: p != pos ==> SameFor(d, d', p))
  {
    var d' := d.Readied(pos, timestamp).state;
    assert d.SlotValid(KeyOf(pos));
    forall p | p != pos ensures SameFor(d, d', p) { assert At(KeyOf(p), p.ref.offset) == p; }
  }

  // ---- opening ----

  /** The message stands as before, but is no longer in flight. */
  ghost predicate ReleasedFor(d: DeliveryState, d': DeliveryState, pos: Position) {
    var s, s', o := d.SlotOf(KeyOf(pos)), d'.SlotOf(KeyOf(pos)), pos.ref.offset;
    && o !in s'.pending && (o in s'.acked <==> o in s.acked) && (o in s'.dead <==> o in s.dead)
    && (o in s'.retry <==> o in s.retry) && (o in s.retry ==> s'.retry[o] == s.retry[o])
    && (o in s'.attempts <==> o in s.attempts) && (o in s.attempts ==> s'.attempts[o] == s.attempts[o])
  }

  ghost predicate GivesBack(c: Core, back: Core) {
    && back.catalog == c.catalog && back.logs == c.logs && back.delivery.deadLetters == c.delivery.deadLetters
    && back.delivery.pending == map[] && forall pos :: ReleasedFor(c.delivery, back.delivery, pos)
  }

  lemma ReleaseGivesBack(c: Core)
    requires c.Valid()
    ensures GivesBack(c, c.Release(c.delivery.pending.Keys))
  {
    var d := c.delivery;
    assert d.pending - d.pending.Keys == map[];
    forall pos ensures ReleasedFor(d, d.Release(d.pending.Keys), pos) {
      ReleasedSlot(d, d.pending.Keys, KeyOf(pos));
      assert d.SlotLinked(KeyOf(pos), pos.ref.offset);
    }
  }

  /** An open that succeeds gives back everything the session ended with - topics, messages, what each group has
      acknowledged, given up, scheduled and how often it was delivered, dead letters, index and counters - and
      has nothing in flight. */
  lemma {:induction false} ReopenEffect(cfg: Config, used: set<(Position, nat)>, sessions: seq<seq<Call>>,
                                        last: seq<Call>)
    requires cfg.Valid() && Distinct(cfg, used) && SessionsUse(cfg, sessions, used)
    requires Reopened(cfg, sessions).Ok? && AllUse(cfg, Reopened(cfg, sessions).value, last, used)
    requires Reopened(cfg, sessions + [last]).Ok?
    ensures var live, back := Run(cfg, Reopened(cfg, sessions).value, last), Reopened(cfg, sessions + [last]).value;
      && GivesBack(live.core, back.core) && back.events == live.events
      && back.index == live.index && back.roundRobin == live.roundRobin
  {
    var b := Reopened(cfg, sessions).value;
    ReopenedChain(cfg, used, sessions);
    RecoveryIsLiveStateReleased(cfg, used, sessions, last);
    SessionOutcome(cfg, used, b, Recovered(b).value.delivery.pending.Keys, last);
    OneMoreSession(cfg, sessions, last);
    ReopenStep(cfg, used, b, last);
    DriftIsLive(cfg, used, Run(cfg, b, last), Recovered(b).value.delivery.pending.Keys);
    ReleaseGivesBack(Run(cfg, b, last).core);
  }

  ghost predicate AnyClash(cfg: Config, c: Core) {
    exists t, i: nat, j: nat :: t in c.catalog && Clash(cfg, t, StoredOf(c, t), i, j)
  }

  /** The record is the earliest stored under the key. */
  ghost predicate EarliestOf(c: Core, topic: Text, key: Text, r: Record)
    requires topic in c.catalog
  {
    && r in StoredOf(c, topic) && HasKey(r, key)
    && forall q :: q in StoredOf(c, topic) && HasKey(q, key) ==> q == r || Before(r, q)
  }

  /** The index knows exactly the stored keys, each with its earliest message, and the counters go on where the
      unkeyed messages stop. */
  ghost predicate IndexesStored(cfg: Config, c: Core, b: Broker) {
    && (forall t, key :: IndexKey(t, key) in b.index <==>
          t in c.catalog && exists r :: r in StoredOf(c, t) && HasKey(r, key))
    && (forall t, key, r :: t in c.catalog && EarliestOf(c, t, key, r) && IndexKey(t, key) in b.index ==>
          b.index[IndexKey(t, key)] ==
          IdempotencyRecord(cfg.fingerprint(t, r.envelope), r.partition, r.offset, r.envelope.id))
    && (forall t :: t in c.catalog ==>
          t in b.roundRobin && b.roundRobin[t] == Unkeyed(StoredOf(c, t)) % c.catalog[t])
  }

  /** Whatever a directory holds: it opens exactly if its events replay and no topic holds two messages of one key
      with different intents; and then it opens with the replayed state, nothing in flight, and the keys and counters
      of what is stored. */
  lemma {:induction false} OpenOnAnything(cfg: Config, logs: Logs, events: seq<Event>)
    ensures var replayed, r := PlainReplay(logs, events), Open(cfg, logs, events);
      && (replayed.Err? ==> r == Err(replayed.error))
      && (replayed.Ok? && AnyClash(cfg, replayed.value) ==> r == Err(Corruption))
      && (replayed.Ok? && !AnyClash(cfg, replayed.value) ==>
            && r.Ok? && GivesBack(replayed.value, r.value.core) && r.value.events == events
            && IndexesStored(cfg, replayed.value, r.value))
  {
    if PlainReplay(logs, events).Ok? {
      var c := PlainReplay(logs, events).value;
      RecoveredStateIsValid(logs, events);
      ReleaseGivesBack(c);
      ScansIffNoClash(cfg, c);
      if !AnyClash(cfg, c) { OpenIndexes(cfg, c, Open(cfg, logs, events).value); }
    }
  }

  lemma {:induction false} ScansIffNoClash(cfg: Config, c: Core)
    ensures (forall t :: TopicScans(cfg, c, t)) <==> !AnyClash(cfg, c)
  {
    forall t | t in c.catalog
      ensures TopicScans(cfg, c, t) <==> !exists i: nat, j: nat :: Clash(cfg, t, StoredOf(c, t), i, j)
    {
      ScanFailsIffClash(cfg, t, StoredOf(c, t));
    }
  }

  lemma {:induction false} OpenIndexes(cfg: Config, c: Core, b: Broker)
    requires (forall t :: TopicScans(cfg, c, t)) && b.index == RecoveredIndex(cfg, c)
    requires b.roundRobin == RecoveredRoundRobin(c)
    ensures IndexesStored(cfg, c, b)
  {
    forall t, key
      ensures IndexKey(t, key) in b.index <==> t in c.catalog && exists r :: r in StoredOf(c, t) && HasKey(r, key)
    {
      if t in c.catalog { KeyScanned(cfg, c, t, key); }
    }
    forall t, key, r | t in c.catalog && EarliestOf(c, t, key, r) && IndexKey(t, key) in b.index
      ensures b.index[IndexKey(t, key)] ==
              IdempotencyRecord(cfg.fingerprint(t, r.envelope), r.partition, r.offset, r.envelope.id)
    {
      EarliestScanned(cfg, c, t, key, r);
    }
  }

  lemma {:induction false} KeyScanned(cfg: Config, c: Core, t: Text, key: Text)
    requires t in c.catalog && TopicScans(cfg, c, t)
    ensures key in KeysOf(cfg, c, t) <==> exists r :: r in StoredOf(c, t) && HasKey(r, key)
  {
    var recs := StoredOf(c, t);
    KeysPresent(cfg, t, recs);
    if r :| r in recs && HasKey(r, key) {
      var i :| 0 <= i < |recs| && recs[i] == r;
      assert HasKey(recs[i], key);
    }
  }

  lemma {:induction false} EarliestScanned(cfg: Config, c: Core, t: Text, key: Text, r: Record)
    requires t in c.catalog && TopicScans(cfg, c, t) && EarliestOf(c, t, key, r)
    ensures key in KeysOf(cfg, c, t) && KeysOf(cfg, c, t)[key] == Entry(cfg, t, r)
  {
    var recs := StoredOf(c, t);
    var i :| 0 <= i < |recs| && recs[i] == r;
    forall j | 0 <= j < i ensures !HasKey(recs[j], key) {
      CanonicalOrder(c.logs, t, c.catalog[t], j, i);
      assert recs[j] in recs;
    }
    assert FirstOfKey(recs, i, key);
    KeysSeen(cfg, t, recs);
  }
}
