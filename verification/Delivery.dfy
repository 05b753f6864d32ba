/** Delivery state shared by all consumer groups, the transitions every command and every replayed
    event is made of, and the invariant linking its two indexes of in-flight deliveries. */
module Delivery {
  import opened Common
  import opened Domain
  import opened GroupState

  datatype Applied = Applied(state: DeliveryState, error: Option<Error>)

  datatype DeliveryState = DeliveryState(
    groups: map<SlotKey, Slot>,
    pending: map<Text, PendingDelivery>,
    deadLetters: seq<DeadLetter>)
  {
    /** A missing slot reads as the default one, as `entry().or_default()` does. */
    function SlotOf(key: SlotKey): Slot {
      if key in groups then groups[key] else EMPTY_SLOT
    }

    ghost function Consumed(e: DeliveryEvent): DeliveryState {
      var key := KeyOf(e.pos);
      DeliveryState(
        groups[key := SlotOf(key).Pend(e.pos.ref.offset, e.id, e.attempt)],
        pending[e.id := PendingDelivery(e.pos, e.consumer, e.attempt, e.leaseExpiresAt)],
        deadLetters)
    }

    ghost function Acked(id: Text, pos: Position): DeliveryState {
      var key, o := KeyOf(pos), pos.ref.offset;
      DeliveryState(groups[key := SlotOf(key).Unpend(o).Acknowledge(o)], pending - {id}, deadLetters)
    }

    /** `apply_pending_outcome`: a dead-letter outcome without an entry is reported after the fact. */
    ghost function Settled(id: Text, pos: Position, settlement: Settlement, letter: Option<DeadLetter>): Applied {
      var key, o := KeyOf(pos), pos.ref.offset;
      var slot := SlotOf(key).Unpend(o);
      match settlement
      case RetryScheduled(readyAt) =>
        Applied(DeliveryState(groups[key := slot.ScheduleRetry(o, RetryEntry(pos.ref, readyAt))],
                              pending - {id}, deadLetters),
                None)
      case DeadLettered(_, _) =>
        match letter
        case Some(entry) =>
          Applied(DeliveryState(groups[key := slot.Bury(o)], pending - {id}, deadLetters + [entry]), None)
        case None =>
          Applied(DeliveryState(groups[key := slot.Bury(o)], pending - {id}, deadLetters), Some(Corruption))
    }

    /** `apply_retry_available`: only a scheduled retry whose time has come can be made available. */
    ghost function Readied(pos: Position, timestamp: nat): Applied {
      var key, o := KeyOf(pos), pos.ref.offset;
      var slot := SlotOf(key);
      if o !in slot.retry || slot.retry[o].readyAt > timestamp then
        Applied(this.(groups := groups[key := slot]), Some(Corruption))
      else
        Applied(this.(groups := groups[key := slot.MakeAvailable(o)]), None)
    }

    ghost predicate SlotValid(k: SlotKey) {
      SlotOf(k).Valid()
    }

    /** An offset a slot holds pending is in the global map under that id, at the same attempt. */
    ghost predicate SlotLinked(k: SlotKey, o: nat) {
      var slot := SlotOf(k);
      o in slot.pending ==>
        slot.pending[o] in pending
        && pending[slot.pending[o]].pos == At(k, o)
        && o in slot.attempts && slot.attempts[o] == pending[slot.pending[o]].attempt
    }

    /** An id in the global map is the one its position's slot holds pending. */
    ghost predicate IdLinked(id: Text) {
      id in pending ==>
        var pos := pending[id].pos;
        var slot := SlotOf(KeyOf(pos));
        pos.ref.offset in slot.pending && slot.pending[pos.ref.offset] == id
    }

    ghost predicate RetryLinked(k: SlotKey, o: nat) {
      o in SlotOf(k).retry ==> SlotOf(k).retry[o].ref == At(k, o).ref
    }

    ghost predicate IsDead(pos: Position) {
      pos.ref.offset in SlotOf(KeyOf(pos)).dead
    }

    ghost predicate HasLetter(pos: Position) {
      exists i :: 0 <= i < |deadLetters| && deadLetters[i].pos == pos
    }

    /** The dead-letter list has exactly one entry for each dead-lettered offset of each group. */
    ghost predicate LettersMatch() {
      && (forall i :: 0 <= i < |deadLetters| ==> IsDead(deadLetters[i].pos))
      && (forall i, j :: 0 <= i < j < |deadLetters| ==> deadLetters[i].pos != deadLetters[j].pos)
      && (forall pos :: IsDead(pos) ==> HasLetter(pos))
    }

    ghost predicate Valid() {
      && (forall k :: SlotValid(k))
      && (forall k, o :: SlotLinked(k, o)) && (forall id :: IdLinked(id))
      && (forall k, o :: RetryLinked(k, o))
      && LettersMatch()
    }

    /** The state with the deliveries `ids` no longer in flight. */
    ghost function Release(ids: set<Text>): DeliveryState {
      DeliveryState(map k | k in groups :: Without(groups[k], ids), pending - ids, deadLetters)
    }
  }

  const EMPTY_DELIVERY := DeliveryState(map[], map[], [])

  ghost function Without(slot: Slot, ids: set<Text>): Slot {
    slot.(pending := map o | o in slot.pending && slot.pending[o] !in ids :: slot.pending[o])
  }

  lemma ReleasedSlot(d: DeliveryState, ids: set<Text>, key: SlotKey)
    ensures d.Release(ids).SlotOf(key) == Without(d.SlotOf(key), ids)
  {
    assert Without(EMPTY_SLOT, ids).pending == map[];
  }

  lemma ReleaseNothing(d: DeliveryState)
    ensures d.Release({}) == d
  {
    assert forall slot :: Without(slot, {}) == slot;
    assert d.Release({}).groups == d.groups;
  }

  lemma EmptyIsValid()
    ensures EMPTY_DELIVERY.Valid()
  {
  }

  /** `d'` agrees with `d` on every slot but `key`. */
  ghost predicate SameBut(d: DeliveryState, d': DeliveryState, key: SlotKey) {
    forall k :: k != key ==> d'.SlotOf(k) == d.SlotOf(k)
  }

  lemma SlotsKept(d: DeliveryState, d': DeliveryState, key: SlotKey)
    requires (forall k :: d.SlotValid(k)) && SameBut(d, d', key) && d'.SlotValid(key)
    ensures forall k :: d'.SlotValid(k)
  {
    forall k ensures d'.SlotValid(k) { assert d.SlotValid(k); }
  }

  lemma RetriesKept(d: DeliveryState, d': DeliveryState, key: SlotKey)
    requires (forall k, o :: d.RetryLinked(k, o)) && SameBut(d, d', key)
    requires forall o :: d'.RetryLinked(key, o)
    ensures forall k, o :: d'.RetryLinked(k, o)
  {
    forall k, o ensures d'.RetryLinked(k, o) { assert d.RetryLinked(k, o); }
  }

  lemma LettersKept(d: DeliveryState, d': DeliveryState, key: SlotKey)
    requires d.LettersMatch() && SameBut(d, d', key)
    requires d'.SlotOf(key).dead == d.SlotOf(key).dead && d'.deadLetters == d.deadLetters
    ensures d'.LettersMatch()
  {
    assert forall pos :: d'.IsDead(pos) <==> d.IsDead(pos);
    assert forall pos :: d'.HasLetter(pos) <==> d.HasLetter(pos);
  }

  lemma LetterAdded(d: DeliveryState, d': DeliveryState, letter: DeadLetter)
    requires d.LettersMatch() && SameBut(d, d', KeyOf(letter.pos)) && !d.IsDead(letter.pos)
    requires d'.SlotOf(KeyOf(letter.pos)).dead == d.SlotOf(KeyOf(letter.pos)).dead + {letter.pos.ref.offset}
    requires d'.deadLetters == d.deadLetters + [letter]
    ensures d'.LettersMatch()
  {
    assert forall p :: d'.IsDead(p) <==> d.IsDead(p) || p == letter.pos;
    assert d'.deadLetters[|d.deadLetters|] == letter;
    forall p | d'.IsDead(p) ensures d'.HasLetter(p) {
      if p != letter.pos {
        assert d.HasLetter(p);
        var i :| 0 <= i < |d.deadLetters| && d.deadLetters[i].pos == p;
        assert d'.deadLetters[i].pos == p;
      }
    }
  }

  ghost predicate Linked(d: DeliveryState) {
    (forall k, o :: d.SlotLinked(k, o)) && (forall id :: d.IdLinked(id))
  }

  /** Dropping an in-flight id from both indexes. */
  lemma LinkRemoved(d: DeliveryState, d': DeliveryState, id: Text)
    requires Linked(d) && id in d.pending && d'.pending == d.pending - {id}
    requires SameBut(d, d', KeyOf(d.pending[id].pos))
    requires var o := d.pending[id].pos.ref.offset;
      var slot, slot' := d.SlotOf(KeyOf(d.pending[id].pos)), d'.SlotOf(KeyOf(d.pending[id].pos));
      && slot'.pending == slot.pending - {o}
      && forall i :: i in slot.attempts && i != o ==> i in slot'.attempts && slot'.attempts[i] == slot.attempts[i]
    ensures Linked(d')
  {
    var pos := d.pending[id].pos;
    assert d.IdLinked(id);
    forall k, o ensures d'.SlotLinked(k, o) {
      assert d.SlotLinked(k, o);
    }
    forall i ensures d'.IdLinked(i) {
      assert d.IdLinked(i);
      if i in d'.pending { assert At(KeyOf(d.pending[i].pos), d.pending[i].pos.ref.offset) == d.pending[i].pos; }
    }
  }

  lemma LinkAdded(d: DeliveryState, e: DeliveryEvent)
    requires Linked(d) && e.id !in d.pending && e.pos.ref.offset !in d.SlotOf(KeyOf(e.pos)).pending
    ensures Linked(d.Consumed(e))
  {
    var d' := d.Consumed(e);
    forall k, o ensures d'.SlotLinked(k, o) {
      assert d.SlotLinked(k, o);
    }
    forall i ensures d'.IdLinked(i) {
      assert d.IdLinked(i);
    }
  }

  lemma LinksKept(d: DeliveryState, d': DeliveryState, key: SlotKey)
    requires Linked(d) && SameBut(d, d', key) && d'.pending == d.pending
    requires d'.SlotOf(key).pending == d.SlotOf(key).pending && d'.SlotOf(key).attempts == d.SlotOf(key).attempts
    ensures Linked(d')
  {
    forall k, o ensures d'.SlotLinked(k, o) { assert d.SlotLinked(k, o); }
    forall i ensures d'.IdLinked(i) { assert d.IdLinked(i); }
  }

  lemma ConsumedKeepsValid(d: DeliveryState, e: DeliveryEvent)
    requires d.Valid() && e.id !in d.pending
    requires d.SlotOf(KeyOf(e.pos)).IsAvailable(e.pos.ref.offset)
    ensures d.Consumed(e).Valid()
  {
    var d', key := d.Consumed(e), KeyOf(e.pos);
    assert d.SlotValid(key);
    SlotsKept(d, d', key);
    LinkAdded(d, e);
    forall o ensures d'.RetryLinked(key, o) { assert d.RetryLinked(key, o); }
    RetriesKept(d, d', key);
    LettersKept(d, d', key);
  }

  /** An id in flight is pending in its slot, so settling it moves the offset out of exactly that state. */
  lemma AckedKeepsValid(d: DeliveryState, id: Text)
    requires d.Valid() && id in d.pending
    ensures d.Acked(id, d.pending[id].pos).Valid()
  {
    var pos := d.pending[id].pos;
    var d', key := d.Acked(id, pos), KeyOf(pos);
    assert d.SlotValid(key) && d.IdLinked(id);
    SlotsKept(d, d', key);
    LinkRemoved(d, d', id);
    forall o ensures d'.RetryLinked(key, o) { assert d.RetryLinked(key, o); }
    RetriesKept(d, d', key);
    LettersKept(d, d', key);
  }

  lemma RetryKeepsValid(d: DeliveryState, id: Text, readyAt: nat)
    requires d.Valid() && id in d.pending
    ensures d.Settled(id, d.pending[id].pos, RetryScheduled(readyAt), None).state.Valid()
  {
    var pos := d.pending[id].pos;
    var d', key := d.Settled(id, pos, RetryScheduled(readyAt), None).state, KeyOf(pos);
    assert d.SlotValid(key) && d.IdLinked(id);
    SlotsKept(d, d', key);
    LinkRemoved(d, d', id);
    forall o ensures d'.RetryLinked(key, o) { assert d.RetryLinked(key, o); }
    RetriesKept(d, d', key);
    LettersKept(d, d', key);
  }

  lemma BuryKeepsValid(d: DeliveryState, id: Text, settlement: Settlement, letter: DeadLetter)
    requires d.Valid() && id in d.pending && settlement.DeadLettered? && letter.pos == d.pending[id].pos
    ensures d.Settled(id, d.pending[id].pos, settlement, Some(letter)).state.Valid()
  {
    var pos := d.pending[id].pos;
    var d', key := d.Settled(id, pos, settlement, Some(letter)).state, KeyOf(pos);
    assert d.SlotValid(key) && d.IdLinked(id);
    SlotsKept(d, d', key);
    LinkRemoved(d, d', id);
    forall o ensures d'.RetryLinked(key, o) { assert d.RetryLinked(key, o); }
    RetriesKept(d, d', key);
    LetterAdded(d, d', letter);
  }

  lemma ReadiedKeepsValid(d: DeliveryState, pos: Position, timestamp: nat)
    requires d.Valid()
    ensures d.Readied(pos, timestamp).state.Valid()
  {
    var d', key := d.Readied(pos, timestamp).state, KeyOf(pos);
    assert d.SlotValid(key);
    SlotsKept(d, d', key);
    LinksKept(d, d', key);
    forall o ensures d'.RetryLinked(key, o) { assert d.RetryLinked(key, o); }
    RetriesKept(d, d', key);
    LettersKept(d, d', key);
  }

  /** Releasing deliveries keeps every link: this is what reopening does to the in-flight ones. */
  lemma ReleaseKeepsValid(d: DeliveryState, ids: set<Text>)
    requires d.Valid()
    ensures d.Release(ids).Valid()
  {
    var d' := d.Release(ids);
    forall k ensures d'.SlotOf(k) == Without(d.SlotOf(k), ids) { ReleasedSlot(d, ids, k); }
    forall k ensures d'.SlotValid(k) { assert d.SlotValid(k); }
    forall k, o ensures d'.SlotLinked(k, o) { assert d.SlotLinked(k, o); }
    forall id ensures d'.IdLinked(id) { assert d.IdLinked(id); }
    forall k, o ensures d'.RetryLinked(k, o) { assert d.RetryLinked(k, o); }
    assert forall p :: d'.IsDead(p) <==> d.IsDead(p);
    assert forall p :: d'.HasLetter(p) <==> d.HasLetter(p);
  }
}
