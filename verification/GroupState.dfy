/** Delivery state of one consumer group in one partition. */
module GroupState {
  import opened Common
  import opened Domain

  /** A scheduled retry, carrying the message it is for. */
  datatype RetryEntry = RetryEntry(ref: MessageRef, readyAt: nat)

  /** The value of a `GroupPartitionState`. */
  datatype Slot = Slot(
    cursor: nat,
    acked: set<nat>,
    pending: map<nat, Text>,
    retry: map<nat, RetryEntry>,
    dead: set<nat>,
    attempts: map<nat, nat>)
  {
    predicate IsAvailable(offset: nat) {
      offset !in acked && offset !in pending && offset !in retry && offset !in dead
    }

    /** Deliveries of `offset` so far, as far as the attempt map remembers. */
    function Attempts(offset: nat): nat {
      if offset in attempts then attempts[offset] else 0
    }

    function NextAttempt(offset: nat): nat {
      Attempts(offset) + 1
    }

    /** The four states exclude one another, and the cursor is the least unacknowledged offset. */
    ghost predicate Valid() {
      && acked !! pending.Keys && acked !! retry.Keys && acked !! dead
      && pending.Keys !! retry.Keys && pending.Keys !! dead && retry.Keys !! dead
      && cursor !in acked && (forall o: nat :: o < cursor ==> o in acked)
    }

    ghost function Pend(offset: nat, id: Text, attempt: nat): Slot {
      this.(attempts := attempts[offset := attempt], pending := pending[offset := id])
    }

    ghost function Unpend(offset: nat): Slot {
      this.(pending := pending - {offset})
    }

    ghost function Acknowledge(offset: nat): Slot {
      this.(acked := acked + {offset}, attempts := attempts - {offset},
            cursor := LeastUnacked(acked + {offset}, cursor))
    }

    ghost function ScheduleRetry(offset: nat, entry: RetryEntry): Slot {
      this.(retry := retry[offset := entry])
    }

    ghost function MakeAvailable(offset: nat): Slot {
      this.(retry := retry - {offset})
    }

    ghost function Bury(offset: nat): Slot {
      this.(retry := retry - {offset}, attempts := attempts - {offset}, dead := dead + {offset})
    }
  }

  const EMPTY_SLOT := Slot(0, {}, map[], map[], {}, map[])

  ghost function Above(s: set<nat>, from: nat): set<nat> {
    set o | o in s && o >= from
  }

  /** The least offset from `from` on that is not in `acked`. */
  ghost function LeastUnacked(acked: set<nat>, from: nat): (c: nat)
    ensures from <= c && c !in acked
    ensures forall o :: from <= o < c ==> o in acked
    decreases |Above(acked, from)|
  {
    if from !in acked then from
    else
      assert Above(acked, from) == Above(acked, from + 1) + {from};
      LeastUnacked(acked, from + 1)
  }

  /** The mutable state: a value is loaded, updated in place by the `Mark` methods and stored back. */
  class GroupPartitionState {
    var cursor: nat
    var acked: set<nat>
    var pending: map<nat, Text>
    var retry: map<nat, RetryEntry>
    var dead: set<nat>
    var attempts: map<nat, nat>

    function Value(): Slot
      reads this
    {
      Slot(cursor, acked, pending, retry, dead, attempts)
    }

    constructor Load(slot: Slot)
      ensures Value() == slot
    {
      cursor, acked, pending := slot.cursor, slot.acked, slot.pending;
      retry, dead, attempts := slot.retry, slot.dead, slot.attempts;
    }

    method MarkPending(offset: nat, id: Text, attempt: nat)
      modifies this
      ensures Value() == old(Value()).Pend(offset, id, attempt)
      ensures pending == old(pending)[offset := id] && attempts == old(attempts)[offset := attempt]
      ensures cursor == old(cursor) && acked == old(acked) && retry == old(retry) && dead == old(dead)
    {
      attempts := attempts[offset := attempt];
      pending := pending[offset := id];
    }

    method RemovePending(offset: nat)
      modifies this
      ensures Value() == old(Value()).Unpend(offset)
      ensures pending == old(pending) - {offset} && attempts == old(attempts)
      ensures cursor == old(cursor) && acked == old(acked) && retry == old(retry) && dead == old(dead)
    {
      pending := pending - {offset};
    }

    method MarkAcked(offset: nat)
      modifies this
      ensures Value() == old(Value()).Acknowledge(offset)
      ensures acked == old(acked) + {offset} && attempts == old(attempts) - {offset}
      ensures pending == old(pending) && retry == old(retry) && dead == old(dead)
      ensures old(cursor) <= cursor && cursor !in acked && forall o :: old(cursor) <= o < cursor ==> o in acked
    {
      acked := acked + {offset};
      attempts := attempts - {offset};
      AdvanceCursor();
    }

    method MarkRetryScheduled(offset: nat, entry: RetryEntry)
      modifies this
      ensures Value() == old(Value()).ScheduleRetry(offset, entry)
      ensures retry == old(retry)[offset := entry] && attempts == old(attempts) && pending == old(pending)
      ensures cursor == old(cursor) && acked == old(acked) && dead == old(dead)
    {
      retry := retry[offset := entry];
    }

    method MarkRetryAvailable(offset: nat)
      modifies this
      ensures Value() == old(Value()).MakeAvailable(offset)
      ensures retry == old(retry) - {offset} && attempts == old(attempts) && pending == old(pending)
      ensures cursor == old(cursor) && acked == old(acked) && dead == old(dead)
    {
      retry := retry - {offset};
    }

    method MarkDeadLettered(offset: nat)
      modifies this
      ensures Value() == old(Value()).Bury(offset)
      ensures dead == old(dead) + {offset} && retry == old(retry) - {offset} && attempts == old(attempts) - {offset}
      ensures cursor == old(cursor) && acked == old(acked) && pending == old(pending)
    {
      retry := retry - {offset};
      attempts := attempts - {offset};
      dead := dead + {offset};
    }

    method AdvanceCursor()
      modifies this`cursor
      ensures cursor == LeastUnacked(acked, old(cursor))
    {
      while cursor in acked
        invariant LeastUnacked(acked, cursor) == LeastUnacked(acked, old(cursor))
        decreases |Above(acked, cursor)|
      {
        assert Above(acked, cursor) == Above(acked, cursor + 1) + {cursor};
        cursor := cursor + 1;
      }
    }
  }
}
