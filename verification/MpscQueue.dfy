/** The queue object of src/telemetry/event_bus.cpp used by one thread at a time: the same
    loads, comparisons and stores on real arrays, seen from outside as a bounded FIFO. The
    compare-and-swap of an uncontended call succeeds. */
module MpscQueue {
  import opened EventBusSteps
  import opened EventBusSafety

  class Ring {
    const capacity: nat
    const seqs: array<nat>
    const data: array<EventRecord>
    var enqueuePos: nat
    var dequeuePos: nat

    ghost predicate Valid()
      reads this, seqs
    {
      && capacity >= 2 && seqs.Length == capacity && data.Length == capacity
      && dequeuePos <= enqueuePos <= dequeuePos + capacity
      && forall p: nat | dequeuePos <= p < dequeuePos + capacity ::
           seqs[Slot(capacity, p)] == if p < enqueuePos then p + 1 else p
    }

    ghost function Contents(): (s: seq<EventRecord>)
      requires Valid()
      reads this, seqs, data
      ensures |s| == enqueuePos - dequeuePos
    {
      seq(enqueuePos - dequeuePos, (i: int) requires i >= 0 reads this, data => data[Slot(capacity, dequeuePos + i)])
    }

    constructor (requested: nat)
      ensures IsCapacityFor(capacity, requested)
      ensures requested >= 2 ==> Valid() && Contents() == []
      ensures fresh(seqs) && fresh(data)
    {
      var cap := RoundUp(requested);
      assert IsPowerOfTwo(1);
      capacity := cap;
      seqs := new nat[cap](i => i);
      data := new EventRecord[cap](_ => EventRecord(0, []));
      enqueuePos, dequeuePos := 0, 0;
    }

    method TryPush(rec: EventRecord) returns (ok: bool)
      requires Valid()
      modifies this`enqueuePos, seqs, data
      ensures Valid()
      ensures ok == (|old(Contents())| < capacity)
      ensures Contents() == if ok then old(Contents()) + [rec] else old(Contents())
    {
      var pos := enqueuePos;
      var s := seqs[Slot(capacity, pos)];
      assert Slot(capacity, dequeuePos + capacity) == Slot(capacity, dequeuePos);
      if s < pos {
        return false;
      }
      OtherPositions(pos);
      enqueuePos := pos + 1;
      data[Slot(capacity, pos)] := rec;
      seqs[Slot(capacity, pos)] := pos + 1;
      ok := true;
    }

    method TryPop() returns (ok: bool, out: EventRecord)
      requires Valid()
      modifies this`dequeuePos, seqs
      ensures Valid()
      ensures ok == (old(Contents()) != [])
      ensures ok ==> out == old(Contents())[0] && Contents() == old(Contents())[1..]
      ensures !ok ==> Contents() == old(Contents())
    {
      var pos := dequeuePos;
      var s := seqs[Slot(capacity, pos)];
      if s < pos + 1 {
        return false, EventRecord(0, []);
      }
      OtherPositions(pos);
      dequeuePos := pos + 1;
      out := data[Slot(capacity, pos)];
      seqs[Slot(capacity, pos)] := pos + capacity;
      ok := true;
    }

    lemma OtherPositions(pos: nat)
      requires Valid() && dequeuePos <= pos < dequeuePos + capacity
      ensures forall p: nat | dequeuePos <= p < dequeuePos + capacity && p != pos ::
          Slot(capacity, p) != Slot(capacity, pos)
    {
      forall p: nat | dequeuePos <= p < dequeuePos + capacity && p != pos
        ensures Slot(capacity, p) != Slot(capacity, pos)
      {
        if p < pos { WindowSlot(capacity, p, pos); } else { WindowSlot(capacity, pos, p); }
      }
    }
  }
}
