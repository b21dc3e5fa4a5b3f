/** What the queue of src/telemetry/event_bus.cpp promises over whole runs, proved from the
    slot-sequence invariant of EventBusSteps. */
module EventBusSafety {
  import opened Arithmetic
  import opened Options
  import opened EventBusSteps

  // ----- exactly once, in claim order, never overwritten -----

  /** Positions whose push got as far as returning true, in the order of publication. */
  function Accepted(cap: nat, steps: seq<Step>): (ps: seq<nat>)
    requires cap > 0 && Exec(cap, steps).Some?
  {
    if steps == [] then []
    else
      var n := |steps| - 1;
      var q := Exec(cap, steps[..n]).value;
      var before := Accepted(cap, steps[..n]);
      match steps[n]
      case PushPublish(t) => before + [q.producers[t].pos]
      case _ => before
  }

  ghost predicate Distinct(ps: seq<nat>) {
    forall i, j | 0 <= i < j < |ps| :: ps[i] != ps[j]
  }

  /** Every position claimed so far was either accepted or is still being filled, never both. */
  lemma {:induction false} AcceptedOnce(cap: nat, steps: seq<Step>)
    requires cap >= 2 && Exec(cap, steps).Some?
    ensures Distinct(Accepted(cap, steps))
    ensures var q := Exec(cap, steps).value;
      forall p: nat :: (p in Accepted(cap, steps)) <==> (p < q.enq && !Unpublished(q, p))
  {
    if steps != [] {
      var n := |steps| - 1;
      AcceptedOnce(cap, steps[..n]);
      RunsKeepInv(cap, steps[..n]);
      var q := Exec(cap, steps[..n]).value;
      UnpublishedStep(q, steps[n]);
      if steps[n].PushPublish? {
        var pos := q.producers[steps[n].t].pos;
        assert Owns(q.producers[steps[n].t], pos);
        assert pos !in Accepted(cap, steps[..n]);
      }
    }
  }

  /** Which positions are still being filled after one step. */
  lemma UnpublishedStep(q: Queue, step: Step)
    requires Inv(q) && Enabled(q, step)
    ensures var r := Apply(q, step); forall p: nat ::
      Unpublished(r, p) <==>
        || (Unpublished(q, p) && !(step.PushPublish? && p == q.producers[step.t].pos))
        || (p == q.enq && r.enq == q.enq + 1)
  {
    var r := Apply(q, step);
    OwnersDiffer(q);
    hide Inv;
    hide Apply;
    hide Unpublished;
    forall p: nat
      ensures Unpublished(r, p) <==>
        || (Unpublished(q, p) && !(step.PushPublish? && p == q.producers[step.t].pos))
        || (p == q.enq && r.enq == q.enq + 1)
    {
      UnpublishedStepAt(q, step, p);
    }
  }

  ghost predicate OneOwner(q: Queue) {
    forall t, u, p: nat |
      t in q.producers && u in q.producers && Owns(q.producers[t], p) && Owns(q.producers[u], p) :: t == u
  }

  lemma OwnersDiffer(q: Queue)
    requires Inv(q)
    ensures OneOwner(q)
  {
    hide SlotInv;
  }

  lemma UnpublishedStepAt(q: Queue, step: Step, p: nat)
    requires Shape(q) && OneOwner(q) && Enabled(q, step)
    ensures var r := Apply(q, step);
      Unpublished(r, p) <==>
        || (Unpublished(q, p) && !(step.PushPublish? && p == q.producers[step.t].pos))
        || (p == q.enq && r.enq == q.enq + 1)
  {
    hide Slot;
    var r := Apply(q, step);
    if Unpublished(r, p) {
      var u :| u in r.producers && Owns(r.producers[u], p);
      if u in q.producers && Owns(q.producers[u], p) {
        if step.PushPublish? {
          assert Owns(q.producers[step.t], q.producers[step.t].pos);
        }
      }
    }
    if Unpublished(q, p) && !(step.PushPublish? && p == q.producers[step.t].pos) {
      var u :| u in q.producers && Owns(q.producers[u], p);
      assert u in r.producers && Owns(r.producers[u], p);
    }
    if p == q.enq && r.enq == q.enq + 1 {
      assert step.t in r.producers && Owns(r.producers[step.t], p);
    }
  }

  /** Pops are the claimed records in claim order, and every claimed record not yet popped is
      either still being written by its producer or intact in its slot. */
  ghost predicate Intact(q: Queue)
    requires Shape(q)
  {
    && |q.popped| <= |q.claims| == q.enq
    && q.popped == q.claims[..|q.popped|]
    && forall p: nat | |q.popped| <= p < q.enq ::
         Unpublished(q, p) || q.data[Slot(q.cap, p)] == q.claims[p]
  }

  /** A ring of this size loses nothing in any run. */
  ghost predicate RingSafe(cap: nat)
    requires cap > 0
  {
    forall steps :: Exec(cap, steps).Some? ==> Intact(Exec(cap, steps).value)
  }

  lemma InvIntact(q: Queue)
    requires Inv(q)
    ensures Intact(q)
  {
    forall p: nat | |q.popped| <= p < q.enq
      ensures Unpublished(q, p) || q.data[Slot(q.cap, p)] == q.claims[p]
    {
      assert SlotInv(q, p);
    }
  }

  /** Every pop takes a record whose push was accepted: with AcceptedOnce and the order of pops,
      each accepted record is popped at most once, and no other record ever is. */
  lemma PoppedWereAccepted(cap: nat, steps: seq<Step>, p: nat)
    requires cap >= 2 && Exec(cap, steps).Some? && p < |Exec(cap, steps).value.popped|
    ensures p in Accepted(cap, steps)
    ensures p < |Exec(cap, steps).value.claims|
    ensures Exec(cap, steps).value.popped[p] == Exec(cap, steps).value.claims[p]
  {
    hide Exec;
    hide Slot;
    hide SlotInv;
    hide Accepted;
    var q := Exec(cap, steps).value;
    RunsKeepInv(cap, steps);
    AcceptedOnce(cap, steps);
    UnpublishedAhead(q, p);
  }

  lemma UnpublishedAhead(q: Queue, p: nat)
    requires Inv(q)
    ensures Unpublished(q, p) ==> p >= q.deq
  {
    hide Slot;
    hide SlotInv;
    if Unpublished(q, p) {
      var t :| t in q.producers && Owns(q.producers[t], p);
      assert ProducerInv(q, q.producers[t]);
    }
  }

  /** No step overwrites a published record that the consumer has not released. */
  lemma UnreadNeverOverwritten(cap: nat, steps: seq<Step>, step: Step, p: nat)
    requires cap >= 2 && Exec(cap, steps).Some? && Enabled(Exec(cap, steps).value, step)
    requires var q := Exec(cap, steps).value; |q.popped| <= p < q.enq && !Unpublished(q, p)
    ensures
      var q := Exec(cap, steps).value;
      var r := Apply(q, step);
      && p < |q.claims|
      && (if step.PopRelease? && p == |q.popped| then r.popped == q.popped + [q.claims[p]]
          else !Unpublished(r, p) && r.data[Slot(cap, p)] == q.data[Slot(cap, p)] == q.claims[p])
  {
    hide Slot;
    hide Unpublished;
    var q := Exec(cap, steps).value;
    var r := Apply(q, step);
    RunsKeepInv(cap, steps);
    StepKeepsInv(q, step);
    UnpublishedStep(q, step);
    InvIntact(q);
    InvIntact(r);
    PoppedStep(q, step);
  }

  lemma PoppedStep(q: Queue, step: Step)
    requires Inv(q) && Enabled(q, step)
    ensures var r := Apply(q, step);
      && r.claims[..q.enq] == q.claims
      && (if step.PopRelease? then |q.popped| < q.enq && r.popped == q.popped + [q.claims[|q.popped|]]
          else r.popped == q.popped)
  {
    hide Slot;
    hide SlotInv;
    StepKeepsInv(q, step);
  }

  // ----- refusal and depth -----

  /** A push is refused exactly when, at the moment it read the slot, its position was the
      newest one and every slot was claimed and not yet released. */
  lemma RefusedIffFull(cap: nat, steps: seq<Step>, t: Tid)
    requires cap >= 2 && Exec(cap, steps).Some? && Enabled(Exec(cap, steps).value, PushLoadSeq(t))
    ensures
      var q := Exec(cap, steps).value;
      var pc := q.producers[t];
      (Apply(q, PushLoadSeq(t)).producers[t] == Returned(pc.rec, false))
      <==> (pc.pos == q.enq && q.enq - Released(q) == cap)
  {
    var q := Exec(cap, steps).value;
    RunsKeepInv(cap, steps);
    var pos := q.producers[t].pos;
    if q.seqs[Slot(cap, pos)] < pos {
      RefusedOnlyWhenFull(q, pos);
    }
    if pos == q.enq && q.enq - Released(q) == cap {
      assert SlotInv(q, Released(q));
      assert Slot(cap, Released(q) + cap) == Slot(cap, Released(q));
    }
  }

  /** A pop reports empty exactly when, at the moment it read the slot, the position next in line
      was not claimed yet, or claimed and not published. */
  lemma EmptyIffNothingNext(cap: nat, steps: seq<Step>)
    requires cap >= 2 && Exec(cap, steps).Some? && Enabled(Exec(cap, steps).value, PopLoadSeq)
    ensures var q := Exec(cap, steps).value;
      Apply(q, PopLoadSeq).consumer == PopIdle <==> q.deq == q.enq || Unpublished(q, q.deq)
  {
    hide Exec;
    var q := Exec(cap, steps).value;
    RunsKeepInv(cap, steps);
    assert SlotInv(q, q.deq);
    UnpublishedShowsPosition(q, q.deq);
  }

  lemma UnpublishedShowsPosition(q: Queue, p: nat)
    requires Inv(q)
    ensures Unpublished(q, p) ==> q.seqs[Slot(q.cap, p)] == p
  {
    hide Slot;
    hide SlotInv;
    if Unpublished(q, p) {
      var t :| t in q.producers && Owns(q.producers[t], p);
      assert ProducerInv(q, q.producers[t]);
    }
  }

  /** `depth()` loads the two positions at different instants. */
  function Depth(enq: nat, deq: nat): nat {
    if enq > deq then enq - deq else 0
  }

  lemma StepGrows(q: Queue, step: Step)
    requires Shape(q) && Enabled(q, step)
    ensures q.enq <= Apply(q, step).enq && q.deq <= Apply(q, step).deq
  {
    hide Slot;
  }

  lemma {:induction false} PositionsGrow(cap: nat, steps: seq<Step>, more: seq<Step>)
    requires cap > 0 && Exec(cap, steps + more).Some?
    ensures Exec(cap, steps).Some?
    ensures Exec(cap, steps).value.enq <= Exec(cap, steps + more).value.enq
    ensures Exec(cap, steps).value.deq <= Exec(cap, steps + more).value.deq
    decreases |more|
  {
    hide Apply;
    if more == [] {
      assert steps + more == steps;
    } else {
      var n := |more| - 1;
      assert (steps + more)[..|steps + more| - 1] == steps + more[..n];
      PositionsGrow(cap, steps, more[..n]);
      StepGrows(Exec(cap, steps + more[..n]).value, more[n]);
    }
  }

  /** Whatever runs between the two loads, the reported depth lies in [0, capacity] and never
      exceeds the number of positions that were claimed and unreleased at the first load. */
  lemma DepthBounded(cap: nat, steps: seq<Step>, more: seq<Step>)
    requires cap >= 2 && Exec(cap, steps + more).Some? && Exec(cap, steps).Some?
    ensures
      var q := Exec(cap, steps).value;
      Depth(q.enq, Exec(cap, steps + more).value.deq) <= q.enq - Released(q) <= cap
  {
    PositionsGrow(cap, steps, more);
    RunsKeepInv(cap, steps);
  }

  /** The depth falls short of the positions claimed and not yet taken at the first load by the
      number taken between the loads, and by nothing else; with none taken it is exact. */
  lemma DepthExact(cap: nat, steps: seq<Step>, more: seq<Step>)
    requires cap >= 2 && Exec(cap, steps + more).Some? && Exec(cap, steps).Some?
    ensures
      var q, later := Exec(cap, steps).value, Exec(cap, steps + more).value;
      var waiting, taken := q.enq - q.deq, later.deq - q.deq;
      && waiting >= 0 && taken >= 0
      && Depth(q.enq, later.deq) == if taken <= waiting then waiting - taken else 0
  {
    hide Exec;
    PositionsGrow(cap, steps, more);
    RunsKeepInv(cap, steps);
  }

  // ----- capacity one -----

  predicate IsPowerOfTwo(n: nat) {
    n == 1 || (n > 1 && n % 2 == 0 && IsPowerOfTwo(n / 2))
  }

  /** Bitwise conjunction of unbounded numbers. */
  function BitAnd(a: nat, b: nat): nat {
    if a == 0 || b == 0 then 0
    else 2 * BitAnd(a / 2, b / 2) + if a % 2 == 1 && b % 2 == 1 then 1 else 0
  }

  /** Masking a position with a power of two less one gives the position's slot. */
  lemma {:induction false} MaskIsSlot(cap: nat, pos: nat)
    requires IsPowerOfTwo(cap)
    ensures BitAnd(pos, cap - 1) == pos % cap == Slot(cap, pos)
  {
    MaskIsRemainder(cap, pos);
    var lap := SlotIsRemainder(cap, pos);
    assert pos == cap * lap + Slot(cap, pos);
    IsRemainder(pos, cap, lap, Slot(cap, pos));
  }

  lemma {:induction false} MaskIsRemainder(cap: nat, pos: nat)
    requires IsPowerOfTwo(cap)
    ensures BitAnd(pos, cap - 1) == pos % cap
  {
    if cap > 1 {
      var half := cap / 2;
      MaskIsRemainder(half, pos / 2);
      assert (cap - 1) / 2 == half - 1 && (cap - 1) % 2 == 1;
      RemainderOfDouble(pos, half);
    }
  }

  lemma RemainderOfDouble(pos: nat, half: nat)
    requires half > 0
    ensures pos % (2 * half) == 2 * (pos / 2 % half) + pos % 2
  {
    var q, r := pos / 2 / half, pos / 2 % half;
    assert pos / 2 == half * q + r;
    assert 2 * (half * q) == (2 * half) * q;
    IsRemainder(pos, 2 * half, q, 2 * r + pos % 2);
  }

  /** The constructor's capacity: the least power of two that is at least the request, and
      at least one. */
  ghost predicate IsCapacityFor(cap: nat, capacity: nat) {
    && IsPowerOfTwo(cap) && capacity <= cap
    && forall n: nat :: IsPowerOfTwo(n) && capacity <= n ==> cap <= n
  }

  method RoundUp(capacity: nat) returns (cap: nat)
    ensures IsCapacityFor(cap, capacity)
  {
    cap := 1;
    while cap < capacity
      invariant IsPowerOfTwo(cap)
      invariant cap == 1 || cap / 2 < capacity
      decreases capacity - cap
    {
      cap := cap * 2;
    }
    forall n: nat | IsPowerOfTwo(n) && capacity <= n
      ensures cap <= n
    {
      if n < cap { PowersApart(n, cap); }
    }
  }

  lemma {:induction false} PowersApart(m: nat, n: nat)
    requires IsPowerOfTwo(m) && IsPowerOfTwo(n) && m < n
    ensures m <= n / 2
  {
    if m > 1 {
      PowersApart(m / 2, n / 2);
    }
  }

  lemma ExecSnoc(cap: nat, steps: seq<Step>, step: Step)
    requires cap > 0 && Exec(cap, steps).Some? && Enabled(Exec(cap, steps).value, step)
    ensures Exec(cap, steps + [step]) == Some(Apply(Exec(cap, steps).value, step))
  {
    assert (steps + [step])[..|steps + [step]| - 1] == steps;
  }

  /** A push that runs alone on a slot showing its position succeeds. */
  lemma PushAlone(cap: nat, steps: seq<Step>, rec: EventRecord) returns (more: seq<Step>)
    requires cap > 0 && Exec(cap, steps).Some?
    requires var q := Exec(cap, steps).value; q.producers == map[] && q.seqs[Slot(cap, q.enq)] == q.enq
    ensures var q := Exec(cap, steps).value;
      Exec(cap, more) == Some(q.(enq := q.enq + 1,
                                 seqs := q.seqs[Slot(cap, q.enq) := q.enq + 1],
                                 data := q.data[Slot(cap, q.enq) := rec],
                                 claims := q.claims + [rec]))
  {
    more := steps;
    ExecSnoc(cap, more, PushCall(0, rec));
    more := more + [PushCall(0, rec)];
    ExecSnoc(cap, more, PushLoadPos(0));
    more := more + [PushLoadPos(0)];
    ExecSnoc(cap, more, PushLoadSeq(0));
    more := more + [PushLoadSeq(0)];
    ExecSnoc(cap, more, PushCas(0, false));
    more := more + [PushCas(0, false)];
    ExecSnoc(cap, more, PushCopy(0));
    more := more + [PushCopy(0)];
    ExecSnoc(cap, more, PushPublish(0));
    more := more + [PushPublish(0)];
    ExecSnoc(cap, more, PushExit(0));
    more := more + [PushExit(0)];
    assert Exec(cap, more).value.producers == map[];
  }

  /** With one slot a second push lands on the first record while it is still unread: the
      published sequence of one lap equals the free sequence of the next. */
  lemma OneSlotOverwrites() returns (steps: seq<Step>)
    ensures Exec(1, steps).Some? && !Intact(Exec(1, steps).value)
  {
    var a, b := EventRecord(0, [1]), EventRecord(0, [2]);
    steps := PushAlone(1, [], a);
    assert Slot(1, 1) == 0;
    steps := PushAlone(1, steps, b);
    var q := Exec(1, steps).value;
    assert !Unpublished(q, 0) && q.data[Slot(1, 0)] == b && q.claims[0] == a;
  }

  /** A bus queue built for `capacity` records loses nothing in any run exactly when at least
      two were asked for. */
  lemma SafeIffTwoSlots(capacity: nat, cap: nat)
    requires IsCapacityFor(cap, capacity)
    ensures RingSafe(cap) <==> capacity >= 2
  {
    assert IsPowerOfTwo(1);
    if capacity >= 2 {
      forall steps | Exec(cap, steps).Some?
        ensures Intact(Exec(cap, steps).value)
      {
        RunsKeepInv(cap, steps);
        InvIntact(Exec(cap, steps).value);
      }
    } else {
      var steps := OneSlotOverwrites();
    }
  }
}
