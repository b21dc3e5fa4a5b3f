/** The bounded ring of src/telemetry/event_bus.cpp as an interleaving transition system.

    Every atomic load, compare-and-swap and store of `try_push` and `try_pop` is one step.
    Any number of producers run beside one consumer; a weak compare-and-swap may fail
    spuriously. Interleavings are sequentially consistent and positions are unbounded. */
module EventBusSteps {
  import opened Options

  datatype EventRecord = EventRecord(priority: nat, body: seq<nat>)

  type Tid = nat

  /** Where a producer stands inside `try_push`. */
  datatype PushPc =
    | Start(rec: EventRecord)                // about to load the enqueue position
    | Loaded(rec: EventRecord, pos: nat)     // position loaded, about to load the slot sequence
    | Free(rec: EventRecord, pos: nat)       // slot seen free, about to compare-and-swap
    | Claimed(rec: EventRecord, pos: nat)    // position claimed, about to copy the record
    | Stored(rec: EventRecord, pos: nat)     // record copied, about to publish the sequence
    | Returned(rec: EventRecord, ok: bool)   // the call has its result

  /** Where the consumer stands inside `try_pop`. */
  datatype PopPc =
    | PopIdle
    | PopStart
    | PopLoaded(pos: nat)
    | PopFull(pos: nat)
    | PopClaimed(pos: nat)
    | PopCopied(pos: nat, rec: EventRecord)

  /** `claims` and `popped` are histories: the record claimed at each position, and the
      records handed to the consumer, in order. */
  datatype Queue = Queue(
    cap: nat,
    enq: nat,
    deq: nat,
    seqs: seq<nat>,
    data: seq<EventRecord>,
    producers: map<Tid, PushPc>,
    consumer: PopPc,
    claims: seq<EventRecord>,
    popped: seq<EventRecord>)

  datatype Step =
    | PushCall(t: Tid, rec: EventRecord)
    | PushLoadPos(t: Tid)
    | PushLoadSeq(t: Tid)
    | PushCas(t: Tid, spurious: bool)
    | PushCopy(t: Tid)
    | PushPublish(t: Tid)
    | PushExit(t: Tid)
    | PopCall
    | PopLoadPos
    | PopLoadSeq
    | PopCas(spurious: bool)
    | PopCopy
    | PopRelease

  /** The slot a position maps to, the remainder modulo the capacity (the source masks with
      a power of two less one). Written as repeated subtraction of a lap. */
  function Slot(cap: nat, pos: nat): (i: nat)
    requires cap > 0
    ensures i < cap
  {
    if pos < cap then pos else Slot(cap, pos - cap)
  }

  lemma {:induction false} SlotIsRemainder(cap: nat, pos: nat) returns (lap: nat)
    requires cap > 0
    ensures pos == lap * cap + Slot(cap, pos)
  {
    if pos < cap {
      lap := 0;
    } else {
      var l := SlotIsRemainder(cap, pos - cap);
      lap := l + 1;
    }
  }

  function Init(cap: nat): Queue
    requires cap > 0
  {
    Queue(cap, 0, 0, seq(cap, i => i), seq(cap, _ => EventRecord(0, [])), map[], PopIdle, [], [])
  }

  predicate Shape(q: Queue) {
    q.cap > 0 && |q.seqs| == q.cap && |q.data| == q.cap
  }

  predicate Enabled(q: Queue, step: Step) {
    match step
    case PushCall(t, _) => t !in q.producers
    case PushLoadPos(t) => t in q.producers && q.producers[t].Start?
    case PushLoadSeq(t) => t in q.producers && q.producers[t].Loaded?
    case PushCas(t, _) => t in q.producers && q.producers[t].Free?
    case PushCopy(t) => t in q.producers && q.producers[t].Claimed?
    case PushPublish(t) => t in q.producers && q.producers[t].Stored?
    case PushExit(t) => t in q.producers && q.producers[t].Returned?
    case PopCall => q.consumer.PopIdle?
    case PopLoadPos => q.consumer.PopStart?
    case PopLoadSeq => q.consumer.PopLoaded?
    case PopCas(_) => q.consumer.PopFull?
    case PopCopy => q.consumer.PopClaimed?
    case PopRelease => q.consumer.PopCopied?
  }

  /** Thread `t` moves to `pc`; nothing else changes. */
  function Move(q: Queue, t: Tid, pc: PushPc): Queue {
    q.(producers := q.producers[t := pc])
  }

  function Apply(q: Queue, step: Step): (r: Queue)
    requires Shape(q) && Enabled(q, step)
    ensures Shape(r) && r.cap == q.cap
  {
    match step
    case PushCall(t, rec) => Move(q, t, Start(rec))
    case PushLoadPos(t) => Move(q, t, Loaded(q.producers[t].rec, q.enq))
    case PushLoadSeq(t) =>
      var pc := q.producers[t];
      var s := q.seqs[Slot(q.cap, pc.pos)];
      if s == pc.pos then Move(q, t, Free(pc.rec, pc.pos))
      else if s < pc.pos then Move(q, t, Returned(pc.rec, false))
      else Move(q, t, Start(pc.rec))
    case PushCas(t, spurious) =>
      var pc := q.producers[t];
      if q.enq == pc.pos && !spurious then
        Move(q, t, Claimed(pc.rec, pc.pos)).(enq := pc.pos + 1, claims := q.claims + [pc.rec])
      else
        Move(q, t, Loaded(pc.rec, q.enq))
    case PushCopy(t) =>
      var pc := q.producers[t];
      Move(q, t, Stored(pc.rec, pc.pos)).(data := q.data[Slot(q.cap, pc.pos) := pc.rec])
    case PushPublish(t) =>
      var pc := q.producers[t];
      Move(q, t, Returned(pc.rec, true)).(seqs := q.seqs[Slot(q.cap, pc.pos) := pc.pos + 1])
    case PushExit(t) => q.(producers := q.producers - {t})
    case PopCall => q.(consumer := PopStart)
    case PopLoadPos => q.(consumer := PopLoaded(q.deq))
    case PopLoadSeq =>
      var pos := q.consumer.pos;
      var s := q.seqs[Slot(q.cap, pos)];
      if s == pos + 1 then q.(consumer := PopFull(pos))
      else if s < pos + 1 then q.(consumer := PopIdle)
      else q.(consumer := PopStart)
    case PopCas(spurious) =>
      var pos := q.consumer.pos;
      if q.deq == pos && !spurious then q.(deq := pos + 1, consumer := PopClaimed(pos))
      else q.(consumer := PopLoaded(q.deq))
    case PopCopy =>
      var pos := q.consumer.pos;
      q.(consumer := PopCopied(pos, q.data[Slot(q.cap, pos)]))
    case PopRelease =>
      var PopCopied(pos, rec) := q.consumer;
      q.(seqs := q.seqs[Slot(q.cap, pos) := pos + q.cap],
         consumer := PopIdle,
         popped := q.popped + [rec])
  }

  /** The state after `steps`, from the constructor's state; `None` if some step was not enabled. */
  function Exec(cap: nat, steps: seq<Step>): (r: Option<Queue>)
    requires cap > 0
    ensures r.Some? ==> Shape(r.value) && r.value.cap == cap
  {
    if steps == [] then Some(Init(cap))
    else
      match Exec(cap, steps[..|steps| - 1])
      case None => None
      case Some(q) =>
        if Enabled(q, steps[|steps| - 1]) then Some(Apply(q, steps[|steps| - 1])) else None
  }

  // ----- the slot-sequence invariant -----

  /** Positions below this one have been handed back to the producers. */
  function Released(q: Queue): int {
    if q.consumer.PopClaimed? || q.consumer.PopCopied? then q.deq - 1 else q.deq
  }

  predicate Owns(pc: PushPc, pos: nat) {
    (pc.Claimed? || pc.Stored?) && pc.pos == pos
  }

  ghost predicate Unpublished(q: Queue, pos: nat) {
    exists t :: t in q.producers && Owns(q.producers[t], pos)
  }

  /** What the slot of a position in the current lap holds. */
  ghost predicate SlotInv(q: Queue, p: nat)
    requires Shape(q)
  {
    var s := q.seqs[Slot(q.cap, p)];
    && (p >= q.enq ==> s == p)
    && (p < q.enq ==> s == p || s == p + 1)
    && (p < q.enq && s == p ==> Unpublished(q, p))
    && (p < q.enq && s == p + 1 ==> p < |q.claims| && q.data[Slot(q.cap, p)] == q.claims[p])
  }

  ghost predicate ProducerInv(q: Queue, pc: PushPc)
    requires Shape(q)
  {
    match pc
    case Start(_) => true
    case Loaded(_, pos) => pos <= q.enq
    case Free(_, pos) => pos <= q.enq && pos < Released(q) + q.cap
    case Claimed(rec, pos) =>
      q.deq <= pos < q.enq && q.seqs[Slot(q.cap, pos)] == pos && pos < |q.claims| && q.claims[pos] == rec
    case Stored(rec, pos) =>
      && q.deq <= pos < q.enq && q.seqs[Slot(q.cap, pos)] == pos && pos < |q.claims| && q.claims[pos] == rec
      && q.data[Slot(q.cap, pos)] == rec
    case Returned(_, _) => true
  }

  ghost predicate ConsumerInv(q: Queue)
    requires Shape(q)
  {
    match q.consumer
    case PopIdle => true
    case PopStart => true
    case PopLoaded(pos) => pos == q.deq
    case PopFull(pos) => pos == q.deq < q.enq && q.seqs[Slot(q.cap, pos)] == pos + 1
    case PopClaimed(pos) => pos == q.deq - 1 && q.seqs[Slot(q.cap, pos)] == pos + 1
    case PopCopied(pos, rec) =>
      pos == q.deq - 1 && q.seqs[Slot(q.cap, pos)] == pos + 1 && pos < |q.claims| && rec == q.claims[pos]
  }

  /** The invariant of every reachable state when the capacity is at least two. */
  ghost predicate Inv(q: Queue) {
    && Shape(q) && q.cap >= 2
    && 0 <= Released(q) <= q.deq <= q.enq <= Released(q) + q.cap
    && |q.claims| == q.enq
    && q.popped == q.claims[..Released(q)]
    && (forall p: nat | Released(q) <= p < Released(q) + q.cap :: SlotInv(q, p))
    && (forall t | t in q.producers :: ProducerInv(q, q.producers[t]))
    && (forall t, u, p: nat |
          t in q.producers && u in q.producers && Owns(q.producers[t], p) && Owns(q.producers[u], p) :: t == u)
    && ConsumerInv(q)
  }

  lemma {:induction false} WindowSlot(cap: nat, p: nat, q: nat)
    requires cap > 0 && p < q < p + cap
    ensures Slot(cap, p) != Slot(cap, q)
  {
    if p >= cap {
      WindowSlot(cap, p - cap, q - cap);
    }
  }

  /** Positions of one window use distinct slots. */
  lemma OtherSlots(q: Queue, p: nat)
    requires Shape(q) && 0 <= Released(q) <= p < Released(q) + q.cap
    ensures forall r: nat | Released(q) <= r < Released(q) + q.cap && r != p :: Slot(q.cap, r) != Slot(q.cap, p)
  {
    forall r: nat | Released(q) <= r < Released(q) + q.cap && r != p
      ensures Slot(q.cap, r) != Slot(q.cap, p)
    {
      if r < p { WindowSlot(q.cap, r, p); } else { WindowSlot(q.cap, p, r); }
    }
  }

  lemma InitInv(cap: nat)
    requires cap >= 2
    ensures Inv(Init(cap))
  {
  }

  /** A slot never shows a value below a position that was already offered. */
  lemma {:induction false} SeqAtLeast(q: Queue, pos: nat)
    requires Inv(q) && pos < Released(q) + q.cap
    ensures q.seqs[Slot(q.cap, pos)] >= pos
    decreases Released(q) - pos
  {
    if pos < Released(q) {
      SeqAtLeast(q, pos + q.cap);
    } else {
      assert SlotInv(q, pos);
    }
  }

  /** A producer that read its own position from a slot holds a position of the current lap:
      with two slots or more, no earlier lap can show that value. */
  lemma FreeIsCurrentLap(q: Queue, pos: nat)
    requires Inv(q) && pos <= q.enq && q.seqs[Slot(q.cap, pos)] == pos
    ensures pos < Released(q) + q.cap
  {
    assert SlotInv(q, Released(q));
    assert Slot(q.cap, Released(q) + q.cap) == Slot(q.cap, Released(q));
  }

  /** The push refusal rule: a sequence below the position means every slot is claimed and unreleased. */
  lemma RefusedOnlyWhenFull(q: Queue, pos: nat)
    requires Inv(q) && pos <= q.enq && q.seqs[Slot(q.cap, pos)] < pos
    ensures q.enq - Released(q) == q.cap && pos == q.enq
  {
    if pos < Released(q) + q.cap {
      SeqAtLeast(q, pos);
    }
  }

  // ----- preservation, one lemma for each step that writes shared state -----

  lemma CopyKeepsInv(q: Queue, t: Tid)
    requires Inv(q) && Enabled(q, PushCopy(t))
    ensures Inv(Apply(q, PushCopy(t)))
  {
    hide Slot;
    var pos := q.producers[t].pos;
    OtherSlots(q, pos);
    var r := Apply(q, PushCopy(t));
    forall p: nat | Released(r) <= p < Released(r) + r.cap
      ensures SlotInv(r, p)
    {
      assert SlotInv(q, p);
      if p < r.enq && r.seqs[Slot(r.cap, p)] == p {
        var u :| u in q.producers && Owns(q.producers[u], p);
        assert u in r.producers && Owns(r.producers[u], p);
      }
    }
  }

  /** Writing only thread `t`'s own place keeps every slot as described, if `t` neither
      gained nor lost a position. */
  lemma MoveKeepsSlots(q: Queue, r: Queue, t: Tid)
    requires Inv(q) && Shape(r)
    requires r.cap == q.cap && r.enq == q.enq && r.seqs == q.seqs && r.data == q.data && r.claims == q.claims
    requires Released(r) == Released(q)
    requires forall u | u in q.producers && u != t :: u in r.producers && r.producers[u] == q.producers[u]
    requires forall p: nat | t in q.producers && Owns(q.producers[t], p) :: t in r.producers && Owns(r.producers[t], p)
    ensures forall p: nat | Released(r) <= p < Released(r) + r.cap :: SlotInv(r, p)
  {
    hide Slot;
    forall p: nat | Released(r) <= p < Released(r) + r.cap
      ensures SlotInv(r, p)
    {
      assert SlotInv(q, p);
      if p < q.enq && q.seqs[Slot(q.cap, p)] == p {
        var u :| u in q.producers && Owns(q.producers[u], p);
        assert u in r.producers && Owns(r.producers[u], p);
      }
    }
  }

  lemma PublishKeepsProducers(q: Queue, t: Tid)
    requires Inv(q) && Enabled(q, PushPublish(t))
    ensures var r := Apply(q, PushPublish(t)); forall u | u in r.producers :: ProducerInv(r, r.producers[u])
  {
    hide Slot;
    var pos := q.producers[t].pos;
    OtherSlots(q, pos);
    assert Owns(q.producers[t], pos);
    var r := Apply(q, PushPublish(t));
    forall u | u in r.producers
      ensures ProducerInv(r, r.producers[u])
    {
      if u != t {
        assert ProducerInv(q, q.producers[u]);
        if q.producers[u].Claimed? || q.producers[u].Stored? {
          assert Owns(q.producers[u], q.producers[u].pos);
          assert q.producers[u].pos != pos;
        }
      }
    }
  }

  lemma PublishKeepsInv(q: Queue, t: Tid)
    requires Inv(q) && Enabled(q, PushPublish(t))
    ensures Inv(Apply(q, PushPublish(t)))
  {
    hide Slot;
    var pos := q.producers[t].pos;
    OtherSlots(q, pos);
    var r := Apply(q, PushPublish(t));
    forall p: nat | Released(r) <= p < Released(r) + r.cap
      ensures SlotInv(r, p)
    {
      assert SlotInv(q, p);
      if p != pos && p < r.enq && r.seqs[Slot(r.cap, p)] == p {
        var u :| u in q.producers && Owns(q.producers[u], p);
        assert u in r.producers && Owns(r.producers[u], p);
      }
    }
    PublishKeepsProducers(q, t);
  }

  /** A producer that holds no position before or after changes only its own place. */
  lemma MoveKeepsInv(q: Queue, t: Tid, pc: PushPc)
    requires Inv(q) && ProducerInv(q, pc) && !pc.Claimed? && !pc.Stored?
    requires t in q.producers ==> !q.producers[t].Claimed? && !q.producers[t].Stored?
    ensures Inv(Move(q, t, pc))
  {
    hide Slot;
    hide SlotInv;
    var r := Move(q, t, pc);
    MoveKeepsSlots(q, r, t);
    forall u | u in r.producers
      ensures ProducerInv(r, r.producers[u])
    {
      assert u != t ==> ProducerInv(q, q.producers[u]);
    }
  }

  lemma ExitKeepsInv(q: Queue, t: Tid)
    requires Inv(q) && Enabled(q, PushExit(t))
    ensures Inv(Apply(q, PushExit(t)))
  {
    hide Slot;
    hide SlotInv;
    var r := Apply(q, PushExit(t));
    MoveKeepsSlots(q, r, t);
    forall u | u in r.producers
      ensures ProducerInv(r, r.producers[u])
    {
      assert ProducerInv(q, q.producers[u]);
    }
  }

  /** Claiming the newest position: its slot belongs to the current lap and shows it as free. */
  lemma ClaimKeepsInv(q: Queue, t: Tid)
    requires Inv(q) && Enabled(q, PushCas(t, false)) && q.enq == q.producers[t].pos
    ensures Inv(Apply(q, PushCas(t, false)))
  {
    hide Slot;
    var r := Apply(q, PushCas(t, false));
    var pos := q.producers[t].pos;
    assert SlotInv(q, pos);
    assert t in r.producers && Owns(r.producers[t], pos);
    ClaimKeepsSlots(q, t);
    forall u | u in r.producers
      ensures ProducerInv(r, r.producers[u])
    {
      assert u != t ==> ProducerInv(q, q.producers[u]);
    }
  }

  lemma ClaimKeepsSlots(q: Queue, t: Tid)
    requires Inv(q) && Enabled(q, PushCas(t, false)) && q.enq == q.producers[t].pos
    ensures var r := Apply(q, PushCas(t, false));
      forall p: nat | Released(r) <= p < Released(r) + r.cap :: SlotInv(r, p)
  {
    hide Slot;
    var r := Apply(q, PushCas(t, false));
    var pos := q.producers[t].pos;
    assert t in r.producers && Owns(r.producers[t], pos);
    forall p: nat | Released(r) <= p < Released(r) + r.cap
      ensures SlotInv(r, p)
    {
      assert SlotInv(q, p);
      if p < q.enq && q.seqs[Slot(q.cap, p)] == p {
        var u :| u in q.producers && Owns(q.producers[u], p);
        assert u in r.producers && Owns(r.producers[u], p);
      }
    }
  }

  lemma ReleaseKeepsInv(q: Queue)
    requires Inv(q) && Enabled(q, PopRelease)
    ensures Inv(Apply(q, PopRelease))
  {
    var r := Apply(q, PopRelease);
    var pos := q.consumer.pos;
    OtherSlots(q, pos);
    assert Slot(q.cap, pos + q.cap) == Slot(q.cap, pos);
    forall p: nat | Released(r) <= p < Released(r) + r.cap
      ensures SlotInv(r, p)
    {
      if p < pos + q.cap {
        assert SlotInv(q, p);
        if p < q.enq && q.seqs[Slot(q.cap, p)] == p {
          var u :| u in q.producers && Owns(q.producers[u], p);
          assert u in r.producers && Owns(r.producers[u], p);
        }
      }
    }
  }

  /** A consumer step that changes only the consumer's place and the dequeue position. */
  lemma ConsumerMoveKeepsInv(q: Queue, r: Queue)
    requires Inv(q) && r == q.(consumer := r.consumer, deq := r.deq)
    requires Released(r) == Released(q) && q.deq <= r.deq <= q.enq
    requires ConsumerInv(r)
    requires r.deq > q.deq ==> q.seqs[Slot(q.cap, q.deq)] == q.deq + 1
    ensures Inv(r)
  {
    hide Slot;
    forall p: nat | Released(r) <= p < Released(r) + r.cap
      ensures SlotInv(r, p)
    {
      assert SlotInv(q, p);
      if p < q.enq && q.seqs[Slot(q.cap, p)] == p {
        var u :| u in q.producers && Owns(q.producers[u], p);
        assert u in r.producers && Owns(r.producers[u], p);
      }
    }
    forall u | u in r.producers
      ensures ProducerInv(r, r.producers[u])
    {
      assert ProducerInv(q, q.producers[u]);
    }
  }

  lemma ConsumerStepKeepsInv(q: Queue, step: Step)
    requires Inv(q) && Enabled(q, step)
    requires step.PopCall? || step.PopLoadPos? || step.PopLoadSeq? || step.PopCas? || step.PopCopy?
    ensures Inv(Apply(q, step))
  {
    hide Slot;
    hide ProducerInv;
    if step.PopCopy? || step.PopLoadSeq? {
      assert SlotInv(q, q.consumer.pos);
    }
    ConsumerMoveKeepsInv(q, Apply(q, step));
  }

  lemma LoadSeqKeepsInv(q: Queue, t: Tid)
    requires Inv(q) && Enabled(q, PushLoadSeq(t))
    ensures Inv(Apply(q, PushLoadSeq(t)))
  {
    hide Slot;
    hide SlotInv;
    var pc := q.producers[t];
    var s := q.seqs[Slot(q.cap, pc.pos)];
    if s == pc.pos {
      FreeIsCurrentLap(q, pc.pos);
      MoveKeepsInv(q, t, Free(pc.rec, pc.pos));
    } else if s < pc.pos {
      MoveKeepsInv(q, t, Returned(pc.rec, false));
    } else {
      MoveKeepsInv(q, t, Start(pc.rec));
    }
  }

  /** Every step of every producer and of the consumer keeps the invariant. */
  lemma StepKeepsInv(q: Queue, step: Step)
    requires Inv(q) && Enabled(q, step)
    ensures Inv(Apply(q, step))
  {
    hide Inv;
    hide Slot;
    match step
    case PushCall(t, rec) => MoveKeepsInv(q, t, Start(rec));
    case PushLoadPos(t) => MoveKeepsInv(q, t, Loaded(q.producers[t].rec, q.enq));
    case PushLoadSeq(t) => LoadSeqKeepsInv(q, t);
    case PushCas(t, spurious) =>
      if q.enq == q.producers[t].pos && !spurious {
        ClaimKeepsInv(q, t);
      } else {
        MoveKeepsInv(q, t, Loaded(q.producers[t].rec, q.enq));
      }
    case PushCopy(t) => CopyKeepsInv(q, t);
    case PushPublish(t) => PublishKeepsInv(q, t);
    case PushExit(t) => ExitKeepsInv(q, t);
    case PopRelease => ReleaseKeepsInv(q);
    case _ => ConsumerStepKeepsInv(q, step);
  }

  lemma {:induction false} RunsKeepInv(cap: nat, steps: seq<Step>)
    requires cap >= 2 && Exec(cap, steps).Some?
    ensures Inv(Exec(cap, steps).value)
  {
    if steps == [] {
      InitInv(cap);
    } else {
      var before := steps[..|steps| - 1];
      RunsKeepInv(cap, before);
      StepKeepsInv(Exec(cap, before).value, steps[|steps| - 1]);
    }
  }
}
