/** The two-queue bus of src/telemetry/event_bus.cpp: routing by priority, the success counter
    and the per-queue, per-priority drop counters, over every interleaving. */
module EventBusLedger {
  import opened Options
  import opened EventBusSteps
  import opened EventBusSafety

  const PRIO_CTRL := 1

  /** `offered` and `uncounted` are histories: calls made so far, and refusals whose priority
      is outside the counted range 0..3. */
  datatype Bus = Bus(
    hi: Queue,
    lo: Queue,
    dropsHi: seq<nat>,
    dropsLo: seq<nat>,
    pushed: nat,
    offered: nat,
    uncounted: nat)

  datatype BusStep =
    | Offer(t: Tid, rec: EventRecord)   // a producer calls try_push on the bus
    | Inside(hi: bool, step: Step)      // one step of either queue
    | Finish(hi: bool, t: Tid)          // the queue call returned; count the outcome

  predicate RoutesHi(rec: EventRecord) {
    rec.priority <= PRIO_CTRL
  }

  predicate BusShape(b: Bus) {
    Shape(b.hi) && Shape(b.lo) && |b.dropsHi| == 4 && |b.dropsLo| == 4
  }

  function Side(b: Bus, hi: bool): Queue {
    if hi then b.hi else b.lo
  }

  function WithSide(b: Bus, hi: bool, q: Queue): Bus {
    if hi then b.(hi := q) else b.(lo := q)
  }

  predicate BusEnabled(b: Bus, s: BusStep) {
    match s
    case Offer(t, _) => t !in b.hi.producers && t !in b.lo.producers
    case Inside(hi, step) => !step.PushCall? && !step.PushExit? && Enabled(Side(b, hi), step)
    case Finish(hi, t) => Enabled(Side(b, hi), PushExit(t))
  }

  function BusApply(b: Bus, s: BusStep): (r: Bus)
    requires BusShape(b) && BusEnabled(b, s)
    ensures BusShape(r) && r.hi.cap == b.hi.cap && r.lo.cap == b.lo.cap
  {
    match s
    case Offer(t, rec) =>
      var hi := RoutesHi(rec);
      WithSide(b, hi, Apply(Side(b, hi), PushCall(t, rec))).(offered := b.offered + 1)
    case Inside(hi, step) => WithSide(b, hi, Apply(Side(b, hi), step))
    case Finish(hi, t) =>
      var Returned(rec, ok) := Side(b, hi).producers[t];
      var done := WithSide(b, hi, Apply(Side(b, hi), PushExit(t)));
      var p := rec.priority;
      if ok then done.(pushed := b.pushed + 1)
      else if p >= 4 then done.(uncounted := b.uncounted + 1)
      else if hi then done.(dropsHi := b.dropsHi[p := b.dropsHi[p] + 1])
      else done.(dropsLo := b.dropsLo[p := b.dropsLo[p] + 1])
  }

  function BusInit(hiCap: nat, loCap: nat): Bus
    requires hiCap > 0 && loCap > 0
  {
    Bus(Init(hiCap), Init(loCap), [0, 0, 0, 0], [0, 0, 0, 0], 0, 0, 0)
  }

  function BusExec(hiCap: nat, loCap: nat, steps: seq<BusStep>): (r: Option<Bus>)
    requires hiCap > 0 && loCap > 0
    ensures r.Some? ==> BusShape(r.value) && r.value.hi.cap == hiCap && r.value.lo.cap == loCap
  {
    if steps == [] then Some(BusInit(hiCap, loCap))
    else
      var n := |steps| - 1;
      match BusExec(hiCap, loCap, steps[..n])
      case None => None
      case Some(b) => if BusEnabled(b, steps[n]) then Some(BusApply(b, steps[n])) else None
  }

  /** The counter that `drop_count_total` sums up. */
  function DropTotal(b: Bus): nat
    requires BusShape(b)
  {
    b.dropsHi[0] + b.dropsHi[1] + b.dropsHi[2] + b.dropsHi[3] +
    b.dropsLo[0] + b.dropsLo[1] + b.dropsLo[2] + b.dropsLo[3]
  }

  function InFlight(b: Bus): nat {
    |b.hi.producers| + |b.lo.producers|
  }

  /** How many calls the run finished as refused, for one side and priority. */
  function RefusedCalls(hiCap: nat, loCap: nat, steps: seq<BusStep>, hi: bool, priority: nat): nat
    requires hiCap > 0 && loCap > 0 && BusExec(hiCap, loCap, steps).Some?
  {
    if steps == [] then 0
    else
      var n := |steps| - 1;
      var b := BusExec(hiCap, loCap, steps[..n]).value;
      var before := RefusedCalls(hiCap, loCap, steps[..n], hi, priority);
      match steps[n]
      case Finish(side, t) =>
        var pc := Side(b, side).producers[t];
        if side == hi && !pc.ok && pc.rec.priority == priority then before + 1 else before
      case _ => before
  }

  ghost predicate Routed(b: Bus) {
    && (forall t | t in b.hi.producers :: b.hi.producers[t].rec.priority <= 1)
    && (forall t | t in b.lo.producers :: b.lo.producers[t].rec.priority >= 2)
  }

  lemma ProducersStep(q: Queue, step: Step)
    requires Shape(q) && Enabled(q, step) && !step.PushCall? && !step.PushExit?
    ensures Apply(q, step).producers.Keys == q.producers.Keys
    ensures forall t | t in q.producers :: Apply(q, step).producers[t].rec == q.producers[t].rec
  {
  }

  lemma SameKeysSameSize(m: map<Tid, PushPc>, m': map<Tid, PushPc>)
    requires m.Keys == m'.Keys
    ensures |m| == |m'|
  {
    assert |m.Keys| == |m| && |m'.Keys| == |m'|;
  }

  ghost predicate Balanced(b: Bus)
    requires BusShape(b)
  {
    b.offered == b.pushed + DropTotal(b) + b.uncounted + InFlight(b)
  }

  ghost predicate DropsOnOwnSide(b: Bus)
    requires BusShape(b)
  {
    b.dropsHi[2] == b.dropsHi[3] == b.dropsLo[0] == b.dropsLo[1] == 0
  }

  lemma OfferBalances(b: Bus, t: Tid, rec: EventRecord)
    requires BusShape(b) && BusEnabled(b, Offer(t, rec)) && Balanced(b)
    ensures Balanced(BusApply(b, Offer(t, rec)))
  {
    hide Slot;
    var q := Side(b, RoutesHi(rec));
    assert |q.producers[t := Start(rec)]| == |q.producers| + 1;
  }

  lemma InsideBalances(b: Bus, hi: bool, step: Step)
    requires BusShape(b) && BusEnabled(b, Inside(hi, step)) && Balanced(b)
    ensures Balanced(BusApply(b, Inside(hi, step)))
  {
    hide Slot;
    ProducersStep(Side(b, hi), step);
    SameKeysSameSize(Side(b, hi).producers, Apply(Side(b, hi), step).producers);
  }

  lemma ExitShrinks(q: Queue, t: Tid)
    requires t in q.producers
    ensures |q.producers - {t}| == |q.producers| - 1
  {
    assert (q.producers - {t}).Keys == q.producers.Keys - {t};
    assert |(q.producers - {t}).Keys| == |q.producers - {t}|;
  }

  lemma FinishBalances(b: Bus, hi: bool, t: Tid)
    requires BusShape(b) && BusEnabled(b, Finish(hi, t)) && Balanced(b)
    ensures Balanced(BusApply(b, Finish(hi, t)))
  {
    hide Apply;
    var q := Side(b, hi);
    assert Apply(q, PushExit(t)).producers == q.producers - {t} by { ExitDrops(q, t); }
    ExitShrinks(q, t);
    var p := q.producers[t].rec.priority;
    if p == 0 {} else if p == 1 {} else if p == 2 {} else if p == 3 {}
  }

  lemma ExitDrops(q: Queue, t: Tid)
    requires Shape(q) && Enabled(q, PushExit(t))
    ensures Apply(q, PushExit(t)).producers == q.producers - {t}
  {
  }

  lemma StepBalances(b: Bus, s: BusStep)
    requires BusShape(b) && BusEnabled(b, s) && Balanced(b)
    ensures Balanced(BusApply(b, s))
  {
    hide BusApply;
    hide Balanced;
    match s
    case Offer(t, rec) => OfferBalances(b, t, rec);
    case Inside(hi, step) => InsideBalances(b, hi, step);
    case Finish(hi, t) => FinishBalances(b, hi, t);
  }

  lemma StepRoutes(b: Bus, s: BusStep)
    requires BusShape(b) && BusEnabled(b, s) && DropsOnOwnSide(b) && Routed(b)
    ensures DropsOnOwnSide(BusApply(b, s)) && Routed(BusApply(b, s))
  {
    hide Apply;
    match s
    case Offer(t, rec) => assert Apply(Side(b, RoutesHi(rec)), PushCall(t, rec)).producers
                              == Side(b, RoutesHi(rec)).producers[t := Start(rec)]
                                  by { CallAdds(Side(b, RoutesHi(rec)), t, rec); }
    case Inside(hi, step) => ProducersStep(Side(b, hi), step);
    case Finish(hi, t) => ExitDrops(Side(b, hi), t);
  }

  lemma CallAdds(q: Queue, t: Tid, rec: EventRecord)
    requires Shape(q) && Enabled(q, PushCall(t, rec))
    ensures Apply(q, PushCall(t, rec)).producers == q.producers[t := Start(rec)]
  {
  }

  /** The ledger of every run: each call is accepted, dropped and counted, refused outside the
      counted priorities, or still in flight; and no drop is counted on the other queue. */
  lemma {:induction false} Ledger(hiCap: nat, loCap: nat, steps: seq<BusStep>)
    requires hiCap > 0 && loCap > 0 && BusExec(hiCap, loCap, steps).Some?
    ensures Balanced(BusExec(hiCap, loCap, steps).value)
    ensures DropsOnOwnSide(BusExec(hiCap, loCap, steps).value)
    ensures Routed(BusExec(hiCap, loCap, steps).value)
  {
    hide BusApply;
    if steps != [] {
      var n := |steps| - 1;
      Ledger(hiCap, loCap, steps[..n]);
      var b := BusExec(hiCap, loCap, steps[..n]).value;
      StepBalances(b, steps[n]);
      StepRoutes(b, steps[n]);
    }
  }

  /** While every offered priority is in the counted range, nothing is lost from the books. */
  lemma {:induction false} LedgerInRange(hiCap: nat, loCap: nat, steps: seq<BusStep>)
    requires hiCap > 0 && loCap > 0 && BusExec(hiCap, loCap, steps).Some?
    requires forall s | s in steps && s.Offer? :: s.rec.priority < 4
    ensures var b := BusExec(hiCap, loCap, steps).value;
      b.offered == b.pushed + DropTotal(b) + InFlight(b)
  {
    Ledger(hiCap, loCap, steps);
    NothingUncounted(hiCap, loCap, steps);
  }

  lemma {:induction false} NothingUncounted(hiCap: nat, loCap: nat, steps: seq<BusStep>)
    requires hiCap > 0 && loCap > 0 && BusExec(hiCap, loCap, steps).Some?
    requires forall s | s in steps && s.Offer? :: s.rec.priority < 4
    ensures var b := BusExec(hiCap, loCap, steps).value;
      && b.uncounted == 0
      && (forall t | t in b.hi.producers :: b.hi.producers[t].rec.priority < 4)
      && (forall t | t in b.lo.producers :: b.lo.producers[t].rec.priority < 4)
  {
    if steps != [] {
      var n := |steps| - 1;
      NothingUncounted(hiCap, loCap, steps[..n]);
      var b := BusExec(hiCap, loCap, steps[..n]).value;
      match steps[n]
      case Inside(hi, step) => ProducersStep(Side(b, hi), step);
      case Offer(t, rec) => assert steps[n] in steps;
      case Finish(hi, t) =>
    }
  }

  /** Each drop counter is exactly the number of refused calls of its queue and priority. */
  lemma {:induction false} DropCountersExact(hiCap: nat, loCap: nat, steps: seq<BusStep>, p: nat)
    requires hiCap > 0 && loCap > 0 && BusExec(hiCap, loCap, steps).Some? && p < 4
    ensures var b := BusExec(hiCap, loCap, steps).value;
      && b.dropsHi[p] == RefusedCalls(hiCap, loCap, steps, true, p)
      && b.dropsLo[p] == RefusedCalls(hiCap, loCap, steps, false, p)
  {
    if steps != [] {
      DropCountersExact(hiCap, loCap, steps[..|steps| - 1], p);
    }
  }

  /** Each queue of the bus runs as a queue on its own, so every queue theorem applies to it. */
  lemma {:induction false} QueueRunInside(hiCap: nat, loCap: nat, steps: seq<BusStep>, hi: bool)
      returns (inner: seq<Step>)
    requires hiCap > 0 && loCap > 0 && BusExec(hiCap, loCap, steps).Some?
    ensures Exec(if hi then hiCap else loCap, inner) == Some(Side(BusExec(hiCap, loCap, steps).value, hi))
  {
    inner := [];
    if steps != [] {
      var n := |steps| - 1;
      inner := QueueRunInside(hiCap, loCap, steps[..n], hi);
      var cap := if hi then hiCap else loCap;
      match steps[n]
      case Offer(t, rec) =>
        if RoutesHi(rec) == hi {
          ExecSnoc(cap, inner, PushCall(t, rec));
          inner := inner + [PushCall(t, rec)];
        }
      case Inside(side, step) =>
        if side == hi {
          ExecSnoc(cap, inner, step);
          inner := inner + [step];
        }
      case Finish(side, t) =>
        if side == hi {
          ExecSnoc(cap, inner, PushExit(t));
          inner := inner + [PushExit(t)];
        }
    }
  }
}
