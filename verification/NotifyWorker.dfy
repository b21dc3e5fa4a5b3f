/** The sleeping and waking of the worker of src/alerts/notify_dispatcher.cpp: it waits on a
    condition variable, until a planned deadline if it has one, and no wake-up that matters is
    lost. The worker may also wake for no reason. */
module NotifyWorker {
  import opened Options
  import opened NotifyRouter
  import opened NotifySpec
  import opened NotifyLedger
  import R = NotifyReload

  /** Out of the lock, or waiting: until when, and whether it has been notified since. */
  datatype Worker = Running | Waiting(deadline: Option<int>, notified: bool)

  datatype System = System(s: State, worker: Worker)

  function Boot(start: int): System {
    System(Init(start), Running)
  }

  // ----- only the worker takes an item -----

  lemma {:induction false} FlushAllKeepsFlight(s: State, order: seq<string>)
    requires Distinct(order) && (forall k | k in order :: k in s.windows)
    ensures FlushAll(s, order).inFlight == s.inFlight
  {
    hide Enqueue;
    if order != [] {
      var n := |order| - 1;
      assert order[n] !in order[..n];
      assert order == order[..n] + [order[n]];
      FlushAllKeepsFlight(s, order[..n]);
      var r := FlushAll(s, order[..n]);
      var w := r.windows[order[n]];
      EnqueueKeepsFlight(r.(digests := r.digests + 1, digested := r.digested + w.pending), Digest(w));
    }
  }

  lemma EnqueueKeepsFlight(s: State, evt: AlertEvent)
    ensures Enqueue(s, evt).inFlight == s.inFlight
  {
    hide AlertKey;
    hide Silenced;
  }

  lemma RouteKeepsFlight(s: State, evt: AlertEvent)
    ensures Route(s, evt).inFlight == s.inFlight
  {
    hide AlertKey;
    hide WindowActive;
    hide Enqueue;
    hide SumPending;
    var key := AlertKey(evt);
    EnqueueKeepsFlight(s, evt);
    if key in s.windows {
      var w := s.windows[key];
      EnqueueKeepsFlight(s.(digests := s.digests + 1, digested := s.digested + w.pending), Digest(w));
    }
    var settled := if key in s.windows then FlushWindow(s, key) else s;
    EnqueueKeepsFlight(OpenWindow(settled, key), evt);
  }

  lemma OthersKeepFlight(s: State, op: Op)
    requires Enabled(s, op) && !op.Take? && !op.Done?
    ensures Apply(s, op).inFlight == s.inFlight
  {
    hide Route;
    hide FlushAll;
    hide Expired;
    match op
    case Reload(cfg, now, order) =>
      if TurnsAggOff(s, cfg) {
        assert forall k | k in order :: k in (set j | j in order);
        FlushAllKeepsFlight(Reconfigured(s, cfg, now), order);
      }
    case Alert(evt, now) => RouteKeepsFlight(s.(clock := now), evt);
    case Sweep(now, order) =>
      if s.cfg.aggMinutes > 0 {
        assert forall k | k in order :: k in (set j | j in order);
        assert forall k | k in order :: k in s.windows by { ExpiredAreWindows(s.(clock := now)); }
        FlushAllKeepsFlight(s.(clock := now), order);
      }
  }

  // ----- turns and calls -----

  /** Whether the alert or the reload notifies the condition variable. */
  ghost predicate Notifies(s: State, op: Op) {
    match op
    case Reload(_, _, _) => true
    case Alert(evt, now) =>
      var r := s.(clock := now);
      var key := AlertKey(evt);
      && Accepts(r, evt)
      && if s.cfg.aggMinutes > 0 then !(key in s.windows && WindowActive(r, key))
         else !Silenced(r, key) && |s.queue| < MAX_QUEUE
    case _ => false
  }

  /** What one thread does in one go under the lock: a caller's alert or reload; the worker's
      sweep, after which it waits or takes an item; the worker's return from sending. */
  datatype Act =
    | Call(op: Op)
    | Turn(now: int, order: seq<string>, deadline: Option<int>)
    | Sent(ok: bool)

  ghost predicate CanAct(b: System, act: Act) {
    match act
    case Call(op) => (op.Reload? || op.Alert?) && Enabled(b.s, op)
    case Turn(now, order, deadline) =>
      && Enabled(b.s, Sweep(now, order))
      && IsDeadline(Apply(b.s, Sweep(now, order)), deadline)
    case Sent(ok) => Enabled(b.s, Done(ok))
  }

  ghost function Next(b: System, act: Act): System
    requires CanAct(b, act)
  {
    match act
    case Call(op) =>
      var worker := if b.worker.Waiting? && Notifies(b.s, op) then b.worker.(notified := true) else b.worker;
      System(Apply(b.s, op), worker)
    case Turn(now, order, deadline) =>
      var swept := Apply(b.s, Sweep(now, order));
      OthersKeepFlight(b.s, Sweep(now, order));
      if swept.queue == [] then System(swept, Waiting(deadline, false)) else System(Apply(swept, Take), Running)
    case Sent(ok) => System(Apply(b.s, Done(ok)), Running)
  }

  ghost function Run(start: int, acts: seq<Act>): Option<System> {
    if acts == [] then Some(Boot(start))
    else
      var n := |acts| - 1;
      match Run(start, acts[..n])
      case None => None
      case Some(b) => if CanAct(b, acts[n]) then Some(Next(b, acts[n])) else None
  }

  /** A worker that waits without having been notified has nothing to do before its deadline. */
  ghost predicate Rested(b: System) {
    b.worker.Waiting? && !b.worker.notified ==>
      && b.s.queue == []
      && forall k | k in b.s.windows :: b.worker.deadline.Some? && b.worker.deadline.value <= Deadline(b.s, k)
  }

  ghost predicate Inv(b: System) {
    Books(b.s) && (b.worker.Waiting? ==> b.s.inFlight.None?) && Rested(b)
  }

  // ----- what a call leaves alone when it notifies nobody -----

  /** A merged alert changes no window's start and queues nothing. */
  lemma MergeKeepsPlan(s: State, key: string, evt: AlertEvent)
    requires key in s.windows
    ensures var r := MergeAlert(s, key, evt);
      && r.queue == s.queue && r.inFlight == s.inFlight && r.windows.Keys == s.windows.Keys
      && forall k | k in s.windows :: Deadline(r, k) == Deadline(s, k)
  {
    assert MergeAlert(s, key, evt).windows.Keys == s.windows.Keys + {key};
  }

  /** An alert that notifies nobody queues nothing and opens no window. */
  lemma SilentCallKeepsPlan(s: State, evt: AlertEvent, now: int)
    requires Enabled(s, Alert(evt, now)) && !Notifies(s, Alert(evt, now))
    ensures var r := Apply(s, Alert(evt, now));
      && r.queue == s.queue && r.windows.Keys == s.windows.Keys
      && forall k | k in s.windows :: Deadline(r, k) == Deadline(s, k)
  {
    hide AlertKey;
    hide WindowActive;
    hide Silenced;
    hide Accepts;
    var t := s.(clock := now);
    if Accepts(t, evt) && s.cfg.aggMinutes > 0 {
      MergeKeepsPlan(t, AlertKey(evt), evt);
    }
  }

  // ----- no wake-up is lost -----

  lemma CallKeepsInv(b: System, op: Op)
    requires Inv(b) && CanAct(b, Call(op))
    ensures Inv(Next(b, Call(op)))
  {
    hide Apply;
    hide Enabled;
    hide Books;
    hide Notifies;
    StepBooks(b.s, op);
    OthersKeepFlight(b.s, op);
    if op.Alert? && !Notifies(b.s, op) {
      SilentCallKeepsPlan(b.s, op.evt, op.now);
    } else {
      assert op.Reload? ==> Notifies(b.s, op) by { ReloadNotifies(b.s, op); }
    }
  }

  lemma ReloadNotifies(s: State, op: Op)
    ensures op.Reload? ==> Notifies(s, op)
  {
  }

  /** A planned deadline is no later than any window's end. */
  lemma PlanIsSound(s: State, deadline: Option<int>)
    requires IsDeadline(s, deadline) && Books(s)
    ensures forall k | k in s.windows :: deadline.Some? && deadline.value <= Deadline(s, k)
  {
    hide Deadline;
  }

  lemma TurnKeepsInv(b: System, now: int, order: seq<string>, deadline: Option<int>)
    requires Inv(b) && CanAct(b, Turn(now, order, deadline))
    ensures Inv(Next(b, Turn(now, order, deadline)))
  {
    hide Books;
    hide IsDeadline;
    hide Deadline;
    var swept := Apply(b.s, Sweep(now, order));
    StepBooks(b.s, Sweep(now, order));
    OthersKeepFlight(b.s, Sweep(now, order));
    PlanIsSound(swept, deadline);
    SweepFindsIdle(b.s, now, order);
    if swept.queue != [] {
      StepBooks(swept, Take);
    }
  }

  lemma SweepFindsIdle(s: State, now: int, order: seq<string>)
    requires Enabled(s, Sweep(now, order))
    ensures s.inFlight.None?
  {
  }

  lemma NextKeepsInv(b: System, act: Act)
    requires Inv(b) && CanAct(b, act)
    ensures Inv(Next(b, act))
  {
    hide Inv;
    match act
    case Call(op) => CallKeepsInv(b, op);
    case Turn(now, order, deadline) => TurnKeepsInv(b, now, order, deadline);
    case Sent(ok) => SentKeepsInv(b, ok);
  }

  lemma SentKeepsInv(b: System, ok: bool)
    requires Inv(b) && CanAct(b, Sent(ok))
    ensures Inv(Next(b, Sent(ok)))
  {
    hide Books;
    StepBooks(b.s, Done(ok));
  }

  /** In every run, a worker that waits without having been notified sees an empty queue, and its
      deadline is no later than the end of any live window. */
  lemma {:induction false} NoWakeupIsLost(start: int, acts: seq<Act>)
    requires Run(start, acts).Some?
    ensures Inv(Run(start, acts).value) && Rested(Run(start, acts).value)
  {
    hide Next;
    hide CanAct;
    if acts == [] {
      LedgerHolds(start, []);
      R.EmptyRun(start);
    } else {
      var n := |acts| - 1;
      NoWakeupIsLost(start, acts[..n]);
      NextKeepsInv(Run(start, acts[..n]).value, acts[n]);
    }
  }

  lemma OpeningLeavesWindow(s: State, evt: AlertEvent)
    requires s.cfg.aggMinutes > 0
    ensures AlertKey(evt) in Route(s, evt).windows
  {
    hide AlertKey;
    hide WindowActive;
    hide Enqueue;
    hide FlushWindow;
    hide SumPending;
    var key := AlertKey(evt);
    var settled := if key in s.windows then FlushWindow(s, key) else s;
    EnqueueKeepsNotifier(OpenWindow(settled, key), evt);
  }

  lemma LoudIsQueued(s: State, evt: AlertEvent)
    requires !Silenced(s, AlertKey(evt)) && |s.queue| < MAX_QUEUE
    ensures Enqueue(s, evt).queue == s.queue + [evt]
  {
    hide AlertKey;
    hide Silenced;
  }

  /** Every notification of an alert matters: left out while the worker waits without a deadline,
      it leaves a queued item or a window's end that nothing wakes the worker for. */
  lemma EveryWakeIsNeeded(b: System, op: Op)
    requires b.worker == Waiting(None, false)
    requires op.Alert? && Enabled(b.s, op) && Notifies(b.s, op)
    ensures !Rested(System(Apply(b.s, op), b.worker))
  {
    hide AlertKey;
    hide WindowActive;
    hide Silenced;
    hide Enqueue;
    hide FlushWindow;
    hide OpenWindow;
    hide Deadline;
    var t := b.s.(clock := op.now);
    if b.s.cfg.aggMinutes > 0 {
      OpeningLeavesWindow(t, op.evt);
      hide Route;
    } else {
      LoudIsQueued(t, op.evt);
    }
  }

  /** Something is there for the worker to do. */
  predicate HasWork(s: State) {
    s.queue != [] || exists k :: k in s.windows && !WindowActive(s, k)
  }

  /** In every run the worker that has something to do is not asleep: it is out of the lock, has
      been notified, or its deadline has passed. */
  lemma WorkWakes(start: int, acts: seq<Act>)
    requires Run(start, acts).Some? && HasWork(Run(start, acts).value.s)
    ensures var b := Run(start, acts).value;
      b.worker.Waiting? ==>
        b.worker.notified || (b.worker.deadline.Some? && b.worker.deadline.value <= b.s.clock)
  {
    hide Run;
    hide Deadline;
    NoWakeupIsLost(start, acts);
    var b := Run(start, acts).value;
    hide Books;
    if b.s.queue == [] {
      var k :| k in b.s.windows && !WindowActive(b.s, k);
      EndedIsPast(b.s, k);
    }
  }

  lemma EndedIsPast(s: State, key: string)
    requires Books(s) && key in s.windows && !WindowActive(s, key)
    ensures Deadline(s, key) <= s.clock
  {
    OpenWindowEndsLater(s, key);
  }

  // ----- the worker's runs are runs of the dispatcher -----

  /** The dispatcher's steps in a run of the system. */
  ghost function StepsOf(start: int, acts: seq<Act>): seq<Op>
    requires Run(start, acts).Some?
  {
    if acts == [] then []
    else
      var n := |acts| - 1;
      StepsOf(start, acts[..n]) + StepsOfAct(Run(start, acts[..n]).value, acts[n])
  }

  ghost function StepsOfAct(b: System, act: Act): seq<Op>
    requires CanAct(b, act)
  {
    match act
    case Call(op) => [op]
    case Turn(now, order, _) =>
      if Apply(b.s, Sweep(now, order)).queue == [] then [Sweep(now, order)] else [Sweep(now, order), Take]
    case Sent(ok) => [Done(ok)]
  }

  /** What holds in every run of the dispatcher holds while the worker sleeps and wakes. */
  lemma {:induction false} RunsAreRuns(start: int, acts: seq<Act>)
    requires Run(start, acts).Some?
    ensures Exec(start, StepsOf(start, acts)) == Some(Run(start, acts).value.s)
  {
    if acts == [] {
      R.EmptyRun(start);
    } else {
      hide Exec;
      var n := |acts| - 1;
      RunsAreRuns(start, acts[..n]);
      ActIsSteps(start, StepsOf(start, acts[..n]), Run(start, acts[..n]).value, acts[n]);
    }
  }

  lemma ActIsSteps(start: int, ops: seq<Op>, b: System, act: Act)
    requires CanAct(b, act) && Exec(start, ops) == Some(b.s)
    ensures Exec(start, ops + StepsOfAct(b, act)) == Some(Next(b, act).s)
  {
    hide Exec;
    hide Apply;
    match act
    case Call(op) => R.ExecOne(start, ops, op);
    case Sent(ok) => R.ExecOne(start, ops, Done(ok));
    case Turn(now, order, deadline) =>
      var sweep := Sweep(now, order);
      R.ExecOne(start, ops, sweep);
      if Apply(b.s, sweep).queue != [] {
        OthersKeepFlight(b.s, sweep);
        R.ExecOne(start, ops + [sweep], Take);
        assert ops + [sweep] + [Take] == ops + [sweep, Take];
      }
  }

  // ----- the worker is never stuck -----

  lemma {:induction false} EarliestEnd(s: State, keys: set<string>) returns (key: string)
    requires keys != {} && keys <= s.windows.Keys
    ensures key in keys && forall k | k in keys :: Deadline(s, key) <= Deadline(s, k)
    decreases |keys|
  {
    hide Deadline;
    key :| key in keys;
    if keys != {key} {
      assert keys == keys - {key} + {key};
      var other := EarliestEnd(s, keys - {key});
      if Deadline(s, other) < Deadline(s, key) {
        key := other;
      }
    }
  }

  lemma DeadlineExists(s: State) returns (deadline: Option<int>)
    ensures IsDeadline(s, deadline)
  {
    hide Deadline;
    deadline := None;
    if s.cfg.aggMinutes > 0 && s.windows != map[] {
      assert s.windows.Keys != {};
      var key := EarliestEnd(s, s.windows.Keys);
      deadline := Some(Deadline(s, key));
    }
  }

  /** A worker that is not sending can take its turn at any later time. */
  lemma TurnIsOpen(b: System, now: int) returns (act: Act)
    requires b.s.inFlight.None? && now >= b.s.clock
    ensures act.Turn? && act.now == now && CanAct(b, act)
  {
    hide Apply;
    var order := R.OrderExists(Expired(b.s.(clock := now)));
    var deadline := DeadlineExists(Apply(b.s, Sweep(now, order)));
    act := Turn(now, order, deadline);
  }
}
