/** What emptying the URL can do to the worker of src/alerts/notify_dispatcher.cpp: after some
    reloads it can take an item and have no notifier to send it with. */
module NotifyReload {
  import opened Options
  import opened NotifyRouter
  import opened NotifySpec
  import opened NotifyLedger

  /** The worker can take an item, and the notifier it would take along is not there. */
  predicate Stranded(s: State) {
    Enabled(s, Take) && s.notifier.None?
  }

  predicate ReloadFree(ops: seq<Op>) {
    forall i | 0 <= i < |ops| :: !ops[i].Reload?
  }

  /** `more` continues the run without another reload and strands the worker. */
  ghost predicate Strands(start: int, ops: seq<Op>, more: seq<Op>) {
    && ReloadFree(more)
    && Exec(start, ops + more).Some?
    && Stranded(Exec(start, ops + more).value)
  }

  /** A URL is configured, an alert is queued, and the URL is emptied before the worker gets to
      the queue. */
  lemma StrandedRun(start: int, evt: AlertEvent) returns (ops: seq<Op>)
    requires evt.severity == "critical"
    ensures Exec(start, ops).Some? && Stranded(Exec(start, ops).value)
    ensures Exec(start, ops).value.queue == [evt] && Exec(start, ops).value.cfg.url == ""
  {
    hide Exec;
    hide Apply;
    hide Enabled;
    var first, alert := Reload(WithUrl("https://hook"), start, []), Alert(evt, start);
    var last := Reload(WithUrl(""), start, []);
    EmptyRun(start);
    ops := [];
    FirstStep(start);
    ExecOne(start, ops, first);
    ops := ops + [first];
    QueueStep(Exec(start, ops).value, evt, start);
    ExecOne(start, ops, alert);
    ops := ops + [alert];
    LastStep(Exec(start, ops).value, start);
    ExecOne(start, ops, last);
    ops := ops + [last];
  }

  /** Everything is routed at once: no silence, no aggregation. */
  function WithUrl(url: string): Config {
    Config(true, url, "low", 0, 0)
  }

  lemma EmptyRun(start: int)
    ensures Exec(start, []) == Some(Init(start))
  {
  }

  /** Nothing is queued, nothing waits in a window, and nothing is being sent. */
  predicate Idle(s: State, start: int) {
    s.queue == [] && s.windows == map[] && s.inFlight.None? && s.clock == start
  }

  lemma FirstStep(start: int)
    ensures Enabled(Init(start), Reload(WithUrl("https://hook"), start, []))
    ensures var r := Apply(Init(start), Reload(WithUrl("https://hook"), start, []));
      Idle(r, start) && r.cfg == WithUrl("https://hook") && r.notifier.Some?
  {
    assert IsOrderOf([], Init(start).windows.Keys);
  }

  lemma QueueStep(s: State, evt: AlertEvent, start: int)
    requires Idle(s, start) && s.cfg == WithUrl("https://hook") && s.notifier.Some? && evt.severity == "critical"
    ensures Enabled(s, Alert(evt, start))
    ensures var r := Apply(s, Alert(evt, start));
      r.queue == [evt] && r.windows == map[] && r.inFlight.None? && r.clock == start && r.cfg == s.cfg
  {
    hide AlertKey;
    assert Accepts(s.(clock := start), evt);
    assert !Silenced(s.(clock := start), AlertKey(evt));
  }

  lemma LastStep(s: State, start: int)
    requires s.queue != [] && s.inFlight.None? && s.clock == start && s.cfg == WithUrl("https://hook")
    ensures Enabled(s, Reload(WithUrl(""), start, []))
    ensures var r := Apply(s, Reload(WithUrl(""), start, []));
      Enabled(r, Take) && r.notifier.None? && r.queue == s.queue && r.cfg.url == ""
  {
  }

  lemma ExecOne(start: int, ops: seq<Op>, op: Op)
    requires Exec(start, ops).Some? && Enabled(Exec(start, ops).value, op)
    ensures Exec(start, ops + [op]) == Some(Apply(Exec(start, ops).value, op))
  {
    assert (ops + [op])[..|ops|] == ops;
  }

  lemma {:induction false} UrlMeansNotifier(start: int, ops: seq<Op>)
    requires Exec(start, ops).Some?
    ensures Exec(start, ops).value.cfg.url == "" <==> Exec(start, ops).value.notifier.None?
  {
    hide Apply;
    if ops != [] {
      var n := |ops| - 1;
      UrlMeansNotifier(start, ops[..n]);
      StepKeepsUrl(Exec(start, ops[..n]).value, ops[n]);
    }
  }

  // ----- which states strand the worker -----

  lemma {:induction false} DeliverableStays(start: int, ops: seq<Op>, more: seq<Op>)
    requires Exec(start, ops).Some? && Deliverable(Exec(start, ops).value)
    requires ReloadFree(more) && Exec(start, ops + more).Some?
    ensures Deliverable(Exec(start, ops + more).value)
    decreases |more|
  {
    hide Apply;
    hide Deliverable;
    if more == [] {
      assert ops + more == ops;
    } else {
      var n := |more| - 1;
      assert (ops + more)[..|ops + more| - 1] == ops + more[..n];
      DeliverableStays(start, ops, more[..n]);
      UrlMeansNotifier(start, ops + more[..n]);
      StepDeliverable(Exec(start, ops + more[..n]).value, more[n]);
    }
  }

  lemma {:induction false} OrderExists(keys: set<string>) returns (order: seq<string>)
    ensures IsOrderOf(order, keys)
    decreases |keys|
  {
    order := [];
    if keys != {} {
      var k :| k in keys;
      var rest := OrderExists(keys - {k});
      assert k !in (set j | j in rest);
      order := rest + [k];
      assert (set j | j in order) == (set j | j in rest) + {k};
    }
  }

  /** A time at which the window has ended and nothing silences its digest. */
  function LateEnough(s: State, key: string): int
    requires key in s.windows
  {
    var sent := AlertKey(Digest(s.windows[key]));
    var end := s.windows[key].start + s.cfg.aggMinutes * 60 * TICKS_PER_SECOND;
    var free := if sent in s.lastSent then s.lastSent[sent] + s.cfg.silenceMinutes * 60 * TICKS_PER_SECOND else end;
    var later := if end > free then end else free;
    if later > s.clock then later else s.clock
  }

  lemma LateIsLoud(s: State, key: string)
    requires key in s.windows && s.windows[key].pending > 0
    ensures var late := s.(clock := LateEnough(s, key));
      LateEnough(s, key) >= s.clock && key in Expired(late) && !Quiet(late, key)
  {
    hide AlertKey;
    hide Digest;
    var late := s.(clock := LateEnough(s, key));
    var sent := AlertKey(Digest(s.windows[key]));
    assert !WindowActive(late, key);
    assert late.lastSent == s.lastSent && late.cfg == s.cfg && late.windows == s.windows;
    assert !Silenced(late, sent);
  }

  lemma SweepNow(s: State, now: int, order: seq<string>)
    requires Enabled(s, Sweep(now, order)) && s.cfg.aggMinutes > 0
    ensures forall k | k in order :: k in s.windows
    ensures Apply(s, Sweep(now, order)) == FlushAll(s.(clock := now), order)
    ensures forall k :: k in order <==> k in Expired(s.(clock := now))
  {
    hide FlushAll;
    hide Expired;
    ExpiredAreWindows(s.(clock := now));
    assert (set j | j in order) == Expired(s.(clock := now));
    assert forall k :: k in order <==> k in (set j | j in order);
    assert s.(clock := now).windows == s.windows;
  }

  /** A sweep of an empty queue fills it exactly when some window that has ended has merged alerts
      whose digest is not silenced at that time. */
  lemma SweepQueuesIff(s: State, now: int, order: seq<string>)
    requires Enabled(s, Sweep(now, order)) && s.cfg.aggMinutes > 0 && s.queue == []
    ensures Apply(s, Sweep(now, order)).queue == [] <==>
              forall k | k in Expired(s.(clock := now)) :: Quiet(s.(clock := now), k)
  {
    hide FlushAll;
    hide Quiet;
    hide Expired;
    hide Enabled;
    SweepIsOrder(s, now, order);
    SweepNow(s, now, order);
    FlushAllQueues(s.(clock := now), order);
    hide Apply;
    ExpiredAreWindows(s.(clock := now));
  }

  lemma SweepIsOrder(s: State, now: int, order: seq<string>)
    requires Enabled(s, Sweep(now, order)) && s.cfg.aggMinutes > 0
    ensures Distinct(order) && s.inFlight.None?
  {
  }

  /** A sweep late enough queues the digest of a window with merged alerts. */
  lemma LateSweep(s: State, key: string) returns (sweep: Op)
    requires s.queue == [] && s.inFlight.None? && s.cfg.aggMinutes > 0 && Books(s)
    requires key in s.windows && s.windows[key].pending > 0
    ensures sweep.Sweep? && Enabled(s, sweep)
    ensures Apply(s, sweep).queue != [] && Apply(s, sweep).inFlight.None? && Apply(s, sweep).notifier == s.notifier
  {
    hide FlushAll;
    hide Quiet;
    hide Expired;
    hide LateEnough;
    LateIsLoud(s, key);
    var now := LateEnough(s, key);
    var late := s.(clock := now);
    var order := OrderExists(Expired(late));
    sweep := Sweep(now, order);
    SweepQueuesIff(s, now, order);
    SweepNow(s, now, order);
    LateBooks(s, now);
    FlushAllBooks(late, order);
  }

  lemma LateBooks(s: State, now: int)
    requires Books(s)
    ensures var late := s.(clock := now); AlertsBalance(late) && MergesBalance(late) && Bounded(late)
  {
    hide SumPending;
  }

  lemma StrandingRun(start: int, ops: seq<Op>) returns (more: seq<Op>)
    requires Exec(start, ops).Some? && !Deliverable(Exec(start, ops).value)
    ensures Strands(start, ops, more)
  {
    hide Exec;
    hide Books;
    hide Apply;
    var s := Exec(start, ops).value;
    more := BecomeIdle(start, ops);
    var idle := Exec(start, ops + more).value;
    if idle.queue == [] {
      var key :| key in idle.windows && idle.windows[key].pending > 0;
      LedgerHolds(start, ops + more);
      PendingNeedsAggregation(idle, key);
      var sweep := LateSweep(idle, key);
      ExecOne(start, ops + more, sweep);
      assert ops + more + [sweep] == ops + (more + [sweep]);
      more := more + [sweep];
    }
  }

  /** Whatever is being sent gets done; the rest stays as it is. */
  lemma BecomeIdle(start: int, ops: seq<Op>) returns (more: seq<Op>)
    requires Exec(start, ops).Some?
    ensures ReloadFree(more) && Exec(start, ops + more).Some?
    ensures var s, idle := Exec(start, ops).value, Exec(start, ops + more).value;
      && idle.inFlight.None? && idle.queue == s.queue && idle.windows == s.windows && idle.notifier == s.notifier
  {
    hide Exec;
    more := [];
    assert ops + more == ops;
    if Exec(start, ops).value.inFlight.Some? {
      ExecOne(start, ops, Done(true));
      more := [Done(true)];
    }
  }

  lemma PendingNeedsAggregation(s: State, key: string)
    requires Books(s) && key in s.windows
    ensures s.cfg.aggMinutes > 0
  {
  }

  /** From a reachable state some reload-free continuation strands the worker if and only if there
      is no notifier and something waits: a queued item, or a window with merged alerts, whose
      digest a late enough sweep queues. */
  lemma StrandsIff(start: int, ops: seq<Op>)
    requires Exec(start, ops).Some?
    ensures (exists more :: Strands(start, ops, more)) <==> !Deliverable(Exec(start, ops).value)
  {
    hide Exec;
    if Deliverable(Exec(start, ops).value) {
      forall more | Strands(start, ops, more)
        ensures false
      {
        DeliverableStays(start, ops, more);
      }
    } else {
      var more := StrandingRun(start, ops);
    }
  }

  /** A reload of a run in which everything had a notifier can strand the worker, without another
      reload, if and only if it empties the URL while the queue is not empty or some window has
      merged alerts; if it turns aggregation off, while the digest of some such window is not
      silenced under the new configuration. */
  lemma ReloadStrandsIff(start: int, ops: seq<Op>, cfg: Config, now: int, order: seq<string>)
    requires Exec(start, ops).Some? && Deliverable(Exec(start, ops).value)
    requires Enabled(Exec(start, ops).value, Reload(cfg, now, order))
    ensures var s := Exec(start, ops).value;
      (exists more :: Strands(start, ops + [Reload(cfg, now, order)], more)) <==>
        && cfg.url == ""
        && (|| s.queue != []
            || if TurnsAggOff(s, cfg) then exists k :: k in s.windows && !Quiet(Reconfigured(s, cfg, now), k)
               else exists k :: k in s.windows && s.windows[k].pending > 0)
  {
    hide Exec;
    hide Apply;
    hide Deliverable;
    hide Strands;
    hide Quiet;
    UrlMeansNotifier(start, ops);
    ExecOne(start, ops, Reload(cfg, now, order));
    StrandsIff(start, ops + [Reload(cfg, now, order)]);
    ReloadDeliverableIff(Exec(start, ops).value, cfg, now, order);
  }
}
