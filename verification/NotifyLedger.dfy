/** What the dispatcher keeps in every reachable state: the ledger of alerts and digests, the
    ledger of merged alerts, and the spacing that silencing promises. */
module NotifyLedger {
  import opened Options
  import opened NotifyRouter
  import opened NotifySpec

  function InFlightCount(s: State): nat {
    if s.inFlight.Some? then 1 else 0
  }

  /** Every routed alert and every digest is merged, suppressed, dropped, queued, in flight,
      sent or failed. */
  predicate AlertsBalance(s: State) {
    s.routed + s.digests == s.merged + s.suppressed + s.dropped + |s.queue| + InFlightCount(s) + s.sent + s.failed
  }

  /** Every merged alert is counted in a digest, waits in a live window, or was discarded when
      the window map was cleared. */
  ghost predicate MergesBalance(s: State) {
    s.merged == s.digested + SumPending(s.windows) + s.discarded
  }

  predicate Bounded(s: State) {
    |s.queue| <= MAX_QUEUE && |s.windows| <= MAX_KEYS && |s.lastSent| <= MAX_KEYS
  }

  /** Windows exist only while aggregation is on. */
  predicate WindowsNeedAggregation(s: State) {
    s.cfg.aggMinutes <= 0 ==> s.windows == map[]
  }

  ghost predicate Books(s: State) {
    AlertsBalance(s) && MergesBalance(s) && Bounded(s) && WindowsNeedAggregation(s)
  }

  lemma CardinalityOfUpdate<V>(m: map<string, V>, k: string, v: V)
    ensures |m[k := v]| <= |m| + 1
    ensures k in m ==> |m[k := v]| == |m|
  {
    assert |m.Keys| == |m| && |m[k := v].Keys| == |m[k := v]|;
    assert m[k := v].Keys == m.Keys + {k};
    if k in m {
      assert m[k := v].Keys == m.Keys;
    } else {
      assert |m.Keys + {k}| == |m.Keys| + 1;
    }
  }

  lemma CardinalityOfRemoval<V>(m: map<string, V>, ks: set<string>)
    ensures |m - ks| <= |m|
  {
    assert |(m - ks).Keys| == |m - ks| && |m.Keys| == |m|;
    assert (m - ks).Keys == m.Keys - ks;
    SubsetSize(m.Keys - ks, m.Keys);
  }

  lemma {:induction false} SubsetSize(a: set<string>, b: set<string>)
    requires a <= b
    ensures |a| <= |b|
  {
    if a != {} {
      var x :| x in a;
      SubsetSize(a - {x}, b - {x});
    }
  }

  /** Offering one item ends in exactly one of suppressed, dropped and queued, and touches no
      other account. */
  lemma EnqueueAccounts(s: State, evt: AlertEvent)
    requires Bounded(s)
    ensures var r := Enqueue(s, evt);
      && r.suppressed + r.dropped + |r.queue| == s.suppressed + s.dropped + |s.queue| + 1
      && Bounded(r)
      && (r.cfg, r.notifier, r.windows, r.inFlight, r.clock) == (s.cfg, s.notifier, s.windows, s.inFlight, s.clock)
      && (r.sent, r.failed, r.merged, r.routed, r.digests, r.digested, r.discarded)
         == (s.sent, s.failed, s.merged, s.routed, s.digests, s.digested, s.discarded)
  {
    hide AlertKey;
    CardinalityOfUpdate(s.lastSent, AlertKey(evt), s.clock);
    assert |map[AlertKey(evt) := s.clock]| == 1;
  }

  lemma FlushBooks(s: State, key: string)
    requires key in s.windows && AlertsBalance(s) && MergesBalance(s) && Bounded(s)
    ensures AlertsBalance(FlushWindow(s, key)) && MergesBalance(FlushWindow(s, key)) && Bounded(FlushWindow(s, key))
    ensures FlushWindow(s, key).notifier == s.notifier && FlushWindow(s, key).inFlight == s.inFlight
    ensures FlushWindow(s, key).routed == s.routed
  {
    hide Enqueue;
    hide Digest;
    var w := s.windows[key];
    SumRemove(s.windows, key);
    CardinalityOfRemoval(s.windows, {key});
    if w.pending > 0 {
      EnqueueAccounts(s.(digests := s.digests + 1, digested := s.digested + w.pending), Digest(w));
    }
  }

  lemma {:induction false} FlushAllBooks(s: State, order: seq<string>)
    requires Distinct(order) && (forall k | k in order :: k in s.windows)
    requires AlertsBalance(s) && MergesBalance(s) && Bounded(s)
    ensures var r := FlushAll(s, order);
      AlertsBalance(r) && MergesBalance(r) && Bounded(r) && r.notifier == s.notifier && r.inFlight == s.inFlight
  {
    hide AlertsBalance;
    hide MergesBalance;
    hide Bounded;
    hide FlushWindow;
    if order != [] {
      var n := |order| - 1;
      assert order[n] !in order[..n];
      assert order == order[..n] + [order[n]];
      FlushAllBooks(s, order[..n]);
      FlushBooks(FlushAll(s, order[..n]), order[n]);
    }
  }

  lemma OpenBooks(s: State, key: string)
    requires MergesBalance(s) && Bounded(s) && key !in s.windows
    ensures MergesBalance(OpenWindow(s, key)) && Bounded(OpenWindow(s, key))
    ensures AlertsBalance(s) ==> AlertsBalance(OpenWindow(s, key))
  {
    var w := AggWindow(s.clock, 0, NO_ALERT, NO_ALERT);
    SumUpdate(s.windows, key, w);
    CardinalityOfUpdate(s.windows, key, w);
    var none: map<string, AggWindow> := map[];
    SumUpdate(none, key, w);
    assert none[key := w] == map[key := w] && none - {key} == none;
    assert |map[key := w]| == 1;
  }

  lemma MergeBooks(s: State, key: string, evt: AlertEvent)
    requires MergesBalance(s) && Bounded(s) && key in s.windows
    ensures MergesBalance(MergeAlert(s, key, evt)) && Bounded(MergeAlert(s, key, evt))
  {
    var r := MergeAlert(s, key, evt);
    SumUpdate(s.windows, key, r.windows[key]);
    CardinalityOfUpdate(s.windows, key, r.windows[key]);
  }

  lemma RouteBooks(s: State, evt: AlertEvent)
    requires Books(s)
    ensures Books(Route(s, evt).(routed := s.routed + 1))
  {
    hide AlertKey;
    hide WindowActive;
    var key := AlertKey(evt);
    if s.cfg.aggMinutes <= 0 {
      SendBooks(s, s, evt);
    } else if key in s.windows && WindowActive(s, key) {
      MergeBooks(s, key, evt);
      SameWindowsBalance(MergeAlert(s, key, evt), MergeAlert(s, key, evt).(routed := s.routed + 1));
    } else {
      var settled := if key in s.windows then FlushWindow(s, key) else s;
      SettleBooks(s, key);
      OpenBooks(settled, key);
      SendBooks(s, OpenWindow(settled, key), evt);
    }
  }

  lemma SettleBooks(s: State, key: string)
    requires Books(s)
    ensures var r := if key in s.windows then FlushWindow(s, key) else s;
      AlertsBalance(r) && MergesBalance(r) && Bounded(r) && r.routed == s.routed && r.cfg == s.cfg
  {
    hide FlushWindow;
    if key in s.windows {
      FlushBooks(s, key);
    }
  }

  /** Offering the routed alert itself, once the windows are settled. */
  lemma SendBooks(s: State, ready: State, evt: AlertEvent)
    requires AlertsBalance(ready) && MergesBalance(ready) && Bounded(ready) && WindowsNeedAggregation(ready)
    requires ready.routed == s.routed
    ensures Books(Enqueue(ready, evt).(routed := s.routed + 1))
  {
    hide Enqueue;
    hide MergesBalance;
    EnqueueAccounts(ready, evt);
    SameWindowsBalance(ready, Enqueue(ready, evt).(routed := s.routed + 1));
  }

  /** The merge ledger depends only on these fields. */
  lemma SameWindowsBalance(s: State, r: State)
    requires MergesBalance(s)
    requires (r.windows, r.merged, r.digested, r.discarded) == (s.windows, s.merged, s.digested, s.discarded)
    ensures MergesBalance(r)
  {
  }

  lemma StepBooks(s: State, op: Op)
    requires Books(s) && Enabled(s, op)
    ensures Books(Apply(s, op))
  {
    hide Route;
    hide FlushAll;
    hide Accepts;
    hide Expired;
    match op
    case Reload(cfg, now, order) =>
      if TurnsAggOff(s, cfg) {
        assert forall k | k in order :: k in (set j | j in order);
        FlushAllBooks(Reconfigured(s, cfg, now), order);
      }
    case Alert(evt, now) =>
      var r := s.(clock := now);
      if Accepts(r, evt) {
        SameWindowsBalance(s, r);
        RouteBooks(r, evt);
      }
    case Sweep(now, order) =>
      if s.cfg.aggMinutes > 0 {
        assert forall k | k in order :: k in (set j | j in order);
        assert forall k | k in order :: k in s.windows by { ExpiredAreWindows(s.(clock := now)); }
        FlushAllBooks(s.(clock := now), order);
      }
    case Take =>
    case Done(_) =>
  }

  lemma ExpiredAreWindows(s: State)
    ensures forall k | k in Expired(s) :: k in s.windows
  {
  }

  /** The ledger of every run, across any sequence of reloads. */
  lemma {:induction false} LedgerHolds(start: int, ops: seq<Op>)
    requires Exec(start, ops).Some?
    ensures Books(Exec(start, ops).value)
  {
    hide Apply;
    if ops != [] {
      var n := |ops| - 1;
      LedgerHolds(start, ops[..n]);
      StepBooks(Exec(start, ops[..n]).value, ops[n]);
    }
  }

  // ----- digests -----

  /** The alerts that a run merged into the window of `key` since that window was opened, read off
      the operations: each routed alert of the key opens a window or joins the open one. */
  ghost function MergedSince(start: int, ops: seq<Op>, key: string): seq<AlertEvent>
    requires Exec(start, ops).Some?
  {
    if ops == [] then []
    else
      var n := |ops| - 1;
      var before := MergedSince(start, ops[..n], key);
      match ops[n]
      case Alert(evt, now) =>
        var s := Exec(start, ops[..n]).value.(clock := now);
        if Accepts(s, evt) && s.cfg.aggMinutes > 0 && AlertKey(evt) == key then
          if key in s.windows && WindowActive(s, key) then before + [evt] else []
        else before
      case _ => before
  }

  predicate Remembers(w: AggWindow, evts: seq<AlertEvent>) {
    w.pending == |evts| && (evts != [] ==> w.first == evts[0] && w.last == evts[|evts| - 1])
  }

  /** A window that an alert leaves behind was there before, gained the alert, or is fresh. */
  lemma AlertWindows(s: State, evt: AlertEvent, key: string)
    requires key in Route(s, evt).windows
    ensures var w := Route(s, evt).windows[key];
      if s.cfg.aggMinutes > 0 && AlertKey(evt) == key then
        if key in s.windows && WindowActive(s, key) then
          forall evts :: Remembers(s.windows[key], evts) ==> Remembers(w, evts + [evt])
        else Remembers(w, [])
      else key in s.windows && w == s.windows[key]
  {
    hide AlertKey;
    hide WindowActive;
    hide Enqueue;
    hide SumPending;
    var k := AlertKey(evt);
    EnqueueAccountsWindows(s, evt);
    if s.cfg.aggMinutes > 0 && !(k in s.windows && WindowActive(s, k)) {
      EnqueueAccountsWindows(OpenWindow(if k in s.windows then FlushWindow(s, k) else s, k), evt);
    }
  }

  lemma EnqueueAccountsWindows(s: State, evt: AlertEvent)
    ensures Enqueue(s, evt).windows == s.windows
  {
    hide AlertKey;
  }

  /** Reloads, sweeps and deliveries remove windows and change none. */
  lemma OtherWindows(s: State, op: Op, key: string)
    requires Enabled(s, op) && !op.Alert? && key in Apply(s, op).windows
    ensures key in s.windows && Apply(s, op).windows[key] == s.windows[key]
  {
    hide Expired;
    match op
    case Reload(cfg, now, order) =>
    case Sweep(now, order) => ExpiredAreWindows(s.(clock := now));
    case Take =>
    case Done(_) =>
  }

  /** In every run a live window holds exactly the alerts merged since it was opened, whatever
      else happened in between: how many, the first one, and the last one. */
  lemma {:induction false} WindowRemembers(start: int, ops: seq<Op>, key: string)
    requires Exec(start, ops).Some? && key in Exec(start, ops).value.windows
    ensures Remembers(Exec(start, ops).value.windows[key], MergedSince(start, ops, key))
  {
    hide Route;
    hide AlertKey;
    hide WindowActive;
    hide Remembers;
    if ops != [] {
      var n := |ops| - 1;
      var s := Exec(start, ops[..n]).value;
      if key in s.windows {
        WindowRemembers(start, ops[..n], key);
      }
      match ops[n]
      case Alert(evt, now) =>
        if Accepts(s.(clock := now), evt) {
          AlertWindows(s.(clock := now), evt, key);
        }
      case _ => OtherWindows(s, ops[n], key);
    }
  }

  /** In every run the digest that settling a window would queue counts exactly the alerts merged
      since the window was opened, carries the last one's context, and gives the first and the
      last one's times. */
  lemma DigestSummarises(start: int, ops: seq<Op>, key: string)
    requires Exec(start, ops).Some? && key in Exec(start, ops).value.windows
    requires Exec(start, ops).value.windows[key].pending > 0
    ensures var evts := MergedSince(start, ops, key);
      && evts != []
      && Digest(Exec(start, ops).value.windows[key])
         == evts[|evts| - 1].(occurrences := |evts|, firstSeen := evts[0].timestamp,
                              lastSeen := evts[|evts| - 1].timestamp)
  {
    hide Exec;
    hide MergedSince;
    WindowRemembers(start, ops, key);
  }

  // ----- spacing under silence -----

  /** Items logged since the last reload or clearing are remembered by the silence map; earlier
      or not, two items of one key and one epoch are a window apart. */
  ghost predicate Spaced(s: State) {
    && (forall i | 0 <= i < |s.log| :: s.log[i].epoch <= s.epoch && s.log[i].time <= s.clock)
    && (forall i | 0 <= i < |s.log| && s.log[i].epoch == s.epoch ::
          && s.log[i].window == s.cfg.silenceMinutes * 60 * TICKS_PER_SECOND
          && s.log[i].key in s.lastSent && s.lastSent[s.log[i].key] >= s.log[i].time)
    && (forall i, j | 0 <= i < j < |s.log| && s.log[i].key == s.log[j].key && s.log[i].epoch == s.log[j].epoch ::
          s.log[j].time - s.log[i].time >= s.log[j].window)
  }

  lemma EnqueueSpaced(s: State, evt: AlertEvent)
    requires Spaced(s)
    ensures Spaced(Enqueue(s, evt))
  {
    hide AlertKey;
  }

  lemma FlushSpaced(s: State, key: string)
    requires Spaced(s) && key in s.windows
    ensures Spaced(FlushWindow(s, key))
  {
    hide Enqueue;
    hide Digest;
    var w := s.windows[key];
    if w.pending > 0 {
      EnqueueSpaced(s.(digests := s.digests + 1, digested := s.digested + w.pending), Digest(w));
    }
  }

  lemma {:induction false} FlushAllSpaced(s: State, order: seq<string>)
    requires Spaced(s) && Distinct(order) && (forall k | k in order :: k in s.windows)
    ensures Spaced(FlushAll(s, order))
  {
    hide Spaced;
    hide FlushWindow;
    if order != [] {
      var n := |order| - 1;
      assert order[n] !in order[..n];
      assert order == order[..n] + [order[n]];
      FlushAllSpaced(s, order[..n]);
      FlushSpaced(FlushAll(s, order[..n]), order[n]);
    }
  }

  lemma RouteSpaced(s: State, evt: AlertEvent)
    requires Spaced(s)
    ensures Spaced(Route(s, evt))
  {
    hide AlertKey;
    hide Enqueue;
    hide FlushWindow;
    var key := AlertKey(evt);
    if s.cfg.aggMinutes <= 0 {
      EnqueueSpaced(s, evt);
    } else if !(key in s.windows && WindowActive(s, key)) {
      if key in s.windows {
        FlushSpaced(s, key);
      }
      var settled := if key in s.windows then FlushWindow(s, key) else s;
      EnqueueSpaced(OpenWindow(settled, key), evt);
    }
  }

  lemma ClockSpaced(s: State, now: int)
    requires Spaced(s) && now >= s.clock
    ensures Spaced(s.(clock := now))
  {
  }

  lemma ReloadSpaced(s: State, cfg: Config, now: int)
    requires Spaced(s) && now >= s.clock
    ensures Spaced(Reconfigured(s, cfg, now))
  {
  }

  /** Spacing depends only on these fields. */
  lemma SameLogSpaced(s: State, r: State)
    requires Spaced(s)
    requires (r.log, r.lastSent, r.epoch, r.clock, r.cfg) == (s.log, s.lastSent, s.epoch, s.clock, s.cfg)
    ensures Spaced(r)
  {
  }

  lemma StepSpaced(s: State, op: Op)
    requires Spaced(s) && Enabled(s, op)
    ensures Spaced(Apply(s, op))
  {
    hide Route;
    hide FlushAll;
    hide Accepts;
    hide Expired;
    hide Spaced;
    var r := Apply(s, op);
    match op
    case Reload(cfg, now, order) =>
      ReloadSpaced(s, cfg, now);
      if TurnsAggOff(s, cfg) {
        assert forall k | k in order :: k in (set j | j in order);
        FlushAllSpaced(Reconfigured(s, cfg, now), order);
      }
    case Alert(evt, now) =>
      ClockSpaced(s, now);
      var t := s.(clock := now);
      RouteSpaced(t, evt);
      if Accepts(t, evt) {
        SameLogSpaced(Route(t, evt), r);
      }
    case Sweep(now, order) =>
      ClockSpaced(s, now);
      if s.cfg.aggMinutes > 0 {
        assert forall k | k in order :: k in (set j | j in order);
        assert forall k | k in order :: k in s.windows by { ExpiredAreWindows(s.(clock := now)); }
        FlushAllSpaced(s.(clock := now), order);
      }
    case Take => SameLogSpaced(s, r);
    case Done(_) => SameLogSpaced(s, r);
  }

  /** In every run, two items queued under one key, digests included, with no reload and no
      clearing of the silence map between them, are at least the silence window apart. */
  lemma {:induction false} SpacingHolds(start: int, ops: seq<Op>)
    requires Exec(start, ops).Some?
    ensures var log := Exec(start, ops).value.log;
      forall i, j | 0 <= i < j < |log| && log[i].key == log[j].key && log[i].epoch == log[j].epoch ::
        log[j].time - log[i].time >= log[j].window
    ensures Spaced(Exec(start, ops).value)
  {
    hide Apply;
    if ops != [] {
      var n := |ops| - 1;
      SpacingHolds(start, ops[..n]);
      StepSpaced(Exec(start, ops[..n]).value, ops[n]);
    }
  }

  /** Queueing one alert ends another key's silence exactly when it overflows the silence map:
      the map is then cleared down to the new key. */
  lemma SilenceLostIffCleared(s: State, evt: AlertEvent, other: string)
    requires Silenced(s, other) && other != AlertKey(evt)
    ensures var r := Enqueue(s, evt);
      Silenced(r, other) <==>
        (Silenced(s, AlertKey(evt)) || |s.queue| >= MAX_QUEUE || |s.lastSent[AlertKey(evt) := s.clock]| <= MAX_KEYS)
  {
    hide AlertKey;
    hide SilenceWindowActive;
  }

  // ----- a notifier for every item -----

  ghost predicate NothingPending(s: State) {
    s.queue == [] && forall k | k in s.windows :: s.windows[k].pending == 0
  }

  /** Whatever is queued, now or by a later flush, finds a notifier. */
  ghost predicate Deliverable(s: State) {
    s.notifier.None? ==> NothingPending(s)
  }

  /** A reload that removes the URL only when nothing waits to be sent. */
  ghost predicate SafeReload(s: State, cfg: Config) {
    cfg.url != "" || NothingPending(s)
  }

  lemma EnqueueKeepsNotifier(s: State, evt: AlertEvent)
    ensures Enqueue(s, evt).notifier == s.notifier && Enqueue(s, evt).windows == s.windows
  {
    hide AlertKey;
  }

  lemma FlushDeliverable(s: State, key: string)
    requires key in s.windows && Deliverable(s)
    ensures Deliverable(FlushWindow(s, key)) && FlushWindow(s, key).notifier == s.notifier
  {
    hide Enqueue;
    hide Digest;
    var w := s.windows[key];
    EnqueueKeepsNotifier(s.(digests := s.digests + 1, digested := s.digested + w.pending), Digest(w));
  }

  lemma {:induction false} FlushAllDeliverable(s: State, order: seq<string>)
    requires Distinct(order) && (forall k | k in order :: k in s.windows) && Deliverable(s)
    ensures Deliverable(FlushAll(s, order))
  {
    hide FlushWindow;
    hide Deliverable;
    if order != [] {
      var n := |order| - 1;
      assert order[n] !in order[..n];
      assert order == order[..n] + [order[n]];
      FlushAllDeliverable(s, order[..n]);
      FlushDeliverable(FlushAll(s, order[..n]), order[n]);
    }
  }

  lemma RouteKeepsNotifier(s: State, evt: AlertEvent)
    ensures Route(s, evt).notifier == s.notifier
  {
    hide AlertKey;
    hide WindowActive;
    var key := AlertKey(evt);
    if s.cfg.aggMinutes > 0 && key in s.windows {
      var w := s.windows[key];
      EnqueueKeepsNotifier(s.(digests := s.digests + 1, digested := s.digested + w.pending), Digest(w));
    }
    var settled := if key in s.windows then FlushWindow(s, key) else s;
    EnqueueKeepsNotifier(OpenWindow(settled, key), evt);
    EnqueueKeepsNotifier(s, evt);
  }

  /** Every step keeps a notifier for whatever waits, if reloads are safe. */
  lemma StepDeliverable(s: State, op: Op)
    requires Deliverable(s) && Enabled(s, op) && (s.cfg.url == "" <==> s.notifier.None?)
    requires op.Reload? ==> SafeReload(s, op.cfg)
    ensures Deliverable(Apply(s, op))
  {
    hide Route;
    hide FlushAll;
    hide Expired;
    match op
    case Reload(cfg, now, order) =>
      if TurnsAggOff(s, cfg) {
        assert forall k | k in order :: k in (set j | j in order);
        FlushAllDeliverable(Reconfigured(s, cfg, now), order);
      }
    case Alert(evt, now) => RouteKeepsNotifier(s.(clock := now), evt);
    case Sweep(now, order) =>
      if s.cfg.aggMinutes > 0 {
        assert forall k | k in order :: k in (set j | j in order);
        assert forall k | k in order :: k in s.windows by { ExpiredAreWindows(s.(clock := now)); }
        FlushAllDeliverable(s.(clock := now), order);
      }
    case Take =>
    case Done(_) =>
  }

  /** Settling this window queues nothing: it has merged nothing, or its digest is silenced. */
  predicate Quiet(s: State, key: string)
    requires key in s.windows
  {
    s.windows[key].pending == 0 || Silenced(s, AlertKey(Digest(s.windows[key])))
  }

  lemma FlushQueues(s: State, key: string)
    requires key in s.windows
    ensures var r := FlushWindow(s, key);
      && (r.queue == [] <==> s.queue == [] && Quiet(s, key))
      && (r.queue == [] ==> r.lastSent == s.lastSent)
  {
    hide AlertKey;
    hide Digest;
    hide SilenceWindowActive;
  }

  /** Settling windows leaves the queue empty exactly when it was empty and each is quiet. */
  lemma {:induction false} FlushAllQueues(s: State, order: seq<string>)
    requires Distinct(order) && forall k | k in order :: k in s.windows
    ensures var r := FlushAll(s, order);
      && (r.queue == [] <==> s.queue == [] && forall k | k in order :: Quiet(s, k))
      && (r.queue == [] ==> r.lastSent == s.lastSent)
  {
    hide FlushWindow;
    hide AlertKey;
    hide Digest;
    hide SilenceWindowActive;
    if order != [] {
      var n := |order| - 1;
      var front := order[..n];
      assert order[n] !in front;
      assert order == front + [order[n]];
      FlushAllQueues(s, front);
      FlushQueues(FlushAll(s, front), order[n]);
      assert forall k | k in order :: k in front || k == order[n];
    }
  }

  /** After a reload whatever waits has a notifier if and only if there is a URL, or the queue is
      empty and no window has merged alerts, or, when aggregation is turned off, every window was
      quiet under the new configuration. What the other reloads lead to is the subject of
      NotifyReload. */
  lemma ReloadDeliverableIff(s: State, cfg: Config, now: int, order: seq<string>)
    requires Deliverable(s) && Enabled(s, Reload(cfg, now, order)) && (s.cfg.url == "" <==> s.notifier.None?)
    ensures Deliverable(Apply(s, Reload(cfg, now, order))) <==>
              || cfg.url != ""
              || (s.queue == []
                  && if TurnsAggOff(s, cfg) then forall k | k in s.windows :: Quiet(Reconfigured(s, cfg, now), k)
                     else forall k | k in s.windows :: s.windows[k].pending == 0)
  {
    hide Quiet;
    if TurnsAggOff(s, cfg) {
      assert forall k | k in order :: k in (set j | j in order);
      var r := Reconfigured(s, cfg, now);
      FlushAllQueues(r, order);
      FlushAllKeepsNotifier(r, order);
      hide FlushAll;
      assert forall k | k in s.windows :: k in order;
    }
  }

  lemma StepKeepsUrl(s: State, op: Op)
    requires Enabled(s, op) && (s.cfg.url == "" <==> s.notifier.None?)
    ensures Apply(s, op).cfg.url == "" <==> Apply(s, op).notifier.None?
  {
    hide Route;
    hide FlushAll;
    hide Expired;
    match op
    case Reload(cfg, now, order) =>
      if TurnsAggOff(s, cfg) {
        assert forall k | k in order :: k in (set j | j in order);
        FlushAllKeepsNotifier(Reconfigured(s, cfg, now), order);
      }
    case Alert(evt, now) =>
      RouteKeepsNotifier(s.(clock := now), evt);
      RouteKeepsConfig(s.(clock := now), evt);
    case Sweep(now, order) =>
      if s.cfg.aggMinutes > 0 {
        assert forall k | k in order :: k in (set j | j in order);
        assert forall k | k in order :: k in s.windows by { ExpiredAreWindows(s.(clock := now)); }
        FlushAllKeepsNotifier(s.(clock := now), order);
      }
    case Take =>
    case Done(_) =>
  }

  lemma EnqueueKeepsConfig(s: State, evt: AlertEvent)
    ensures Enqueue(s, evt).cfg == s.cfg
  {
    hide AlertKey;
    hide Silenced;
  }

  lemma RouteKeepsConfig(s: State, evt: AlertEvent)
    ensures Route(s, evt).cfg == s.cfg
  {
    hide AlertKey;
    hide WindowActive;
    hide Enqueue;
    hide FlushWindow;
    var key := AlertKey(evt);
    var settled := if key in s.windows then FlushWindow(s, key) else s;
    EnqueueKeepsConfig(s, evt);
    EnqueueKeepsConfig(OpenWindow(settled, key), evt);
  }

  lemma {:induction false} FlushAllKeepsNotifier(s: State, order: seq<string>)
    requires Distinct(order) && (forall k | k in order :: k in s.windows)
    ensures FlushAll(s, order).notifier == s.notifier
  {
    hide Enqueue;
    if order != [] {
      var n := |order| - 1;
      assert order[n] !in order[..n];
      assert order == order[..n] + [order[n]];
      FlushAllKeepsNotifier(s, order[..n]);
      var r := FlushAll(s, order[..n]);
      var w := r.windows[order[n]];
      EnqueueKeepsNotifier(r.(digests := r.digests + 1, digested := r.digested + w.pending), Digest(w));
    }
  }

  ghost predicate ReloadsSafe(start: int, ops: seq<Op>)
    requires Exec(start, ops).Some?
  {
    ops == [] ||
    var n := |ops| - 1;
    ReloadsSafe(start, ops[..n]) && (ops[n].Reload? ==> SafeReload(Exec(start, ops[..n]).value, ops[n].cfg))
  }

  /** In every run whose reloads are safe, the worker that takes an item finds a notifier. */
  lemma {:induction false} TakeFindsNotifier(start: int, ops: seq<Op>)
    requires Exec(start, ops).Some? && ReloadsSafe(start, ops)
    ensures var s := Exec(start, ops).value;
      Deliverable(s) && (s.cfg.url == "" <==> s.notifier.None?) && (Enabled(s, Take) ==> s.notifier.Some?)
  {
    hide Apply;
    hide SafeReload;
    if ops != [] {
      var n := |ops| - 1;
      TakeFindsNotifier(start, ops[..n]);
      StepDeliverable(Exec(start, ops[..n]).value, ops[n]);
      StepKeepsUrl(Exec(start, ops[..n]).value, ops[n]);
    }
  }

  // ----- deadlines -----

  /** After the worker's sweep every remaining window is still open at the sweep's time, and
      exactly the expired ones are gone. */
  lemma SweepLeavesOpenWindows(s: State, now: int, order: seq<string>)
    requires Enabled(s, Sweep(now, order)) && WindowsNeedAggregation(s)
    ensures var r := Apply(s, Sweep(now, order));
      && r.windows.Keys == s.windows.Keys - Expired(s.(clock := now))
      && (forall k | k in r.windows :: r.windows[k] == s.windows[k] && WindowActive(r, k))
  {
    hide Enqueue;
    hide Digest;
    if s.cfg.aggMinutes > 0 {
      assert forall k | k in order :: k in (set j | j in order);
    }
  }

  /** The end of a window. */
  function Deadline(s: State, key: string): int
    requires key in s.windows
  {
    s.windows[key].start + s.cfg.aggMinutes * 60 * TICKS_PER_SECOND
  }

  /** What the worker plans: nothing when there is no window, the earliest end otherwise. */
  ghost predicate IsDeadline(s: State, deadline: Option<int>) {
    if s.cfg.aggMinutes <= 0 || s.windows == map[] then deadline.None?
    else
      && deadline.Some?
      && (exists k :: k in s.windows && deadline.value == Deadline(s, k))
      && forall k | k in s.windows :: deadline.value <= Deadline(s, k)
  }

  lemma OpenWindowEndsLater(s: State, key: string)
    requires key in s.windows
    ensures s.cfg.aggMinutes > 0 ==> (WindowActive(s, key) <==> s.clock < Deadline(s, key))
    ensures s.cfg.aggMinutes <= 0 ==> !WindowActive(s, key)
  {
  }
}
