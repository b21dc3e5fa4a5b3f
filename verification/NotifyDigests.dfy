/** When silencing swallows the digests of src/alerts/notify_dispatcher.cpp: a key's last item was
    never sent after its window was opened, so a window at least as long as the silence outlasts
    it, and a shorter one may not. */
module NotifyDigests {
  import opened Options
  import opened NotifyRouter
  import opened NotifySpec
  import opened NotifyLedger
  import R = NotifyReload

  /** The window was opened in the past, when or after its key was last sent, and it holds the
      alerts of its own key. */
  predicate SentByOpening(s: State, key: string)
    requires key in s.windows
  {
    var w := s.windows[key];
    && w.start <= s.clock
    && (key in s.lastSent ==> s.lastSent[key] <= w.start)
    && (w.pending > 0 ==> AlertKey(w.last) == key)
  }

  ghost predicate InOrder(s: State) {
    && (forall k | k in s.lastSent :: s.lastSent[k] <= s.clock)
    && (forall k | k in s.windows :: SentByOpening(s, k))
  }

  lemma DigestKey(w: AggWindow)
    ensures AlertKey(Digest(w)) == AlertKey(w.last)
  {
    assert SilenceObjectKey(Digest(w)) == SilenceObjectKey(w.last);
  }

  /** Sending may only catch up with a window opened at this very time. */
  lemma EnqueueInOrder(s: State, evt: AlertEvent)
    requires InOrder(s) && (AlertKey(evt) in s.windows ==> s.windows[AlertKey(evt)].start == s.clock)
    ensures InOrder(Enqueue(s, evt))
  {
    hide AlertKey;
  }

  /** Settling is queueing the digest once the window is gone. */
  lemma FlushByParts(s: State, key: string)
    requires key in s.windows && s.windows[key].pending > 0
    ensures var w := s.windows[key];
      FlushWindow(s, key) == Enqueue(s.(digests := s.digests + 1, digested := s.digested + w.pending,
                                        windows := s.windows - {key}), Digest(w))
  {
    hide AlertKey;
    hide Digest;
    hide SilenceWindowActive;
  }

  lemma FlushInOrder(s: State, key: string)
    requires InOrder(s) && key in s.windows
    ensures InOrder(FlushWindow(s, key))
  {
    hide AlertKey;
    hide Enqueue;
    hide Digest;
    var w := s.windows[key];
    if w.pending > 0 {
      FlushByParts(s, key);
      DigestKey(w);
      EnqueueInOrder(s.(digests := s.digests + 1, digested := s.digested + w.pending,
                        windows := s.windows - {key}), Digest(w));
    }
  }

  lemma {:induction false} FlushAllInOrder(s: State, order: seq<string>)
    requires InOrder(s) && Distinct(order) && (forall k | k in order :: k in s.windows)
    ensures InOrder(FlushAll(s, order))
  {
    hide InOrder;
    hide FlushWindow;
    if order != [] {
      var n := |order| - 1;
      assert order[n] !in order[..n];
      assert order == order[..n] + [order[n]];
      FlushAllInOrder(s, order[..n]);
      FlushInOrder(FlushAll(s, order[..n]), order[n]);
    }
  }

  lemma OpenInOrder(s: State, key: string)
    requires InOrder(s)
    ensures var r := OpenWindow(s, key);
      InOrder(r) && r.clock == s.clock && key in r.windows && r.windows[key].start == s.clock
  {
    hide AlertKey;
    hide SumPending;
  }

  lemma RouteInOrder(s: State, evt: AlertEvent)
    requires InOrder(s) && WindowsNeedAggregation(s)
    ensures InOrder(Route(s, evt))
  {
    hide AlertKey;
    hide WindowActive;
    hide Enqueue;
    hide FlushWindow;
    hide SumPending;
    var key := AlertKey(evt);
    if s.cfg.aggMinutes <= 0 {
      EnqueueInOrder(s, evt);
    } else if !(key in s.windows && WindowActive(s, key)) {
      if key in s.windows {
        FlushInOrder(s, key);
      }
      var settled := if key in s.windows then FlushWindow(s, key) else s;
      OpenInOrder(settled, key);
      hide OpenWindow;
      EnqueueInOrder(OpenWindow(settled, key), evt);
    }
  }

  lemma StepInOrder(s: State, op: Op)
    requires InOrder(s) && WindowsNeedAggregation(s) && Enabled(s, op)
    ensures InOrder(Apply(s, op))
  {
    hide AlertKey;
    hide Route;
    hide FlushAll;
    hide Accepts;
    hide Expired;
    match op
    case Reload(cfg, now, order) =>
      if TurnsAggOff(s, cfg) {
        assert forall k | k in order :: k in (set j | j in order);
        FlushAllInOrder(Reconfigured(s, cfg, now), order);
      }
    case Alert(evt, now) =>
      RouteInOrder(s.(clock := now), evt);
    case Sweep(now, order) =>
      if s.cfg.aggMinutes > 0 {
        assert forall k | k in order :: k in (set j | j in order);
        assert forall k | k in order :: k in s.windows by { ExpiredAreWindows(s.(clock := now)); }
        FlushAllInOrder(s.(clock := now), order);
      }
    case Take =>
    case Done(_) =>
  }

  /** In every run, across any reloads, no key with a live window was sent after the window was
      opened. */
  lemma {:induction false} SentByOpeningHolds(start: int, ops: seq<Op>)
    requires Exec(start, ops).Some?
    ensures var s := Exec(start, ops).value;
      InOrder(s) && forall k | k in s.windows && k in s.lastSent :: s.lastSent[k] <= s.windows[k].start
  {
    hide Apply;
    if ops != [] {
      var n := |ops| - 1;
      SentByOpeningHolds(start, ops[..n]);
      LedgerHolds(start, ops[..n]);
      StepInOrder(Exec(start, ops[..n]).value, ops[n]);
    }
  }

  // ----- windows that outlast the silence -----

  lemma EndedIsHeard(s: State, key: string)
    requires InOrder(s) && key in s.windows && s.windows[key].pending > 0 && !WindowActive(s, key)
    requires s.cfg.aggMinutes > 0 && s.cfg.aggMinutes >= s.cfg.silenceMinutes
    ensures !Silenced(s, AlertKey(Digest(s.windows[key])))
  {
    hide AlertKey;
    hide Digest;
    DigestKey(s.windows[key]);
    assert SentByOpening(s, key);
  }

  /** With an aggregation window no shorter than the silence window, the digest of an ended window
      is never silenced, in any run and at any time. */
  lemma EndedDigestIsHeard(start: int, ops: seq<Op>, key: string, now: int)
    requires Exec(start, ops).Some? && now >= Exec(start, ops).value.clock
    requires var s := Exec(start, ops).value.(clock := now);
      && s.cfg.aggMinutes > 0 && s.cfg.aggMinutes >= s.cfg.silenceMinutes
      && key in s.windows && s.windows[key].pending > 0 && !WindowActive(s, key)
    ensures !Silenced(Exec(start, ops).value.(clock := now), AlertKey(Digest(Exec(start, ops).value.windows[key])))
  {
    hide Exec;
    hide AlertKey;
    hide Silenced;
    hide WindowActive;
    SentByOpeningHolds(start, ops);
    EndedIsHeard(Exec(start, ops).value.(clock := now), key);
  }

  lemma HeardIsNotSuppressed(s: State, key: string)
    requires key in s.windows && (s.windows[key].pending > 0 ==> !Silenced(s, AlertKey(Digest(s.windows[key]))))
    ensures FlushWindow(s, key).suppressed == s.suppressed
  {
    hide AlertKey;
    hide Digest;
    hide SilenceWindowActive;
  }

  lemma {:induction false} FlushAllHeard(s: State, order: seq<string>)
    requires InOrder(s) && Distinct(order) && (forall k | k in order :: k in s.windows && !WindowActive(s, k))
    requires s.cfg.aggMinutes > 0 && s.cfg.aggMinutes >= s.cfg.silenceMinutes
    ensures FlushAll(s, order).suppressed == s.suppressed
  {
    hide InOrder;
    hide FlushWindow;
    hide Silenced;
    hide AlertKey;
    hide Digest;
    if order != [] {
      var n := |order| - 1;
      assert order[n] !in order[..n];
      assert order == order[..n] + [order[n]];
      FlushAllHeard(s, order[..n]);
      FlushAllInOrder(s, order[..n]);
      var r := FlushAll(s, order[..n]);
      if r.windows[order[n]].pending > 0 {
        EndedIsHeard(r, order[n]);
      }
      HeardIsNotSuppressed(r, order[n]);
    }
  }

  /** Under this configuration no sweep of any run silences a digest. */
  ghost predicate SweepsAreHeard(start: int, cfg: Config) {
    forall ops, now, order :: SweepsUnder(start, cfg, ops, now, order) ==> SilencesNone(start, ops, now, order)
  }

  ghost predicate SweepsUnder(start: int, cfg: Config, ops: seq<Op>, now: int, order: seq<string>) {
    Exec(start, ops).Some? && Exec(start, ops).value.cfg == cfg && Enabled(Exec(start, ops).value, Sweep(now, order))
  }

  ghost predicate SilencesNone(start: int, ops: seq<Op>, now: int, order: seq<string>)
    requires Exec(start, ops).Some? && Enabled(Exec(start, ops).value, Sweep(now, order))
  {
    Apply(Exec(start, ops).value, Sweep(now, order)).suppressed == Exec(start, ops).value.suppressed
  }

  lemma LongWindowsAreHeard(start: int, cfg: Config, ops: seq<Op>, now: int, order: seq<string>)
    requires cfg.aggMinutes > 0 && cfg.aggMinutes >= cfg.silenceMinutes && SweepsUnder(start, cfg, ops, now, order)
    ensures SilencesNone(start, ops, now, order)
  {
    hide Exec;
    hide FlushAll;
    SentByOpeningHolds(start, ops);
    var s := Exec(start, ops).value.(clock := now);
    assert forall k | k in order :: k in (set j | j in order) && k in Expired(s);
    FlushAllHeard(s, order);
  }

  // ----- windows that do not -----

  const SAMPLE := AlertEvent("rule", "critical", "file.write", "/f", "", 0, "", 1, "", "")

  function Ticks(minutes: int): int {
    minutes * 60 * TICKS_PER_SECOND
  }

  /** The key was sent when its window was opened, and `pending` alerts were merged since. */
  ghost predicate Opened(s: State, start: int, cfg: Config, pending: nat) {
    && s.cfg == cfg && s.clock == start && s.inFlight.None? && s.suppressed == 0
    && s.lastSent == map[AlertKey(SAMPLE) := start]
    && AlertKey(SAMPLE) in s.windows && s.windows.Keys == {AlertKey(SAMPLE)}
    && s.windows[AlertKey(SAMPLE)].start == start && s.windows[AlertKey(SAMPLE)].pending == pending
    && (pending > 0 ==> s.windows[AlertKey(SAMPLE)].last == SAMPLE)
  }

  /** A configuration that routes everything, with the silence and the window of another. */
  function Routing(cfg: Config): Config {
    Config(true, "https://hook", "low", cfg.silenceMinutes, cfg.aggMinutes)
  }

  lemma FirstAlertOpens(start: int, cfg: Config)
    requires 0 < cfg.aggMinutes < cfg.silenceMinutes
    ensures Enabled(Init(start), Reload(Routing(cfg), start, []))
    ensures var s := Apply(Init(start), Reload(Routing(cfg), start, []));
      && s.notifier.Some? && s.clock == start
      && Opened(Apply(s, Alert(SAMPLE, start)), start, Routing(cfg), 0)
      && Apply(s, Alert(SAMPLE, start)).notifier.Some?
  {
    hide AlertKey;
    hide SumPending;
    var s := Apply(Init(start), Reload(Routing(cfg), start, []));
    assert Accepts(s, SAMPLE);
    var grown := s.windows[AlertKey(SAMPLE) := AggWindow(start, 0, NO_ALERT, NO_ALERT)];
    assert grown == map[AlertKey(SAMPLE) := AggWindow(start, 0, NO_ALERT, NO_ALERT)] && |grown| == 1;
    assert s.lastSent[AlertKey(SAMPLE) := start] == map[AlertKey(SAMPLE) := start];
    assert |map[AlertKey(SAMPLE) := start]| == 1;
  }

  lemma SecondAlertMerges(s: State, start: int, cfg: Config)
    requires 0 < cfg.aggMinutes && Opened(s, start, Routing(cfg), 0) && s.notifier.Some?
    ensures Enabled(s, Alert(SAMPLE, start))
    ensures Opened(Apply(s, Alert(SAMPLE, start)), start, Routing(cfg), 1)
  {
    hide AlertKey;
    assert Accepts(s.(clock := start), SAMPLE);
    assert WindowActive(s.(clock := start), AlertKey(SAMPLE));
  }

  lemma OtherSettingsLater(s: State, start: int, cfg: Config)
    requires 0 < cfg.aggMinutes && Opened(s, start, Routing(cfg), 1)
    ensures Enabled(s, Reload(cfg, start, [])) && Opened(Apply(s, Reload(cfg, start, [])), start, cfg, 1)
  {
    hide AlertKey;
  }

  lemma SweepSilences(s: State, start: int, cfg: Config)
    requires 0 < cfg.aggMinutes < cfg.silenceMinutes && Opened(s, start, cfg, 1)
    ensures var sweep := Sweep(start + Ticks(cfg.aggMinutes), [AlertKey(SAMPLE)]);
      Enabled(s, sweep) && Apply(s, sweep).suppressed == 1
  {
    hide *;
    var key := AlertKey(SAMPLE);
    var now := start + Ticks(cfg.aggMinutes);
    var t := s.(clock := now);
    EndsSilenced(s, start, cfg);
    SweepOfOne(s, now, key);
    SilencedIsSuppressed(t, key);
  }

  lemma SweepOfOne(s: State, now: int, key: string)
    requires s.cfg.aggMinutes > 0 && s.inFlight.None? && now >= s.clock
    requires s.windows.Keys == {key} && !WindowActive(s.(clock := now), key)
    ensures Enabled(s, Sweep(now, [key]))
    ensures Apply(s, Sweep(now, [key])) == FlushWindow(s.(clock := now), key)
  {
    hide WindowActive;
    hide FlushWindow;
    OnlyOneEnded(s.(clock := now), key);
    FlushAllOfOne(s.(clock := now), key);
    hide FlushAll;
    hide Expired;
  }

  lemma EndsSilenced(s: State, start: int, cfg: Config)
    requires 0 < cfg.aggMinutes < cfg.silenceMinutes && Opened(s, start, cfg, 1)
    ensures var t := s.(clock := start + Ticks(cfg.aggMinutes));
      && s.cfg.aggMinutes > 0 && s.inFlight.None? && t.clock >= s.clock && s.suppressed == 0
      && s.windows.Keys == {AlertKey(SAMPLE)} && s.windows[AlertKey(SAMPLE)].pending == 1
      && !WindowActive(t, AlertKey(SAMPLE))
      && Silenced(t, AlertKey(Digest(s.windows[AlertKey(SAMPLE)])))
  {
    hide AlertKey;
    hide Digest;
    DigestKey(s.windows[AlertKey(SAMPLE)]);
  }

  lemma OnlyOneEnded(s: State, key: string)
    requires s.windows.Keys == {key} && !WindowActive(s, key)
    ensures IsOrderOf([key], Expired(s))
  {
    hide WindowActive;
    assert Expired(s) == {key} == set k | k in [key];
  }

  lemma SilencedIsSuppressed(s: State, key: string)
    requires key in s.windows && s.windows[key].pending > 0 && Silenced(s, AlertKey(Digest(s.windows[key])))
    ensures FlushWindow(s, key).suppressed == s.suppressed + 1
  {
    hide AlertKey;
    hide Digest;
    hide SilenceWindowActive;
  }

  lemma FlushAllOfOne(s: State, key: string)
    requires key in s.windows
    ensures Distinct([key]) && FlushAll(s, [key]) == FlushWindow(s, key)
  {
    hide FlushWindow;
    assert [key][..0] == [];
    assert FlushAll(s, []) == s;
  }

  /** A key is sent, merged once more, and swept at the end of its window: nothing but the
      configured windows decides that its digest is silenced. */
  lemma SilencedSweep(start: int, cfg: Config) returns (ops: seq<Op>, now: int, order: seq<string>)
    requires 0 < cfg.aggMinutes < cfg.silenceMinutes
    ensures SweepsUnder(start, cfg, ops, now, order) && !SilencesNone(start, ops, now, order)
  {
    hide Exec;
    hide Apply;
    hide Enabled;
    hide AlertKey;
    R.EmptyRun(start);
    FirstAlertOpens(start, cfg);
    R.ExecOne(start, [], Reload(Routing(cfg), start, []));
    ops := [] + [Reload(Routing(cfg), start, [])];
    AlertEnabled(Exec(start, ops).value, start);
    R.ExecOne(start, ops, Alert(SAMPLE, start));
    ops := ops + [Alert(SAMPLE, start)];
    SecondAlertMerges(Exec(start, ops).value, start, cfg);
    R.ExecOne(start, ops, Alert(SAMPLE, start));
    ops := ops + [Alert(SAMPLE, start)];
    OtherSettingsLater(Exec(start, ops).value, start, cfg);
    R.ExecOne(start, ops, Reload(cfg, start, []));
    ops := ops + [Reload(cfg, start, [])];
    SweepSilences(Exec(start, ops).value, start, cfg);
    now, order := start + Ticks(cfg.aggMinutes), [AlertKey(SAMPLE)];
  }

  lemma AlertEnabled(s: State, start: int)
    requires s.clock == start
    ensures Enabled(s, Alert(SAMPLE, start))
  {
  }

  /** While aggregation is on, no sweep of any run silences a digest if and only if the
      aggregation window is at least as long as the silence window. */
  lemma DigestsHeardIff(start: int, cfg: Config)
    requires cfg.aggMinutes > 0
    ensures SweepsAreHeard(start, cfg) <==> cfg.aggMinutes >= cfg.silenceMinutes
  {
    hide SilencesNone;
    hide Exec;
    hide Enabled;
    if cfg.aggMinutes >= cfg.silenceMinutes {
      forall ops, now, order | SweepsUnder(start, cfg, ops, now, order)
        ensures SilencesNone(start, ops, now, order)
      {
        LongWindowsAreHeard(start, cfg, ops, now, order);
      }
    } else {
      var ops, now, order := SilencedSweep(start, cfg);
    }
  }

  /** The configuration in force before any reload silences digests. */
  lemma DefaultsSilenceDigests(start: int)
    ensures !SweepsAreHeard(start, Init(start).cfg)
  {
    hide SweepsAreHeard;
    DigestsHeardIff(start, Init(start).cfg);
  }

  // ----- an alert that finds its window ended -----

  /** An alert that comes after its window has ended and before the worker has swept it settles that
      window first. It is then queued if and only if there is room, its key was not silenced, and it
      is not silenced by the digest that was queued just before it. */
  lemma LateAlertQueuedIff(s: State, evt: AlertEvent)
    requires s.cfg.aggMinutes > 0
    requires var key := AlertKey(evt);
      && key in s.windows && !WindowActive(s, key)
      && (s.windows[key].pending > 0 ==> AlertKey(s.windows[key].last) == key)
    ensures var settled := FlushWindow(s, AlertKey(evt));
      var byDigest := s.cfg.silenceMinutes > 0 && s.windows[AlertKey(evt)].pending > 0 && |s.queue| < MAX_QUEUE;
      Route(s, evt).queue == settled.queue
        + if |settled.queue| < MAX_QUEUE && !Silenced(s, AlertKey(evt)) && !byDigest then [evt] else []
  {
    hide AlertKey;
    hide Digest;
    hide WindowActive;
    hide SumPending;
    hide FlushWindow;
    var key := AlertKey(evt);
    SettledSilence(s, key);
    OpeningQueues(FlushWindow(s, key), key, evt);
  }

  /** Settling a window silences its key when it queues the digest. */
  lemma SettledSilence(s: State, key: string)
    requires key in s.windows && (s.windows[key].pending > 0 ==> AlertKey(s.windows[key].last) == key)
    ensures Silenced(FlushWindow(s, key), key)
        <==> Silenced(s, key)
             || (s.cfg.silenceMinutes > 0 && s.windows[key].pending > 0 && |s.queue| < MAX_QUEUE)
  {
    hide AlertKey;
    hide Digest;
    DigestKey(s.windows[key]);
  }

  lemma OpeningQueues(s: State, key: string, evt: AlertEvent)
    requires AlertKey(evt) == key
    ensures Enqueue(OpenWindow(s, key), evt).queue
         == s.queue + if |s.queue| < MAX_QUEUE && !Silenced(s, key) then [evt] else []
  {
    hide AlertKey;
    hide SumPending;
    hide SilenceWindowActive;
    assert s.queue + [] == s.queue;
  }
}
