/** The dispatcher object of src/alerts/notify_dispatcher.cpp: its methods update the maps, the
    queue and the counters in place, and each is one step of NotifySpec. The clock readings and
    the delivery outcomes are arguments. */
module NotifyDispatcher {
  import opened Options
  import opened NotifyRouter
  import opened NotifySpec
  import opened NotifyLedger
  import opened NotifyRouting

  const MAX_RETRIES := 2

  class Dispatcher {
    var cfg: Config
    var notifier: Option<string>
    var lastSent: map<string, int>
    var windows: map<string, AggWindow>
    var queue: seq<AlertEvent>
    var sent: nat
    var failed: nat
    var suppressed: nat
    var dropped: nat
    var merged: nat
    var inFlight: Option<AlertEvent>
    // Histories.
    ghost var routed: nat
    ghost var digests: nat
    ghost var digested: nat
    ghost var discarded: nat
    ghost var clock: int
    ghost var epoch: nat
    ghost var log: seq<Queued>

    /** The object as a state of the specification. */
    ghost function State(): NotifySpec.State
      reads this
    {
      NotifySpec.State(cfg, notifier, lastSent, windows, queue, sent, failed, suppressed, dropped, merged,
                       routed, digests, digested, discarded, inFlight, clock, epoch, log)
    }

    constructor (ghost start: int)
      ensures State() == Init(start)
      ensures cfg == Config(false, "", "high", 10, 5) && notifier.None?
      ensures lastSent == map[] && windows == map[] && queue == [] && inFlight.None?
      ensures sent == failed == suppressed == dropped == merged == 0
    {
      cfg := Config(false, "", "high", 10, 5);
      notifier, lastSent, windows, queue := None, map[], map[], [];
      sent, failed, suppressed, dropped, merged := 0, 0, 0, 0, 0;
      inFlight := None;
      routed, digests, digested, discarded := 0, 0, 0, 0;
      clock, epoch, log := start, 0, [];
    }

    method OccupySlot(key: string, now: int)
      requires now == clock
      modifies this
      ensures State() == TakeSlot(old(State()), key)
    {
      hide TakeSlot;
      SlotIs(State(), key);
      lastSent := lastSent[key := now];
      if |lastSent| > MAX_KEYS {
        lastSent := map[key := now];
        epoch := epoch + 1;
      }
      log := log + [Queued(key, now, cfg.silenceMinutes * 60 * TICKS_PER_SECOND, epoch)];
    }

    method EnqueueWithSilence(evt: AlertEvent, now: int)
      requires now == clock
      modifies this
      ensures State() == Enqueue(old(State()), evt)
    {
      hide AlertKey;
      hide SilenceWindowActive;
      hide TakeSlot;
      if cfg.silenceMinutes > 0 {
        var key := AlertKey(evt);
        if key in lastSent && SilenceWindowActive(lastSent[key], now, cfg.silenceMinutes * 60) {
          suppressed := suppressed + 1;
          return;
        }
        if |queue| >= MAX_QUEUE {
          dropped := dropped + 1;
          return;
        }
        SlotKeepsQueue(State(), key);
        OccupySlot(key, now);
        queue := queue + [evt];
      } else {
        if |queue| >= MAX_QUEUE {
          dropped := dropped + 1;
          return;
        }
        queue := queue + [evt];
      }
    }

    /** `FlushAggWindowLocked` and the erase that follows it. */
    method FlushAggWindow(key: string, now: int)
      requires key in windows && now == clock
      modifies this
      ensures State() == FlushWindow(old(State()), key)
    {
      hide Enqueue;
      var w := windows[key];
      EnqueueFrame(State().(digests := digests + 1, digested := digested + w.pending), Digest(w));
      if w.pending > 0 {
        digests := digests + 1;
        digested := digested + w.pending;
        EnqueueWithSilence(Digest(w), now);
      }
      windows := windows - {key};
    }

    /** Flushes the windows of `keys` in some order. */
    method FlushKeys(keys: set<string>, now: int) returns (ghost order: seq<string>)
      requires keys <= windows.Keys && now == clock
      modifies this
      ensures IsOrderOf(order, keys) && (forall k | k in order :: k in old(windows))
      ensures State() == FlushAll(old(State()), order)
    {
      hide FlushWindow;
      order := [];
      var todo := keys;
      while todo != {}
        invariant Distinct(order) && todo <= keys
        invariant forall k :: k in order <==> k in keys && k !in todo
        invariant forall k | k in order :: k in old(windows)
        invariant State() == FlushAll(old(State()), order)
        decreases todo
      {
        var key :| key in todo;
        assert key in windows;
        FlushAggWindow(key, now);
        ghost var next := order + [key];
        assert next[..|next| - 1] == order;
        order := next;
        todo := todo - {key};
      }
    }

    method UpdateConfig(newCfg: Config, now: int) returns (ghost order: seq<string>)
      requires now >= clock
      modifies this
      ensures NotifySpec.Enabled(old(State()), Reload(newCfg, now, order))
      ensures State() == Apply(old(State()), Reload(newCfg, now, order))
    {
      hide FlushAll;
      var urlChanged := newCfg.url != cfg.url;
      var aggTurnedOff := cfg.aggMinutes > 0 && newCfg.aggMinutes <= 0;
      cfg := newCfg;
      clock := now;
      epoch := epoch + 1;
      if urlChanged {
        notifier := if cfg.url == "" then None else Some(cfg.url);
      }
      order := [];
      if aggTurnedOff {
        order := FlushKeys(windows.Keys, now);
      }
    }

    method FlushExpired(now: int) returns (ghost order: seq<string>)
      requires now >= clock && inFlight.None?
      modifies this
      ensures NotifySpec.Enabled(old(State()), Sweep(now, order))
      ensures State() == Apply(old(State()), Sweep(now, order))
    {
      hide FlushAll;
      clock := now;
      order := [];
      if cfg.aggMinutes <= 0 {
        return;
      }
      var win := cfg.aggMinutes * 60;
      var expired := set k | k in windows && !SilenceWindowActive(windows[k].start, now, win);
      assert expired == Expired(State());
      order := FlushKeys(expired, now);
    }

    /** The earliest window end; none while aggregation is off or nothing is open. */
    method NextAggFlushDeadline() returns (deadline: Option<int>)
      ensures IsDeadline(State(), deadline)
    {
      if cfg.aggMinutes <= 0 || windows == map[] {
        return None;
      }
      var win := cfg.aggMinutes * 60 * TICKS_PER_SECOND;
      var todo := windows.Keys;
      var first :| first in todo;
      deadline := Some(windows[first].start + win);
      while todo != {}
        invariant todo <= windows.Keys && deadline.Some?
        invariant exists k :: k in windows && deadline.value == Deadline(State(), k)
        invariant forall k | k in windows && k !in todo :: deadline.value <= Deadline(State(), k)
        decreases todo
      {
        var k :| k in todo;
        if windows[k].start + win < deadline.value {
          deadline := Some(windows[k].start + win);
        }
        assert deadline.value <= Deadline(State(), k);
        todo := todo - {k};
      }
    }

    /** What the worker does before it waits: after the sweep nothing open has ended, and the
        deadline it waits for is the earliest end and lies in the future. */
    method SweepAndPlan(now: int) returns (deadline: Option<int>, ghost order: seq<string>)
      requires now >= clock && inFlight.None? && WindowsNeedAggregation(State())
      modifies this
      ensures NotifySpec.Enabled(old(State()), Sweep(now, order))
      ensures State() == Apply(old(State()), Sweep(now, order))
      ensures forall k | k in windows :: now < Deadline(State(), k)
      ensures IsDeadline(State(), deadline) && (deadline.None? <==> windows == map[])
      ensures deadline.Some? ==> now < deadline.value
    {
      hide Apply;
      ghost var before := State();
      order := FlushExpired(now);
      SweepLeavesOpenWindows(before, now, order);
      SweepKeepsConfig(before, now, order);
      forall k | k in windows
        ensures now < Deadline(State(), k)
      {
        OpenWindowEndsLater(State(), k);
      }
      deadline := NextAggFlushDeadline();
    }

    /** The aggregation part of `Dispatch`: merges into a live window, or settles an ended one
        and opens a fresh one. */
    method Aggregate(evt: AlertEvent, now: int) returns (mergedIn: bool)
      requires now == clock && cfg.aggMinutes > 0
      modifies this
      ensures mergedIn ==> AlertKey(evt) in old(windows) && State() == MergeAlert(old(State()), AlertKey(evt), evt)
      ensures !mergedIn ==> State() == Settled(old(State()), AlertKey(evt))
      ensures mergedIn <==> AlertKey(evt) in old(windows) && WindowActive(old(State()), AlertKey(evt))
    {
      hide AlertKey;
      hide SilenceWindowActive;
      hide FlushWindow;
      hide OpenWindow;
      var win := cfg.aggMinutes * 60;
      var key := AlertKey(evt);
      var action := AggregationAction(key in windows, if key in windows then windows[key].start else now, now, win);
      if action == Merge {
        var w := windows[key];
        windows := windows[key := w.(pending := w.pending + 1,
                                     first := if w.pending == 0 then evt else w.first, last := evt)];
        merged := merged + 1;
        return true;
      }
      if action == FlushAndSend {
        FlushAggWindow(key, now);
      }
      OpenHere(key, now);
      mergedIn := false;
    }

    /** The source's entry point: level routing, aggregation, silence, queue. */
    method Dispatch(evt: AlertEvent, now: int)
      requires now >= clock
      modifies this
      ensures State() == Apply(old(State()), Alert(evt, now))
      ensures var passes := old(cfg.enabled) && old(notifier).Some?
                && PlaceOf(evt.severity) >= PlaceOfMinimum(old(cfg.minLevel));
        routed == old(routed) + (if passes then 1 else 0) && (!passes ==> State() == old(State()).(clock := now))
    {
      hide AlertKey;
      hide Enqueue;
      hide FlushWindow;
      hide OpenWindow;
      hide MergeAlert;
      hide WindowActive;
      hide ShouldRouteByLevel;
      hide PlaceOf;
      hide PlaceOfMinimum;
      AlertRoutedIff(State(), evt, now);
      clock := now;
      if !cfg.enabled || notifier.None? {
        return;
      }
      if !ShouldRouteByLevel(evt.severity, cfg.minLevel) {
        return;
      }
      ghost var s, calls := State(), routed;
      var mergedIn := false;
      if cfg.aggMinutes > 0 {
        mergedIn := Aggregate(evt, now);
      }
      if !mergedIn {
        SettledClock(s, AlertKey(evt));
        EnqueueWithSilence(evt, now);
      }
      assert State() == Route(s, evt);
      routed := calls + 1;
    }

    /** Opens a fresh window; more than 4096 of them clear the map down to the new one. */
    method OpenHere(key: string, now: int)
      requires now == clock
      modifies this
      ensures State() == OpenWindow(old(State()), key)
    {
      windows := windows[key := AggWindow(now, 0, NO_ALERT, NO_ALERT)];
      if |windows| > MAX_KEYS {
        discarded := discarded + SumPending(windows);
        windows := map[key := AggWindow(now, 0, NO_ALERT, NO_ALERT)];
      }
    }

    /** The worker takes the oldest item. */
    method TakeOne() returns (evt: AlertEvent)
      requires inFlight.None? && queue != []
      modifies this
      ensures evt == old(queue)[0] && State() == Apply(old(State()), Take)
    {
      evt := queue[0];
      queue := queue[1..];
      inFlight := Some(evt);
    }

    /** Delivers the item in flight: one attempt and at most two retries; `outcomes` says what
        each attempt would answer. */
    method Deliver(outcomes: seq<bool>) returns (attempts: nat)
      requires inFlight.Some? && |outcomes| == 3
      modifies this
      ensures State() == Apply(old(State()), Done(true in outcomes))
      ensures 1 <= attempts <= 3
      ensures attempts < 3 ==> outcomes[attempts - 1]
      ensures forall i | 0 <= i < attempts - 1 :: !outcomes[i]
    {
      var ok := false;
      attempts := 0;
      while attempts <= MAX_RETRIES && !ok
        invariant attempts <= MAX_RETRIES + 1
        invariant ok ==> attempts >= 1 && outcomes[attempts - 1]
        invariant !ok ==> forall i | 0 <= i < attempts :: !outcomes[i]
        invariant forall i | 0 <= i < attempts - 1 :: !outcomes[i]
        decreases MAX_RETRIES + 1 - attempts, !ok
      {
        ok := outcomes[attempts];
        attempts := attempts + 1;
      }
      inFlight := None;
      if ok {
        sent := sent + 1;
      } else {
        failed := failed + 1;
      }
    }
  }

  lemma SlotIs(s: State, key: string)
    ensures var full := |s.lastSent[key := s.clock]| > MAX_KEYS;
      var epoch := if full then s.epoch + 1 else s.epoch;
      TakeSlot(s, key)
      == s.(lastSent := if full then map[key := s.clock] else s.lastSent[key := s.clock], epoch := epoch,
            log := s.log + [Queued(key, s.clock, s.cfg.silenceMinutes * 60 * TICKS_PER_SECOND, epoch)])
  {
  }

  lemma SlotKeepsQueue(s: State, key: string)
    ensures TakeSlot(s, key).queue == s.queue
  {
  }

  /** The state in which a routed alert that is not merged gets offered. */
  ghost function Settled(s: State, key: string): State {
    OpenWindow(if key in s.windows then FlushWindow(s, key) else s, key)
  }

  lemma SettledClock(s: State, key: string)
    ensures Settled(s, key).clock == s.clock
  {
    hide Enqueue;
  }

  /** Enqueueing never reads or writes the histories of routing and digests. */
  lemma EnqueueFrame(s: State, evt: AlertEvent)
    ensures Enqueue(s, evt).windows == s.windows && Enqueue(s, evt).routed == s.routed
    ensures Enqueue(s, evt).clock == s.clock
  {
    hide AlertKey;
  }

  lemma SweepKeepsConfig(s: State, now: int, order: seq<string>)
    requires NotifySpec.Enabled(s, Sweep(now, order))
    ensures var r := Apply(s, Sweep(now, order));
      r.cfg == s.cfg && r.clock == now && (s.cfg.aggMinutes <= 0 ==> r.windows == s.windows)
  {
    hide Enqueue;
  }
}
