/** The alert dispatcher of src/alerts/notify_dispatcher.cpp as a state machine: every section
    the source runs under its lock is one step, with a monotone clock. Maps are iterated in an
    arbitrary order, and a delivery succeeds or fails arbitrarily. */
module NotifySpec {
  import opened Options
  import opened NotifyRouter

  const MAX_QUEUE := 1024
  const MAX_KEYS := 4096

  datatype Config = Config(enabled: bool, url: string, minLevel: string, silenceMinutes: int, aggMinutes: int)

  datatype AggWindow = AggWindow(start: int, pending: nat, first: AlertEvent, last: AlertEvent)

  const NO_ALERT := AlertEvent("", "", "", "", "", 0, "", 1, "", "")

  /** One item put on the queue while silencing was on: its key, the time, the silence window
      in ticks, and how many reloads and map clearings came before. */
  datatype Queued = Queued(key: string, time: int, window: int, epoch: nat)

  /** From `routed` on, the fields are histories that the source does not keep. */
  datatype State = State(
    cfg: Config,
    notifier: Option<string>,
    lastSent: map<string, int>,
    windows: map<string, AggWindow>,
    queue: seq<AlertEvent>,
    sent: nat, failed: nat, suppressed: nat, dropped: nat, merged: nat,
    routed: nat,
    digests: nat,
    digested: nat,
    discarded: nat,
    inFlight: Option<AlertEvent>,
    clock: int,
    epoch: nat,
    log: seq<Queued>)

  function Init(start: int): State {
    State(Config(false, "", "high", 10, 5), None, map[], map[], [], 0, 0, 0, 0, 0, 0, 0, 0, 0, None, start, 0, [])
  }

  // ----- one locked section each -----

  predicate Silenced(s: State, key: string) {
    s.cfg.silenceMinutes > 0 && key in s.lastSent
    && SilenceWindowActive(s.lastSent[key], s.clock, s.cfg.silenceMinutes * 60)
  }

  /** Remembers that an item of this key was queued now; more than 4096 keys clear the map down
      to the new one. */
  function TakeSlot(s: State, key: string): State {
    var kept := s.lastSent[key := s.clock];
    var full := |kept| > MAX_KEYS;
    var epoch := if full then s.epoch + 1 else s.epoch;
    s.(lastSent := if full then map[key := s.clock] else kept,
       epoch := epoch,
       log := s.log + [Queued(key, s.clock, s.cfg.silenceMinutes * 60 * TICKS_PER_SECOND, epoch)])
  }

  /** `EnqueueWithSilence`: suppress, drop or queue; only a queued item takes the window slot. */
  function Enqueue(s: State, evt: AlertEvent): State {
    var key := AlertKey(evt);
    if Silenced(s, key) then s.(suppressed := s.suppressed + 1)
    else if |s.queue| >= MAX_QUEUE then s.(dropped := s.dropped + 1)
    else if s.cfg.silenceMinutes > 0 then TakeSlot(s, key).(queue := s.queue + [evt])
    else s.(queue := s.queue + [evt])
  }

  /** The digest of a window: its last alert, with the count and the first and last times. */
  function Digest(w: AggWindow): AlertEvent {
    w.last.(occurrences := w.pending, firstSeen := w.first.timestamp, lastSeen := w.last.timestamp)
  }

  /** `FlushAggWindowLocked` followed by the caller's erase. */
  function FlushWindow(s: State, key: string): (r: State)
    requires key in s.windows
    ensures r.windows == s.windows - {key} && r.cfg == s.cfg && r.clock == s.clock
  {
    var w := s.windows[key];
    var flushed :=
      if w.pending == 0 then s
      else Enqueue(s.(digests := s.digests + 1, digested := s.digested + w.pending), Digest(w));
    flushed.(windows := s.windows - {key})
  }

  predicate Distinct(keys: seq<string>) {
    forall i, j | 0 <= i < j < |keys| :: keys[i] != keys[j]
  }

  predicate IsOrderOf(order: seq<string>, keys: set<string>) {
    Distinct(order) && (set k | k in order) == keys
  }

  /** Flushes the windows of `order`, one after the other. */
  function FlushAll(s: State, order: seq<string>): (r: State)
    requires Distinct(order) && forall k | k in order :: k in s.windows
    ensures r.windows == s.windows - (set k | k in order) && r.cfg == s.cfg && r.clock == s.clock
  {
    if order == [] then s
    else
      var n := |order| - 1;
      assert order[n] !in order[..n];
      assert order == order[..n] + [order[n]];
      FlushWindow(FlushAll(s, order[..n]), order[n])
  }

  predicate WindowActive(s: State, key: string)
    requires key in s.windows
  {
    SilenceWindowActive(s.windows[key].start, s.clock, s.cfg.aggMinutes * 60)
  }

  function Expired(s: State): set<string> {
    set k | k in s.windows && !WindowActive(s, k)
  }

  ghost function OpenWindow(s: State, key: string): (r: State)
  {
    var grown := s.windows[key := AggWindow(s.clock, 0, NO_ALERT, NO_ALERT)];
    if |grown| > MAX_KEYS then
      s.(windows := map[key := AggWindow(s.clock, 0, NO_ALERT, NO_ALERT)], discarded := s.discarded + SumPending(grown))
    else s.(windows := grown)
  }

  function MergeAlert(s: State, key: string, evt: AlertEvent): State
    requires key in s.windows
  {
    var w := s.windows[key];
    var grown := w.(pending := w.pending + 1, first := if w.pending == 0 then evt else w.first, last := evt);
    s.(windows := s.windows[key := grown], merged := s.merged + 1)
  }

  predicate Accepts(s: State, evt: AlertEvent) {
    s.cfg.enabled && s.notifier.Some? && ShouldRouteByLevel(evt.severity, s.cfg.minLevel)
  }

  /** `Dispatch` of a routed alert. */
  ghost function Route(s: State, evt: AlertEvent): State {
    if s.cfg.aggMinutes <= 0 then Enqueue(s, evt)
    else
      var key := AlertKey(evt);
      if key in s.windows && WindowActive(s, key) then MergeAlert(s, key, evt)
      else
        var settled := if key in s.windows then FlushWindow(s, key) else s;
        Enqueue(OpenWindow(settled, key), evt)
  }

  // ----- steps and runs -----

  datatype Op =
    | Reload(cfg: Config, now: int, order: seq<string>)
    | Alert(evt: AlertEvent, now: int)
    | Sweep(now: int, order: seq<string>)
    | Take
    | Done(ok: bool)

  predicate TurnsAggOff(s: State, cfg: Config) {
    s.cfg.aggMinutes > 0 && cfg.aggMinutes <= 0
  }

  /** The configuration part of a reload. */
  function Reconfigured(s: State, cfg: Config, now: int): State {
    s.(cfg := cfg,
       notifier := if cfg.url == s.cfg.url then s.notifier else if cfg.url == "" then None else Some(cfg.url),
       clock := now,
       epoch := s.epoch + 1)
  }

  predicate Enabled(s: State, op: Op) {
    match op
    case Reload(cfg, now, order) => now >= s.clock && (TurnsAggOff(s, cfg) ==> IsOrderOf(order, s.windows.Keys))
    case Alert(_, now) => now >= s.clock
    case Sweep(now, order) =>
      now >= s.clock && s.inFlight.None? && (s.cfg.aggMinutes > 0 ==> IsOrderOf(order, Expired(s.(clock := now))))
    case Take => s.inFlight.None? && s.queue != []
    case Done(_) => s.inFlight.Some?
  }

  ghost function Apply(s: State, op: Op): State
    requires Enabled(s, op)
  {
    match op
    case Reload(cfg, now, order) =>
      var r := Reconfigured(s, cfg, now);
      if TurnsAggOff(s, cfg) then FlushAll(r, order) else r
    case Alert(evt, now) =>
      var r := s.(clock := now);
      if Accepts(r, evt) then Route(r, evt).(routed := r.routed + 1) else r
    case Sweep(now, order) =>
      var r := s.(clock := now);
      if s.cfg.aggMinutes <= 0 then r
      else
        assert forall k | k in order :: k in (set j | j in order) && k in Expired(r);
        FlushAll(r, order)
    case Take => s.(inFlight := Some(s.queue[0]), queue := s.queue[1..])
    case Done(ok) =>
      if ok then s.(inFlight := None, sent := s.sent + 1) else s.(inFlight := None, failed := s.failed + 1)
  }

  ghost function Exec(start: int, ops: seq<Op>): Option<State> {
    if ops == [] then Some(Init(start))
    else
      match Exec(start, ops[..|ops| - 1])
      case None => None
      case Some(s) => if Enabled(s, ops[|ops| - 1]) then Some(Apply(s, ops[|ops| - 1])) else None
  }

  // ----- sums over windows -----

  ghost function AnyKey(m: map<string, AggWindow>): (k: string)
    requires m != map[]
    ensures k in m
  {
    var k :| k in m;
    k
  }

  ghost function SumPending(m: map<string, AggWindow>): nat
  {
    if m == map[] then 0
    else
      var k := AnyKey(m);
      m[k].pending + SumPending(m - {k})
  }

  lemma {:induction false} SumRemove(m: map<string, AggWindow>, k: string)
    requires k in m
    ensures SumPending(m) == m[k].pending + SumPending(m - {k})
    decreases |m|
  {
    var j := AnyKey(m);
    if j != k {
      SumRemove(m - {j}, k);
      assert (m - {k}) != map[] by { assert j in m - {k}; }
      SumRemove(m - {k}, j);
      assert m - {j} - {k} == m - {k} - {j};
    }
  }

  lemma SumUpdate(m: map<string, AggWindow>, k: string, w: AggWindow)
    ensures SumPending(m[k := w]) == w.pending + SumPending(m - {k})
    ensures k in m ==> SumPending(m) == m[k].pending + SumPending(m - {k})
    ensures k !in m ==> m - {k} == m
  {
    SumRemove(m[k := w], k);
    assert m[k := w] - {k} == m - {k};
    if k in m {
      SumRemove(m, k);
    } else {
      assert m - {k} == m;
    }
  }
}
