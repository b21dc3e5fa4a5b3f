/** How src/alerts/notify_dispatcher.cpp loses a silence: a run in which one key is queued twice
    inside its silence window, because 4096 other keys were queued in between. */
module NotifySilence {
  import opened Options
  import opened NotifyRouter
  import opened NotifySpec
  import R = NotifyReload

  /** Ten minutes of silence, no aggregation. */
  const QUIET_CONFIG := Config(true, "https://hook", "low", 10, 0)
  const SILENCE := 600 * TICKS_PER_SECOND

  /** An alert of a rule of its own for each number. */
  function Probe(i: nat): AlertEvent {
    AlertEvent(seq(i, _ => 'x'), "critical", "file.write", "/f", "", 0, "", 1, "", "")
  }

  function Key(i: nat): string {
    AlertKey(Probe(i))
  }

  lemma KeysDiffer(i: nat, j: nat)
    ensures Key(i) == Key(j) ==> i == j
  {
    assert SilenceObjectKey(Probe(i)) == SilenceObjectKey(Probe(j));
    hide SilenceObjectKey;
    assert |Key(i)| == i + 1 + |SilenceObjectKey(Probe(i))|;
    assert |Key(j)| == j + 1 + |SilenceObjectKey(Probe(j))|;
  }

  function KeysBelow(n: nat): set<string> {
    if n == 0 then {} else KeysBelow(n - 1) + {Key(n - 1)}
  }

  lemma {:induction false} KeysBelowAre(n: nat)
    ensures |KeysBelow(n)| == n
    ensures forall i: nat :: Key(i) in KeysBelow(n) <==> i < n
  {
    hide Key;
    if n > 0 {
      KeysBelowAre(n - 1);
      forall i: nat
        ensures Key(i) == Key(n - 1) ==> i == n - 1
      {
        KeysDiffer(i, n - 1);
      }
    }
  }

  /** The dispatcher has sent the first `n` probes, all at one time, and is idle. */
  ghost predicate Flooded(s: State, n: nat, start: int) {
    && s.cfg == QUIET_CONFIG && s.notifier.Some? && s.windows == map[]
    && s.queue == [] && s.inFlight.None? && s.clock == start && s.suppressed == 0
    && s.lastSent.Keys == KeysBelow(n)
    && |s.log| == n && (n > 0 ==> s.log[0] == Queued(Key(0), start, SILENCE, s.epoch))
  }

  /** A probe whose key is not remembered is queued, remembered and logged. */
  lemma ProbeQueued(s: State, i: nat, start: int)
    requires s.cfg == QUIET_CONFIG && s.notifier.Some? && s.queue == [] && s.clock == start && Key(i) !in s.lastSent
    ensures Enabled(s, Alert(Probe(i), start))
    ensures var r := Apply(s, Alert(Probe(i), start));
      && r == TakeSlot(s, Key(i)).(queue := [Probe(i)], routed := s.routed + 1)
  {
    hide TakeSlot;
    assert s.(clock := start) == s;
    assert Probe(i).severity == "critical" && Accepts(s, Probe(i));
    hide Probe;
    assert !Silenced(s, Key(i));
    assert s.queue + [Probe(i)] == [Probe(i)];
  }

  lemma Sent(s: State, evt: AlertEvent)
    requires s.queue == [evt] && s.inFlight.None?
    ensures Enabled(s, Take) && Enabled(Apply(s, Take), Done(true))
    ensures Apply(Apply(s, Take), Done(true)) == s.(queue := [], sent := s.sent + 1)
  {
    assert [evt][1..] == [];
  }

  /** Remembering one key more. */
  lemma SlotTaken(s: State, i: nat)
    requires Key(i) !in s.lastSent && s.cfg == QUIET_CONFIG
    ensures var r := TakeSlot(s, Key(i));
      && r == s.(lastSent := r.lastSent, epoch := r.epoch, log := r.log)
      && r.log == s.log + [Queued(Key(i), s.clock, SILENCE, r.epoch)]
      && (if |s.lastSent| < MAX_KEYS then r.lastSent.Keys == s.lastSent.Keys + {Key(i)} && r.epoch == s.epoch
          else r.lastSent.Keys == {Key(i)} && r.epoch == s.epoch + 1)
  {
    hide Key;
    var kept := s.lastSent[Key(i) := s.clock];
    assert kept.Keys == s.lastSent.Keys + {Key(i)};
    assert |kept| == |kept.Keys| && |s.lastSent| == |s.lastSent.Keys|;
  }

  /** The run's three steps for one probe. */
  lemma OneProbe(start: int, ops: seq<Op>, i: nat) returns (next: seq<Op>)
    requires Exec(start, ops).Some?
    requires var s := Exec(start, ops).value;
      && s.cfg == QUIET_CONFIG && s.notifier.Some? && s.queue == [] && s.inFlight.None? && s.clock == start
      && Key(i) !in s.lastSent
    ensures next == ops + [Alert(Probe(i), start), Take, Done(true)]
    ensures var s := Exec(start, ops).value;
      Exec(start, next) == Some(TakeSlot(s, Key(i)).(queue := [], routed := s.routed + 1, sent := s.sent + 1))
  {
    hide Exec;
    hide Apply;
    hide Enabled;
    hide TakeSlot;
    hide Key;
    hide Probe;
    var s := Exec(start, ops).value;
    ProbeQueued(s, i, start);
    R.ExecOne(start, ops, Alert(Probe(i), start));
    next := ops + [Alert(Probe(i), start)];
    var queued := Exec(start, next).value;
    SlotTaken(s, i);
    Sent(queued, Probe(i));
    R.ExecOne(start, next, Take);
    next := next + [Take];
    R.ExecOne(start, next, Done(true));
    next := next + [Done(true)];
  }

  lemma FloodedNext(s: State, n: nat, start: int, r: State)
    requires Flooded(s, n, start) && n < MAX_KEYS
    requires r == TakeSlot(s, Key(n)).(queue := [], routed := s.routed + 1, sent := s.sent + 1)
    ensures Flooded(r, n + 1, start)
  {
    hide TakeSlot;
    KeysBelowAre(n);
    hide Key;
    assert |s.lastSent| == |s.lastSent.Keys|;
    SlotTaken(s, n);
  }

  /** The first operation configures the dispatcher; no other is a reload. */
  predicate OneReload(ops: seq<Op>) {
    ops != [] && ops[0].Reload? && R.ReloadFree(ops[1..])
  }

  lemma ReloadsAppend(ops: seq<Op>, more: seq<Op>)
    requires OneReload(ops) && R.ReloadFree(more)
    ensures OneReload(ops + more)
  {
    assert (ops + more)[1..] == ops[1..] + more;
  }

  lemma {:induction false} Flood(start: int, n: nat) returns (ops: seq<Op>)
    requires n <= MAX_KEYS
    ensures Exec(start, ops).Some? && Flooded(Exec(start, ops).value, n, start) && OneReload(ops)
  {
    if n == 0 {
      var first := Reload(QUIET_CONFIG, start, []);
      assert IsOrderOf([], Init(start).windows.Keys);
      R.EmptyRun(start);
      R.ExecOne(start, [], first);
      ops := [] + [first];
    } else {
      hide Exec;
      hide Flooded;
      ops := Flood(start, n - 1);
      var s := Exec(start, ops).value;
      FloodedIdle(s, n - 1, start);
      var next := OneProbe(start, ops, n - 1);
      FloodedNext(s, n - 1, start, Exec(start, next).value);
      ReloadsAppend(ops, [Alert(Probe(n - 1), start), Take, Done(true)]);
      ops := next;
    }
  }

  lemma FloodedIdle(s: State, n: nat, start: int)
    requires Flooded(s, n, start)
    ensures s.cfg == QUIET_CONFIG && s.notifier.Some? && s.queue == [] && s.inFlight.None? && s.clock == start
    ensures s.suppressed == 0
    ensures Key(n) !in s.lastSent && |s.lastSent| == n && |s.log| == n
    ensures n > 0 ==> s.log[0] == Queued(Key(0), start, SILENCE, s.epoch)
  {
    hide Key;
    KeysBelowAre(n);
    assert |s.lastSent| == |s.lastSent.Keys|;
  }

  /** One reload, then 4097 keys and the first of them again, all at one time: the first key is
      queued twice with less than its silence window between the two. */
  lemma SilenceLostRun(start: int) returns (ops: seq<Op>, j: nat)
    ensures Exec(start, ops).Some? && OneReload(ops)
    ensures var s := Exec(start, ops).value;
      && s.queue == [Probe(0)] && s.suppressed == 0
      && 0 < j < |s.log| && s.log[0].key == s.log[j].key == Key(0)
      && s.log[j].time - s.log[0].time < s.log[j].window == s.log[0].window
  {
    var n: nat := MAX_KEYS;
    hide Exec;
    hide Flooded;
    hide OneReload;
    hide Key;
    hide Probe;
    ops := Flood(start, n);
    ops, j := PastTheCap(start, ops, n);
  }

  lemma PastTheCap(start: int, ops: seq<Op>, n: nat) returns (next: seq<Op>, j: nat)
    requires n == MAX_KEYS && Exec(start, ops).Some? && Flooded(Exec(start, ops).value, n, start) && OneReload(ops)
    ensures Exec(start, next).Some? && OneReload(next)
    ensures var s := Exec(start, next).value;
      && s.queue == [Probe(0)]
      && s.suppressed == 0
      && 0 < j < |s.log| && s.log[0].key == s.log[j].key == Key(0)
      && s.log[j].time - s.log[0].time < s.log[j].window == s.log[0].window
  {
    hide Exec;
    hide Flooded;
    hide TakeSlot;
    hide Key;
    hide Probe;
    hide Apply;
    hide Enabled;
    var s := Exec(start, ops).value;
    FloodedIdle(s, n, start);
    next := OneProbe(start, ops, n);
    ReloadsAppend(ops, [Alert(Probe(n), start), Take, Done(true)]);
    SlotTaken(s, n);
    var cleared := Exec(start, next).value;
    KeysDiffer(0, n);
    ProbeQueued(cleared, 0, start);
    R.ExecOne(start, next, Alert(Probe(0), start));
    ReloadsAppend(next, [Alert(Probe(0), start)]);
    next := next + [Alert(Probe(0), start)];
    SlotTaken(cleared, 0);
    j := n + 1;
  }
}
