/** Which alerts src/alerts/notify_dispatcher.cpp sends on, which of them count as the same, and its
    limits, spelled out. */
module NotifyRouting {
  import opened Decimal
  import opened Options
  import opened NotifyRouter
  import opened NotifySpec
  import opened NotifyLedger

  // ----- levels -----

  /** The severities, lowest first. */
  const LEVELS := ["low", "medium", "high", "critical"]

  /** An alert of a listed severity passes a listed minimum if and only if it is at or above it in
      the list. */
  lemma PassesIff(i: nat, j: nat)
    requires i < 4 && j < 4
    ensures ShouldRouteByLevel(LEVELS[i], LEVELS[j]) <==> i >= j
  {
    LevelsDiffer();
  }

  lemma LevelsDiffer()
    ensures LEVELS[0] == "low" && LEVELS[1] == "medium" && LEVELS[2] == "high" && LEVELS[3] == "critical"
    ensures "low" != "medium" && "low" != "high" && "low" != "critical"
    ensures "medium" != "high" && "medium" != "critical" && "high" != "critical"
  {
  }

  /** The place in the list that a severity counts as: unlisted ones as medium. */
  function PlaceOf(severity: string): (i: nat)
    ensures i < 4
    ensures severity in LEVELS ==> LEVELS[i] == severity
    ensures severity !in LEVELS ==> LEVELS[i] == "medium"
  {
    LevelsDiffer();
    if severity == "low" then 0 else if severity == "high" then 2 else if severity == "critical" then 3 else 1
  }

  /** The place in the list that a minimum acts as: unlisted ones, and none, as high. */
  function PlaceOfMinimum(minimum: string): (i: nat)
    ensures i < 4
    ensures minimum in LEVELS ==> LEVELS[i] == minimum
    ensures minimum !in LEVELS ==> LEVELS[i] == "high"
  {
    LevelsDiffer();
    if minimum in LEVELS then PlaceOf(minimum) else 2
  }

  lemma RoutesIff(severity: string, minimum: string)
    ensures ShouldRouteByLevel(severity, minimum) <==> PlaceOf(severity) >= PlaceOfMinimum(minimum)
    ensures severity !in LEVELS ==> ShouldRouteByLevel(severity, minimum) == ShouldRouteByLevel("medium", minimum)
    ensures minimum !in LEVELS ==> ShouldRouteByLevel(severity, minimum) == ShouldRouteByLevel(severity, "high")
  {
    LevelsDiffer();
    assert severity in LEVELS <==>
        severity == "low" || severity == "medium" || severity == "high" || severity == "critical";
    assert minimum in LEVELS <==> minimum == "low" || minimum == "medium" || minimum == "high" || minimum == "critical";
  }

  /** An alert is taken up if and only if dispatching is on, there is a notifier, and its severity
      counts at least as much as the minimum; otherwise only the clock moves. */
  lemma AlertRoutedIff(s: State, evt: AlertEvent, now: int)
    requires Enabled(s, Alert(evt, now))
    ensures var r := Apply(s, Alert(evt, now));
      var passes := s.cfg.enabled && s.notifier.Some? && PlaceOf(evt.severity) >= PlaceOfMinimum(s.cfg.minLevel);
      && r.routed == (if passes then s.routed + 1 else s.routed)
      && (!passes ==> r == s.(clock := now))
  {
    hide Route;
    hide ShouldRouteByLevel;
    hide PlaceOf;
    hide PlaceOfMinimum;
    RoutesIff(evt.severity, s.cfg.minLevel);
  }

  // ----- the notifier -----

  lemma StepKeepsNotifier(s: State, op: Op)
    requires Enabled(s, op)
    ensures Apply(s, op).notifier == if op.Reload? then Reconfigured(s, op.cfg, op.now).notifier else s.notifier
    ensures Apply(s, op).cfg == if op.Reload? then op.cfg else s.cfg
  {
    hide Route;
    hide FlushAll;
    hide Expired;
    match op
    case Reload(cfg, now, order) =>
      if TurnsAggOff(s, cfg) {
        assert forall k | k in order :: k in (set j | j in order);
        FlushAllKeepsNotifier(Reconfigured(s, cfg, now), order);
      }
    case Alert(evt, now) =>
      RouteKeepsNotifier(s.(clock := now), evt);
      RouteKeepsConfig(s.(clock := now), evt);
    case Sweep(now, order) =>
      if s.cfg.aggMinutes > 0 {
        assert forall k | k in order :: k in (set j | j in order);
        assert forall k | k in order :: k in s.windows by { ExpiredAreWindows(s.(clock := now)); }
        FlushAllKeepsNotifier(s.(clock := now), order);
      }
    case Take =>
    case Done(_) =>
  }

  /** In every run the notifier is the one for the configured URL, and there is none without one. */
  lemma {:induction false} NotifierIsForUrl(start: int, ops: seq<Op>)
    requires Exec(start, ops).Some?
    ensures var s := Exec(start, ops).value;
      s.notifier == if s.cfg.url == "" then None else Some(s.cfg.url)
  {
    hide Apply;
    if ops != [] {
      var n := |ops| - 1;
      NotifierIsForUrl(start, ops[..n]);
      StepKeepsNotifier(Exec(start, ops[..n]).value, ops[n]);
    }
  }

  // ----- which alerts share a key -----

  /** What an alert is about: a process for process events, else the file, else the process if it
      is known, else nothing. */
  datatype Subject = Process(exe: string, pid: int) | File(path: string) | Nothing

  ghost function SubjectOf(e: AlertEvent): Subject {
    if exists rest :: e.eventType == "process." + rest then Process(e.exe, e.pid)
    else if e.filePath != "" then File(e.filePath)
    else if e.exe != "" then Process(e.exe, e.pid)
    else Nothing
  }

  function SubjectText(subject: Subject): string {
    match subject
    case Process(exe, pid) => "proc:" + exe + ":" + IntText(pid)
    case File(path) => "file:" + path
    case Nothing => "-"
  }

  lemma ObjectKeyIs(e: AlertEvent)
    ensures SilenceObjectKey(e) == SubjectText(SubjectOf(e))
  {
    assert "process." <= e.eventType ==> e.eventType == "process." + e.eventType[8..];
  }

  /** Different subjects have different texts. */
  lemma SubjectTextIsUnique(a: Subject, b: Subject)
    ensures SubjectText(a) == SubjectText(b) <==> a == b
  {
    hide IntText;
    FirstOfText(a);
    FirstOfText(b);
    match (a, b)
    case (Process(x, m), Process(y, n)) => SameProcessText(x, m, y, n);
    case (File(p), File(q)) =>
      StartOf("file:", p);
      StartOf("file:", q);
    case _ =>
  }

  lemma FirstOfText(subject: Subject)
    ensures SubjectText(subject) != ""
    ensures SubjectText(subject)[0] == if subject.Process? then 'p' else if subject.File? then 'f' else '-'
  {
  }

  lemma StartOf(start: string, rest: string)
    requires start != ""
    ensures (start + rest)[0] == start[0] && (start + rest)[|start|..] == rest
  {
  }

  lemma SameProcessText(x: string, m: int, y: string, n: int)
    ensures "proc:" + x + ":" + IntText(m) == "proc:" + y + ":" + IntText(n) <==> x == y && m == n
  {
    IntTextIsUnique(m, n);
    IntTextIsUnique(n, m);
    hide IntText;
    var u, v := x + ":" + IntText(m), y + ":" + IntText(n);
    StartOf("proc:", u);
    StartOf("proc:", v);
    assert "proc:" + u == "proc:" + x + ":" + IntText(m);
    assert "proc:" + v == "proc:" + y + ":" + IntText(n);
    if u == v {
      LastColon(x, IntText(m), y, IntText(n));
    }
  }

  /** Only the last colon stands before the number. */
  lemma LastColon(x: string, m: string, y: string, n: string)
    requires ':' !in m && ':' !in n && x + ":" + m == y + ":" + n
    ensures x == y && m == n
  {
    NotLonger(x, m, y, n);
    NotLonger(y, n, x, m);
    var s, t := x + ":" + m, y + ":" + n;
    assert s[..|x|] == x && t[..|y|] == y && s[|x| + 1..] == m && t[|y| + 1..] == n;
  }

  lemma NotLonger(x: string, m: string, y: string, n: string)
    requires ':' !in n && x + ":" + m == y + ":" + n
    ensures |x| <= |y|
  {
    assert (x + ":" + m)[|x|] == ':';
  }

  /** Alerts of rules without a bar in their names share a key if and only if they are of one rule
      and about one subject. */
  lemma SameKeyIff(a: AlertEvent, b: AlertEvent)
    requires '|' !in a.ruleId && '|' !in b.ruleId
    ensures AlertKey(a) == AlertKey(b) <==> a.ruleId == b.ruleId && SubjectOf(a) == SubjectOf(b)
  {
    hide SilenceObjectKey;
    hide SubjectOf;
    hide SubjectText;
    ObjectKeyIs(a);
    ObjectKeyIs(b);
    SubjectTextIsUnique(SubjectOf(a), SubjectOf(b));
    if AlertKey(a) == AlertKey(b) {
      FirstBar(a.ruleId, SilenceObjectKey(a), b.ruleId, SilenceObjectKey(b));
    }
  }

  lemma FirstBar(x: string, m: string, y: string, n: string)
    requires '|' !in x && '|' !in y && x + "|" + m == y + "|" + n
    ensures x == y && m == n
  {
    NotShorter(x, m, y, n);
    NotShorter(y, n, x, m);
    var s, t := x + "|" + m, y + "|" + n;
    assert s[..|x|] == x && t[..|y|] == y && s[|x| + 1..] == m && t[|y| + 1..] == n;
  }

  lemma NotShorter(x: string, m: string, y: string, n: string)
    requires '|' !in y && x + "|" + m == y + "|" + n
    ensures |x| >= |y|
  {
    assert (x + "|" + m)[|x|] == '|';
  }

  /** Under one rule, bar or no bar, only the subject decides. */
  lemma SameRuleSameKeyIff(a: AlertEvent, b: AlertEvent)
    requires a.ruleId == b.ruleId
    ensures AlertKey(a) == AlertKey(b) <==> SubjectOf(a) == SubjectOf(b)
  {
    hide SilenceObjectKey;
    hide SubjectOf;
    hide SubjectText;
    ObjectKeyIs(a);
    ObjectKeyIs(b);
    SubjectTextIsUnique(SubjectOf(a), SubjectOf(b));
    var x, y := AlertKey(a), AlertKey(b);
    assert x[|a.ruleId| + 1..] == SilenceObjectKey(a) && y[|a.ruleId| + 1..] == SilenceObjectKey(b);
  }

  /** With a bar in a rule's name, alerts of two rules can share a key. */
  lemma BarConfusesRules(a: AlertEvent, b: AlertEvent)
    requires a.ruleId == "r" && a.filePath == "x|file:y" && a.eventType == "file.write"
    requires b.ruleId == "r|file:x" && b.filePath == "y" && b.eventType == "file.write"
    ensures AlertKey(a) == AlertKey(b)
  {
    assert "process."[0] == 'p' && "file.write"[0] == 'f';
    assert SilenceObjectKey(a) == "file:x|file:y" && SilenceObjectKey(b) == "file:y";
  }

  // ----- windows and limits -----

  /** Silence and aggregation windows are minutes of the clock's nanoseconds. */
  lemma WindowsInTicks(s: State, key: string)
    ensures Silenced(s, key) <==>
              && s.cfg.silenceMinutes > 0 && key in s.lastSent
              && s.clock < s.lastSent[key] + s.cfg.silenceMinutes * 60_000_000_000
    ensures key in s.windows ==>
              (WindowActive(s, key) <==>
                 s.cfg.aggMinutes > 0 && s.clock < s.windows[key].start + s.cfg.aggMinutes * 60_000_000_000)
  {
  }

  /** What becomes of an item: suppressed if its key is silenced, dropped if 1024 are waiting, else
      the last in the queue. */
  lemma ItemOutcome(s: State, evt: AlertEvent)
    ensures var r := Enqueue(s, evt);
      && r.suppressed == s.suppressed + (if Silenced(s, AlertKey(evt)) then 1 else 0)
      && r.dropped == s.dropped + (if !Silenced(s, AlertKey(evt)) && |s.queue| >= 1024 then 1 else 0)
      && r.queue == s.queue + if !Silenced(s, AlertKey(evt)) && |s.queue| < 1024 then [evt] else []
  {
    hide AlertKey;
    hide Silenced;
  }

  /** A queued item's key is remembered with the time; the others are too, unless that makes more
      than 4096. */
  lemma KeysRemembered(s: State, evt: AlertEvent)
    requires !Silenced(s, AlertKey(evt)) && |s.queue| < 1024 && s.cfg.silenceMinutes > 0
    ensures var key, kept := AlertKey(evt), s.lastSent[AlertKey(evt) := s.clock];
      Enqueue(s, evt).lastSent == if |kept| <= 4096 then kept else map[key := s.clock]
  {
    hide AlertKey;
    hide Silenced;
  }

  /** Opening a window keeps the others, unless that makes more than 4096. */
  lemma WindowsKept(s: State, key: string)
    ensures var r := OpenWindow(s, key);
      && key in r.windows && r.windows[key].start == s.clock && r.windows[key].pending == 0
      && (|s.windows.Keys + {key}| <= 4096 ==>
            forall k | k in s.windows && k != key :: k in r.windows && r.windows[k] == s.windows[k])
      && (|s.windows.Keys + {key}| > 4096 ==> r.windows.Keys == {key})
  {
    hide SumPending;
    var grown := s.windows[key := AggWindow(s.clock, 0, NO_ALERT, NO_ALERT)];
    assert grown.Keys == s.windows.Keys + {key} && |grown| == |grown.Keys|;
  }
}
