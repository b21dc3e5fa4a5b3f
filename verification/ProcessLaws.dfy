/** What the process tree guarantees over every run of bootstrap loads, events and sweeps. */
module ProcessLaws {
  import opened Options
  import opened ProcessSpec
  import T = ProcessTree

  datatype Op =
    | Load(node: Node)
    | Event(event: ProcEvent, info: ProcInfo, now: nat)
    | SweepAt(time: nat)

  /** Bootstrapped nodes start alive. */
  function Step(t: Tree, op: Op): Tree {
    match op
    case Load(node) => Upsert(t, node.(exited := false, exitTimeMs := 0))
    case Event(e, info, now) => Apply(t, e, info, now)
    case SweepAt(now) => Sweep(t, now)
  }

  function Run(ops: seq<Op>): Tree {
    if ops == [] then EMPTY else Step(Run(ops[..|ops| - 1]), ops[|ops| - 1])
  }

  predicate IsKnown(kind: nat) {
    kind == FORK || kind == EXEC || kind == EXIT
  }

  /** The pid an operation is about, if any. */
  function Subject(op: Op): Option<nat> {
    match op
    case Load(node) => Some(node.pid)
    case Event(e, _, _) => if IsKnown(e.kind) then Some(e.pid) else None
    case SweepAt(_) => None
  }

  /** Position of the last operation about the pid, or -1. */
  function LastAbout(ops: seq<Op>, pid: nat): (k: int)
    ensures -1 <= k < |ops|
    ensures k >= 0 ==> Subject(ops[k]) == Some(pid)
    ensures forall j | k < j < |ops| :: Subject(ops[j]) != Some(pid)
  {
    if ops == [] then -1
    else if Subject(ops[|ops| - 1]) == Some(pid) then |ops| - 1
    else LastAbout(ops[..|ops| - 1], pid)
  }

  predicate IsExit(op: Op) {
    op.Event? && op.event.kind == EXIT
  }

  predicate LastWasExit(ops: seq<Op>, pid: nat) {
    LastAbout(ops, pid) >= 0 && IsExit(ops[LastAbout(ops, pid)])
  }

  // ----- the invariant of every run -----

  /** Most recent first. */
  predicate Ordered(pids: seq<nat>, ops: seq<Op>) {
    forall i, j | 0 <= i < j < |pids| :: LastAbout(ops, pids[i]) > LastAbout(ops, pids[j])
  }

  /** A node is a tombstone exactly when the last operation about its pid was an exit, and then
      carries that exit's time. */
  ghost predicate Marked(nodes: map<nat, Node>, ops: seq<Op>) {
    forall pid | pid in nodes :: MarkedOne(nodes[pid], pid, ops)
  }

  predicate MarkedOne(node: Node, pid: nat, ops: seq<Op>) {
    var k := LastAbout(ops, pid);
    && k >= 0
    && (node.exited <==> IsExit(ops[k]))
    && (node.exited ==> node.exitTimeMs == ops[k].now)
  }

  ghost predicate Told(t: Tree, ops: seq<Op>) {
    Agrees(t) && Ordered(t.recency, ops) && Marked(t.nodes, ops)
  }

  lemma LastAboutNext(ops: seq<Op>, op: Op, pid: nat)
    ensures LastAbout(ops + [op], pid) == if Subject(op) == Some(pid) then |ops| else LastAbout(ops, pid)
  {
    assert (ops + [op])[..|ops|] == ops;
  }

  lemma {:induction false} WithoutOrdered(pids: seq<nat>, pid: nat, ops: seq<Op>)
    requires Ordered(pids, ops)
    ensures Ordered(Without(pids, pid), ops)
  {
    hide LastAbout;
    if pids != [] {
      TailOrdered(pids, ops);
      WithoutOrdered(pids[1..], pid, ops);
      if pids[0] != pid {
        ConsOrdered(pids[0], Without(pids[1..], pid), ops);
      }
    }
  }

  lemma {:induction false} WithoutAllOrdered(pids: seq<nat>, dead: set<nat>, ops: seq<Op>)
    requires Ordered(pids, ops)
    ensures Ordered(WithoutAll(pids, dead), ops)
  {
    hide LastAbout;
    if pids != [] {
      TailOrdered(pids, ops);
      WithoutAllOrdered(pids[1..], dead, ops);
      if pids[0] !in dead {
        ConsOrdered(pids[0], WithoutAll(pids[1..], dead), ops);
      } else {
        assert [] + WithoutAll(pids[1..], dead) == WithoutAll(pids[1..], dead);
      }
    }
  }

  lemma TailOrdered(pids: seq<nat>, ops: seq<Op>)
    requires Ordered(pids, ops) && pids != []
    ensures Ordered(pids[1..], ops)
    ensures forall p | p in pids[1..] :: LastAbout(ops, pids[0]) > LastAbout(ops, p)
  {
    hide LastAbout;
    assert forall k | 0 <= k < |pids[1..]| :: pids[1..][k] == pids[k + 1];
  }

  lemma ConsOrdered(pid: nat, rest: seq<nat>, ops: seq<Op>)
    requires Ordered(rest, ops)
    requires forall p | p in rest :: LastAbout(ops, pid) > LastAbout(ops, p)
    ensures Ordered([pid] + rest, ops)
  {
    hide LastAbout;
    var all := [pid] + rest;
    forall i, j | 0 <= i < j < |all|
      ensures LastAbout(ops, all[i]) > LastAbout(ops, all[j])
    {
      assert all[j] == rest[j - 1];
      if i > 0 {
        assert all[i] == rest[i - 1];
      }
    }
  }

  /** An operation about none of the pids leaves their order. */
  lemma OrderedLater(pids: seq<nat>, ops: seq<Op>, op: Op)
    requires Ordered(pids, ops)
    requires forall p | p in pids :: Subject(op) != Some(p)
    ensures Ordered(pids, ops + [op])
  {
    hide LastAbout;
    forall p | p in pids
      ensures LastAbout(ops + [op], p) == LastAbout(ops, p)
    {
      LastAboutNext(ops, op, p);
    }
  }

  /** The subject goes to the front, ahead of everything the run knew before. */
  lemma FrontOrdered(pids: seq<nat>, ops: seq<Op>, op: Op, pid: nat)
    requires Ordered(pids, ops) && Subject(op) == Some(pid)
    ensures Ordered([pid] + Without(pids, pid), ops + [op])
  {
    hide LastAbout;
    var rest := Without(pids, pid);
    WithoutOrdered(pids, pid, ops);
    OrderedLater(rest, ops, op);
    LastAboutNext(ops, op, pid);
    forall p | p in rest
      ensures LastAbout(ops + [op], pid) > LastAbout(ops + [op], p)
    {
      LastAboutNext(ops, op, p);
      LastAboutBelow(ops, p);
    }
    ConsOrdered(pid, rest, ops + [op]);
  }

  lemma LastAboutBelow(ops: seq<Op>, pid: nat)
    ensures LastAbout(ops, pid) < |ops|
  {
  }

  lemma MarkedLater(nodes: map<nat, Node>, ops: seq<Op>, op: Op, but: nat)
    requires Marked(nodes, ops) && (Subject(op) == None || Subject(op) == Some(but))
    ensures forall pid | pid in nodes && Subject(op) != Some(pid) :: MarkedOne(nodes[pid], pid, ops + [op])
  {
    hide LastAbout;
    forall pid | pid in nodes && Subject(op) != Some(pid)
      ensures MarkedOne(nodes[pid], pid, ops + [op])
    {
      LastAboutNext(ops, op, pid);
      LastAboutBelow(ops, pid);
      assert MarkedOne(nodes[pid], pid, ops);
    }
  }

  lemma MarkedSubject(node: Node, pid: nat, ops: seq<Op>, op: Op)
    requires Subject(op) == Some(pid)
    requires node.exited <==> IsExit(op)
    requires node.exited ==> node.exitTimeMs == op.now
    ensures MarkedOne(node, pid, ops + [op])
  {
    LastAboutNext(ops, op, pid);
  }

  /** The node an operation leaves for its subject, before any eviction. */
  function Placed(t: Tree, op: Op): Node
    requires Subject(op).Some?
  {
    match op
    case Load(node) => node.(exited := false, exitTimeMs := 0)
    case Event(e, info, now) =>
      if e.kind == FORK then ForkNode(e, info)
      else if e.kind == EXEC then
        if e.pid in t.nodes then Executed(t.nodes[e.pid], e, info) else ExecNode(e, info)
      else
        if e.pid in t.nodes then t.nodes[e.pid].(exited := true, exitTimeMs := now) else ExitNode(e, now)
  }

  /** Every operation about a pid puts that pid's node in place, moves it to the front, and
      evicts one other node when the tree was full and the pid new. */
  lemma StepPlaces(t: Tree, op: Op)
    requires Agrees(t) && Subject(op).Some?
    ensures Placed(t, op).pid == Subject(op).value
    ensures Step(t, op) == Evict(Tree(t.nodes[Subject(op).value := Placed(t, op)],
                                      [Subject(op).value] + Without(t.recency, Subject(op).value)))
  {
    var pid := Subject(op).value;
    if pid in t.nodes {
      RecencySize(t, pid);
    } else {
      T.WithoutAbsent(t.recency, pid);
    }
  }

  lemma RecencySize(t: Tree, pid: nat)
    requires Agrees(t) && pid in t.nodes
    ensures pid in t.recency && |Without(t.recency, pid)| < MAX_NODES
  {
    var i :| 0 <= i < |t.recency| && t.recency[i] == pid;
    T.DistinctAfterCut(t.recency, i);
  }

  lemma EvictOrdered(t: Tree, ops: seq<Op>)
    requires Ordered(t.recency, ops) && (forall pid | pid in t.nodes :: MarkedOne(t.nodes[pid], pid, ops))
    ensures Ordered(Evict(t).recency, ops) && Marked(Evict(t).nodes, ops)
  {
    hide LastAbout;
    hide MarkedOne;
  }

  lemma PlacedMarked(t: Tree, ops: seq<Op>, op: Op)
    requires Agrees(t) && Subject(op).Some?
    ensures MarkedOne(Placed(t, op), Subject(op).value, ops + [op])
  {
    MarkedSubject(Placed(t, op), Subject(op).value, ops, op);
  }

  /** The list holds the map's keys, each once, within the cap, after every operation. */
  lemma StepAgrees(t: Tree, op: Op)
    requires Agrees(t)
    ensures Agrees(Step(t, op))
  {
    if Subject(op).Some? {
      StepPlaces(t, op);
      hide Step;
      PlaceAgrees(t, Placed(t, op));
    } else if op.SweepAt? {
      SweepAgrees(t, op.time);
    }
  }

  lemma PlaceAgrees(t: Tree, node: Node)
    requires Agrees(t)
    ensures Agrees(Evict(Tree(t.nodes[node.pid := node], [node.pid] + Without(t.recency, node.pid))))
  {
    hide Without;
    var pid := node.pid;
    var placed := Tree(t.nodes[pid := node], [pid] + Without(t.recency, pid));
    T.WithoutDistinct(t.recency, pid);
    T.ConsDistinct(pid, Without(t.recency, pid));
    if pid in t.nodes {
      RecencySize(t, pid);
    } else {
      T.WithoutAbsent(t.recency, pid);
    }
    if |placed.recency| > MAX_NODES {
      T.EvictLast(placed);
      T.LastCut(placed.recency);
    }
  }

  lemma SweepAgrees(t: Tree, now: nat)
    requires Agrees(t)
    ensures Agrees(Sweep(t, now))
  {
    hide WithoutAll;
    WithoutAllDistinct(t.recency, Dead(t, now));
  }

  lemma {:induction false} WithoutAllDistinct(pids: seq<nat>, dead: set<nat>)
    requires NoDuplicates(pids)
    ensures NoDuplicates(WithoutAll(pids, dead)) && |WithoutAll(pids, dead)| <= |pids|
  {
    if pids != [] {
      assert forall k | 0 < k < |pids| :: pids[k] == pids[1..][k - 1];
      WithoutAllDistinct(pids[1..], dead);
      var rest := WithoutAll(pids[1..], dead);
      if pids[0] !in dead {
        assert pids[0] !in pids[1..];
        T.ConsDistinct(pids[0], rest);
      } else {
        assert [] + rest == rest;
      }
    }
  }

  lemma StepTold(t: Tree, ops: seq<Op>, op: Op)
    requires Told(t, ops)
    ensures Told(Step(t, op), ops + [op])
  {
    hide LastAbout;
    hide MarkedOne;
    StepAgrees(t, op);
    if Subject(op).Some? {
      var pid := Subject(op).value;
      StepPlaces(t, op);
      FrontOrdered(t.recency, ops, op, pid);
      MarkedLater(t.nodes, ops, op, pid);
      PlacedMarked(t, ops, op);
      hide Step;
      EvictOrdered(Tree(t.nodes[pid := Placed(t, op)], [pid] + Without(t.recency, pid)), ops + [op]);
    } else {
      MarkedLater(t.nodes, ops, op, 0);
      OrderedLater(t.recency, ops, op);
      if op.SweepAt? {
        WithoutAllOrdered(t.recency, Dead(t, op.time), ops + [op]);
      }
    }
  }

  /** In every reachable tree the map and the list agree, the list is in order of last use, and
      tombstones are exactly the pids whose last operation was an exit. */
  lemma {:induction false} RunsTold(ops: seq<Op>)
    ensures Told(Run(ops), ops)
  {
    hide Step;
    if ops == [] {
    } else {
      var front := ops[..|ops| - 1];
      RunsTold(front);
      StepTold(Run(front), front, ops[|ops| - 1]);
      assert front + [ops[|ops| - 1]] == ops;
    }
  }

  // ----- eviction -----

  /** An operation about a pid leaves that pid in the tree, and every other node as it was,
      except that a full tree taking in a new pid loses the one pid used longest ago. */
  lemma EvictsLeastRecent(ops: seq<Op>, op: Op)
    requires Subject(op).Some?
    ensures var t, after, pid := Run(ops), Step(Run(ops), op), Subject(op).value;
      && pid in after.nodes && after.nodes[pid] == Placed(t, op)
      && (forall q | q in after.nodes && q != pid :: q in t.nodes && after.nodes[q] == t.nodes[q])
      && (forall v | v in t.nodes && v !in after.nodes ::
            && pid !in t.nodes && |t.recency| == 100_000
            && forall q | q in t.nodes && q != v :: q in after.nodes && LastAbout(ops, q) > LastAbout(ops, v))
  {
    hide LastAbout;
    hide Step;
    hide Placed;
    hide Evict;
    hide Without;
    hide Marked;
    RunsTold(ops);
    hide Run;
    var t, pid := Run(ops), Subject(op).value;
    StepPlaces(t, op);
    PlacedNodes(t, Placed(t, op));
    if |t.recency| == MAX_NODES {
      LastIsLeast(t.recency, ops);
    }
  }

  /** Putting a node in place changes only that node, unless the tree is full and the pid new. */
  lemma PlacedNodes(t: Tree, node: Node)
    requires Agrees(t)
    ensures var after := Evict(Tree(t.nodes[node.pid := node], [node.pid] + Without(t.recency, node.pid)));
      if node.pid in t.nodes || |t.recency| < MAX_NODES then after.nodes == t.nodes[node.pid := node]
      else |t.recency| == MAX_NODES && after.nodes == t.nodes[node.pid := node] - {t.recency[MAX_NODES - 1]}
           && t.recency[MAX_NODES - 1] in t.nodes
  {
    hide Without;
    var pid := node.pid;
    if pid in t.nodes {
      RecencySize(t, pid);
    } else {
      T.WithoutAbsent(t.recency, pid);
      if |t.recency| == MAX_NODES {
        assert ([pid] + t.recency)[MAX_NODES] == t.recency[MAX_NODES - 1];
      }
    }
  }

  lemma LastIsLeast(pids: seq<nat>, ops: seq<Op>)
    requires Ordered(pids, ops) && pids != []
    ensures forall q | q in pids && q != pids[|pids| - 1] :: LastAbout(ops, q) > LastAbout(ops, pids[|pids| - 1])
  {
    hide LastAbout;
  }

  // ----- sweeping -----

  /** Clock readings are signed 64-bit milliseconds. */
  predicate InClock(ops: seq<Op>) {
    forall k | 0 <= k < |ops| && ops[k].Event? :: ops[k].now < TWO_TO_64 / 2
  }

  /** The pids whose last operation was an exit at least the tombstone age ago. */
  function LongGone(ops: seq<Op>, pids: set<nat>, now: nat): set<nat> {
    set pid | pid in pids && LastWasExit(ops, pid) && now - ops[LastAbout(ops, pid)].now >= 60_000
  }

  /** A sweep removes tombstones only; exactly those old enough, unless the clock has not reached
      the tombstone age yet: then the deadline wraps and every tombstone goes. */
  lemma SweepExactIff(ops: seq<Op>, now: nat)
    requires InClock(ops) && now < TWO_TO_64 / 2
    ensures var t := Run(ops);
      && Sweep(t, now).nodes == t.nodes - Dead(t, now)
      && (Dead(t, now) == LongGone(ops, t.nodes.Keys, now) <==>
            now >= 60_000 || forall pid | pid in t.nodes :: !LastWasExit(ops, pid))
      && (now < 60_000 ==> Dead(t, now) == set pid | pid in t.nodes && LastWasExit(ops, pid))
  {
    hide LastAbout;
    RunsTold(ops);
    hide Run;
    var t := Run(ops);
    forall pid | pid in t.nodes
      ensures LastAbout(ops, pid) >= 0 && LastAbout(ops, pid) < |ops|
      ensures pid in Dead(t, now) <==>
                IsExit(ops[LastAbout(ops, pid)])
                    && (now < TOMBSTONE_MS || now - ops[LastAbout(ops, pid)].now >= TOMBSTONE_MS)
    {
      assert MarkedOne(t.nodes[pid], pid, ops);
      LastAboutBelow(ops, pid);
      DeadlineIs(now);
    }
  }

  lemma DeadlineIs(now: nat)
    requires now < TWO_TO_64 / 2
    ensures Deadline(now) == if now >= TOMBSTONE_MS then now - TOMBSTONE_MS else TWO_TO_64 + now - TOMBSTONE_MS
  {
  }

  // ----- what an event records -----

  /** After an event its pid is found, alive or a tombstone as the event says. A fork or exec
      records the event's identity; an exec of a known pid keeps its parent; an exit of a known
      pid changes nothing but the mark and its time. */
  lemma EventRecorded(t: Tree, e: ProcEvent, info: ProcInfo, now: nat)
    requires Agrees(t) && IsKnown(e.kind)
    ensures var found := Find(Apply(t, e, info, now), e.pid);
      && found.Some? && found.value.pid == e.pid
      && (found.value.exited <==> e.kind == EXIT)
      && (e.kind == EXIT ==> found.value.exitTimeMs == now)
      && (e.kind != EXIT || e.pid !in t.nodes ==>
            found.value.uid == e.uid && found.value.gid == e.gid && found.value.comm == Clip(e.comm, 16))
      && (e.kind == FORK || e.pid !in t.nodes ==> found.value.ppid == e.ppid)
      && (e.kind == EXEC && e.pid in t.nodes ==> found.value.ppid == t.nodes[e.pid].ppid)
      && (e.kind == EXIT && e.pid in t.nodes ==>
            found.value == t.nodes[e.pid].(exited := true, exitTimeMs := now))
  {
    hide Agrees;
    hide Without;
    hide Evict;
    hide Clip;
    var op := Event(e, info, now);
    StepPlaces(t, op);
    PlacedNodes(t, Placed(t, op));
    assert Step(t, op) == Apply(t, e, info, now);
    hide Step;
    hide Apply;
    NewestStays(t, e.pid);
    SamePid(t, e.pid);
  }

  /** As much of a text as fits a buffer of `size` bytes with its terminator. */
  predicate Fits(text: string, kept: string, size: nat) {
    kept <= text && |kept| == if |text| < size then |text| else size - 1
  }

  lemma ClipFits(text: string, size: nat)
    requires size > 0
    ensures Fits(text, Clip(text, size), size)
  {
  }

  /** Where the node of the event's pid is found afterwards. */
  lemma FoundIsPlaced(t: Tree, e: ProcEvent, info: ProcInfo, now: nat)
    requires Agrees(t) && IsKnown(e.kind)
    ensures Find(Apply(t, e, info, now), e.pid) == Some(Placed(t, Event(e, info, now)))
  {
    hide Agrees;
    hide Without;
    hide Evict;
    var op := Event(e, info, now);
    StepPlaces(t, op);
    PlacedNodes(t, Placed(t, op));
    assert Step(t, op) == Apply(t, e, info, now);
    hide Step;
    hide Apply;
    hide Placed;
    NewestStays(t, e.pid);
  }

  /** After a fork (kind 1) the pid has a new node: the event's identity and name, the start time and
      the executable that /proc gives, no start time if it gives none, and no container. */
  lemma ForkRecorded(t: Tree, e: ProcEvent, info: ProcInfo, now: nat)
    requires Agrees(t) && e.kind == 1
    ensures var found := Find(Apply(t, e, info, now), e.pid);
      && found.Some?
      && var node := found.value;
      && (node.pid, node.ppid, node.uid, node.gid) == (e.pid, e.ppid, e.uid, e.gid)
      && node.startTime == (match info.startTime case Some(time) => time case None => 0)
      && Fits(e.comm, node.comm, 16) && Fits(info.exe, node.exe, 256) && node.containerId == ""
      && !node.exited && node.exitTimeMs == 0
  {
    FoundIsPlaced(t, e, info, now);
    hide Apply;
    hide Find;
    hide Clip;
    ClipFits(e.comm, 16);
    ClipFits(info.exe, 256);
  }

  /** After an exec (kind 2) of a known pid the node has the event's identity and name, but its old
      parent; the event's start time, or the old one if there is none; the executable of /proc, else
      the event's, else the old one; and the container of /proc. */
  lemma ExecRecorded(t: Tree, e: ProcEvent, info: ProcInfo, now: nat)
    requires Agrees(t) && e.kind == 2 && e.pid in t.nodes
    ensures var found, before := Find(Apply(t, e, info, now), e.pid), t.nodes[e.pid];
      && found.Some?
      && var node := found.value;
      && (node.pid, node.ppid, node.uid, node.gid) == (e.pid, before.ppid, e.uid, e.gid)
      && node.startTime == (if e.startTime != 0 then e.startTime else before.startTime)
      && Fits(e.comm, node.comm, 16) && Fits(info.containerId, node.containerId, 13)
      && (if info.exe != "" then Fits(info.exe, node.exe, 256)
          else if e.exe != "" then Fits(e.exe, node.exe, 256) else node.exe == before.exe)
      && !node.exited
      && node.exitTimeMs == if ReuseDetected(before, e) then 0 else before.exitTimeMs
  {
    FoundIsPlaced(t, e, info, now);
    SamePid(t, e.pid);
    hide Apply;
    hide Find;
    hide Clip;
    ClipFits(e.comm, 16);
    ClipFits(info.exe, 256);
    ClipFits(e.exe, 256);
    ClipFits(info.containerId, 13);
  }

  /** After an exec of an unknown pid the node is the event's, with the executable of /proc, else the
      event's, and the container of /proc. */
  lemma FirstExecRecorded(t: Tree, e: ProcEvent, info: ProcInfo, now: nat)
    requires Agrees(t) && e.kind == 2 && e.pid !in t.nodes
    ensures var found := Find(Apply(t, e, info, now), e.pid);
      && found.Some?
      && var node := found.value;
      && (node.pid, node.ppid, node.uid, node.gid) == (e.pid, e.ppid, e.uid, e.gid)
      && node.startTime == e.startTime
      && Fits(e.comm, node.comm, 16) && Fits(info.containerId, node.containerId, 13)
      && Fits(if info.exe != "" then info.exe else e.exe, node.exe, 256)
      && !node.exited && node.exitTimeMs == 0
  {
    FoundIsPlaced(t, e, info, now);
    hide Apply;
    hide Find;
    hide Clip;
    ClipFits(e.comm, 16);
    ClipFits(if info.exe != "" then info.exe else e.exe, 256);
    ClipFits(info.containerId, 13);
  }

  /** After an exit (kind 3) of an unknown pid there is a tombstone with the event's identity, and
      with no executable and no container. */
  lemma FirstExitRecorded(t: Tree, e: ProcEvent, info: ProcInfo, now: nat)
    requires Agrees(t) && e.kind == 3 && e.pid !in t.nodes
    ensures var found := Find(Apply(t, e, info, now), e.pid);
      && found.Some?
      && var node := found.value;
      && (node.pid, node.ppid, node.uid, node.gid) == (e.pid, e.ppid, e.uid, e.gid)
      && node.startTime == e.startTime && Fits(e.comm, node.comm, 16) && node.exe == node.containerId == ""
      && node.exited && node.exitTimeMs == now
  {
    FoundIsPlaced(t, e, info, now);
    hide Apply;
    hide Find;
    hide Clip;
    ClipFits(e.comm, 16);
  }

  /** After an exit of a known pid its node is a tombstone, and otherwise as it was; events of any
      other kind change nothing. */
  lemma OtherRecorded(t: Tree, e: ProcEvent, info: ProcInfo, now: nat)
    requires Agrees(t)
    ensures e.kind == 3 && e.pid in t.nodes ==>
              Find(Apply(t, e, info, now), e.pid) == Some(t.nodes[e.pid].(exited := true, exitTimeMs := now))
    ensures e.kind != 1 && e.kind != 2 && e.kind != 3 ==> Apply(t, e, info, now) == t
  {
    if e.kind == 3 && e.pid in t.nodes {
      FoundIsPlaced(t, e, info, now);
      hide Apply;
      hide Find;
    }
  }

  lemma SamePid(t: Tree, pid: nat)
    requires Agrees(t)
    ensures pid in t.nodes ==> t.nodes[pid].pid == pid
  {
  }

  // ----- identity -----

  /** After an exec that reports its start time, only that start time finds the process: a
      reused pid hides the old one. */
  lemma ReuseHidesOld(t: Tree, e: ProcEvent, info: ProcInfo, now: nat, startTime: nat)
    requires Agrees(t) && e.kind == EXEC && e.startTime != 0
    ensures var found := FindExact(Apply(t, e, info, now), e.pid, startTime);
      && (found.Some? <==> startTime == 0 || startTime == e.startTime)
      && (found.Some? ==> !found.value.exited && found.value.uid == e.uid && found.value.gid == e.gid)
  {
    hide Agrees;
    hide Without;
    hide Evict;
    var op := Event(e, info, now);
    StepPlaces(t, op);
    PlacedNodes(t, Placed(t, op));
    assert Step(t, op) == Apply(t, e, info, now);
    hide Step;
    hide Apply;
    NewestStays(t, e.pid);
  }

  lemma NewestStays(t: Tree, pid: nat)
    requires Agrees(t)
    ensures pid !in t.nodes && |t.recency| == MAX_NODES ==> t.recency[MAX_NODES - 1] != pid
  {
  }

  /** An exec with another start time on a known pid. */
  predicate ReuseDetected(node: Node, e: ProcEvent) {
    e.startTime != 0 && node.startTime != 0 && e.startTime != node.startTime
  }

  /** A reused pid gets the node of a new process exactly when the old parent was the new one too,
      and an executable is known or none was recorded: the parent and, where no executable is
      readable, the old one stay. */
  lemma ReuseResetsIff(node: Node, e: ProcEvent, info: ProcInfo)
    requires node.pid == e.pid && ReuseDetected(node, e)
    ensures Executed(node, e, info) == ExecNode(e, info) <==>
              node.ppid == e.ppid && (info.exe != "" || e.exe != "" || node.exe == "")
  {
    assert Clip("", 256) == "";
  }

  /** A pid reused while no executable is readable: the node of the new process shows the parent
      and the executable of the old one. */
  lemma ReuseKeepsOldParent(node: Node, e: ProcEvent, info: ProcInfo)
    requires node.pid == e.pid && ReuseDetected(node, e) && info.exe == "" && e.exe == ""
    ensures var after := Executed(node, e, info);
      after.startTime == e.startTime && after.ppid == node.ppid && after.exe == node.exe
  {
  }
}
