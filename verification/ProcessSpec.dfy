/** The process tree of src/telemetry/process_tree.cpp as a value: nodes by pid, and the pids
    from the most to the least recently used. */
module ProcessSpec {
  import opened Options

  const MAX_NODES := 100000
  const TOMBSTONE_MS := 60000
  const TWO_TO_64 := 0x1_0000_0000_0000_0000

  const FORK := 1
  const EXEC := 2
  const EXIT := 3

  datatype Node = Node(pid: nat, ppid: nat, startTime: nat, comm: string, exe: string,
                       uid: nat, gid: nat, containerId: string, exited: bool, exitTimeMs: nat)

  datatype ProcEvent = ProcEvent(pid: nat, ppid: nat, uid: nat, gid: nat, startTime: nat, kind: nat,
                                 comm: string, exe: string)

  /** What /proc says about the pid while the event is handled; empty strings where unreadable. */
  datatype ProcInfo = ProcInfo(startTime: Option<nat>, exe: string, containerId: string)

  datatype Tree = Tree(nodes: map<nat, Node>, recency: seq<nat>)

  const EMPTY := Tree(map[], [])

  /** Copying into a fixed buffer of `size` bytes keeps room for the terminator. */
  function Clip(text: string, size: nat): string
    requires size > 0
  {
    if |text| < size then text else text[..size - 1]
  }

  // ----- recency -----

  function Without(pids: seq<nat>, pid: nat): (r: seq<nat>)
    ensures |r| <= |pids|
    ensures forall p :: p in r <==> p in pids && p != pid
  {
    if pids == [] then []
    else if pids[0] == pid then Without(pids[1..], pid)
    else [pids[0]] + Without(pids[1..], pid)
  }

  function Touch(pids: seq<nat>, pid: nat): seq<nat> {
    if pid in pids then [pid] + Without(pids, pid) else pids
  }

  // ----- operations -----

  /** The least recently used node goes when the tree is over its cap. */
  function Evict(t: Tree): Tree {
    if |t.recency| > MAX_NODES then
      var last := |t.recency| - 1;
      Tree(t.nodes - {t.recency[last]}, t.recency[..last])
    else t
  }

  function Upsert(t: Tree, node: Node): Tree {
    if node.pid in t.nodes then Tree(t.nodes[node.pid := node], Touch(t.recency, node.pid))
    else Evict(Tree(t.nodes[node.pid := node], [node.pid] + t.recency))
  }

  function ForkNode(e: ProcEvent, info: ProcInfo): Node {
    Node(e.pid, e.ppid, if info.startTime.Some? then info.startTime.value else 0, Clip(e.comm, 16),
         Clip(info.exe, 256), e.uid, e.gid, "", false, 0)
  }

  function ExecNode(e: ProcEvent, info: ProcInfo): Node {
    Node(e.pid, e.ppid, e.startTime, Clip(e.comm, 16), Clip(if info.exe != "" then info.exe else e.exe, 256),
         e.uid, e.gid, Clip(info.containerId, 13), false, 0)
  }

  function ExitNode(e: ProcEvent, now: nat): Node {
    Node(e.pid, e.ppid, e.startTime, Clip(e.comm, 16), "", e.uid, e.gid, "", true, now)
  }

  /** An exec on a known pid: a different start time means the pid was reused. The recorded
      start time is overwritten by a known one either way. */
  function Executed(node: Node, e: ProcEvent, info: ProcInfo): Node {
    var reused := e.startTime != 0 && node.startTime != 0 && e.startTime != node.startTime;
    Node(node.pid, node.ppid, if e.startTime != 0 then e.startTime else node.startTime, Clip(e.comm, 16),
         if info.exe != "" then Clip(info.exe, 256) else if e.exe != "" then Clip(e.exe, 256) else node.exe,
         e.uid, e.gid, Clip(info.containerId, 13), false, if reused then 0 else node.exitTimeMs)
  }

  function Apply(t: Tree, e: ProcEvent, info: ProcInfo, now: nat): Tree {
    if e.kind == FORK then Upsert(t, ForkNode(e, info))
    else if e.kind == EXEC then
      if e.pid in t.nodes then Tree(t.nodes[e.pid := Executed(t.nodes[e.pid], e, info)], Touch(t.recency, e.pid))
      else Upsert(t, ExecNode(e, info))
    else if e.kind == EXIT then
      if e.pid in t.nodes then
        Tree(t.nodes[e.pid := t.nodes[e.pid].(exited := true, exitTimeMs := now)], Touch(t.recency, e.pid))
      else Upsert(t, ExitNode(e, now))
    else t
  }

  /** The sweep's deadline is an unsigned 64-bit difference. */
  function Deadline(now: nat): nat {
    (now - TOMBSTONE_MS) % TWO_TO_64
  }

  function Dead(t: Tree, now: nat): set<nat> {
    set pid | pid in t.nodes && t.nodes[pid].exited && t.nodes[pid].exitTimeMs <= Deadline(now)
  }

  function WithoutAll(pids: seq<nat>, dead: set<nat>): (r: seq<nat>)
    ensures forall p :: p in r <==> p in pids && p !in dead
  {
    if pids == [] then []
    else (if pids[0] in dead then [] else [pids[0]]) + WithoutAll(pids[1..], dead)
  }

  function Sweep(t: Tree, now: nat): Tree {
    Tree(t.nodes - Dead(t, now), WithoutAll(t.recency, Dead(t, now)))
  }

  function Find(t: Tree, pid: nat): Option<Node> {
    if pid in t.nodes then Some(t.nodes[pid]) else None
  }

  /** The lookup that also checks the process's identity. */
  function FindExact(t: Tree, pid: nat, startTime: nat): Option<Node> {
    if pid in t.nodes && (startTime == 0 || t.nodes[pid].startTime == startTime) then Some(t.nodes[pid]) else None
  }

  // ----- agreement -----

  predicate NoDuplicates(pids: seq<nat>) {
    forall i, j | 0 <= i < j < |pids| :: pids[i] != pids[j]
  }

  /** Map and list hold the same pids, each once and under its own key, within the cap. */
  ghost predicate Agrees(t: Tree) {
    && NoDuplicates(t.recency)
    && (forall pid :: pid in t.nodes <==> pid in t.recency)
    && (forall pid | pid in t.nodes :: t.nodes[pid].pid == pid)
    && |t.recency| <= MAX_NODES
  }
}
