/** The bounded, cycle-safe walk up the parents of src/telemetry/enricher.cpp. */
module AncestorWalk {
  import opened ProcessSpec

  const MAX_ANCESTORS := 8

  datatype Ancestor = Ancestor(pid: nat, comm: string, exe: string)

  function Shown(node: Node): Ancestor {
    Ancestor(node.pid, node.comm, node.exe)
  }

  /** Where the walk starts: the recorded parent, or the event's own if the tree lost the pid. */
  function FirstParent(t: Tree, pid: nat, fallback: nat): nat {
    if pid in t.nodes then t.nodes[pid].ppid else fallback
  }

  /** The pid reached by following parents `k` times from `first`; 0 past a missing node. */
  function ChainAt(t: Tree, first: nat, k: nat): nat {
    if k == 0 then first
    else
      var below := ChainAt(t, first, k - 1);
      if below in t.nodes then t.nodes[below].ppid else 0
  }

  function Chain(t: Tree, first: nat, n: nat): (pids: seq<nat>)
    ensures |pids| == n && forall k | 0 <= k < n :: pids[k] == ChainAt(t, first, k)
  {
    if n == 0 then [] else Chain(t, first, n - 1) + [ChainAt(t, first, n - 1)]
  }

  /** The chain goes on at position `k`: to a real pid that has a node and was not met before. */
  predicate GoesOn(t: Tree, pid: nat, first: nat, k: nat) {
    var p := ChainAt(t, first, k);
    p > 0 && p in t.nodes && p != pid && p !in Chain(t, first, k)
  }

  /** `n` steps of the chain that all go on. */
  predicate Walkable(t: Tree, pid: nat, first: nat, n: nat) {
    forall k | 0 <= k < n :: GoesOn(t, pid, first, k)
  }

  function ShownChain(t: Tree, pid: nat, first: nat, n: nat): (shown: seq<Ancestor>)
    requires Walkable(t, pid, first, n)
    ensures |shown| == n
  {
    if n == 0 then []
    else
      assert GoesOn(t, pid, first, n - 1);
      ShownChain(t, pid, first, n - 1) + [Shown(t.nodes[ChainAt(t, first, n - 1)])]
  }

  lemma {:induction false} ShownAt(t: Tree, pid: nat, first: nat, n: nat, k: nat)
    requires Walkable(t, pid, first, n) && k < n
    ensures GoesOn(t, pid, first, k)
    ensures ShownChain(t, pid, first, n)[k] == Shown(t.nodes[ChainAt(t, first, k)])
  {
    if k < n - 1 {
      ShownAt(t, pid, first, n - 1, k);
    }
  }

  method Seen(visited: array<nat>, n: nat, p: nat) returns (seen: bool)
    requires n <= visited.Length
    ensures seen == (p in visited[..n])
  {
    seen := false;
    for i := 0 to n
      invariant seen == (p in visited[..i])
    {
      if visited[i] == p {
        seen := true;
        break;
      }
    }
  }

  /** The nodes along the longest prefix of the parent chain that goes on, up to eight of them:
      fewer only where the chain ends, leaves the tree or meets itself. */
  method AncestorsOf(t: Tree, pid: nat, fallback: nat) returns (ancestors: seq<Ancestor>)
    ensures |ancestors| <= 8
    ensures var first := FirstParent(t, pid, fallback);
      && Walkable(t, pid, first, |ancestors|) && ancestors == ShownChain(t, pid, first, |ancestors|)
      && (|ancestors| < 8 ==> !GoesOn(t, pid, first, |ancestors|))
  {
    hide ChainAt;
    hide Chain;
    ancestors := [];
    var parent := fallback;
    if pid in t.nodes {
      parent := t.nodes[pid].ppid;
    }
    ghost var first := parent;
    ChainStart(t, first);
    var visited := new nat[MAX_ANCESTORS + 1];
    visited[0] := pid;
    var nvisited := 1;
    var level := 0;
    while level < MAX_ANCESTORS && parent > 0
      invariant 0 <= level <= MAX_ANCESTORS && nvisited == level + 1
      invariant parent == ChainAt(t, first, level)
      invariant visited[..nvisited] == [pid] + Chain(t, first, level)
      invariant Walkable(t, pid, first, level) && ancestors == ShownChain(t, pid, first, level)
    {
      var seen := Seen(visited, nvisited, parent);
      if seen {
        break;
      }
      if parent !in t.nodes {
        break;
      }
      var node := t.nodes[parent];
      ChainStep(t, first, level);
      ancestors := ancestors + [Shown(node)];
      if nvisited <= MAX_ANCESTORS {
        visited[nvisited] := parent;
        nvisited := nvisited + 1;
      }
      parent := node.ppid;
      level := level + 1;
    }
  }

  lemma ChainStart(t: Tree, first: nat)
    ensures ChainAt(t, first, 0) == first && Chain(t, first, 0) == []
  {
  }

  lemma ChainStep(t: Tree, first: nat, k: nat)
    requires ChainAt(t, first, k) in t.nodes
    ensures ChainAt(t, first, k + 1) == t.nodes[ChainAt(t, first, k)].ppid
    ensures Chain(t, first, k + 1) == Chain(t, first, k) + [ChainAt(t, first, k)]
  {
  }

  // ----- what the result is -----

  /** The method's contract pins the length down: it is the longest walkable one within the bound. */
  lemma LongestPrefix(t: Tree, pid: nat, first: nat, n: nat, m: nat)
    requires n <= MAX_ANCESTORS && Walkable(t, pid, first, n)
    requires n < MAX_ANCESTORS ==> !GoesOn(t, pid, first, n)
    requires m <= MAX_ANCESTORS
    ensures Walkable(t, pid, first, m) <==> m <= n
  {
    hide GoesOn;
  }

  predicate ParentOf(t: Tree, child: nat, parent: nat) {
    child in t.nodes && t.nodes[child].ppid == parent
  }

  /** On a tree whose nodes sit under their own pids, cyclic or not, the pids returned are
      distinct, non-zero and not the event's, and each is the recorded parent of the one before. */
  lemma AncestorsAreParents(t: Tree, pid: nat, first: nat, n: nat, k: nat)
    requires Agrees(t) && Walkable(t, pid, first, n) && k < n
    ensures var shown := ShownChain(t, pid, first, n);
      && shown[k].pid == ChainAt(t, first, k) != 0 && shown[k].pid != pid
      && (k > 0 ==> ParentOf(t, shown[k - 1].pid, shown[k].pid))
      && forall j | 0 <= j < k :: shown[j].pid != shown[k].pid
  {
    hide ChainAt;
    hide Chain;
    hide ShownChain;
    hide Walkable;
    ShownAt(t, pid, first, n, k);
    if k > 0 {
      ShownAt(t, pid, first, n, k - 1);
      ChainStep(t, first, k - 1);
    }
    var shown := ShownChain(t, pid, first, n);
    forall j | 0 <= j < k
      ensures shown[j].pid != shown[k].pid
    {
      ShownAt(t, pid, first, n, j);
      assert Chain(t, first, k)[j] == ChainAt(t, first, j);
    }
  }

  /** What is shown of each ancestor is what the tree holds for its pid; the first one is the parent
      recorded for the event's pid, or the event's own word for it where the tree lost the pid. */
  lemma AncestorsTold(t: Tree, pid: nat, fallback: nat, n: nat, k: nat)
    requires Agrees(t) && Walkable(t, pid, FirstParent(t, pid, fallback), n) && k < n
    ensures var shown := ShownChain(t, pid, FirstParent(t, pid, fallback), n);
      && shown[k].pid in t.nodes
      && shown[k].comm == t.nodes[shown[k].pid].comm && shown[k].exe == t.nodes[shown[k].pid].exe
      && (k == 0 ==> shown[k].pid == if pid in t.nodes then t.nodes[pid].ppid else fallback)
      && (k > 0 ==> ParentOf(t, shown[k - 1].pid, shown[k].pid))
  {
    hide Chain;
    hide ShownChain;
    hide Walkable;
    var first := FirstParent(t, pid, fallback);
    ShownAt(t, pid, first, n, k);
    ChainStart(t, first);
    AncestorsAreParents(t, pid, first, n, k);
    hide ChainAt;
  }
}
