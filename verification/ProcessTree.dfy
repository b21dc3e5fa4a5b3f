/** The process tree of src/telemetry/process_tree.cpp: a hash map of nodes, a linked list from
    most to least recently used, and an index of list positions that must stay in step. */
module ProcessTree {
  import opened Options
  import opened ProcessSpec

  /** A list element; its handle is the iterator that stays valid while the element lives. */
  datatype Cell = Cell(handle: nat, pid: nat)

  function Pids(cells: seq<Cell>): (pids: seq<nat>)
    ensures |pids| == |cells| && forall i | 0 <= i < |cells| :: pids[i] == cells[i].pid
  {
    if cells == [] then [] else [cells[0].pid] + Pids(cells[1..])
  }

  /** The index holds the iterator of each pid's cell, and different cells have different ones. */
  ghost predicate Indexed(lru: seq<Cell>, lruPos: map<nat, nat>, nextHandle: nat) {
    && (forall c | c in lru :: c.handle < nextHandle && c.pid in lruPos && lruPos[c.pid] == c.handle)
    && (forall a, b | a in lru && b in lru && a.handle == b.handle :: a.pid == b.pid)
    && (forall pid | pid in lruPos :: Cell(lruPos[pid], pid) in lru)
  }

  class ProcessTree {
    var nodes: map<nat, Node>
    var lru: seq<Cell>
    var lruPos: map<nat, nat>
    var nextHandle: nat

    ghost function Value(): Tree
      reads this
    {
      Tree(nodes, Pids(lru))
    }

    ghost predicate Valid()
      reads this
    {
      Agrees(Value()) && Indexed(lru, lruPos, nextHandle)
    }

    constructor ()
      ensures Valid() && Value() == EMPTY
    {
      nodes, lru, lruPos, nextHandle := map[], [], map[], 0;
    }

    /** `splice` moves the cell to the front; its handle stays valid. */
    method TouchLru(pid: nat)
      requires Indexed(lru, lruPos, nextHandle) && NoDuplicates(Pids(lru))
      modifies `lru
      ensures Indexed(lru, lruPos, nextHandle) && Pids(lru) == Touch(old(Pids(lru)), pid)
    {
      if pid in lruPos {
        var i := CellAt(lru, lruPos, nextHandle, pid);
        MoveToFront(lru, lruPos, nextHandle, i);
        lru := [lru[i]] + lru[..i] + lru[i + 1..];
      } else {
        AbsentPid(lru, lruPos, nextHandle, pid);
      }
    }

    method Upsert(node: Node)
      requires Valid()
      modifies this
      ensures Valid() && Value() == ProcessSpec.Upsert(old(Value()), node)
    {
      hide Indexed;
      hide Agrees;
      hide OneOver;
      hide Evict;
      hide Touch;
      hide Pids;
      hide NoDuplicates;
      hide Evicting;
      ghost var before := Value();
      AgreesKeys(before, node);
      var pid := node.pid;
      if pid in nodes {
        nodes := nodes[pid := node];
        TouchLru(pid);
        return;
      }
      nodes := nodes[pid := node];
      PushedIndex(lru, lruPos, nextHandle, pid);
      lru := [Cell(nextHandle, pid)] + lru;
      lruPos := lruPos[pid := nextHandle];
      nextHandle := nextHandle + 1;
      ghost var pushed := Value();
      EvictingStart(nodes, lru, lruPos, nextHandle);
      while |nodes| > MAX_NODES
        invariant Evicting(pushed, nodes, lru, lruPos, nextHandle) && |nodes| == |lru|
        decreases |lru|
      {
        EvictingStep(pushed, nodes, lru, lruPos, nextHandle);
        var victim := lru[|lru| - 1].pid;
        lru := lru[..|lru| - 1];
        lruPos := lruPos - {victim};
        nodes := nodes - {victim};
      }
      EvictingEnd(pushed, nodes, lru, lruPos, nextHandle);
    }

    /** One fork, exec or exit event. */
    method Apply(e: ProcEvent, info: ProcInfo, now: nat)
      requires Valid()
      modifies this
      ensures Valid() && Value() == ProcessSpec.Apply(old(Value()), e, info, now)
    {
      hide Indexed;
      hide Agrees;
      hide ProcessSpec.Upsert;
      hide Touch;
      AgreesNode(Value(), e.pid);
      if e.kind == FORK {
        Upsert(ForkNode(e, info));
      } else if e.kind == EXEC {
        if e.pid !in nodes {
          Upsert(ExecNode(e, info));
        } else {
          var node := nodes[e.pid];
          AgreesTouched(Value(), Executed(node, e, info));
          if e.startTime != 0 && node.startTime != 0 && e.startTime != node.startTime {
            node := node.(startTime := e.startTime, exited := false, exitTimeMs := 0);
          }
          node := node.(uid := e.uid, gid := e.gid, comm := Clip(e.comm, 16));
          if info.exe != "" {
            node := node.(exe := Clip(info.exe, 256));
          } else if |e.exe| > 0 {
            node := node.(exe := Clip(e.exe, 256));
          }
          node := node.(containerId := if info.containerId != "" then Clip(info.containerId, 13) else "");
          if e.startTime != 0 {
            node := node.(startTime := e.startTime);
          }
          node := node.(exited := false);
          nodes := nodes[e.pid := node];
          TouchLru(e.pid);
        }
      } else if e.kind == EXIT {
        if e.pid in nodes {
          AgreesTouched(Value(), nodes[e.pid].(exited := true, exitTimeMs := now));
          nodes := nodes[e.pid := nodes[e.pid].(exited := true, exitTimeMs := now)];
          TouchLru(e.pid);
        } else {
          Upsert(ExitNode(e, now));
        }
      }
    }

    method Find(pid: nat) returns (node: Option<Node>)
      ensures node == ProcessSpec.Find(Value(), pid)
    {
      node := if pid in nodes then Some(nodes[pid]) else None;
    }

    method FindExact(pid: nat, startTime: nat) returns (node: Option<Node>)
      ensures node == ProcessSpec.FindExact(Value(), pid, startTime)
    {
      node := Find(pid);
      if node.Some? && startTime != 0 && node.value.startTime != startTime {
        node := None;
      }
    }

    /** The tombstones that are due, in no particular order. */
    method CollectDead(now: nat) returns (dead: set<nat>)
      ensures dead == Dead(Value(), now)
    {
      var deadline := (now - TOMBSTONE_MS) % TWO_TO_64;
      dead := set pid | pid in nodes && nodes[pid].exited && nodes[pid].exitTimeMs <= deadline;
    }

    method SweepTombstones(now: nat)
      requires Valid()
      modifies this
      ensures Valid() && Value() == Sweep(old(Value()), now)
    {
      hide Indexed;
      hide Agrees;
      hide Erased;
      hide Dead;
      hide Sweep;
      hide Pids;
      hide Without;
      hide WithoutAll;
      ghost var before := Value();
      var dead := CollectDead(now);
      ghost var all := dead;
      ghost var erased: set<nat> := {};
      SweepStart(before, lru, lruPos, nextHandle, now);
      while dead != {}
        invariant dead !! erased && dead + erased == all
        invariant Erased(before, all, erased, nodes, lru, lruPos, nextHandle)
        decreases |dead|
      {
        var pid :| pid in dead;
        EraseStep(before, all, erased, nodes, lru, lruPos, nextHandle, pid);
        nodes := nodes - {pid};
        if pid in lruPos {
          var i := CellAt(lru, lruPos, nextHandle, pid);
          lru := lru[..i] + lru[i + 1..];
          lruPos := lruPos - {pid};
        }
        dead, erased := dead - {pid}, erased + {pid};
      }
      SweepEnd(before, erased, nodes, lru, lruPos, nextHandle, now);
    }
  }

  /** Dereferencing the stored iterator: the cell with the pid's handle. */
  method CellAt(lru: seq<Cell>, lruPos: map<nat, nat>, nextHandle: nat, pid: nat) returns (i: nat)
    requires Indexed(lru, lruPos, nextHandle) && pid in lruPos
    ensures i < |lru| && lru[i].handle == lruPos[pid] && lru[i].pid == pid
  {
    i := 0;
    while lru[i].handle != lruPos[pid]
      invariant i < |lru| && exists k :: i <= k < |lru| && lru[k] == Cell(lruPos[pid], pid)
      decreases |lru| - i
    {
      i := i + 1;
    }
  }

  // ----- the list and its index -----

  lemma {:induction false} PidsCut(cells: seq<Cell>, i: nat)
    requires i < |cells|
    ensures Pids(cells[..i] + cells[i + 1..]) == Pids(cells)[..i] + Pids(cells)[i + 1..]
    ensures Pids([cells[i]] + cells[..i] + cells[i + 1..]) == [cells[i].pid] + Pids(cells[..i] + cells[i + 1..])
  {
    assert [cells[i]] + cells[..i] + cells[i + 1..] == [cells[i]] + (cells[..i] + cells[i + 1..]);
  }

  lemma DistinctAfterCut(pids: seq<nat>, i: nat)
    requires NoDuplicates(pids) && i < |pids|
    ensures NoDuplicates(pids[..i] + pids[i + 1..])
    ensures pids[i] !in pids[..i] + pids[i + 1..]
    ensures forall p | p in pids && p != pids[i] :: p in pids[..i] + pids[i + 1..]
    ensures Without(pids, pids[i]) == pids[..i] + pids[i + 1..]
  {
    WithoutAt(pids, i);
    WithoutDistinct(pids, pids[i]);
  }

  lemma {:induction false} WithoutAt(pids: seq<nat>, i: nat)
    requires NoDuplicates(pids) && i < |pids|
    ensures Without(pids, pids[i]) == pids[..i] + pids[i + 1..]
  {
    if i == 0 {
      WithoutAbsent(pids[1..], pids[0]);
    } else {
      WithoutAt(pids[1..], i - 1);
      assert pids[..i] + pids[i + 1..] == [pids[0]] + (pids[1..][..i - 1] + pids[1..][i..]);
    }
  }

  lemma {:induction false} WithoutAbsent(pids: seq<nat>, pid: nat)
    requires pid !in pids
    ensures Without(pids, pid) == pids
  {
    if pids != [] {
      WithoutAbsent(pids[1..], pid);
    }
  }

  lemma {:induction false} WithoutDistinct(pids: seq<nat>, pid: nat)
    requires NoDuplicates(pids)
    ensures NoDuplicates(Without(pids, pid))
  {
    if pids != [] {
      WithoutDistinct(pids[1..], pid);
      var rest := Without(pids[1..], pid);
      assert forall p | p in rest :: p in pids[1..];
      assert forall k | 0 < k < |pids| :: pids[k] == pids[1..][k - 1];
      if pids[0] != pid {
        assert pids[0] !in pids[1..];
        ConsDistinct(pids[0], rest);
      }
    }
  }

  lemma ConsDistinct(pid: nat, rest: seq<nat>)
    requires NoDuplicates(rest) && pid !in rest
    ensures NoDuplicates([pid] + rest)
  {
    var all := [pid] + rest;
    forall i, j | 0 <= i < j < |all|
      ensures all[i] != all[j]
    {
      assert all[j] == rest[j - 1];
      if i > 0 {
        assert all[i] == rest[i - 1];
      }
    }
  }

  lemma CellOfPid(lru: seq<Cell>, pid: nat)
    requires pid in Pids(lru)
    ensures exists c :: c in lru && c.pid == pid
  {
    var i :| 0 <= i < |lru| && Pids(lru)[i] == pid;
    assert lru[i] in lru;
  }

  /** Where a cell of the cut list was before. */
  lemma CutAt(lru: seq<Cell>, i: nat, k: nat)
    requires i < |lru| && k < |lru| - 1
    ensures (lru[..i] + lru[i + 1..])[k] == lru[if k < i then k else k + 1]
  {
  }

  lemma CutMember(lru: seq<Cell>, i: nat, c: Cell)
    requires NoDuplicates(Pids(lru)) && i < |lru|
    ensures c in lru[..i] + lru[i + 1..] <==> c in lru && c.pid != lru[i].pid
  {
    var pids := Pids(lru);
    hide Pids;
    if c in lru {
      var k :| 0 <= k < |lru| && lru[k] == c;
      assert pids[k] == c.pid;
      if k != i {
        CutAt(lru, i, if k < i then k else k - 1);
      }
    }
    if c in lru[..i] + lru[i + 1..] {
      var k :| 0 <= k < |lru| - 1 && (lru[..i] + lru[i + 1..])[k] == c;
      CutAt(lru, i, k);
      assert pids[if k < i then k else k + 1] == c.pid;
    }
  }

  lemma IndexedWithout(lru: seq<Cell>, rest: seq<Cell>, lruPos: map<nat, nat>, nextHandle: nat, pid: nat)
    requires Indexed(lru, lruPos, nextHandle)
    requires forall c :: c in rest <==> c in lru && c.pid != pid
    ensures Indexed(rest, lruPos - {pid}, nextHandle)
  {
  }

  lemma IndexedReordered(lru: seq<Cell>, moved: seq<Cell>, lruPos: map<nat, nat>, nextHandle: nat)
    requires Indexed(lru, lruPos, nextHandle)
    requires forall c :: c in moved <==> c in lru
    ensures Indexed(moved, lruPos, nextHandle)
  {
  }

  /** Cutting a cell out keeps the index right for the pids that remain. */
  lemma CutIndex(lru: seq<Cell>, lruPos: map<nat, nat>, nextHandle: nat, i: nat)
    requires Indexed(lru, lruPos, nextHandle) && NoDuplicates(Pids(lru)) && i < |lru|
    ensures Indexed(lru[..i] + lru[i + 1..], lruPos - {lru[i].pid}, nextHandle)
    ensures Pids(lru[..i] + lru[i + 1..]) == Without(Pids(lru), lru[i].pid)
  {
    hide *;
    PidsCut(lru, i);
    DistinctAfterCut(Pids(lru), i);
    forall c: Cell
      ensures c in lru[..i] + lru[i + 1..] <==> c in lru && c.pid != lru[i].pid
    {
      CutMember(lru, i, c);
    }
    IndexedWithout(lru, lru[..i] + lru[i + 1..], lruPos, nextHandle, lru[i].pid);
  }

  lemma MoveToFront(lru: seq<Cell>, lruPos: map<nat, nat>, nextHandle: nat, i: nat)
    requires Indexed(lru, lruPos, nextHandle) && NoDuplicates(Pids(lru)) && i < |lru|
    ensures Indexed([lru[i]] + lru[..i] + lru[i + 1..], lruPos, nextHandle)
    ensures Pids([lru[i]] + lru[..i] + lru[i + 1..]) == Touch(Pids(lru), lru[i].pid)
  {
    hide Without;
    hide Pids;
    hide NoDuplicates;
    hide Indexed;
    PidsCut(lru, i);
    DistinctAfterCut(Pids(lru), i);
    MovedMembers(lru, i);
    IndexedReordered(lru, [lru[i]] + lru[..i] + lru[i + 1..], lruPos, nextHandle);
    assert Pids(lru)[i] == lru[i].pid;
  }

  lemma MovedMembers(lru: seq<Cell>, i: nat)
    requires i < |lru|
    ensures forall c :: c in [lru[i]] + lru[..i] + lru[i + 1..] <==> c in lru
  {
    assert lru == lru[..i] + [lru[i]] + lru[i + 1..];
  }

  lemma AbsentPid(lru: seq<Cell>, lruPos: map<nat, nat>, nextHandle: nat, pid: nat)
    requires Indexed(lru, lruPos, nextHandle)
    ensures pid in lruPos <==> pid in Pids(lru)
    ensures pid !in lruPos ==> Touch(Pids(lru), pid) == Pids(lru)
  {
    hide Pids;
    if pid in Pids(lru) {
      CellOfPid(lru, pid);
    }
    if pid in lruPos {
      var i :| 0 <= i < |lru| && lru[i] == Cell(lruPos[pid], pid);
      assert Pids(lru)[i] == pid;
    }
  }

  // ----- agreement of map, list and index -----

  /** Agreement with room for the one node just added. */
  ghost predicate OneOver(t: Tree) {
    && NoDuplicates(t.recency)
    && (forall pid :: pid in t.nodes <==> pid in t.recency)
    && (forall pid | pid in t.nodes :: t.nodes[pid].pid == pid)
    && |t.recency| <= MAX_NODES + 1
  }

  lemma {:induction false} DistinctSize(pids: seq<nat>, keys: set<nat>)
    requires NoDuplicates(pids) && forall pid :: pid in pids <==> pid in keys
    ensures |pids| == |keys|
    decreases |pids|
  {
    if pids == [] {
      assert keys == {};
    } else {
      assert forall k | 0 < k < |pids| :: pids[k] == pids[1..][k - 1];
      DistinctSize(pids[1..], keys - {pids[0]});
    }
  }

  lemma SizesAgree(t: Tree)
    requires OneOver(t)
    ensures |t.nodes| == |t.recency|
  {
    DistinctSize(t.recency, t.nodes.Keys);
    assert |t.nodes| == |t.nodes.Keys|;
  }

  lemma AgreesNode(t: Tree, pid: nat)
    requires Agrees(t)
    ensures pid in t.nodes ==> t.nodes[pid].pid == pid
    ensures NoDuplicates(t.recency)
  {
  }

  /** A node replaced under its own key and touched. */
  lemma AgreesTouched(t: Tree, node: Node)
    requires Agrees(t) && node.pid in t.nodes
    ensures Agrees(Tree(t.nodes[node.pid := node], Touch(t.recency, node.pid)))
  {
    hide Without;
    var i :| 0 <= i < |t.recency| && t.recency[i] == node.pid;
    DistinctAfterCut(t.recency, i);
    ConsDistinct(node.pid, Without(t.recency, node.pid));
  }

  lemma AgreesKeys(t: Tree, node: Node)
    requires Agrees(t)
    ensures NoDuplicates(t.recency)
    ensures node.pid in t.nodes ==> Agrees(Tree(t.nodes[node.pid := node], Touch(t.recency, node.pid)))
    ensures node.pid !in t.nodes ==>
              node.pid !in t.recency && OneOver(Tree(t.nodes[node.pid := node], [node.pid] + t.recency))
  {
    hide Touch;
    if node.pid in t.nodes {
      AgreesTouched(t, node);
    } else {
      ConsDistinct(node.pid, t.recency);
    }
  }

  lemma PushedIndex(lru: seq<Cell>, lruPos: map<nat, nat>, nextHandle: nat, pid: nat)
    requires Indexed(lru, lruPos, nextHandle) && pid !in Pids(lru)
    ensures Indexed([Cell(nextHandle, pid)] + lru, lruPos[pid := nextHandle], nextHandle + 1)
    ensures Pids([Cell(nextHandle, pid)] + lru) == [pid] + Pids(lru)
  {
    AbsentPid(lru, lruPos, nextHandle, pid);
    IndexedPushed(lru, [Cell(nextHandle, pid)] + lru, lruPos, nextHandle, pid);
    hide Indexed;
    assert ([Cell(nextHandle, pid)] + lru)[1..] == lru;
  }

  lemma IndexedPushed(lru: seq<Cell>, pushed: seq<Cell>, lruPos: map<nat, nat>, nextHandle: nat, pid: nat)
    requires Indexed(lru, lruPos, nextHandle) && pid !in lruPos && pushed == [Cell(nextHandle, pid)] + lru
    ensures Indexed(pushed, lruPos[pid := nextHandle], nextHandle + 1)
  {
    PushedMembers(Cell(nextHandle, pid), lru);
  }

  lemma PushedMembers(cell: Cell, lru: seq<Cell>)
    ensures forall c :: c in [cell] + lru <==> c == cell || c in lru
  {
  }

  /** The eviction loop's state: dropping the last element now has the same result as at the start. */
  ghost predicate Evicting(pushed: Tree, nodes: map<nat, Node>, lru: seq<Cell>, lruPos: map<nat, nat>,
      nextHandle: nat) {
    && OneOver(Tree(nodes, Pids(lru))) && Indexed(lru, lruPos, nextHandle)
    && Evict(Tree(nodes, Pids(lru))) == Evict(pushed)
  }

  lemma EvictingStart(nodes: map<nat, Node>, lru: seq<Cell>, lruPos: map<nat, nat>, nextHandle: nat)
    requires OneOver(Tree(nodes, Pids(lru))) && Indexed(lru, lruPos, nextHandle)
    ensures Evicting(Tree(nodes, Pids(lru)), nodes, lru, lruPos, nextHandle) && |nodes| == |lru|
  {
    hide OneOver;
    hide Indexed;
    hide Evict;
    SizesAgree(Tree(nodes, Pids(lru)));
  }

  lemma EvictingStep(pushed: Tree, nodes: map<nat, Node>, lru: seq<Cell>, lruPos: map<nat, nat>, nextHandle: nat)
    requires Evicting(pushed, nodes, lru, lruPos, nextHandle) && |nodes| == |lru| > MAX_NODES
    ensures var victim := lru[|lru| - 1].pid;
      && Evicting(pushed, nodes - {victim}, lru[..|lru| - 1], lruPos - {victim}, nextHandle)
      && |nodes - {victim}| == |lru| - 1
  {
    hide Indexed;
    hide Without;
    hide Pids;
    hide OneOver;
    hide Evict;
    hide NoDuplicates;
    var last := |lru| - 1;
    EvictLast(Tree(nodes, Pids(lru)));
    CutIndex(lru, lruPos, nextHandle, last);
    assert lru[..last] + lru[last + 1..] == lru[..last];
    SizesAgree(Tree(nodes - {lru[last].pid}, Pids(lru[..last])));
  }

  lemma EvictLast(t: Tree)
    requires OneOver(t) && |t.recency| > MAX_NODES
    ensures var last := |t.recency| - 1;
      var next := Tree(t.nodes - {t.recency[last]}, Without(t.recency, t.recency[last]));
      && NoDuplicates(t.recency)
      && Evict(t) == next && Evict(next) == next && OneOver(next)
  {
    hide Without;
    hide NoDuplicates;
    LastCut(t.recency);
  }

  lemma EvictingEnd(pushed: Tree, nodes: map<nat, Node>, lru: seq<Cell>, lruPos: map<nat, nat>, nextHandle: nat)
    requires Evicting(pushed, nodes, lru, lruPos, nextHandle) && |nodes| == |lru| <= MAX_NODES
    ensures Agrees(Tree(nodes, Pids(lru))) && Indexed(lru, lruPos, nextHandle)
    ensures Tree(nodes, Pids(lru)) == Evict(pushed)
  {
    hide Indexed;
  }

  lemma LastCut(pids: seq<nat>)
    requires NoDuplicates(pids) && pids != []
    ensures var last := |pids| - 1;
      && Without(pids, pids[last]) == pids[..last]
      && NoDuplicates(pids[..last])
      && forall p :: p in pids[..last] <==> p in pids && p != pids[last]
  {
    hide Without;
    var last := |pids| - 1;
    DistinctAfterCut(pids, last);
    assert pids[..last] + pids[last + 1..] == pids[..last];
  }

  // ----- sweeping -----

  lemma {:induction false} WithoutNone(pids: seq<nat>)
    ensures WithoutAll(pids, {}) == pids
  {
    if pids != [] {
      WithoutNone(pids[1..]);
    }
  }

  lemma {:induction false} WithoutOneMore(pids: seq<nat>, erased: set<nat>, pid: nat)
    ensures Without(WithoutAll(pids, erased), pid) == WithoutAll(pids, erased + {pid})
  {
    if pids != [] {
      WithoutOneMore(pids[1..], erased, pid);
      var rest := WithoutAll(pids[1..], erased);
      if pids[0] !in erased {
        assert ([pids[0]] + rest)[1..] == rest;
      } else {
        assert [] + rest == rest;
      }
    }
  }

  /** Erasing one pid from the map, and from the list through the index. */
  lemma ErasedIndex(lru: seq<Cell>, lruPos: map<nat, nat>, nextHandle: nat, nodes: map<nat, Node>, pid: nat)
    requires Indexed(lru, lruPos, nextHandle) && Agrees(Tree(nodes, Pids(lru))) && pid in nodes
    ensures pid in lruPos
    ensures forall i | 0 <= i < |lru| && lru[i].pid == pid ::
              && Indexed(lru[..i] + lru[i + 1..], lruPos - {pid}, nextHandle)
              && Pids(lru[..i] + lru[i + 1..]) == Without(Pids(lru), pid)
              && Agrees(Tree(nodes - {pid}, Pids(lru[..i] + lru[i + 1..])))
  {
    hide Without;
    hide Pids;
    AbsentPid(lru, lruPos, nextHandle, pid);
    forall i | 0 <= i < |lru| && lru[i].pid == pid
      ensures && Indexed(lru[..i] + lru[i + 1..], lruPos - {pid}, nextHandle)
              && Pids(lru[..i] + lru[i + 1..]) == Without(Pids(lru), pid)
              && Agrees(Tree(nodes - {pid}, Pids(lru[..i] + lru[i + 1..])))
    {
      hide Indexed;
      CutIndex(lru, lruPos, nextHandle, i);
      WithoutDistinct(Pids(lru), pid);
    }
  }

  /** The tree after some of the dead pids are erased. */
  ghost predicate Erased(before: Tree, dead: set<nat>, erased: set<nat>, nodes: map<nat, Node>, lru: seq<Cell>,
                         lruPos: map<nat, nat>, nextHandle: nat)
  {
    && dead <= before.nodes.Keys
    && Tree(nodes, Pids(lru)) == Tree(before.nodes - erased, WithoutAll(before.recency, erased))
    && Agrees(Tree(nodes, Pids(lru))) && Indexed(lru, lruPos, nextHandle)
  }

  lemma SweepStart(t: Tree, lru: seq<Cell>, lruPos: map<nat, nat>, nextHandle: nat, now: nat)
    requires Agrees(t) && Indexed(lru, lruPos, nextHandle) && Pids(lru) == t.recency
    ensures Erased(t, Dead(t, now), {}, t.nodes, lru, lruPos, nextHandle)
  {
    hide Agrees;
    hide Indexed;
    WithoutNone(Pids(lru));
    assert t.nodes - {} == t.nodes;
  }

  lemma EraseStep(before: Tree, dead: set<nat>, erased: set<nat>, nodes: map<nat, Node>, lru: seq<Cell>,
                  lruPos: map<nat, nat>, nextHandle: nat, pid: nat)
    requires Erased(before, dead, erased, nodes, lru, lruPos, nextHandle) && pid in dead && pid !in erased
    ensures pid in lruPos && Indexed(lru, lruPos, nextHandle)
    ensures forall i | 0 <= i < |lru| && lru[i].pid == pid ::
              Erased(before, dead, erased + {pid}, nodes - {pid}, lru[..i] + lru[i + 1..], lruPos - {pid}, nextHandle)
  {
    hide Agrees;
    hide Indexed;
    hide Pids;
    hide WithoutAll;
    hide Without;
    ErasedIndex(lru, lruPos, nextHandle, nodes, pid);
    WithoutOneMore(before.recency, erased, pid);
    assert before.nodes - erased - {pid} == before.nodes - (erased + {pid});
  }

  lemma SweepEnd(before: Tree, erased: set<nat>, nodes: map<nat, Node>, lru: seq<Cell>,
                 lruPos: map<nat, nat>, nextHandle: nat, now: nat)
    requires erased == Dead(before, now) && Erased(before, erased, erased, nodes, lru, lruPos, nextHandle)
    ensures Agrees(Tree(nodes, Pids(lru))) && Indexed(lru, lruPos, nextHandle)
    ensures Tree(nodes, Pids(lru)) == Sweep(before, now)
  {
  }
}
