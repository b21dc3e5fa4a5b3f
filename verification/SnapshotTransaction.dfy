/** The snapshot transaction of src/storage/baseline_db.cpp as it runs: statements one at a time,
    any of which may fail and roll the tables back. */
module SnapshotTransaction {
  import opened Options
  import opened TextOrder
  import opened SnapshotSpec

  /** Counts a change that is no removal. */
  function Tally(stats: Stats, change: Change): (r: Stats)
    ensures r.scanned == stats.scanned && r.removed == stats.removed && r.errors == stats.errors
  {
    if change == Added then stats.(added := stats.added + 1) else stats.(modified := stats.modified + 1)
  }

  /** The three tables, as this connection sees them. */
  class BaselineDb {
    var entries: Table
    var audit: seq<Audit>
    var snapshots: seq<SnapshotRow>

    /** The tables as they were when the open transaction began. */
    var savedEntries: Table
    var savedAudit: seq<Audit>
    var savedSnapshots: seq<SnapshotRow>

    /** How many more statements succeed before one fails. */
    var budget: nat

    constructor (budget: nat)
      ensures entries == map[] && audit == [] && snapshots == [] && this.budget == budget
    {
      entries, audit, snapshots := map[], [], [];
      savedEntries, savedAudit, savedSnapshots := map[], [], [];
      this.budget := budget;
    }

    /** Runs one statement: it succeeds while the budget lasts. */
    method Step() returns (ok: bool)
      modifies `budget
      ensures ok == (old(budget) > 0)
      ensures budget == if ok then old(budget) - 1 else 0
    {
      ok := budget > 0;
      if ok {
        budget := budget - 1;
      }
    }

    method Rollback()
      modifies `entries, `audit, `snapshots
      ensures entries == savedEntries && audit == savedAudit && snapshots == savedSnapshots
    {
      entries, audit, snapshots := savedEntries, savedAudit, savedSnapshots;
    }

    method BeginImmediate() returns (ok: bool)
      modifies `budget, `savedEntries, `savedAudit, `savedSnapshots
      ensures ok == (old(budget) > 0)
      ensures budget == if ok then old(budget) - 1 else 0
      ensures ok ==> savedEntries == entries && savedAudit == audit && savedSnapshots == snapshots
    {
      ok := Step();
      if ok {
        savedEntries, savedAudit, savedSnapshots := entries, audit, snapshots;
      }
    }

    /** Statement preparation: reads nothing and writes nothing, but may fail. */
    method Prepare(n: nat) returns (ok: bool)
      modifies `budget
      ensures ok == (old(budget) >= n)
      ensures budget == if ok then old(budget) - n else 0
    {
      ok := true;
      var i := 0;
      while i < n && ok
        invariant 0 <= i <= n
        invariant ok ==> budget == old(budget) - i
        invariant !ok ==> old(budget) < n && budget == 0
      {
        ok := Step();
        i := i + 1;
      }
    }

    method WriteAudit(row: Audit) returns (ok: bool)
      modifies `budget, `audit
      ensures ok == (old(budget) > 0)
      ensures budget == if ok then old(budget) - 1 else 0
      ensures audit == if ok then old(audit) + [row] else old(audit)
    {
      ok := Step();
      if ok {
        audit := audit + [row];
      }
    }

    method WriteEntry(path: string, row: Row) returns (ok: bool)
      modifies `budget, `entries
      ensures ok == (old(budget) > 0)
      ensures budget == if ok then old(budget) - 1 else 0
      ensures entries == if ok then old(entries)[path := row] else old(entries)
    {
      ok := Step();
      if ok {
        entries := entries[path := row];
      }
    }

    method DeleteEntry(path: string) returns (ok: bool)
      modifies `budget, `entries
      ensures ok == (old(budget) > 0)
      ensures budget == if ok then old(budget) - 1 else 0
      ensures entries == if ok then old(entries) - {path} else old(entries)
    {
      ok := Step();
      if ok {
        entries := entries - {path};
      }
    }

    /** One scanned file: nothing but a count if it is stored as it is, else an audit row and an upsert. */
    method WriteChange(current: Table, path: string, attrs: Attrs, stamp: Stamp, start: Stats)
      returns (ok: bool, stats: Stats)
      modifies `budget, `entries, `audit
      ensures path in current && current[path].attrs == attrs ==>
                && ok && stats == start.(same := start.same + 1)
                && budget == old(budget) && entries == old(entries) && audit == old(audit)
      ensures !(path in current && current[path].attrs == attrs) ==>
                var change := if path !in current then Added else Modified;
                && ok == (old(budget) >= 2) && stats == Tally(start, change)
                && (ok ==>
                      && budget == old(budget) - 2
                      && entries == old(entries)[path := Row(attrs, stamp)]
                      && audit == old(audit) + [Audit(stamp, path, change, Stored(current, path), Some(attrs))])
      ensures stats.scanned == start.scanned && stats.removed == start.removed && stats.errors == start.errors
    {
      hide *;
      ok, stats := true, start;
      if path in current && current[path].attrs == attrs {
        stats := stats.(same := stats.same + 1);
      } else {
        var change := if path !in current then Added else Modified;
        stats := Tally(stats, change);
        ok := WriteAudit(Audit(stamp, path, change, Stored(current, path), Some(attrs)));
        if ok {
          ok := WriteEntry(path, Row(attrs, stamp));
        }
      }
    }

    /** The loop over the scanned files: each changed one gets an audit row and is upserted. */
    method WriteChanges(current: Table, scanned: map<string, Attrs>, stamp: Stamp, start: Stats)
      returns (ok: bool, stats: Stats)
      requires IsPart(current, entries)
      modifies `budget, `entries, `audit
      ensures var rows := ChangeRows(current, scanned, scanned.Keys, stamp);
        && ok == (old(budget) >= 2 * |rows|)
        && (ok ==>
              && budget == old(budget) - 2 * |rows|
              && audit == old(audit) + rows
              && entries == Written(old(entries), current, scanned, scanned.Keys, stamp)
              && stats == start.(added := start.added + |AddedPaths(current, scanned)|,
                                 modified := start.modified + |ModifiedPaths(current, scanned)|,
                                 same := start.same + |UnchangedPaths(current, scanned)|))
      ensures stats.scanned == start.scanned && stats.removed == start.removed && stats.errors == start.errors
    {
      hide *;
      ok, stats := true, start;
      var todo := scanned.Keys;
      ghost var from := Point(entries, audit, start);
      ChangesStart(from, current, scanned, stamp);
      while todo != {}
        invariant todo <= scanned.Keys
        invariant ChangesLeft(from, current, scanned, stamp, todo, Point(entries, audit, stats))
        invariant budget + 2 * |audit| == old(budget) + 2 * |old(audit)|
        invariant stats.scanned == start.scanned && stats.removed == start.removed && stats.errors == start.errors
        decreases |todo|
      {
        TodoHasLeast(todo);
        var path :| IsLeast(path, todo);
        LeastInTodo(path, todo);
        var attrs := scanned[path];
        ChangesStep(from, current, scanned, stamp, todo, path, Point(entries, audit, stats));
        ok, stats := WriteChange(current, path, attrs, stamp, stats);
        if !ok {
          return;
        }
        todo := todo - {path};
      }
      ChangesEnd(from, current, scanned, stamp, todo, Point(entries, audit, stats));
    }

    /** The loop over the stored files: those in scope that the scan missed get an audit row and go. */
    method RemoveGone(current: Table, scanned: map<string, Attrs>, request: Request) returns (ok: bool)
      requires scanned == Scanned(request.entries)
      modifies `budget, `entries, `audit
      ensures var rows := RemovalRows(current, Gone(current, request), current.Keys, request.stamp);
        && ok == (old(budget) >= 2 * |rows|)
        && (ok ==>
              && budget == old(budget) - 2 * |rows|
              && audit == old(audit) + rows
              && entries == old(entries) - Gone(current, request))
    {
      hide *;
      ok := true;
      var todo := current.Keys;
      ghost var before := entries;
      ghost var written := audit;
      ghost var gone := Gone(current, request);
      RemovalsStart(current, gone, before, request.stamp, audit);
      while todo != {}
        invariant todo <= current.Keys
        invariant RemovalsLeft(current, gone, todo, before, request.stamp, written, entries, audit)
        invariant budget + 2 * |audit| == old(budget) + 2 * |written|
        decreases |todo|
      {
        TodoHasLeast(todo);
        var path :| IsLeast(path, todo);
        LeastInTodo(path, todo);
        GoneIs(current, request, path);
        RemovalsStep(current, gone, todo, path, before, request.stamp, written, entries, audit);
        if InScope(path, request) && path !in scanned {
          ok := WriteAudit(Audit(request.stamp, path, Removed, Some(current[path].attrs), None));
          if ok {
            ok := DeleteEntry(path);
          }
          if !ok {
            return;
          }
        }
        todo := todo - {path};
      }
      RemovalsEnd(current, gone, todo, before, request.stamp, written, entries, audit);
      GoneWithin(current, request);
    }

    /** The count of removals, taken before the transaction begins. */
    static method CountRemoved(current: Table, scanned: map<string, Attrs>, request: Request, start: Stats)
      returns (stats: Stats)
      requires scanned == Scanned(request.entries)
      ensures stats == start.(removed := start.removed + |Gone(current, request)|)
    {
      hide *;
      stats := start;
      var todo := current.Keys;
      ghost var gone := Gone(current, request);
      GoneWithin(current, request);
      LeftToCount(gone, todo);
      while todo != {}
        invariant todo <= current.Keys
        invariant stats == start.(removed := start.removed + |gone| - |todo * gone|)
        decreases |todo|
      {
        TodoHasLeast(todo);
        var path :| IsLeast(path, todo);
        LeastInTodo(path, todo);
        GoneIs(current, request, path);
        OneFewer(gone, todo, path);
        if InScope(path, request) && path !in scanned {
          stats := stats.(removed := stats.removed + 1);
        }
        todo := todo - {path};
      }
    }

    /** The later of two entries for one path replaces the earlier. */
    static method IndexEntries(entries: seq<FileEntry>) returns (scanned: map<string, Attrs>)
      ensures scanned == Scanned(entries)
    {
      scanned := map[];
      for i := 0 to |entries|
        invariant scanned == Scanned(entries[..i])
      {
        assert entries[..i + 1][..i] == entries[..i];
        scanned := scanned[entries[i].path := entries[i].attrs];
      }
      assert entries[..|entries|] == entries;
    }

    /** Reading the stored rows one by one, in an order of the database's own. A step that fails
        ends the loop as the last row does: nothing tells the two apart. */
    method ReadRows(readable: nat) returns (current: Table)
      ensures IsRead(current, entries, readable)
    {
      hide ReadSoFar;
      current := map[];
      var todo := entries.Keys;
      NothingRead(entries);
      while todo != {} && |current| < readable
        invariant ReadSoFar(current, entries, todo) && |current| <= readable
        decreases |todo|
      {
        var path :| path in todo;
        OneRowMore(current, entries, todo, path);
        current := current[path := entries[path]];
        todo := todo - {path};
      }
      ReadDone(current, entries, todo, readable);
    }

    /** What follows BEGIN: preparing the statements, the two loops, the snapshot row, and COMMIT.
        After a failure the caller rolls back; the original does so at each place by itself. */
    method WriteAll(current: Table, scanned: map<string, Attrs>, request: Request, start: Stats)
      returns (ok: bool, stats: Stats)
      requires IsPart(current, entries) && scanned == Scanned(request.entries)
      modifies `budget, `entries, `audit, `snapshots
      ensures ok == (old(budget) + 2 >= StatementCount(current, request))
      ensures ok ==>
                && entries == OutcomeFrom(old(entries), current, request)
                && audit == old(audit) + AuditRows(current, request)
                && snapshots == old(snapshots) + [SnapshotRow(request.stamp, request.startedAt, request.roots,
                     request.excludesText, request.recursive, stats)]
                && stats == start.(added := start.added + |AddedPaths(current, scanned)|,
                                   modified := start.modified + |ModifiedPaths(current, scanned)|,
                                   same := start.same + |UnchangedPaths(current, scanned)|)
      ensures stats.scanned == start.scanned && stats.removed == start.removed && stats.errors == start.errors
    {
      hide Scanned;
      hide Written;
      hide Gone;
      hide IsPart;
      hide ChangeRows;
      hide RemovalRows;
      hide AddedPaths;
      hide ModifiedPaths;
      hide UnchangedPaths;
      stats := start;
      ok := Prepare(3);
      if !ok {
        return;
      }
      ok, stats := WriteChanges(current, scanned, request.stamp, stats);
      if !ok {
        return;
      }
      ok := RemoveGone(current, scanned, request);
      if !ok {
        return;
      }
      ok := Prepare(1);
      if !ok {
        return;
      }
      ok := Step();
      if ok {
        snapshots := snapshots + [SnapshotRow(request.stamp, request.startedAt, request.roots,
                                              request.excludesText, request.recursive, stats)];
        ok := Step();
      }
    }

    /** The whole run. `readable` is how often the read steps answer with a row. */
    method ApplySnapshot(request: Request, start: Stats, readable: nat)
      returns (ok: bool, stats: Stats, ghost current: Table)
      modifies this
      ensures old(budget) > 0 ==> IsRead(current, old(entries), readable)
      ensures ok == (old(budget) >= StatementCount(current, request))
      ensures ok ==>
                && IsPart(current, old(entries))
                && entries == OutcomeFrom(old(entries), current, request)
                && audit == old(audit) + AuditRows(current, request)
                && snapshots == old(snapshots) + [SnapshotRow(request.stamp, request.startedAt, request.roots,
                     request.excludesText, request.recursive, Counted(start, current, request))]
                && stats == Counted(start, current, request).(scanned := |request.entries|)
      ensures !ok ==>
                && entries == old(entries) && audit == old(audit) && snapshots == old(snapshots)
                && stats.scanned == start.scanned && stats.errors == start.errors
                && stats.removed == start.removed + if old(budget) > 0 then |Gone(current, request)| else 0
    {
      hide Scanned;
      hide OutcomeFrom;
      hide AuditRows;
      hide Gone;
      hide IsPart;
      hide AddedPaths;
      hide ModifiedPaths;
      hide UnchangedPaths;
      stats := start;
      current := map[];
      ok := Prepare(1);
      if !ok {
        return;
      }
      var rows := ReadRows(readable);
      current := rows;
      var scanned := IndexEntries(request.entries);
      stats := CountRemoved(rows, scanned, request, stats);
      ok := BeginImmediate();
      if !ok {
        return;
      }
      ok, stats := WriteAll(rows, scanned, request, stats);
      if !ok {
        Rollback();
        return;
      }
      stats := stats.(scanned := |request.entries|);
    }
  }

  /** The rows read, and the paths of those still to come. */
  ghost predicate ReadSoFar(current: Table, table: Table, todo: set<string>) {
    IsPart(current, table) && todo == table.Keys - current.Keys
  }

  lemma KeysSize(table: Table)
    ensures |table.Keys| == |table|
  {
  }

  lemma NothingRead(table: Table)
    ensures ReadSoFar(map[], table, table.Keys)
  {
    assert table.Keys - {} == table.Keys;
  }

  lemma OneRowMore(current: Table, table: Table, todo: set<string>, path: string)
    requires ReadSoFar(current, table, todo) && path in todo
    ensures path in table && ReadSoFar(current[path := table[path]], table, todo - {path})
    ensures |current[path := table[path]]| == |current| + 1
  {
    var next := current[path := table[path]];
    assert next.Keys == current.Keys + {path};
    KeysSize(next);
    KeysSize(current);
  }

  lemma ReadDone(current: Table, table: Table, todo: set<string>, readable: nat)
    requires ReadSoFar(current, table, todo) && |current| <= readable && (todo == {} || |current| == readable)
    ensures IsRead(current, table, readable)
  {
    KeysSize(current);
    KeysSize(table);
    assert table.Keys == current.Keys + todo;
    assert |current.Keys + todo| == |current.Keys| + |todo|;
  }

  lemma TodoHasLeast(todo: set<string>)
    requires todo != {}
    ensures exists path :: IsLeast(path, todo)
  {
    var path := Least(todo);
  }

  lemma LeastInTodo(path: string, todo: set<string>)
    requires IsLeast(path, todo)
    ensures path in todo && path == Least(todo)
  {
    LeastIsUnique(path, Least(todo), todo);
  }

  // ----- the loop over the scanned files -----

  /** What the loop changes. */
  datatype Point = Point(entries: Table, audit: seq<Audit>, stats: Stats)

  /** The state once the paths in `visited` are dealt with, the rest being later in path order. */
  ghost predicate ChangesDone(from: Point, current: Table, scanned: map<string, Attrs>, stamp: Stamp,
                              visited: set<string>, to: Point)
  {
    && visited <= scanned.Keys && IsPart(current, from.entries)
    && to.entries == Written(from.entries, current, scanned, visited, stamp)
    && to.audit + ChangeRows(current, scanned, scanned.Keys - visited, stamp)
       == from.audit + ChangeRows(current, scanned, scanned.Keys, stamp)
    && to.stats == from.stats.(added := from.stats.added + |visited * AddedPaths(current, scanned)|,
                               modified := from.stats.modified + |visited * ModifiedPaths(current, scanned)|,
                               same := from.stats.same + |visited * UnchangedPaths(current, scanned)|)
  }

  /** The same, told by the paths still to come. */
  ghost predicate ChangesLeft(from: Point, current: Table, scanned: map<string, Attrs>, stamp: Stamp,
                              todo: set<string>, to: Point)
  {
    ChangesDone(from, current, scanned, stamp, scanned.Keys - todo, to)
  }

  lemma ChangesBegin(from: Point, current: Table, scanned: map<string, Attrs>, stamp: Stamp)
    requires IsPart(current, from.entries)
    ensures ChangesDone(from, current, scanned, stamp, {}, from)
  {
    hide ChangeRows;
    hide IsPart;
    assert scanned.Keys - {} == scanned.Keys;
    WrittenStart(from.entries, current, scanned, stamp);
    CountStart(current, scanned);
  }

  lemma ChangesStart(from: Point, current: Table, scanned: map<string, Attrs>, stamp: Stamp)
    requires IsPart(current, from.entries)
    ensures ChangesLeft(from, current, scanned, stamp, scanned.Keys, from)
  {
    hide ChangesDone;
    hide IsPart;
    ChangesBegin(from, current, scanned, stamp);
    assert scanned.Keys - scanned.Keys == {};
  }

  lemma ChangesEnd(from: Point, current: Table, scanned: map<string, Attrs>, stamp: Stamp, todo: set<string>, to: Point)
    requires ChangesLeft(from, current, scanned, stamp, todo, to) && todo == {}
    ensures to.entries == Written(from.entries, current, scanned, scanned.Keys, stamp)
    ensures to.audit == from.audit + ChangeRows(current, scanned, scanned.Keys, stamp)
    ensures to.stats == from.stats.(added := from.stats.added + |AddedPaths(current, scanned)|,
                                    modified := from.stats.modified + |ModifiedPaths(current, scanned)|,
                                    same := from.stats.same + |UnchangedPaths(current, scanned)|)
  {
    hide Written;
    hide IsPart;
    hide AddedPaths;
    hide ModifiedPaths;
    hide UnchangedPaths;
    var visited := scanned.Keys - todo;
    NoMoreChanges(current, scanned, scanned.Keys - visited, stamp);
    hide ChangeRows;
    CountEnd(current, scanned, visited);
  }

  lemma NoMoreChanges(current: Table, scanned: map<string, Attrs>, todo: set<string>, stamp: Stamp)
    requires todo == {}
    ensures ChangeRows(current, scanned, todo, stamp) == []
  {
  }

  lemma ChangesAdvance(from: Point, current: Table, scanned: map<string, Attrs>, stamp: Stamp, visited: set<string>,
                    todo: set<string>, path: string, at: Point)
    requires ChangesDone(from, current, scanned, stamp, visited, at)
    requires todo !! visited && todo + visited == scanned.Keys && path in todo && path == Least(todo)
    ensures path in current && current[path].attrs == scanned[path] ==>
              ChangesDone(from, current, scanned, stamp, visited + {path},
                  at.(stats := at.stats.(same := at.stats.same + 1)))
    ensures !(path in current && current[path].attrs == scanned[path]) ==>
              var change := if path !in current then Added else Modified;
              && |at.audit| < |from.audit| + |ChangeRows(current, scanned, scanned.Keys, stamp)|
              && ChangesDone(from, current, scanned, stamp, visited + {path},
                   Point(at.entries[path := Row(scanned[path], stamp)],
                         at.audit + [Audit(stamp, path, change, Stored(current, path), Some(scanned[path]))],
                         Tally(at.stats, change)))
  {
    hide Written;
    hide IsPart;
    hide ChangeRows;
    hide AddedPaths;
    hide ModifiedPaths;
    hide UnchangedPaths;
    hide IsLeast;
    hide Stored;
    CountStep(current, scanned, visited, path);
    WrittenStep(from.entries, current, scanned, visited, path, stamp);
    assert scanned.Keys - visited == todo && scanned.Keys - (visited + {path}) == todo - {path};
    ChangeRowsStep(current, scanned, todo, path, stamp);
    RowMoves(at.audit, ChangeRows(current, scanned, todo, stamp),
             from.audit + ChangeRows(current, scanned, scanned.Keys, stamp),
             ChangeRows(current, scanned, todo - {path}, stamp));
  }

  lemma ChangesStep(from: Point, current: Table, scanned: map<string, Attrs>, stamp: Stamp, todo: set<string>,
                    path: string, at: Point)
    requires ChangesLeft(from, current, scanned, stamp, todo, at)
    requires todo <= scanned.Keys && path in todo && path == Least(todo)
    ensures path in current && current[path].attrs == scanned[path] ==>
              ChangesLeft(from, current, scanned, stamp, todo - {path},
                  at.(stats := at.stats.(same := at.stats.same + 1)))
    ensures !(path in current && current[path].attrs == scanned[path]) ==>
              var change := if path !in current then Added else Modified;
              && |at.audit| < |from.audit| + |ChangeRows(current, scanned, scanned.Keys, stamp)|
              && ChangesLeft(from, current, scanned, stamp, todo - {path},
                   Point(at.entries[path := Row(scanned[path], stamp)],
                         at.audit + [Audit(stamp, path, change, Stored(current, path), Some(scanned[path]))],
                         Tally(at.stats, change)))
  {
    hide ChangesDone;
    hide ChangeRows;
    hide IsLeast;
    hide Tally;
    hide Stored;
    var visited := scanned.Keys - todo;
    assert scanned.Keys - (todo - {path}) == visited + {path};
    ChangesAdvance(from, current, scanned, stamp, visited, todo, path, at);
  }

  /** A row written moves from the rows still to come to those written. */
  lemma RowMoves(audit: seq<Audit>, toCome: seq<Audit>, all: seq<Audit>, rest: seq<Audit>)
    requires audit + toCome == all
    ensures toCome == [] + rest ==> audit + rest == all
    ensures toCome != [] && toCome == [toCome[0]] + rest ==> (audit + [toCome[0]]) + rest == all
  {
    if toCome != [] && toCome == [toCome[0]] + rest {
      assert (audit + [toCome[0]]) + rest == audit + ([toCome[0]] + rest);
    }
  }

  lemma ChangeRowsStep(current: Table, scanned: map<string, Attrs>, todo: set<string>, path: string, stamp: Stamp)
    requires todo <= scanned.Keys && path in todo && path == Least(todo)
    ensures var change := if path !in current then Added else Modified;
      ChangeRows(current, scanned, todo, stamp)
      == (if path in current && current[path].attrs == scanned[path] then []
          else [Audit(stamp, path, change, Stored(current, path), Some(scanned[path]))])
         + ChangeRows(current, scanned, todo - {path}, stamp)
  {
  }

  lemma WrittenStart(table: Table, current: Table, scanned: map<string, Attrs>, stamp: Stamp)
    requires IsPart(current, table)
    ensures Written(table, current, scanned, {}, stamp) == table
  {
  }

  lemma WrittenStep(table: Table, current: Table, scanned: map<string, Attrs>, visited: set<string>, path: string,
      stamp: Stamp)
    requires visited <= scanned.Keys && path in scanned && path !in visited && IsPart(current, table)
    ensures Written(table, current, scanned, visited + {path}, stamp)
         == if path in current && current[path].attrs == scanned[path]
            then Written(table, current, scanned, visited, stamp)
            else Written(table, current, scanned, visited, stamp)[path := Row(scanned[path], stamp)]
  {
  }

  lemma CountStart(table: Table, scanned: map<string, Attrs>)
    ensures {} * AddedPaths(table, scanned) == {}
    ensures {} * ModifiedPaths(table, scanned) == {}
    ensures {} * UnchangedPaths(table, scanned) == {}
  {
  }

  lemma CountEnd(table: Table, scanned: map<string, Attrs>, visited: set<string>)
    requires visited == scanned.Keys
    ensures visited * AddedPaths(table, scanned) == AddedPaths(table, scanned)
    ensures visited * ModifiedPaths(table, scanned) == ModifiedPaths(table, scanned)
    ensures visited * UnchangedPaths(table, scanned) == UnchangedPaths(table, scanned)
  {
  }

  lemma CountOne(visited: set<string>, path: string, group: set<string>)
    requires path !in visited
    ensures |(visited + {path}) * group| == |visited * group| + if path in group then 1 else 0
  {
    assert (visited + {path}) * group == visited * group + (if path in group then {path} else {});
  }

  lemma LeftToCount(gone: set<string>, all: set<string>)
    requires gone <= all
    ensures all * gone == gone
  {
  }

  lemma OneFewer(gone: set<string>, todo: set<string>, path: string)
    requires path in todo
    ensures |todo * gone| == |(todo - {path}) * gone| + if path in gone then 1 else 0
  {
    assert todo * gone == (todo - {path}) * gone + if path in gone then {path} else {};
  }

  /** Every scanned path falls into exactly one of the three groups. */
  lemma CountStep(table: Table, scanned: map<string, Attrs>, visited: set<string>, path: string)
    requires path in scanned && path !in visited
    ensures var same := path in table && table[path].attrs == scanned[path];
      && |(visited + {path}) * AddedPaths(table, scanned)|
         == |visited * AddedPaths(table, scanned)| + (if path !in table then 1 else 0)
      && |(visited + {path}) * ModifiedPaths(table, scanned)|
         == |visited * ModifiedPaths(table, scanned)| + (if path in table && !same then 1 else 0)
      && |(visited + {path}) * UnchangedPaths(table, scanned)|
         == |visited * UnchangedPaths(table, scanned)| + (if same then 1 else 0)
  {
    CountOne(visited, path, AddedPaths(table, scanned));
    CountOne(visited, path, ModifiedPaths(table, scanned));
    CountOne(visited, path, UnchangedPaths(table, scanned));
  }

  // ----- the loop over the stored files -----

  lemma GoneIs(table: Table, request: Request, path: string)
    requires path in table
    ensures path in Gone(table, request) <==> InScope(path, request) && path !in Scanned(request.entries)
  {
  }

  lemma GoneWithin(table: Table, request: Request)
    ensures Gone(table, request) <= table.Keys
  {
  }

  ghost predicate RemovalsDone(table: Table, gone: set<string>, visited: set<string>, before: Table, stamp: Stamp,
                               written: seq<Audit>, entries: Table, audit: seq<Audit>)
  {
    && visited <= table.Keys
    && entries == before - (gone * visited)
    && audit + RemovalRows(table, gone, table.Keys - visited, stamp)
       == written + RemovalRows(table, gone, table.Keys, stamp)
  }

  /** The same, told by the paths still to come. */
  ghost predicate RemovalsLeft(table: Table, gone: set<string>, todo: set<string>, before: Table, stamp: Stamp,
                               written: seq<Audit>, entries: Table, audit: seq<Audit>)
  {
    RemovalsDone(table, gone, table.Keys - todo, before, stamp, written, entries, audit)
  }

  lemma RemovalsStart(table: Table, gone: set<string>, before: Table, stamp: Stamp, written: seq<Audit>)
    ensures RemovalsLeft(table, gone, table.Keys, before, stamp, written, before, written)
  {
    hide RemovalRows;
    assert table.Keys - table.Keys == {};
    assert table.Keys - {} == table.Keys;
    assert gone * {} == {};
  }

  lemma RemovalsEnd(table: Table, gone: set<string>, todo: set<string>, before: Table, stamp: Stamp,
                    written: seq<Audit>, entries: Table, audit: seq<Audit>)
    requires RemovalsLeft(table, gone, todo, before, stamp, written, entries, audit) && todo == {}
    ensures gone <= table.Keys ==> entries == before - gone
    ensures audit == written + RemovalRows(table, gone, table.Keys, stamp)
  {
    var visited := table.Keys - todo;
    NoMoreRemovals(table, gone, table.Keys - visited, stamp);
    hide RemovalRows;
    assert gone <= table.Keys ==> gone * visited == gone;
  }

  lemma NoMoreRemovals(table: Table, gone: set<string>, todo: set<string>, stamp: Stamp)
    requires todo == {}
    ensures RemovalRows(table, gone, todo, stamp) == []
  {
  }

  lemma RemovalsStep(table: Table, gone: set<string>, todo: set<string>, path: string,
                     before: Table, stamp: Stamp, written: seq<Audit>, entries: Table, audit: seq<Audit>)
    requires RemovalsLeft(table, gone, todo, before, stamp, written, entries, audit)
    requires todo <= table.Keys && path in todo && path == Least(todo)
    ensures path !in gone ==> RemovalsLeft(table, gone, todo - {path}, before, stamp, written, entries, audit)
    ensures path in gone ==>
              && |audit| < |written| + |RemovalRows(table, gone, table.Keys, stamp)|
              && RemovalsLeft(table, gone, todo - {path}, before, stamp, written, entries - {path},
                              audit + [Audit(stamp, path, Removed, Some(table[path].attrs), None)])
  {
    hide RemovalRows;
    hide IsLeast;
    var visited := table.Keys - todo;
    assert table.Keys - (todo - {path}) == visited + {path};
    assert table.Keys - visited == todo && table.Keys - (visited + {path}) == todo - {path};
    assert gone * (visited + {path}) == gone * visited + if path in gone then {path} else {};
    RemovalRowsStep(table, gone, todo, path, stamp);
    RowMoves(audit, RemovalRows(table, gone, todo, stamp), written + RemovalRows(table, gone, table.Keys, stamp),
             RemovalRows(table, gone, todo - {path}, stamp));
  }

  lemma RemovalRowsStep(table: Table, gone: set<string>, todo: set<string>, path: string, stamp: Stamp)
    requires todo <= table.Keys && path in todo && path == Least(todo)
    ensures RemovalRows(table, gone, todo, stamp)
         == (if path in gone then [Audit(stamp, path, Removed, Some(table[path].attrs), None)] else [])
            + RemovalRows(table, gone, todo - {path}, stamp)
  {
  }
}
