/** What a snapshot transaction guarantees about the tables it leaves. */
module SnapshotLaws {
  import opened Options
  import opened TextOrder
  import opened SnapshotSpec

  // ----- the resulting table -----

  /** The stored files afterwards: the old ones without those in scope that the scan missed,
      overridden by the scanned ones. */
  lemma OutcomeContents(table: Table, request: Request)
    ensures Contents(Outcome(table, request)) == (Contents(table) - Gone(table, request)) + Scanned(request.entries)
  {
    hide Scanned;
    hide InScope;
    var scanned := Scanned(request.entries);
    var got, expected := Contents(Outcome(table, request)), (Contents(table) - Gone(table, request)) + scanned;
    assert got.Keys == expected.Keys;
    forall path | path in got
      ensures got[path] == expected[path]
    {
    }
  }

  /** A row carries this run's stamp exactly when its content is new; every other surviving row
      is left as it was, stamp included. */
  lemma StampedIffChanged(table: Table, request: Request, path: string)
    requires path in Outcome(table, request)
    ensures Outcome(table, request)[path]
         == if path in Scanned(request.entries) && Stored(table, path) != Some(Scanned(request.entries)[path])
            then Row(Scanned(request.entries)[path], request.stamp)
            else if path in table then table[path] else Row(Scanned(request.entries)[path], request.stamp)
    ensures path !in table ==> Outcome(table, request)[path].stamp == request.stamp
  {
    hide Scanned;
    hide InScope;
  }

  // ----- the audit log -----

  function Redo(files: map<string, Attrs>, rows: seq<Audit>): map<string, Attrs>
    decreases |rows|
  {
    if rows == [] then files
    else
      var row := rows[0];
      Redo(if row.after.Some? then files[row.path := row.after.value] else files - {row.path}, rows[1..])
  }

  function Undo(files: map<string, Attrs>, rows: seq<Audit>): map<string, Attrs>
    decreases |rows|
  {
    if rows == [] then files
    else
      var row := rows[|rows| - 1];
      Undo(if row.before.Some? then files[row.path := row.before.value] else files - {row.path}, rows[..|rows| - 1])
  }

  function Lookup(files: map<string, Attrs>, path: string): Option<Attrs> {
    if path in files then Some(files[path]) else None
  }

  /** Each row's "before" is what the rows ahead of it left behind, and the row changes it. */
  predicate Chained(files: map<string, Attrs>, rows: seq<Audit>)
    decreases |rows|
  {
    rows == [] || (
      && rows[0].before == Lookup(files, rows[0].path) && rows[0].before != rows[0].after
      && Chained(Redo(files, rows[..1]), rows[1..])
    )
  }

  lemma {:induction false} RedoAppend(files: map<string, Attrs>, a: seq<Audit>, b: seq<Audit>)
    ensures Redo(files, a + b) == Redo(Redo(files, a), b)
    decreases |a|
  {
    if a == [] {
      assert a + b == b;
    } else {
      var row := a[0];
      assert (a + b)[1..] == a[1..] + b;
      RedoAppend(if row.after.Some? then files[row.path := row.after.value] else files - {row.path}, a[1..], b);
    }
  }

  lemma {:induction false} UndoAppend(files: map<string, Attrs>, a: seq<Audit>, b: seq<Audit>)
    ensures Undo(files, a + b) == Undo(Undo(files, b), a)
    decreases |b|
  {
    if b == [] {
      assert a + b == a;
    } else {
      var row := b[|b| - 1];
      assert (a + b)[..|a + b| - 1] == a + b[..|b| - 1];
      UndoAppend(if row.before.Some? then files[row.path := row.before.value] else files - {row.path}, a, b[..|b| - 1]);
    }
  }

  lemma {:induction false} ChainedAppend(files: map<string, Attrs>, a: seq<Audit>, b: seq<Audit>)
    requires Chained(files, a) && Chained(Redo(files, a), b)
    ensures Chained(files, a + b)
    decreases |a|
  {
    if a == [] {
      assert a + b == b;
    } else {
      assert (a + b)[1..] == a[1..] + b && (a + b)[..1] == a[..1];
      assert a[..1] + a[1..] == a;
      RedoAppend(files, a[..1], a[1..]);
      ChainedAppend(Redo(files, a[..1]), a[1..], b);
    }
  }

  lemma RedoOne(files: map<string, Attrs>, row: Audit)
    ensures Redo(files, [row]) == if row.after.Some? then files[row.path := row.after.value] else files - {row.path}
  {
  }

  lemma UndoOne(files: map<string, Attrs>, row: Audit)
    requires row.before == Lookup(files, row.path)
    ensures Undo(Redo(files, [row]), [row]) == files
  {
    RedoOne(files, row);
  }

  /** Chained rows can be taken back. */
  lemma {:induction false} UndoUndoesRedo(files: map<string, Attrs>, rows: seq<Audit>)
    requires Chained(files, rows)
    ensures Undo(Redo(files, rows), rows) == files
    decreases |rows|
  {
    if rows != [] {
      assert rows[..1] + rows[1..] == rows && rows[..1] == [rows[0]];
      RedoAppend(files, rows[..1], rows[1..]);
      UndoUndoesRedo(Redo(files, rows[..1]), rows[1..]);
      UndoAppend(Redo(files, rows), rows[..1], rows[1..]);
      UndoOne(files, rows[0]);
    }
  }

  /** The rows for the scanned files lead from the old contents to the written ones. */
  lemma {:induction false} ChangeRowsReplay(table: Table, scanned: map<string, Attrs>, todo: set<string>, stamp: Stamp)
    requires todo <= scanned.Keys
    ensures var from := Contents(Written(table, table, scanned, scanned.Keys - todo, stamp));
      var rows := ChangeRows(table, scanned, todo, stamp);
      && Chained(from, rows)
      && Redo(from, rows) == Contents(Written(table, table, scanned, scanned.Keys, stamp))
    decreases |todo|
  {
    hide *;
    var visited := scanned.Keys - todo;
    WholeIsPart(table);
    if todo == {} {
      assert visited == scanned.Keys;
      NoChangesReplay(table, scanned, todo, stamp);
    } else {
      ChangeRowsCons(table, scanned, todo, stamp);
      var path := Least(todo);
      var rest := todo - {path};
      assert scanned.Keys - rest == visited + {path};
      ChangeRowsReplay(table, scanned, rest, stamp);
      ChangeRowReplay(table, scanned, visited, path, stamp);
      ReplayAppend(Contents(Written(table, table, scanned, visited, stamp)),
          ChangeRow(table, path, scanned[path], stamp),
                   ChangeRows(table, scanned, rest, stamp));
    }
  }

  lemma WholeIsPart(table: Table)
    ensures IsPart(table, table)
  {
  }

  lemma NoChangesReplay(table: Table, scanned: map<string, Attrs>, todo: set<string>, stamp: Stamp)
    requires todo == {}
    ensures ChangeRows(table, scanned, todo, stamp) == []
    ensures forall files :: Chained(files, []) && Redo(files, []) == files
  {
  }

  lemma ReplayAppend(files: map<string, Attrs>, a: seq<Audit>, b: seq<Audit>)
    requires Chained(files, a) && Chained(Redo(files, a), b)
    ensures Chained(files, a + b) && Redo(files, a + b) == Redo(Redo(files, a), b)
  {
    ChainedAppend(files, a, b);
    RedoAppend(files, a, b);
  }

  lemma PathInSet(todo: set<string>)
    requires todo != {}
    ensures Least(todo) in todo
  {
  }

  lemma ChangeRowReplay(table: Table, scanned: map<string, Attrs>, visited: set<string>, path: string, stamp: Stamp)
    requires visited <= scanned.Keys && path in scanned && path !in visited
    ensures var from := Contents(Written(table, table, scanned, visited, stamp));
      var row := ChangeRow(table, path, scanned[path], stamp);
      && Chained(from, row)
      && Redo(from, row) == Contents(Written(table, table, scanned, visited + {path}, stamp))
  {
    var from := Contents(Written(table, table, scanned, visited, stamp));
    var row := ChangeRow(table, path, scanned[path], stamp);
    assert Lookup(from, path) == Stored(table, path);
    if row != [] {
      RedoOne(from, row[0]);
      assert row[1..] == [];
    }
  }

  lemma {:induction false} RemovalRowsReplay(table: Table, gone: set<string>, from: map<string, Attrs>,
      todo: set<string>, stamp: Stamp)
    requires todo <= table.Keys
    requires forall path | path in gone * todo :: path in from && from[path] == table[path].attrs
    ensures var rows := RemovalRows(table, gone, todo, stamp);
      && Chained(from, rows)
      && Redo(from, rows) == from - (gone * todo)
    decreases |todo|
  {
    hide IsLeast;
    if todo == {} {
      assert from - (gone * todo) == from;
    } else {
      var path := Least(todo);
      PathInSet(todo);
      var first := if path in gone then [Audit(stamp, path, Removed, Some(table[path].attrs), None)] else [];
      var next := if path in gone then from - {path} else from;
      RemovalRowsReplay(table, gone, next, todo - {path}, stamp);
      if path in gone {
        RedoOne(from, first[0]);
        assert first[1..] == [];
      }
      assert next - (gone * (todo - {path})) == from - (gone * todo);
      hide RemovalRows;
      ChainedAppend(from, first, RemovalRows(table, gone, todo - {path}, stamp));
      RedoAppend(from, first, RemovalRows(table, gone, todo - {path}, stamp));
      RemovalRowsCons(table, gone, todo, stamp);
    }
  }

  lemma RemovalRowsCons(table: Table, gone: set<string>, todo: set<string>, stamp: Stamp)
    requires todo != {} && todo <= table.Keys
    ensures var path := Least(todo);
      path in table && RemovalRows(table, gone, todo, stamp)
      == (if path in gone then [Audit(stamp, path, Removed, Some(table[path].attrs), None)] else [])
         + RemovalRows(table, gone, todo - {path}, stamp)
  {
  }

  /** Replaying the new audit rows forward turns the old contents into the new ones, and taking
      them back from the last to the first turns the new contents into the old. */
  lemma AuditReplays(table: Table, request: Request)
    ensures var rows := AuditRows(table, request);
      && Chained(Contents(table), rows)
      && Redo(Contents(table), rows) == Contents(Outcome(table, request))
      && Undo(Contents(Outcome(table, request)), rows) == Contents(table)
  {
    hide Scanned;
    hide ChangeRows;
    hide RemovalRows;
    hide Redo;
    hide Undo;
    hide Chained;
    hide InScope;
    var scanned, gone := Scanned(request.entries), Gone(table, request);
    var written := Contents(Written(table, table, scanned, scanned.Keys, request.stamp));
    assert scanned.Keys - scanned.Keys == {};
    assert Written(table, table, scanned, {}, request.stamp) == table;
    ChangeRowsReplay(table, scanned, scanned.Keys, request.stamp);
    RemovalRowsReplay(table, gone, written, table.Keys, request.stamp);
    assert gone * table.Keys == gone;
    assert written - gone == Contents(Outcome(table, request));
    var changes := ChangeRows(table, scanned, scanned.Keys, request.stamp);
    var removals := RemovalRows(table, gone, table.Keys, request.stamp);
    ChainedAppend(Contents(table), changes, removals);
    RedoAppend(Contents(table), changes, removals);
    UndoUndoesRedo(Contents(table), AuditRows(table, request));
  }

  // ----- the counters -----

  /** The counters account for every scanned path once, and for the size of the table. */
  lemma CountsAddUp(start: Stats, table: Table, request: Request)
    ensures var c := Counted(start, table, request);
      && (c.added - start.added) + (c.modified - start.modified) + (c.same - start.same) == |Scanned(request.entries)|
      && |Outcome(table, request)| == |table| + (c.added - start.added) - (c.removed - start.removed)
  {
    hide Scanned;
    hide AddedPaths;
    hide ModifiedPaths;
    hide UnchangedPaths;
    hide Outcome;
    hide Gone;
    GroupSizes(table, Scanned(request.entries));
    OutcomeSize(table, request);
  }

  /** Every scanned path is in exactly one of the three groups. */
  lemma GroupSizes(table: Table, scanned: map<string, Attrs>)
    ensures |AddedPaths(table, scanned)| + |ModifiedPaths(table, scanned)| + |UnchangedPaths(table, scanned)|
        == |scanned|
    ensures scanned.Keys - UnchangedPaths(table, scanned) == AddedPaths(table, scanned) + ModifiedPaths(table, scanned)
    ensures |scanned.Keys - UnchangedPaths(table, scanned)| == |AddedPaths(table, scanned)|
        + |ModifiedPaths(table, scanned)|
  {
    var added, modified := AddedPaths(table, scanned), ModifiedPaths(table, scanned);
    var same := UnchangedPaths(table, scanned);
    SizeOfUnion(added, modified);
    SizeOfUnion(scanned.Keys, same);
    SizeOfKeys(scanned);
    assert scanned.Keys - same == added + modified;
  }

  lemma SizeOfUnion<T>(a: set<T>, b: set<T>)
    ensures a !! b ==> |a + b| == |a| + |b|
    ensures b <= a ==> |a - b| == |a| - |b|
  {
    assert b <= a ==> a == (a - b) + b;
  }

  lemma SizeOfKeys<T, U>(m: map<T, U>)
    ensures |m| == |m.Keys|
  {
  }

  lemma OutcomeSize(table: Table, request: Request)
    ensures |Outcome(table, request)| == |table|
        + |AddedPaths(table, Scanned(request.entries))| - |Gone(table, request)|
  {
    OutcomeKeys(table, request);
    hide Outcome;
    hide Gone;
    var gone, added := Gone(table, request), AddedPaths(table, Scanned(request.entries));
    hide AddedPaths;
    SizeOfKeys(Outcome(table, request));
    SizeOfKeys(table);
    SizeOfUnion(table.Keys, gone);
    SizeOfUnion(table.Keys - gone, added);
  }

  lemma OutcomeKeys(table: Table, request: Request)
    ensures Gone(table, request) <= table.Keys && AddedPaths(table, Scanned(request.entries)) !! table.Keys
    ensures Outcome(table, request).Keys == (table.Keys - Gone(table, request))
        + AddedPaths(table, Scanned(request.entries))
  {
    hide Scanned;
    hide InScope;
  }

  /** Each added, modified or removed file has one audit row. */
  lemma AuditRowCount(start: Stats, table: Table, request: Request)
    ensures var c := Counted(start, table, request);
      |AuditRows(table, request)| == (c.added - start.added) + (c.modified - start.modified)
          + (c.removed - start.removed)
  {
    hide Scanned;
    hide InScope;
    hide ChangeRows;
    hide RemovalRows;
    hide AddedPaths;
    hide ModifiedPaths;
    hide UnchangedPaths;
    var scanned, gone := Scanned(request.entries), Gone(table, request);
    ChangeRowCount(table, scanned, scanned.Keys, request.stamp);
    RemovalRowCount(table, gone, table.Keys, request.stamp);
    GroupSizes(table, scanned);
    assert gone * table.Keys == gone;
  }

  lemma {:induction false} ChangeRowCount(table: Table, scanned: map<string, Attrs>, todo: set<string>, stamp: Stamp)
    requires todo <= scanned.Keys
    ensures |ChangeRows(table, scanned, todo, stamp)| == |todo - UnchangedPaths(table, scanned)|
    decreases |todo|
  {
    hide *;
    var same := UnchangedPaths(table, scanned);
    if todo == {} {
      assert todo - same == {};
      NoChangesReplay(table, scanned, todo, stamp);
    } else {
      ChangeRowsCons(table, scanned, todo, stamp);
      var path := Least(todo);
      ChangeRowCount(table, scanned, todo - {path}, stamp);
      assert todo - same == ((todo - {path}) - same) + if path in same then {} else {path};
    }
  }

  lemma ChangeRowsCons(table: Table, scanned: map<string, Attrs>, todo: set<string>, stamp: Stamp)
    requires todo != {} && todo <= scanned.Keys
    ensures var path := Least(todo);
      && path in todo
      && ChangeRows(table, scanned, todo, stamp)
         == ChangeRow(table, path, scanned[path], stamp) + ChangeRows(table, scanned, todo - {path}, stamp)
      && |ChangeRow(table, path, scanned[path], stamp)| == if path in UnchangedPaths(table, scanned) then 0 else 1
  {
  }

  lemma {:induction false} RemovalRowCount(table: Table, gone: set<string>, todo: set<string>, stamp: Stamp)
    requires todo <= table.Keys
    ensures |RemovalRows(table, gone, todo, stamp)| == |gone * todo|
    decreases |todo|
  {
    hide IsLeast;
    if todo == {} {
      assert gone * todo == {};
    } else {
      var path := Least(todo);
      PathInSet(todo);
      RemovalRowCount(table, gone, todo - {path}, stamp);
      assert gone * todo == gone * (todo - {path}) + if path in gone then {path} else {};
    }
  }

  predicate DistinctPaths(entries: seq<FileEntry>) {
    forall i, j | 0 <= i < j < |entries| :: entries[i].path != entries[j].path
  }

  lemma {:induction false} ScannedSize(entries: seq<FileEntry>)
    ensures |Scanned(entries)| <= |entries|
    ensures |Scanned(entries)| == |entries| <==> DistinctPaths(entries)
  {
    if entries != [] {
      hide DistinctPaths;
      var n := |entries| - 1;
      ScannedSize(entries[..n]);
      KeysAfterOne(Scanned(entries[..n]), entries[n]);
      ScannedStep(entries);
      ListedLast(entries);
    }
  }

  lemma ScannedKeys(entries: seq<FileEntry>)
    ensures forall path :: path in Scanned(entries) <==> exists i | 0 <= i < |entries| :: entries[i].path == path
    ensures |Scanned(entries)| <= |entries|
    ensures |Scanned(entries)| == |entries| <==> DistinctPaths(entries)
  {
    hide *;
    ListedPaths(entries);
    ScannedSize(entries);
  }

  lemma ListedLast(entries: seq<FileEntry>)
    requires entries != []
    ensures var n := |entries| - 1;
      entries[n].path !in Scanned(entries[..n]) <==> forall i | 0 <= i < n :: entries[i].path != entries[n].path
  {
    hide Scanned;
    var n := |entries| - 1;
    ListedPaths(entries[..n]);
    assert forall i | 0 <= i < n :: entries[..n][i] == entries[i];
  }

  lemma {:induction false} ListedPaths(entries: seq<FileEntry>)
    ensures forall path :: path in Scanned(entries) <==> exists i | 0 <= i < |entries| :: entries[i].path == path
  {
    if entries != [] {
      var n := |entries| - 1;
      var front := entries[..n];
      ListedPaths(front);
      forall path: string
        ensures path in Scanned(entries) <==> exists i | 0 <= i < |entries| :: entries[i].path == path
      {
        ListedStep(entries, path);
      }
    }
  }

  lemma ListedStep(entries: seq<FileEntry>, path: string)
    requires entries != []
    ensures var front := entries[..|entries| - 1];
      && (path in Scanned(entries) <==> path in Scanned(front) || path == entries[|entries| - 1].path)
      && ((exists i | 0 <= i < |entries| :: entries[i].path == path) <==>
            (exists i | 0 <= i < |front| :: front[i].path == path) || path == entries[|entries| - 1].path)
  {
    var front := entries[..|entries| - 1];
    if exists i | 0 <= i < |front| :: front[i].path == path {
      var i :| 0 <= i < |front| && front[i].path == path;
      assert entries[i].path == path;
    }
    if exists i | 0 <= i < |entries| :: entries[i].path == path {
      var i :| 0 <= i < |entries| && entries[i].path == path;
      assert i < |front| ==> front[i].path == path;
    }
  }

  lemma ScannedStep(entries: seq<FileEntry>)
    requires entries != []
    ensures var n := |entries| - 1;
      && Scanned(entries) == Scanned(entries[..n])[entries[n].path := entries[n].attrs]
      && (DistinctPaths(entries) <==>
            DistinctPaths(entries[..n]) && forall i | 0 <= i < n :: entries[i].path != entries[n].path)
  {
    DistinctStep(entries);
    hide DistinctPaths;
  }

  lemma DistinctStep(entries: seq<FileEntry>)
    requires entries != []
    ensures var n := |entries| - 1;
      DistinctPaths(entries) <==>
        DistinctPaths(entries[..n]) && forall i | 0 <= i < n :: entries[i].path != entries[n].path
  {
    var n := |entries| - 1;
    var front := entries[..n];
    if DistinctPaths(entries) {
      forall i, j | 0 <= i < j < n
        ensures front[i].path != front[j].path
      {
        assert front[i] == entries[i] && front[j] == entries[j];
      }
    }
    if DistinctPaths(front) && forall i | 0 <= i < n :: entries[i].path != entries[n].path {
      forall i, j | 0 <= i < j < |entries|
        ensures entries[i].path != entries[j].path
      {
        if j < n {
          assert front[i] == entries[i] && front[j] == entries[j];
        }
      }
    }
  }

  lemma KeysAfterOne(files: map<string, Attrs>, entry: FileEntry)
    ensures |files[entry.path := entry.attrs]| == |files| + if entry.path in files then 0 else 1
  {
    assert files[entry.path := entry.attrs].Keys == files.Keys + {entry.path};
    assert |files[entry.path := entry.attrs].Keys| == |files[entry.path := entry.attrs]|;
  }

  /** The scanned counter, taken from the list and not from the map, agrees with the other three
      exactly when no path is listed twice. */
  lemma ScannedCountAgreesIff(table: Table, request: Request)
    ensures var c := Counted(Stats(0, 0, 0, 0, 0, 0), table, request).(scanned := |request.entries|);
      c.scanned == c.added + c.modified + c.same <==> DistinctPaths(request.entries)
  {
    hide DistinctPaths;
    ScannedKeys(request.entries);
    CountsAddUp(Stats(0, 0, 0, 0, 0, 0), table, request);
  }

  // ----- again -----

  /** Running the same snapshot again changes no row, writes no audit row, and counts every
      scanned path as unchanged, whatever stamp the second run carries. */
  lemma AgainChangesNothing(table: Table, request: Request, stamp: Stamp)
    ensures var again := request.(stamp := stamp);
      var after := Outcome(table, request);
      && Outcome(after, again) == after
      && AuditRows(after, again) == []
      && UnchangedPaths(after, Scanned(request.entries)) == Scanned(request.entries).Keys
  {
    hide Scanned;
    hide Below;
    hide Under;
    hide Excluded;
    var scanned := Scanned(request.entries);
    var again := request.(stamp := stamp);
    var after := Outcome(table, request);
    forall path | path in scanned
      ensures Stored(after, path) == Some(scanned[path])
    {
    }
    forall path: string
      ensures InScope(path, again) <==> InScope(path, request)
    {
    }
    NothingGone(table, request, again);
    assert UnchangedPaths(after, scanned) == scanned.Keys;
    NoRowsForSettled(after, again);
    assert Written(after, after, scanned, scanned.Keys, stamp) == after;
  }

  lemma NothingGone(table: Table, request: Request, again: Request)
    requires again.entries == request.entries
    requires forall path :: InScope(path, again) <==> InScope(path, request)
    ensures Gone(Outcome(table, request), again) == {}
  {
    hide Scanned;
    hide InScope;
  }

  lemma NoRowsForSettled(table: Table, request: Request)
    requires UnchangedPaths(table, Scanned(request.entries)) == Scanned(request.entries).Keys
        && Gone(table, request) == {}
    ensures AuditRows(table, request) == []
  {
    hide Scanned;
    hide Gone;
    hide ChangeRows;
    hide RemovalRows;
    hide UnchangedPaths;
    var scanned := Scanned(request.entries);
    ChangeRowCount(table, scanned, scanned.Keys, request.stamp);
    RemovalRowCount(table, {}, table.Keys, request.stamp);
    assert scanned.Keys - scanned.Keys == {};
    assert {} * table.Keys == {};
  }
}
