/** What a run of src/storage/baseline_db.cpp removes, keeps and logs, path by path, in terms of the
    texts of its scopes and excludes. */
module SnapshotScope {
  import opened Options
  import opened TextOrder
  import opened SnapshotSpec
  import opened SnapshotLaws

  /** An exclude protects its own path and every path that continues it with a slash. */
  ghost predicate Protects(exclude: string, path: string) {
    path == exclude || exists rest :: path == exclude + "/" + rest
  }

  /** What ScopeCovers says of a scope. */
  ghost predicate Covers(scope: Scope, path: string, parentOf: string -> string) {
    || path == scope.path
    || (!scope.exactFile && !scope.recursive && parentOf(path) == scope.path)
    || (!scope.exactFile && scope.recursive && exists rest :: path == scope.path + "/" + rest)
  }

  lemma ExcludedIff(path: string, excludes: seq<string>)
    ensures Excluded(path, excludes) <==> exists exclude :: exclude in excludes && Protects(exclude, path)
  {
    forall exclude: string
      ensures Below(path, exclude) <==> exists rest :: path == exclude + "/" + rest
    {
      BelowIff(path, exclude);
    }
  }

  lemma BelowIff(path: string, exclude: string)
    ensures Below(path, exclude) <==> exists rest :: path == exclude + "/" + rest
  {
    if Below(path, exclude) {
      assert path == exclude + "/" + path[|exclude| + 1..];
    }
  }

  /** A path is in scope if and only if some scope covers it and no exclude protects it. */
  lemma InScopeIff(path: string, request: Request)
    ensures InScope(path, request) <==>
              && (exists scope :: scope in request.scopes && Covers(scope, path, request.parentOf))
              && (forall exclude | exclude in request.excludes :: !Protects(exclude, path))
  {
    hide Excluded;
    hide Under;
    hide Protects;
    ExcludedIff(path, request.excludes);
    forall scope: Scope
      ensures Under(path, scope, request.parentOf) <==> Covers(scope, path, request.parentOf)
    {
      ScopeCovers(path, scope, request.parentOf);
    }
    hide Covers;
  }

  predicate Listed(entries: seq<FileEntry>, path: string) {
    exists i | 0 <= i < |entries| :: entries[i].path == path
  }

  /** Of the entries for one path the last counts. */
  lemma {:induction false} LastEntryCounts(entries: seq<FileEntry>, i: nat)
    requires i < |entries| && forall j | i < j < |entries| :: entries[j].path != entries[i].path
    ensures entries[i].path in Scanned(entries) && Scanned(entries)[entries[i].path] == entries[i].attrs
  {
    var n := |entries| - 1;
    if i < n {
      LastEntryCounts(entries[..n], i);
    }
  }

  /** A stored file is gone after the run if and only if it was not scanned, some scope covers it,
      and no exclude protects it. */
  lemma RemovedIff(table: Table, request: Request, path: string)
    requires path in table
    ensures path !in Outcome(table, request) <==>
              && !Listed(request.entries, path)
              && (exists scope :: scope in request.scopes && Covers(scope, path, request.parentOf))
              && (forall exclude | exclude in request.excludes :: !Protects(exclude, path))
  {
    hide Scanned;
    hide InScope;
    hide Covers;
    hide Protects;
    ListedPaths(request.entries);
    InScopeIff(path, request);
  }

  // ----- the audit rows, path by path -----

  /** The row a scanned path gets. */
  predicate IsChange(row: Audit, table: Table, scanned: map<string, Attrs>, stamp: Stamp) {
    && row.path in scanned && row.stamp == stamp
    && row.before == Stored(table, row.path) && row.after == Some(scanned[row.path]) && row.before != row.after
    && row.change == if row.path in table then Modified else Added
  }

  /** The row a removed path gets. */
  predicate IsRemoval(row: Audit, table: Table, stamp: Stamp) {
    && row.path in table && row.stamp == stamp
    && row.before == Some(table[row.path].attrs) && row.after == None && row.change == Removed
  }

  lemma {:induction false} ChangeRowsAre(table: Table, scanned: map<string, Attrs>, todo: set<string>, stamp: Stamp)
    requires todo <= scanned.Keys
    ensures forall row :: row in ChangeRows(table, scanned, todo, stamp) <==>
                            row.path in todo && IsChange(row, table, scanned, stamp)
    decreases |todo|
  {
    hide Least;
    hide IsLeast;
    if todo != {} {
      var path := Least(todo);
      PathInSet(todo);
      ChangeRowsAre(table, scanned, todo - {path}, stamp);
      ChangeRowIs(table, scanned, path, stamp);
      ChangeRowsCons(table, scanned, todo, stamp);
      hide IsChange;
      hide ChangeRow;
      hide ChangeRows;
      forall row: Audit
        ensures row in ChangeRows(table, scanned, todo, stamp) <==>
                  row.path in todo && IsChange(row, table, scanned, stamp)
      {
      }
    } else {
      NoChangesReplay(table, scanned, todo, stamp);
    }
  }

  lemma ChangeRowIs(table: Table, scanned: map<string, Attrs>, path: string, stamp: Stamp)
    requires path in scanned
    ensures forall row :: row in ChangeRow(table, path, scanned[path], stamp) <==>
                            row.path == path && IsChange(row, table, scanned, stamp)
  {
  }

  lemma {:induction false} RemovalRowsAre(table: Table, gone: set<string>, todo: set<string>, stamp: Stamp)
    requires todo <= table.Keys
    ensures forall row :: row in RemovalRows(table, gone, todo, stamp) <==>
                            row.path in todo && row.path in gone && IsRemoval(row, table, stamp)
    decreases |todo|
  {
    hide IsLeast;
    if todo != {} {
      var path := Least(todo);
      PathInSet(todo);
      RemovalRowsAre(table, gone, todo - {path}, stamp);
      RemovalRowsCons(table, gone, todo, stamp);
      hide Least;
      hide RemovalRows;
    }
  }

  /** A row stands in the log of a run if and only if it says what that run did to its path: a
      scanned file added or changed, or a stored one removed, with its state before and after. */
  lemma LoggedIff(table: Table, request: Request, row: Audit)
    ensures row in AuditRows(table, request) <==>
              || IsChange(row, table, Scanned(request.entries), request.stamp)
              || (row.path in Gone(table, request) && IsRemoval(row, table, request.stamp))
  {
    hide Scanned;
    hide Gone;
    hide IsChange;
    hide IsRemoval;
    hide ChangeRows;
    hide RemovalRows;
    var scanned := Scanned(request.entries);
    ChangeRowsAre(table, scanned, scanned.Keys, request.stamp);
    RemovalRowsAre(table, Gone(table, request), table.Keys, request.stamp);
    ChangedAreScanned(row, table, scanned, request.stamp);
  }

  lemma ChangedAreScanned(row: Audit, table: Table, scanned: map<string, Attrs>, stamp: Stamp)
    ensures IsChange(row, table, scanned, stamp) ==> row.path in scanned.Keys
    ensures IsRemoval(row, table, stamp) ==> row.path in table.Keys
  {
  }

  /** A stored file that no scan found and that an exclude protects keeps its row, and no row of the
      log names it. */
  lemma ProtectedIsLeftAlone(table: Table, request: Request, path: string, exclude: string)
    requires path in table && !Listed(request.entries, path)
    requires exclude in request.excludes && Protects(exclude, path)
    ensures path in Outcome(table, request) && Outcome(table, request)[path] == table[path]
    ensures forall row | row in AuditRows(table, request) :: row.path != path
  {
    hide Scanned;
    hide InScope;
    hide AuditRows;
    hide Protects;
    ListedPaths(request.entries);
    InScopeIff(path, request);
    forall row | row in AuditRows(table, request)
      ensures row.path != path
    {
      LoggedIff(table, request, row);
    }
  }

  // ----- the order of the log -----

  predicate Ascending(rows: seq<Audit>) {
    forall i, j | 0 <= i < j < |rows| :: Before(rows[i].path, rows[j].path)
  }

  /** The rows for scanned files come in ascending order of their paths. */
  lemma {:induction false} ChangesAscend(table: Table, scanned: map<string, Attrs>, todo: set<string>, stamp: Stamp)
    requires todo <= scanned.Keys
    ensures Ascending(ChangeRows(table, scanned, todo, stamp))
    decreases |todo|
  {
    hide Before;
    if todo == {} {
      NoChangesReplay(table, scanned, todo, stamp);
    } else {
      var path := Least(todo);
      var rest := ChangeRows(table, scanned, todo - {path}, stamp);
      ChangeRowsCons(table, scanned, todo, stamp);
      ChangesAscend(table, scanned, todo - {path}, stamp);
      ChangeRowsAre(table, scanned, todo - {path}, stamp);
      LeastIsBefore(todo);
      hide Least;
      hide ChangeRows;
      OneInFront(ChangeRow(table, path, scanned[path], stamp), rest, path);
    }
  }

  /** So do the rows for removed files, after them. */
  lemma {:induction false} RemovalsAscend(table: Table, gone: set<string>, todo: set<string>, stamp: Stamp)
    requires todo <= table.Keys
    ensures Ascending(RemovalRows(table, gone, todo, stamp))
    decreases |todo|
  {
    hide Before;
    if todo != {} {
      var path := Least(todo);
      var rest := RemovalRows(table, gone, todo - {path}, stamp);
      RemovalRowsCons(table, gone, todo, stamp);
      RemovalsAscend(table, gone, todo - {path}, stamp);
      RemovalRowsAre(table, gone, todo - {path}, stamp);
      LeastIsBefore(todo);
      hide Least;
      hide RemovalRows;
      OneInFront(if path in gone then [Audit(stamp, path, Removed, Some(table[path].attrs), None)] else [], rest, path);
    }
  }

  lemma LeastIsBefore(todo: set<string>)
    requires todo != {}
    ensures Least(todo) in todo && forall other | other in todo && other != Least(todo) :: Before(Least(todo), other)
  {
    hide Before;
    var path := Least(todo);
    forall other | other in todo && other != path
      ensures Before(path, other)
    {
      BeforeIsTotal(path, other);
    }
  }

  lemma OneInFront(first: seq<Audit>, rest: seq<Audit>, path: string)
    requires |first| <= 1 && (forall row | row in first :: row.path == path)
    requires Ascending(rest) && forall row | row in rest :: Before(path, row.path)
    ensures Ascending(first + rest)
  {
    hide Before;
    if first == [] {
      assert first + rest == rest;
    } else {
      assert first[0] in first;
      forall i, j | 0 <= i < j < |first + rest|
        ensures Before((first + rest)[i].path, (first + rest)[j].path)
      {
        assert (first + rest)[j] == rest[j - 1] && rest[j - 1] in rest;
        assert i > 0 ==> (first + rest)[i] == rest[i - 1];
      }
    }
  }
}
