/** The one failure that src/storage/baseline_db.cpp (`BaselineDB::ApplySnapshot`) does not notice:
    a step of the reading query that fails ends the loop like the last row does, and the run goes
    on with the rows read so far. */
module SnapshotRead {
  import opened Options
  import opened TextOrder
  import opened SnapshotSpec
  import L = SnapshotLaws
  import T = SnapshotTransaction

  /** As many rows as there are means all of them. */
  lemma FullReadIsWhole(current: Table, table: Table, readable: nat)
    requires IsRead(current, table, readable)
    ensures current == table <==> readable >= |table|
  {
    L.SizeOfKeys(current);
    L.SizeOfKeys(table);
    if readable >= |table| {
      SameSizePart(current.Keys, table.Keys);
    }
  }

  lemma SameSizePart(a: set<string>, b: set<string>)
    requires a <= b && |a| == |b|
    ensures a == b
  {
    L.SizeOfUnion(b, a);
    assert b == a + (b - a);
  }

  /** Nothing that the scan or the scope looks at went unread. */
  ghost predicate Harmless(table: Table, current: Table, request: Request) {
    forall path | path in table && path !in current :: path !in Scanned(request.entries) && !InScope(path, request)
  }

  // ----- a harmless cut -----

  lemma HarmlessStored(table: Table, current: Table, request: Request)
    requires IsPart(current, table) && Harmless(table, current, request)
    ensures forall path | path in Scanned(request.entries) :: Stored(current, path) == Stored(table, path)
    ensures Gone(current, request) == Gone(table, request)
  {
    hide Scanned;
    hide InScope;
  }

  lemma HarmlessCounts(table: Table, current: Table, request: Request, start: Stats)
    requires IsPart(current, table) && Harmless(table, current, request)
    ensures Counted(start, current, request) == Counted(start, table, request)
  {
    hide *;
    HarmlessStored(table, current, request);
    SameGroups(table, current, Scanned(request.entries));
    CountedIs(start, current, request);
    CountedIs(start, table, request);
  }

  lemma CountedIs(start: Stats, table: Table, request: Request)
    ensures var scanned := Scanned(request.entries);
      Counted(start, table, request)
      == start.(added := start.added + |AddedPaths(table, scanned)|,
                modified := start.modified + |ModifiedPaths(table, scanned)|,
                same := start.same + |UnchangedPaths(table, scanned)|,
                removed := start.removed + |Gone(table, request)|)
  {
  }

  lemma SameGroups(table: Table, current: Table, scanned: map<string, Attrs>)
    requires forall path | path in scanned :: Stored(current, path) == Stored(table, path)
    ensures AddedPaths(current, scanned) == AddedPaths(table, scanned)
    ensures UnchangedPaths(current, scanned) == UnchangedPaths(table, scanned)
    ensures ModifiedPaths(current, scanned) == ModifiedPaths(table, scanned)
  {
    forall path | path in scanned
      ensures path in current <==> path in table
    {
      assert Stored(current, path) == Stored(table, path);
    }
    assert UnchangedPaths(current, scanned) == UnchangedPaths(table, scanned);
    hide Stored;
    hide UnchangedPaths;
    assert AddedPaths(current, scanned) == AddedPaths(table, scanned);
    assert scanned.Keys * current.Keys == scanned.Keys * table.Keys;
  }

  lemma HarmlessOutcome(table: Table, current: Table, request: Request)
    requires IsPart(current, table) && Harmless(table, current, request)
    ensures OutcomeFrom(table, current, request) == Outcome(table, request)
  {
    hide Scanned;
    hide InScope;
    hide Gone;
    hide Stored;
    hide Harmless;
    HarmlessStored(table, current, request);
    L.WholeIsPart(table);
    var scanned := Scanned(request.entries);
    assert Written(table, current, scanned, scanned.Keys, request.stamp)
        == Written(table, table, scanned, scanned.Keys, request.stamp);
  }

  lemma {:induction false} SameChangeRows(table: Table, current: Table, scanned: map<string, Attrs>, todo: set<string>,
                                          stamp: Stamp)
    requires todo <= scanned.Keys
    requires forall path | path in todo :: Stored(current, path) == Stored(table, path)
    ensures ChangeRows(current, scanned, todo, stamp) == ChangeRows(table, scanned, todo, stamp)
    decreases |todo|
  {
    hide IsLeast;
    hide Stored;
    if todo != {} {
      var path := Least(todo);
      L.PathInSet(todo);
      SameChangeRows(table, current, scanned, todo - {path}, stamp);
    }
  }

  /** Paths that stay write no row. */
  lemma {:induction false} OnlyGoneRows(table: Table, gone: set<string>, todo: set<string>, stamp: Stamp)
    requires todo <= table.Keys
    ensures RemovalRows(table, gone, todo, stamp) == RemovalRows(table, gone, todo * gone, stamp)
    decreases |todo|
  {
    if todo == {} {
      assert todo * gone == {};
    } else {
      var path := Least(todo);
      L.PathInSet(todo);
      OnlyGoneRows(table, gone, todo - {path}, stamp);
      if path in gone {
        LeastOfPart(todo, todo * gone);
        assert (todo - {path}) * gone == todo * gone - {path};
        L.RemovalRowsCons(table, gone, todo * gone, stamp);
      } else {
        assert (todo - {path}) * gone == todo * gone;
      }
      L.RemovalRowsCons(table, gone, todo, stamp);
    }
  }

  lemma LeastOfPart(all: set<string>, part: set<string>)
    requires all != {} && part <= all && Least(all) in part
    ensures Least(part) == Least(all)
  {
    hide Before;
    LeastIsUnique(Least(all), Least(part), part);
  }

  lemma {:induction false} SameRemovalRows(table: Table, current: Table, gone: set<string>, todo: set<string>,
      stamp: Stamp)
    requires IsPart(current, table) && todo <= current.Keys && todo <= table.Keys
    ensures RemovalRows(current, gone, todo, stamp) == RemovalRows(table, gone, todo, stamp)
    decreases |todo|
  {
    hide IsLeast;
    if todo != {} {
      var path := Least(todo);
      L.PathInSet(todo);
      SameRemovalRows(table, current, gone, todo - {path}, stamp);
    }
  }

  lemma HarmlessRows(table: Table, current: Table, request: Request)
    requires IsPart(current, table) && Harmless(table, current, request)
    ensures AuditRows(current, request) == AuditRows(table, request)
  {
    hide *;
    AuditRowsAre(current, request);
    AuditRowsAre(table, request);
    HarmlessStored(table, current, request);
    PartKeys(current, table);
    var scanned, gone := Scanned(request.entries), Gone(table, request);
    SameChangeRows(table, current, scanned, scanned.Keys, request.stamp);
    T.GoneWithin(current, request);
    T.GoneWithin(table, request);
    OnlyGoneRows(current, gone, current.Keys, request.stamp);
    OnlyGoneRows(table, gone, table.Keys, request.stamp);
    assert current.Keys * gone == gone && table.Keys * gone == gone;
    SameRemovalRows(table, current, gone, gone, request.stamp);
  }

  lemma AuditRowsAre(table: Table, request: Request)
    ensures AuditRows(table, request)
         == ChangeRows(table, Scanned(request.entries), Scanned(request.entries).Keys, request.stamp)
            + RemovalRows(table, Gone(table, request), table.Keys, request.stamp)
  {
  }

  lemma PartKeys(current: Table, table: Table)
    requires IsPart(current, table)
    ensures current.Keys <= table.Keys
  {
  }

  // ----- a harmful cut -----

  lemma SmallerSet(a: set<string>, b: set<string>, x: string)
    requires a <= b && x in b && x !in a
    ensures |a| < |b|
  {
    L.SizeOfUnion(b, a);
    assert x in b - a;
  }

  lemma HarmfulCounts(table: Table, current: Table, request: Request, start: Stats)
    requires IsPart(current, table) && !Harmless(table, current, request)
    ensures Counted(start, current, request) != Counted(start, table, request)
  {
    hide Scanned;
    hide InScope;
    hide ModifiedPaths;
    hide UnchangedPaths;
    var scanned := Scanned(request.entries);
    var path :| path in table && path !in current && (path in scanned || InScope(path, request));
    if path in scanned {
      hide Gone;
      SmallerSet(AddedPaths(table, scanned), AddedPaths(current, scanned), path);
    } else {
      hide AddedPaths;
      SmallerSet(Gone(current, request), Gone(table, request), path);
    }
  }

  // ----- what a cut read does -----

  /** A committed run gives the table, the audit rows and the counters of the whole difference if
      and only if no stored path that was left unread is scanned or in scope; otherwise the
      counters are wrong. */
  lemma CutIsHarmlessIff(table: Table, current: Table, request: Request, start: Stats)
    requires IsPart(current, table)
    ensures (&& OutcomeFrom(table, current, request) == Outcome(table, request)
             && AuditRows(current, request) == AuditRows(table, request)
             && Counted(start, current, request) == Counted(start, table, request))
            <==> Harmless(table, current, request)
    ensures Counted(start, current, request) == Counted(start, table, request) <==> Harmless(table, current, request)
  {
    hide *;
    if Harmless(table, current, request) {
      HarmlessOutcome(table, current, request);
      HarmlessRows(table, current, request);
      HarmlessCounts(table, current, request, start);
    } else {
      HarmfulCounts(table, current, request, start);
    }
  }

  /** The stored files themselves come out right exactly when no unread path should have been
      removed: every scanned file is written whatever was read. */
  lemma CutContentsRightIff(table: Table, current: Table, request: Request)
    requires IsPart(current, table)
    ensures Contents(OutcomeFrom(table, current, request))
         == (Contents(table) - Gone(current, request)) + Scanned(request.entries)
    ensures Contents(OutcomeFrom(table, current, request)) == Contents(Outcome(table, request))
      <==> forall path | path in table && path !in current ::
             path in Scanned(request.entries) || !InScope(path, request)
  {
    CutContents(table, current, request);
    L.OutcomeContents(table, request);
    hide Scanned;
    hide InScope;
    hide OutcomeFrom;
    hide Outcome;
    var scanned := Scanned(request.entries);
    var cut := (Contents(table) - Gone(current, request)) + scanned;
    var whole := (Contents(table) - Gone(table, request)) + scanned;
    if forall path | path in table && path !in current :: path in scanned || !InScope(path, request) {
      assert Gone(current, request) == Gone(table, request);
    } else {
      var path :| path in table && path !in current && path !in scanned && InScope(path, request);
      assert path in cut && path !in whole;
    }
  }

  lemma CutContents(table: Table, current: Table, request: Request)
    requires IsPart(current, table)
    ensures Contents(OutcomeFrom(table, current, request))
         == (Contents(table) - Gone(current, request)) + Scanned(request.entries)
  {
    hide Scanned;
    hide InScope;
    var scanned := Scanned(request.entries);
    var got := Contents(OutcomeFrom(table, current, request));
    var expected := (Contents(table) - Gone(current, request)) + scanned;
    assert got.Keys == expected.Keys;
    forall path | path in got
      ensures got[path] == expected[path]
    {
    }
  }

  // ----- a run that shows it -----

  /** One file, recorded and then scanned again unchanged. If the first read step of the second
      run fails, that run still succeeds, and logs the file as added a second time. */
  method UnnoticedReadFailure(request: Request, file: FileEntry)
    returns (db: T.BaselineDb, ok1: bool, ok2: bool, ghost stored: Table)
    requires request.entries == [file]
    ensures ok1 && ok2
    ensures stored == map[file.path := Row(file.attrs, request.stamp)] && AuditRows(stored, request) == []
    ensures db.audit == AuditRows(map[], request) + AuditRows(map[], request)
    ensures AuditRows(map[], request) == [Audit(request.stamp, file.path, Added, None, Some(file.attrs))]
    ensures db.entries == stored
  {
    hide *;
    OneFileRows(request, file);
    db := new T.BaselineDb(100);
    var none := Stats(0, 0, 0, 0, 0, 0);
    var stats;
    ghost var read;
    ok1, stats, read := db.ApplySnapshot(request, none, 1);
    NothingToRead(read, map[], 1);
    stored := db.entries;
    db.budget := 100;
    ok2, stats, read := db.ApplySnapshot(request, none, 0);
    NothingToRead(read, stored, 0);
  }

  lemma NothingToRead(current: Table, table: Table, readable: nat)
    requires IsRead(current, table, readable) && (readable == 0 || table == map[])
    ensures current == map[]
  {
    L.SizeOfKeys(current);
  }

  lemma OneFileRows(request: Request, file: FileEntry)
    requires request.entries == [file]
    ensures var row := [Audit(request.stamp, file.path, Added, None, Some(file.attrs))];
      var stored := map[file.path := Row(file.attrs, request.stamp)];
      && AuditRows(map[], request) == row
      && AuditRows(stored, request) == []
      && StatementCount(map[], request) == 10
      && OutcomeFrom(map[], map[], request) == stored
      && IsPart(map[], stored) && OutcomeFrom(stored, map[], request) == stored
  {
    OneScanned(request.entries, file);
    hide Scanned;
    var scanned := map[file.path := file.attrs];
    var stored: Table := map[file.path := Row(file.attrs, request.stamp)];
    assert Gone(map[], request) == {} && Gone(stored, request) == {};
    L.AgainChangesNothing(map[], request, request.stamp);
    assert Outcome(map[], request) == stored;
    assert request.(stamp := request.stamp) == request;
    OnlyRow(request, file);
    assert OutcomeFrom(stored, map[], request) == stored;
  }

  lemma OneScanned(entries: seq<FileEntry>, file: FileEntry)
    requires entries == [file]
    ensures Scanned(entries) == map[file.path := file.attrs]
  {
    assert entries[..0] == [];
  }

  lemma OnlyRow(request: Request, file: FileEntry)
    requires Scanned(request.entries) == map[file.path := file.attrs] && Gone(map[], request) == {}
    ensures AuditRows(map[], request) == [Audit(request.stamp, file.path, Added, None, Some(file.attrs))]
  {
    hide Scanned;
    hide Gone;
    hide IsLeast;
    var todo := {file.path};
    var scanned := map[file.path := file.attrs];
    assert scanned.Keys == todo;
    L.PathInSet(todo);
    assert todo - {file.path} == {};
    assert ChangeRows(map[], scanned, {}, request.stamp) == [];
  }
}
