/** What one snapshot transaction of src/storage/baseline_db.cpp (`BaselineDB::ApplySnapshot`)
    does to the tables: the difference of the stored and the scanned files, within a scope. */
module SnapshotSpec {
  import opened Options
  import opened TextOrder

  /** Everything recorded about a file except its path. */
  datatype Attrs = Attrs(fileType: string, hash: string, permission: string, uid: int, gid: int,
                         owner: string, grp: string, fileSize: int, mtime: int)

  datatype FileEntry = FileEntry(path: string, attrs: Attrs)

  datatype Scope = Scope(path: string, recursive: bool, exactFile: bool)

  /** The snapshot a row was last written by. */
  datatype Stamp = Stamp(snapshotId: string, title: string, recordedAt: string)

  datatype Row = Row(attrs: Attrs, stamp: Stamp)

  type Table = map<string, Row>

  datatype Change = Added | Modified | Removed

  datatype Audit = Audit(stamp: Stamp, path: string, change: Change, before: Option<Attrs>, after: Option<Attrs>)

  datatype Stats = Stats(scanned: int, added: int, modified: int, removed: int, same: int, errors: int)

  datatype SnapshotRow = SnapshotRow(stamp: Stamp, startedAt: string, roots: string, excludes: string,
                                     recursive: bool, counts: Stats)

  /** The arguments of a run; `parentOf` is the library's `parent_path`. */
  datatype Request = Request(stamp: Stamp, entries: seq<FileEntry>, scopes: seq<Scope>, excludes: seq<string>,
                             recursive: bool, roots: string, excludesText: string, startedAt: string,
                             parentOf: string -> string)

  // ----- scope -----

  /** `path` continues `prefix` with a slash. */
  predicate Below(path: string, prefix: string) {
    |path| > |prefix| && path[..|prefix|] == prefix && path[|prefix|] == '/'
  }

  predicate Under(path: string, scope: Scope, parentOf: string -> string) {
    if scope.exactFile then path == scope.path
    else if path == scope.path then true
    else if !scope.recursive then parentOf(path) == scope.path
    else Below(path, scope.path)
  }

  predicate Excluded(path: string, excludes: seq<string>) {
    exists exclude | exclude in excludes :: path == exclude || Below(path, exclude)
  }

  predicate InScope(path: string, request: Request) {
    && !Excluded(path, request.excludes)
    && exists scope | scope in request.scopes :: Under(path, scope, request.parentOf)
  }

  /** A recursive scope covers its own path and everything beneath it; a flat one its own path and
      what the library calls its children; a single file only itself. */
  lemma ScopeCovers(path: string, scope: Scope, parentOf: string -> string)
    ensures Under(path, scope, parentOf) <==>
              || path == scope.path
              || (!scope.exactFile && !scope.recursive && parentOf(path) == scope.path)
              || (!scope.exactFile && scope.recursive && exists rest :: path == scope.path + "/" + rest)
  {
    var n := |scope.path|;
    if Below(path, scope.path) {
      assert path == scope.path + "/" + path[n + 1..];
    }
    if exists rest :: path == scope.path + "/" + rest {
      var rest :| path == scope.path + "/" + rest;
      assert path[..n] == scope.path && path[n] == '/';
    }
  }

  /** A recursive scope covers its own path and what follows it after one more slash, so a scope
      written with a trailing slash, "/" among them, misses the files directly below it. */
  lemma TrailingSlashScope(dir: string, rest: string, parentOf: string -> string)
    requires rest != ""
    ensures Under(dir + "/" + rest, Scope(dir, true, false), parentOf)
    ensures Under(dir + "/" + rest, Scope(dir + "/", true, false), parentOf) <==> rest[0] == '/'
  {
    var path := dir + "/" + rest;
    assert path[..|dir|] == dir;
    assert path[..|dir + "/"|] == dir + "/";
    assert path[|dir| + 1] == rest[0];
  }

  // ----- the difference -----

  /** The scanned files by path; of two entries for one path the later wins. */
  function Scanned(entries: seq<FileEntry>): map<string, Attrs> {
    if entries == [] then map[]
    else
      var last := entries[|entries| - 1];
      Scanned(entries[..|entries| - 1])[last.path := last.attrs]
  }

  function Contents(table: Table): map<string, Attrs> {
    map path | path in table :: table[path].attrs
  }

  function Stored(table: Table, path: string): Option<Attrs> {
    if path in table then Some(table[path].attrs) else None
  }

  /** Stored files in scope that the scan did not find. */
  function Gone(table: Table, request: Request): set<string> {
    var scanned := Scanned(request.entries);
    set path | path in table && InScope(path, request) && path !in scanned
  }

  /** Rows read from a table: some of its rows, unchanged. */
  ghost predicate IsPart(current: Table, table: Table) {
    forall path | path in current :: path in table && current[path] == table[path]
  }

  /** What reading delivers when its steps answer with a row `readable` times at most: the loop
      ends at the first step that does not, and does not ask why. */
  ghost predicate IsRead(current: Table, table: Table, readable: nat) {
    IsPart(current, table) && |current| == if readable < |table| then readable else |table|
  }

  /** The table once the scanned paths in `visited` are written, compared with the rows read. */
  ghost function Written(table: Table, current: Table, scanned: map<string, Attrs>, visited: set<string>, stamp: Stamp)
    : Table
    requires visited <= scanned.Keys && IsPart(current, table)
  {
    map path | path in table.Keys + visited ::
      if path in visited && Stored(current, path) != Some(scanned[path]) then Row(scanned[path], stamp) else table[path]
  }

  /** The table after a run that read `current`. */
  ghost function OutcomeFrom(table: Table, current: Table, request: Request): Table
    requires IsPart(current, table)
  {
    var scanned := Scanned(request.entries);
    Written(table, current, scanned, scanned.Keys, request.stamp) - Gone(current, request)
  }

  /** The table after a run that read all of it. */
  ghost function Outcome(table: Table, request: Request): Table {
    OutcomeFrom(table, table, request)
  }

  /** The audit rows for one scanned path. */
  function ChangeRow(table: Table, path: string, attrs: Attrs, stamp: Stamp): seq<Audit> {
    var stored := Stored(table, path);
    if stored == Some(attrs) then []
    else [Audit(stamp, path, if stored.None? then Added else Modified, stored, Some(attrs))]
  }

  ghost function ChangeRows(table: Table, scanned: map<string, Attrs>, todo: set<string>, stamp: Stamp): seq<Audit>
    requires todo <= scanned.Keys
    decreases |todo|
  {
    if todo == {} then []
    else
      var path := Least(todo);
      ChangeRow(table, path, scanned[path], stamp) + ChangeRows(table, scanned, todo - {path}, stamp)
  }

  /** The audit rows for the stored paths in `todo`, of which those in `gone` are removed. */
  ghost function RemovalRows(table: Table, gone: set<string>, todo: set<string>, stamp: Stamp): seq<Audit>
    requires todo <= table.Keys
    decreases |todo|
  {
    if todo == {} then []
    else
      var path := Least(todo);
      (if path in gone then [Audit(stamp, path, Removed, Some(table[path].attrs), None)] else [])
      + RemovalRows(table, gone, todo - {path}, stamp)
  }

  ghost function AuditRows(table: Table, request: Request): seq<Audit> {
    var scanned := Scanned(request.entries);
    ChangeRows(table, scanned, scanned.Keys, request.stamp)
    + RemovalRows(table, Gone(table, request), table.Keys, request.stamp)
  }

  // ----- counting -----

  function AddedPaths(table: Table, scanned: map<string, Attrs>): set<string> {
    scanned.Keys - table.Keys
  }

  function UnchangedPaths(table: Table, scanned: map<string, Attrs>): set<string> {
    set path | path in scanned && Stored(table, path) == Some(scanned[path])
  }

  function ModifiedPaths(table: Table, scanned: map<string, Attrs>): set<string> {
    scanned.Keys * table.Keys - UnchangedPaths(table, scanned)
  }

  /** The counters after the loops of a run; `scanned` is not yet set. */
  function Counted(start: Stats, table: Table, request: Request): Stats {
    var scanned := Scanned(request.entries);
    start.(added := start.added + |AddedPaths(table, scanned)|,
           modified := start.modified + |ModifiedPaths(table, scanned)|,
           same := start.same + |UnchangedPaths(table, scanned)|,
           removed := start.removed + |Gone(table, request)|)
  }

  /** SQL statements a run executes when none fails: eight of its own, two for each audit row. */
  ghost function StatementCount(table: Table, request: Request): nat {
    8 + 2 * |AuditRows(table, request)|
  }
}
