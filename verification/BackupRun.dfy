/** The backup loop on one Cassandra host: snapshot a keyspace, find its directories by name, archive
    them, clear the snapshot, go on to the next keyspace. */
module BackupRun {
  import opened Text
  import opened Walk
  import opened ArchiveNames
  import opened HostFiles

  /** tables is empty when the whole keyspace is asked for. */
  datatype Request = Request(keyspace: string, tables: seq<string>)

  /** Table directories by keyspace. */
  type Layout = map<string, set<string>>

  function SnapshotPath(keyspace: string, table: string, tag: string): Path {
    [keyspace, table, "snapshots", tag]
  }

  /** A table directory is the table's name, a dash and an identifier. */
  function TableOf(dir: string): string {
    Split(dir, '-')[0]
  }

  function SnapshotsOf(layout: Layout, keyspace: string, table: Option<string>, tag: string): set<Path> {
    if keyspace !in layout then {}
    else
      set t | t in layout[keyspace] && (table.None? || TableOf(t) == table.value) :: SnapshotPath(keyspace, t, tag)
  }

  // ---------- The host ----------

  /** What the script does to its host, in the order it does it. */
  datatype Op =
    | Snapshot(tag: string, keyspace: string, table: Option<string>)
    | MakeDir(path: Path)
    | ListTables(listed: string)
    | SaveRoles(keyspace: string, dir: Path)
    | SaveSchema(keyspace: string, dir: Path)
    | WriteArchive(name: string, dirs: seq<Path>)
    | Clear(tag: string)
    | WriteMetadata(entries: seq<Metadata>)

  /** The directories of a host as far as they can carry a snapshot's name. works says which of the operations
      on the host succeed, and listing what an operation that lists a directory sees. */
  class Disk {
    var dirs: set<Path>
    /** Every operation so far, the failed ones included. */
    var log: seq<Op>
    const layout: Layout
    const works: nat -> bool
    const listing: nat -> seq<string>

    constructor (dirs: set<Path>, layout: Layout, works: nat -> bool, listing: nat -> seq<string>)
      ensures this.dirs == dirs && this.layout == layout && this.works == works && this.listing == listing
      ensures log == []
    {
      this.dirs, this.layout, this.works, this.listing := dirs, layout, works, listing;
      log := [];
    }

    method ExecuteSnapshot(tag: string, keyspace: string, table: Option<string>) returns (ok: bool)
      modifies this
      ensures ok == works(|old(log)|) && log == old(log) + [Snapshot(tag, keyspace, table)]
      ensures dirs == old(dirs) + if ok then SnapshotsOf(layout, keyspace, table, tag) else {}
    {
      ok := works(|log|);
      log := log + [Snapshot(tag, keyspace, table)];
      if ok {
        dirs := dirs + SnapshotsOf(layout, keyspace, table, tag);
      }
    }

    method DeleteSnapshot(tag: string) returns (ok: bool)
      modifies this
      ensures ok == works(|old(log)|) && log == old(log) + [Clear(tag)]
      ensures dirs == if ok then Cleared(old(dirs), tag) else old(dirs)
    {
      ok := works(|log|);
      log := log + [Clear(tag)];
      if ok {
        dirs := Cleared(dirs, tag);
      }
    }

    /** Refuses a directory that exists. */
    method MakeDirs(keyspace: string, name: string) returns (ok: bool)
      modifies this
      ensures ok <==> works(|old(log)|) && [keyspace, name] !in old(dirs)
      ensures dirs == old(dirs) + (if ok then {[keyspace], [keyspace, name]} else {})
      ensures log == old(log) + [MakeDir([keyspace, name])]
    {
      ok := works(|log|) && [keyspace, name] !in dirs;
      log := log + [MakeDir([keyspace, name])];
      if ok {
        dirs := dirs + {[keyspace], [keyspace, name]};
      }
    }

    method ListDir(dir: string) returns (ok: bool, names: seq<string>)
      modifies this`log
      ensures ok == works(|old(log)|) && names == listing(|old(log)|) && log == old(log) + [ListTables(dir)]
    {
      ok, names := works(|log|), listing(|log|);
      log := log + [ListTables(dir)];
    }

    /** An operation that leaves the directories alone: saving roles or schema, writing archive or metadata. */
    method Write(op: Op) returns (ok: bool)
      modifies this`log
      ensures ok == works(|old(log)|) && log == old(log) + [op]
    {
      ok := works(|log|);
      log := log + [op];
    }
  }

  function Cleared(dirs: set<Path>, tag: string): set<Path> {
    set p | p in dirs && !(|p| == 4 && p[2] == "snapshots" && p[3] == tag)
  }

  method FindSnapshotDirs(disk: Disk, snapshotName: string) returns (found: seq<Path>)
    requires GoodPaths(disk.dirs)
    ensures forall p :: p in found <==> Shown(disk.dirs, p) && |p| <= 4 && Occurs(snapshotName, Rendered(p))
  {
    found := SearchWalk(disk.dirs, snapshotName);
  }

  // ---------- What each archive holds ----------

  /** The snapshot directories a request makes. */
  function Snaps(layout: Layout, request: Request, timestamp: Timestamp): set<Path> {
    if request.keyspace !in layout then {}
    else
      set t | t in layout[request.keyspace] && (request.tables == [] || TableOf(t) in request.tables) ::
        SnapshotPath(request.keyspace, t, BackupName(request.keyspace, timestamp))
  }

  function Stub(keyspace: string, timestamp: Timestamp): Path {
    [keyspace, BackupName(keyspace, timestamp)]
  }

  /** The keyspaces, among those whose stub is on disk, whose stub carries the name of this keyspace's backup. */
  function Mistaken(made: set<string>, keyspace: string): set<string> {
    set k | k in made && EndsWith(k, keyspace)
  }

  /** The keyspaces for which the first n requests found nothing and made a stub directory. */
  function Made(layout: Layout, requests: seq<Request>, timestamp: Timestamp, n: nat): set<string>
    requires n <= |requests|
  {
    if n == 0 then {}
    else
      var made, r := Made(layout, requests, timestamp, n - 1), requests[n - 1];
      made + if Snaps(layout, r, timestamp) == {} && Mistaken(made, r.keyspace) == {} then {r.keyspace} else {}
  }

  function Stubs(made: set<string>, timestamp: Timestamp): set<Path> {
    set k | k in made :: Stub(k, timestamp)
  }

  function Parents(made: set<string>): set<Path> {
    set k | k in made :: [k]
  }

  function Found(layout: Layout, requests: seq<Request>, timestamp: Timestamp, n: nat): set<Path>
    requires n < |requests|
  {
    Snaps(layout, requests[n], timestamp) +
    Stubs(Mistaken(Made(layout, requests, timestamp, n), requests[n].keyspace), timestamp)
  }

  /** What the n-th archive holds. */
  function Archived(layout: Layout, requests: seq<Request>, timestamp: Timestamp, n: nat): set<Path>
    requires n < |requests|
  {
    if Found(layout, requests, timestamp, n) == {} then {Stub(requests[n].keyspace, timestamp)}
    else Found(layout, requests, timestamp, n)
  }

  /** What it should hold. */
  function Own(layout: Layout, request: Request, timestamp: Timestamp): set<Path> {
    if Snaps(layout, request, timestamp) == {} then {Stub(request.keyspace, timestamp)}
    else Snaps(layout, request, timestamp)
  }

  /** Cassandra's rule for keyspace names allows neither sign. */
  predicate Plain(keyspace: string) {
    Free(keyspace, '-') && Free(keyspace, '/')
  }

  /** The timestamp of this run is new to the disk. */
  ghost predicate Clean(dirs: set<Path>, timestamp: Timestamp) {
    forall p :: p in dirs ==> !Occurs("-" + timestamp, Rendered(p))
  }

  /** A host before a run: its paths are paths, its tables have directories, and the timestamp is new to it. */
  ghost predicate Ready(dirs: set<Path>, layout: Layout, timestamp: Timestamp) {
    && GoodPaths(dirs) && Clean(dirs, timestamp)
    && forall k, t :: k in layout && t in layout[k] ==> [k, t] in dirs
  }

  ghost predicate GoodRequests(requests: seq<Request>) {
    forall i :: 0 <= i < |requests| ==> requests[i].keyspace != "" && Plain(requests[i].keyspace)
  }

  // ---------- Which directories carry a backup's name ----------

  lemma PlainParts(timestamp: Timestamp)
    ensures Free(DataDir, '-') && Free(timestamp, '-') && Free("snapshots", '-')
  {
  }

  lemma RenderNothing(root: string)
    ensures Render(root, []) == root
  {
  }

  lemma RenderStep(root: string, name: string, rest: Path)
    ensures Render(root, [name] + rest) == Render(JoinPath(root, name), rest)
  {
  }

  lemma RenderedFour(p: Path)
    requires |p| == 4
    ensures EndsWith(Rendered(p), p[3])
  {
    hide Render, JoinPath;
    assert p == [p[0]] + ([p[1]] + ([p[2]] + ([p[3]] + [])));
    RenderStep(DataDir, p[0], [p[1]] + ([p[2]] + ([p[3]] + [])));
    var one := JoinPath(DataDir, p[0]);
    RenderStep(one, p[1], [p[2]] + ([p[3]] + []));
    var two := JoinPath(one, p[1]);
    RenderStep(two, p[2], [p[3]] + []);
    var three := JoinPath(two, p[2]);
    RenderStep(three, p[3], []);
    RenderNothing(JoinPath(three, p[3]));
    JoinEnds(three, p[3]);
  }

  lemma JoinEnds(root: string, name: string)
    ensures EndsWith(JoinPath(root, name), name)
  {
  }

  lemma EndsIsIn(s: string, suffix: string)
    requires EndsWith(s, suffix)
    ensures Occurs(suffix, s)
  {
    assert OccursAt(suffix, s, |s| - |suffix|);
  }

  lemma RenderedStub(k: string, timestamp: Timestamp)
    requires k != "" && Plain(k)
    ensures Rendered(Stub(k, timestamp)) == (DataDir + ['/'] + k + ['/'] + k) + ['-'] + timestamp
    ensures Rendered([k]) == DataDir + ['/'] + k
  {
    hide Render;
    var tag := BackupName(k, timestamp);
    var one := DataDir + ['/'] + k;
    assert !EndsInSep(one) && JoinPath(DataDir, k) == one;
    RenderStep(DataDir, k, []);
    RenderNothing(one);
    assert [k] + [] == [k];
    RenderStep(DataDir, k, [tag]);
    RenderStep(one, tag, []);
    RenderNothing(JoinPath(one, tag));
    assert [tag] + [] == [tag] && Stub(k, timestamp) == [k] + [tag];
  }

  /** A stub carries the name of another keyspace's backup exactly when its name ends in that keyspace's. */
  lemma StubMatches(k: string, keyspace: string, timestamp: Timestamp)
    requires k != "" && Plain(k) && Plain(keyspace)
    ensures Occurs(BackupName(keyspace, timestamp), Rendered(Stub(k, timestamp))) <==> EndsWith(k, keyspace)
    ensures !Occurs(BackupName(keyspace, timestamp), Rendered([k]))
  {
    hide Occurs, EndsWith, Rendered;
    PlainParts(timestamp);
    RenderedStub(k, timestamp);
    var before := DataDir + ['/'] + k + ['/'] + k;
    assert BackupName(keyspace, timestamp) == keyspace + ['-'] + timestamp;
    OccursAroundDash(before, timestamp, keyspace);
    EndsWithComponent(DataDir + ['/'] + k, k, keyspace);
    DashNeeded(keyspace, timestamp, DataDir + ['/'] + k);
  }

  lemma DashNeeded(keyspace: string, timestamp: Timestamp, hay: string)
    requires Free(hay, '-')
    ensures !Occurs(BackupName(keyspace, timestamp), hay)
  {
    var needle := BackupName(keyspace, timestamp);
    assert needle[|keyspace|] == '-';
    forall i | 0 <= i <= |hay|
      ensures !OccursAt(needle, hay, i)
    {
      if i + |needle| <= |hay| {
        assert hay[i..i + |needle|][|keyspace|] == hay[i + |keyspace|];
      }
    }
  }

  lemma SnapshotMatches(keyspace: string, table: string, timestamp: Timestamp)
    ensures var tag := BackupName(keyspace, timestamp); Occurs(tag, Rendered(SnapshotPath(keyspace, table, tag)))
  {
    var p := SnapshotPath(keyspace, table, BackupName(keyspace, timestamp));
    RenderedFour(p);
    EndsIsIn(Rendered(p), p[3]);
  }

  /** What the directory shown at p owes its name to: nothing above a snapshot or stub carries one. */
  lemma NamedShown(start: set<Path>, layout: Layout, request: Request, made: set<string>, keyspace: string,
                   timestamp: Timestamp, p: Path)
    requires Ready(start, layout, timestamp) && Plain(keyspace)
    requires forall k :: k in made ==> k != "" && Plain(k)
    requires Shown(start + Stubs(made, timestamp) + Parents(made) + Snaps(layout, request, timestamp), p)
    requires Occurs(BackupName(keyspace, timestamp), Rendered(p))
    ensures p in Stubs(made, timestamp) + Snaps(layout, request, timestamp)
  {
    hide Occurs, Rendered, Plain, BackupName;
    NameHoldsStamp(keyspace, timestamp, Rendered(p));
    if p == [] {
      RenderedNothing();
      PlainParts(timestamp);
      DashNeeded(keyspace, timestamp, DataDir);
    } else {
      var q :| q in start + Stubs(made, timestamp) + Parents(made) + Snaps(layout, request, timestamp) && p <= q;
      if q in start {
        NotAboveClean(start, timestamp, p, q);
      } else if q in Snaps(layout, request, timestamp) {
        NotAboveSnapshot(start, layout, timestamp, p, q);
      } else {
        var k :| k in made && (q == Stub(k, timestamp) || q == [k]);
        StubMatches(k, keyspace, timestamp);
        assert p == [k] || p == q;
      }
    }
  }

  lemma RenderedNothing()
    ensures Rendered([]) == DataDir
  {
  }

  lemma NameHoldsStamp(keyspace: string, timestamp: Timestamp, hay: string)
    requires Occurs(BackupName(keyspace, timestamp), hay)
    ensures Occurs("-" + timestamp, hay)
  {
    assert BackupName(keyspace, timestamp) == keyspace + ("-" + timestamp);
    OccursPart(keyspace, "-" + timestamp, hay);
  }

  lemma NotAboveClean(start: set<Path>, timestamp: Timestamp, p: Path, q: Path)
    requires Clean(start, timestamp) && q in start && p <= q
    ensures !Occurs("-" + timestamp, Rendered(p))
  {
    hide Occurs, Rendered;
    ShorterIsPrefix(p, q);
    if Occurs("-" + timestamp, Rendered(p)) {
      OccursInLonger("-" + timestamp, Rendered(p), Rendered(q));
    }
  }

  /** Above a snapshot are the directory "snapshots" and those of a table that was there before. */
  lemma NotAboveSnapshot(start: set<Path>, layout: Layout, timestamp: Timestamp, p: Path, q: Path)
    requires Ready(start, layout, timestamp) && p <= q && |q| == 4 && q[2] == "snapshots"
    requires q[0] in layout && q[1] in layout[q[0]]
    requires Occurs("-" + timestamp, Rendered(p))
    ensures p == q
  {
    hide Occurs, Rendered;
    var table := [q[0], q[1]];
    assert table in start;
    if |p| <= 2 {
      assert p <= table;
      NotAboveClean(start, timestamp, p, table);
    } else if |p| == 3 {
      assert p == table + ["snapshots"];
      NotAboveClean(start, timestamp, table, table);
      OneDeeper(table, "snapshots");
      PlainParts(timestamp);
      OccursAcross("-" + timestamp, Rendered(table), "snapshots", '/');
      NoDashNoStamp(timestamp, "snapshots");
    }
  }

  lemma OneDeeper(p: Path, name: string)
    requires GoodPath(p)
    ensures Rendered(p + [name]) == Rendered(p) + ['/'] + name
  {
    RenderGrows(DataDir, p, [name]);
    assert [name][1..] == [];
    if p != [] {
      RenderJoins(DataDir, p);
      RenderedEnds(p);
    }
  }

  lemma RenderedEnds(p: Path)
    requires GoodPath(p)
    ensures Rendered(p) != "" && !EndsInSep(Rendered(p))
  {
    if p != [] {
      var init, last := p[..|p| - 1], p[|p| - 1];
      assert GoodName(last) && init + [last] == p;
      RenderGrows(DataDir, init, [last]);
      var one := [last];
      assert one[1..] == [];
      var s := Rendered(p);
      assert s == JoinPath(Rendered(init), last);
      assert s[|s| - 1] == last[|last| - 1];
    }
  }

  lemma NoDashNoStamp(timestamp: Timestamp, hay: string)
    requires Free(hay, '-')
    ensures !Occurs("-" + timestamp, hay)
  {
    var needle := "-" + timestamp;
    forall i | 0 <= i <= |hay|
      ensures !OccursAt(needle, hay, i)
    {
      if i + |needle| <= |hay| {
        assert hay[i..i + |needle|][0] == hay[i] && needle[0] == '-';
      }
    }
  }

  /** What the search finds while the n-th request is served, after its snapshot. */
  lemma FoundExactly(start: set<Path>, layout: Layout, requests: seq<Request>, timestamp: Timestamp, n: nat,
                     dirs: set<Path>, p: Path)
    requires n < |requests| && Ready(start, layout, timestamp) && GoodRequests(requests)
    requires var made := Made(layout, requests, timestamp, n);
             dirs == start + Stubs(made, timestamp) + Parents(made) + Snaps(layout, requests[n], timestamp)
    ensures Shown(dirs, p) && |p| <= 4 && Occurs(BackupName(requests[n].keyspace, timestamp), Rendered(p)) <==>
            p in Found(layout, requests, timestamp, n)
  {
    hide Occurs, Rendered, EndsWith, Plain, Shown, Ready, Made, BackupName;
    var made, keyspace := Made(layout, requests, timestamp, n), requests[n].keyspace;
    MadeAreRequested(layout, requests, timestamp, n);
    if Shown(dirs, p) && Occurs(BackupName(keyspace, timestamp), Rendered(p)) {
      NamedShown(start, layout, requests[n], made, keyspace, timestamp, p);
      if k :| k in made && p == Stub(k, timestamp) {
        StubMatches(k, keyspace, timestamp);
      }
    }
    if p in Found(layout, requests, timestamp, n) {
      ThereIsShown(dirs, p);
      if p in Snaps(layout, requests[n], timestamp) {
        SnapshotMatches(keyspace, p[1], timestamp);
      } else {
        var k :| k in made && EndsWith(k, keyspace) && p == Stub(k, timestamp);
        StubMatches(k, keyspace, timestamp);
      }
    }
  }

  lemma ThereIsShown(dirs: set<Path>, p: Path)
    ensures p in dirs ==> Shown(dirs, p)
  {
  }

  /** All directories of a run are paths. */
  lemma AllGood(start: set<Path>, layout: Layout, request: Request, made: set<string>, timestamp: Timestamp)
    requires Ready(start, layout, timestamp) && Plain(request.keyspace)
    requires forall k :: k in made ==> k != "" && Plain(k)
    ensures GoodPaths(start + Stubs(made, timestamp) + Parents(made) + Snaps(layout, request, timestamp))
  {
    hide Occurs, Rendered;
    forall k | Plain(k)
      ensures GoodName(BackupName(k, timestamp))
    {
    }
    forall p | p in Snaps(layout, request, timestamp)
      ensures GoodPath(p)
    {
      var table := [p[0], p[1]];
      assert table in start && GoodName(table[0]) && GoodName(table[1]);
      assert GoodName("snapshots");
    }
  }

  lemma {:induction false} MadeAreRequested(layout: Layout, requests: seq<Request>, timestamp: Timestamp, n: nat)
    requires n <= |requests|
    ensures forall k :: k in Made(layout, requests, timestamp, n) ==>
              exists i :: 0 <= i < n && requests[i].keyspace == k && Snaps(layout, requests[i], timestamp) == {}
  {
    if n > 0 {
      MadeAreRequested(layout, requests, timestamp, n - 1);
    }
  }

  // ---------- The loop ----------

  datatype Archive = Archive(name: string, dirs: seq<Path>)

  datatype Metadata = Metadata(keyspace: string, allTables: bool, tables: seq<string>)

  /** Of a whole keyspace the entry names what is in a listed directory, cut at the first dash. */
  function EntryFor(request: Request, listed: seq<string>): Metadata {
    if request.tables == [] then
      Metadata(request.keyspace, true, seq(|listed|, i requires 0 <= i < |listed| => TableOf(listed[i])))
    else Metadata(request.keyspace, false, request.tables)
  }

  /** Three levels above the first directory of the archive. */
  function ListedDir(p: Path): string {
    DirName(DirName(DirName(Rendered(p))))
  }

  function ListOps(request: Request, dirs: seq<Path>): seq<Op>
    requires dirs != []
  {
    if request.tables == [] then [ListTables(ListedDir(dirs[0]))] else []
  }

  /** For a snapshot the entry lists the tables of its keyspace; for a stub, what lies beside the data directory. */
  lemma ListedDirIs(keyspace: string, table: string, timestamp: Timestamp)
    requires GoodName(keyspace) && GoodName(table) && Plain(keyspace)
    ensures ListedDir(SnapshotPath(keyspace, table, BackupName(keyspace, timestamp))) == Rendered([keyspace])
    ensures ListedDir(Stub(keyspace, timestamp)) == "/var/lib/cassandra"
  {
    hide Rendered, DirName, BackupName;
    var tag := BackupName(keyspace, timestamp);
    TagIsGood(keyspace, timestamp);
    DirNameUp([keyspace], table);
    DirNameUp([keyspace, table], "snapshots");
    DirNameUp([keyspace, table, "snapshots"], tag);
    assert [keyspace] + [table] == [keyspace, table];
    assert [keyspace, table] + ["snapshots"] == [keyspace, table, "snapshots"];
    assert [keyspace, table, "snapshots"] + [tag] == SnapshotPath(keyspace, table, tag);
    DirNameUp([], keyspace);
    DirNameUp([keyspace], tag);
    assert [] + [keyspace] == [keyspace] && [keyspace] + [tag] == Stub(keyspace, timestamp);
    RenderedNothing();
    DirNameJoin("/var/lib/cassandra", "data");
    assert DataDir == "/var/lib/cassandra" + ['/'] + "data";
  }

  lemma TagIsGood(keyspace: string, timestamp: Timestamp)
    requires Plain(keyspace)
    ensures GoodName(BackupName(keyspace, timestamp))
  {
  }

  lemma DirNameUp(p: Path, name: string)
    requires GoodPath(p) && GoodName(name)
    ensures DirName(Rendered(p + [name])) == Rendered(p)
  {
    hide Rendered, DirName;
    OneDeeper(p, name);
    RenderedEnds(p);
    DirNameJoin(Rendered(p), name);
  }

  /** How one keyspace ends. Exited: saving failed, the snapshot was cleared, and the script exits.
      Crashed: an exception that nothing catches. */
  datatype Ending = Finished | Exited | Crashed

  ghost predicate Holds(archive: Archive, name: string, dirs: set<Path>) {
    archive.name == name && forall p :: p in archive.dirs <==> p in dirs
  }

  function SnapshotOps(request: Request, timestamp: Timestamp): seq<Op> {
    var tag := BackupName(request.keyspace, timestamp);
    if request.tables == [] then [Snapshot(tag, request.keyspace, None)]
    else seq(|request.tables|, i requires 0 <= i < |request.tables| =>
               Snapshot(tag, request.keyspace, Some(request.tables[i])))
  }

  function StubOps(layout: Layout, requests: seq<Request>, timestamp: Timestamp, n: nat): seq<Op>
    requires n < |requests|
  {
    if Found(layout, requests, timestamp, n) == {} then [MakeDir(Stub(requests[n].keyspace, timestamp))] else []
  }

  function SaveOps(keyspace: string, timestamp: Timestamp, dirs: seq<Path>): seq<Op>
    requires dirs != []
  {
    [SaveRoles(keyspace, dirs[0]), SaveSchema(keyspace, dirs[0]), WriteArchive(ArchiveName(keyspace, timestamp), dirs)]
  }

  /** All operations for one keyspace whose archive holds some directories. */
  function TurnOps(layout: Layout, requests: seq<Request>, timestamp: Timestamp, n: nat, dirs: seq<Path>): seq<Op>
    requires n < |requests|
  {
    SnapshotOps(requests[n], timestamp) + StubOps(layout, requests, timestamp, n) +
    (if dirs == [] then [] else ListOps(requests[n], dirs) + SaveOps(requests[n].keyspace, timestamp, dirs)) +
    [Clear(BackupName(requests[n].keyspace, timestamp))]
  }

  /** Every operation logged from one position up to another succeeded. */
  ghost predicate Succeeded(works: nat -> bool, from: nat, to: nat) {
    forall t :: from <= t < to ==> works(t)
  }

  /** The snapshots of a request. A failed one is an exception. */
  method TakeSnapshots(disk: Disk, request: Request, timestamp: Timestamp) returns (ok: bool)
    modifies disk
    ensures ok ==> disk.dirs == old(disk.dirs) + Snaps(disk.layout, request, timestamp)
    ensures ok ==> disk.log == old(disk.log) + SnapshotOps(request, timestamp)
    ensures ok ==> Succeeded(disk.works, |old(disk.log)|, |disk.log|)
    ensures !ok ==> old(disk.log) < disk.log <= old(disk.log) + SnapshotOps(request, timestamp) &&
                    !disk.works(|disk.log| - 1)
  {
    hide BackupName, TableOf;
    var tag := BackupName(request.keyspace, timestamp);
    if |request.tables| == 0 {
      ok := disk.ExecuteSnapshot(tag, request.keyspace, None);
      assert SnapshotsOf(disk.layout, request.keyspace, None, tag) == Snaps(disk.layout, request, timestamp);
      return;
    }
    ghost var log, ops := disk.log, SnapshotOps(request, timestamp);
    for i := 0 to |request.tables|
      invariant i > 0 ==>
        disk.dirs == old(disk.dirs) + Snaps(disk.layout, request.(tables := request.tables[..i]), timestamp)
      invariant i == 0 ==> disk.dirs == old(disk.dirs)
      invariant disk.log == log + ops[..i] && Succeeded(disk.works, |log|, |disk.log|)
    {
      ok := disk.ExecuteSnapshot(tag, request.keyspace, Some(request.tables[i]));
      assert disk.log == log + ops[..i + 1];
      if !ok {
        return;
      }
      assert request.tables[..i + 1] == request.tables[..i] + [request.tables[i]];
    }
    assert request.tables[..|request.tables|] == request.tables;
    ok := true;
  }

  lemma ClearingSnapshots(start: set<Path>, made: set<string>, layout: Layout, request: Request, timestamp: Timestamp)
    requires Clean(start, timestamp)
    ensures var rest := start + Stubs(made, timestamp) + Parents(made);
            Cleared(rest + Snaps(layout, request, timestamp), BackupName(request.keyspace, timestamp)) == rest
  {
    hide Occurs, Rendered;
    var tag := BackupName(request.keyspace, timestamp);
    forall p | p in start && |p| == 4 && p[2] == "snapshots" && p[3] == tag
      ensures false
    {
      TaggedIsDirty(p, request.keyspace, timestamp);
    }
  }

  lemma TaggedIsDirty(p: Path, keyspace: string, timestamp: Timestamp)
    requires |p| == 4 && p[3] == BackupName(keyspace, timestamp)
    ensures Occurs("-" + timestamp, Rendered(p))
  {
    hide Rendered;
    RenderedFour(p);
    EndsIsIn(Rendered(p), p[3]);
    assert p[3] == keyspace + ("-" + timestamp);
    OccursPart(keyspace, "-" + timestamp, Rendered(p));
  }

  /** The directories to archive: those found, or a new stub when nothing is. */
  method SearchOrStub(disk: Disk, ghost start: set<Path>, requests: seq<Request>, timestamp: Timestamp, n: nat)
    returns (ok: bool, dirs: seq<Path>)
    requires n < |requests| && Ready(start, disk.layout, timestamp)
    requires GoodRequests(requests)
    requires var made := Made(disk.layout, requests, timestamp, n);
             disk.dirs == start + Stubs(made, timestamp) + Parents(made) + Snaps(disk.layout, requests[n], timestamp)
    modifies disk
    ensures ok ==> forall p :: p in dirs <==> p in Archived(disk.layout, requests, timestamp, n)
    ensures ok ==> var made := Made(disk.layout, requests, timestamp, n + 1);
                   disk.dirs ==
                   start + Stubs(made, timestamp) + Parents(made) + Snaps(disk.layout, requests[n], timestamp)
    ensures disk.log == old(disk.log) + StubOps(disk.layout, requests, timestamp, n)
    ensures ok ==> dirs != [] && Succeeded(disk.works, |old(disk.log)|, |disk.log|)
    ensures !ok ==> Found(disk.layout, requests, timestamp, n) == {} &&
                    (!disk.works(|old(disk.log)|) || Stub(requests[n].keyspace, timestamp) in old(disk.dirs))
  {
    hide Occurs, Rendered, Plain, Ready, BackupName, Made, Found, Stubs, Parents, Snaps, Shown, GoodPaths;
    var keyspace := requests[n].keyspace;
    var backupName := BackupName(keyspace, timestamp);
    ghost var searched := disk.dirs;
    MadeAreRequested(disk.layout, requests, timestamp, n);
    AllGood(start, disk.layout, requests[n], Made(disk.layout, requests, timestamp, n), timestamp);
    dirs := FindSnapshotDirs(disk, backupName);
    forall p
      ensures p in dirs <==> p in Found(disk.layout, requests, timestamp, n)
    {
      FoundExactly(start, disk.layout, requests, timestamp, n, searched, p);
    }
    NothingFound(dirs, Found(disk.layout, requests, timestamp, n));
    MadeStep(disk.layout, requests, timestamp, n);
    ok := true;
    if |dirs| == 0 {
      ok := disk.MakeDirs(keyspace, backupName);
      dirs := [[keyspace, backupName]];
    }
  }

  /** A request that finds nothing adds its stub and the directory above it. */
  lemma MadeStep(layout: Layout, requests: seq<Request>, timestamp: Timestamp, n: nat)
    requires n < |requests|
    ensures var before, after := Made(layout, requests, timestamp, n), Made(layout, requests, timestamp, n + 1);
            var k := requests[n].keyspace;
            if Found(layout, requests, timestamp, n) == {}
            then Stubs(after, timestamp) == Stubs(before, timestamp) + {Stub(k, timestamp)} &&
                 Parents(after) == Parents(before) + {[k]}
            else after == before
  {
    hide Snaps, EndsWith;
    var made, k := Made(layout, requests, timestamp, n), requests[n].keyspace;
    StubsGrow(made, k, timestamp);
    var wrong := Mistaken(made, k);
    if wrong == {} {
      NoStubs(timestamp);
    } else {
      var w :| w in wrong;
      assert Stub(w, timestamp) in Stubs(wrong, timestamp);
    }
  }

  /** The first m of the three savings were tried, the last of them with or without success, and then the
      snapshot was cleared. */
  ghost predicate SavedUpTo(works: nat -> bool, before: seq<Op>, keyspace: string, timestamp: Timestamp,
                            dirs: seq<Path>, m: int, log: seq<Op>, end: Ending)
    requires dirs != []
  {
    && 1 <= m <= 3
    && log == before + SaveOps(keyspace, timestamp, dirs)[..m] + [Clear(BackupName(keyspace, timestamp))]
    && (forall i :: |before| <= i < |before| + m - 1 ==> works(i))
    && (m < 3 ==> !works(|before| + m - 1))
    && end == if !works(|log| - 1) then Crashed else if works(|before| + m - 1) then Finished else Exited
  }

  lemma SavedOrBroken(works: nat -> bool, start: seq<Op>, before: seq<Op>, keyspace: string, timestamp: Timestamp,
                      dirs: seq<Path>, log: seq<Op>, end: Ending, repeated: bool)
    requires dirs != [] && start <= before
    requires exists m :: SavedUpTo(works, before, keyspace, timestamp, dirs, m, log, end)
    ensures start <= log
    ensures end.Finished? ==>
              log == before + SaveOps(keyspace, timestamp, dirs) + [Clear(BackupName(keyspace, timestamp))] &&
              Succeeded(works, |before|, |log|)
    ensures !end.Finished? ==> Broken(works, |start|, log, repeated)
  {
    hide BackupName, ArchiveName;
    var m :| SavedUpTo(works, before, keyspace, timestamp, dirs, m, log, end);
    assert log[|log| - 1].Clear?;
    if m == 3 {
      assert SaveOps(keyspace, timestamp, dirs)[..m] == SaveOps(keyspace, timestamp, dirs);
    }
  }

  /** Roles, schema and archive, and then the snapshot is cleared whether or not all was saved. */
  method SaveAndClear(disk: Disk, keyspace: string, timestamp: Timestamp, dirs: seq<Path>) returns (end: Ending)
    requires dirs != []
    modifies disk
    ensures exists m :: SavedUpTo(disk.works, old(disk.log), keyspace, timestamp, dirs, m, disk.log, end)
    ensures disk.dirs == if end.Crashed? then old(disk.dirs)
                         else Cleared(old(disk.dirs), BackupName(keyspace, timestamp))
  {
    hide ArchiveName, BackupName, Cleared;
    ghost var log, saves, m := disk.log, SaveOps(keyspace, timestamp, dirs), 1;
    var saved := disk.Write(SaveRoles(keyspace, dirs[0]));
    assert disk.log == log + saves[..1];
    if saved {
      saved := disk.Write(SaveSchema(keyspace, dirs[0]));
      m := 2;
      assert disk.log == log + saves[..2];
      if saved {
        saved := disk.Write(WriteArchive(ArchiveName(keyspace, timestamp), dirs));
        m := 3;
        assert disk.log == log + saves[..3];
      }
    }
    var cleared := disk.DeleteSnapshot(BackupName(keyspace, timestamp));
    end := if !cleared then Crashed else if saved then Finished else Exited;
    assert disk.log == log + saves[..m] + [Clear(BackupName(keyspace, timestamp))];
    assert SavedUpTo(disk.works, log, keyspace, timestamp, dirs, m, disk.log, end);
  }

  /** A failure has a cause, and no failure to save is left without an attempt to clear the snapshot.
      repeated says that the stub to make may be on disk already. */
  ghost predicate Broken(works: nat -> bool, before: nat, log: seq<Op>, repeated: bool) {
    && before < |log|
    && var last := log[|log| - 1];
       && (last.Snapshot? || last.MakeDir? || last.ListTables? || last.Clear? || last.WriteMetadata?)
       && (|| !works(|log| - 1)
           || (last.Clear? && before < |log| - 1 && !works(|log| - 2))
           || (last.MakeDir? && repeated))
  }

  /** Where among the operations for one keyspace its directory is listed. */
  function ListAt(layout: Layout, requests: seq<Request>, timestamp: Timestamp, n: nat): nat
    requires n < |requests|
  {
    |SnapshotOps(requests[n], timestamp)| + |StubOps(layout, requests, timestamp, n)|
  }

  /** The metadata entry, taken from the first directory of the archive. */
  method PrepareMetadata(disk: Disk, request: Request, dirs: seq<Path>) returns (ok: bool, metadata: Metadata)
    requires dirs != []
    modifies disk`log
    ensures metadata == EntryFor(request, disk.listing(|old(disk.log)|))
    ensures disk.log == old(disk.log) + ListOps(request, dirs)
    ensures ok <==> request.tables != [] || disk.works(|old(disk.log)|)
    ensures ok ==> Succeeded(disk.works, |old(disk.log)|, |disk.log|)
  {
    hide TableOf, Rendered, DirName;
    if |request.tables| > 0 {
      return true, Metadata(request.keyspace, false, request.tables);
    }
    var names;
    ok, names := disk.ListDir(ListedDir(dirs[0]));
    var tables := [];
    for i := 0 to |names|
      invariant tables == seq(i, j requires 0 <= j < i => TableOf(names[j]))
    {
      tables := tables + [TableOf(names[i])];
    }
    metadata := Metadata(request.keyspace, true, tables);
  }

  /** One turn of the loop. A failure to save ends the run with the snapshot cleared. */
  method BackupKeyspace(disk: Disk, ghost start: set<Path>, requests: seq<Request>, timestamp: Timestamp, n: nat)
    returns (end: Ending, archive: Archive, metadata: Metadata)
    requires n < |requests| && Ready(start, disk.layout, timestamp) && GoodRequests(requests)
    requires var made := Made(disk.layout, requests, timestamp, n);
             disk.dirs == start + Stubs(made, timestamp) + Parents(made)
    modifies disk
    ensures end.Finished? ==> Holds(archive, ArchiveName(requests[n].keyspace, timestamp),
                                    Archived(disk.layout, requests, timestamp, n))
    ensures end.Finished? ==> archive.dirs != [] &&
                              disk.log == old(disk.log) + TurnOps(disk.layout, requests, timestamp, n, archive.dirs)
    ensures end.Finished? ==> Succeeded(disk.works, |old(disk.log)|, |disk.log|)
    ensures end.Finished? ==>
              var listed := disk.listing(|old(disk.log)| + ListAt(disk.layout, requests, timestamp, n));
              metadata == EntryFor(requests[n], listed)
    ensures !end.Crashed? ==> var made := Made(disk.layout, requests, timestamp, n + 1);
                              disk.dirs == start + Stubs(made, timestamp) + Parents(made)
    ensures old(disk.log) <= disk.log
    ensures !end.Finished? ==> Broken(disk.works, |old(disk.log)|, disk.log,
                                      Stub(requests[n].keyspace, timestamp) in old(disk.dirs))
  {
    hide Plain, Ready, ArchiveName, BackupName, Made, Snaps, Archived, Stubs, Parents, SaveOps, CollectOps;
    hide SavedUpTo, Cleared, Stub, EntryFor, Broken, TurnOps, ListAt;
    var keyspace := requests[n].keyspace;
    ghost var log := disk.log;
    var ok, dirs;
    ok, dirs, metadata := Collect(disk, start, requests, timestamp, n);
    archive := Archive(ArchiveName(keyspace, timestamp), dirs);
    if !ok {
      return Crashed, archive, metadata;
    }
    ReadyIsClean(start, disk.layout, timestamp);
    ClearingSnapshots(start, Made(disk.layout, requests, timestamp, n + 1), disk.layout, requests[n], timestamp);
    ghost var before := disk.log;
    end := SaveAndClear(disk, keyspace, timestamp, dirs);
    SavedOrBroken(disk.works, log, before, keyspace, timestamp, dirs, disk.log, end,
                  Stub(keyspace, timestamp) in old(disk.dirs));
    TurnOpsAre(log, disk.layout, requests, timestamp, n, dirs);
  }

  /** What is done for a keyspace until there is something to save. */
  function CollectOps(layout: Layout, requests: seq<Request>, timestamp: Timestamp, n: nat, dirs: seq<Path>): seq<Op>
    requires n < |requests| && dirs != []
  {
    SnapshotOps(requests[n], timestamp) + StubOps(layout, requests, timestamp, n) + ListOps(requests[n], dirs)
  }

  lemma TurnOpsAre(log: seq<Op>, layout: Layout, requests: seq<Request>, timestamp: Timestamp, n: nat, dirs: seq<Path>)
    requires n < |requests| && dirs != []
    ensures log + CollectOps(layout, requests, timestamp, n, dirs) + SaveOps(requests[n].keyspace, timestamp, dirs) +
            [Clear(BackupName(requests[n].keyspace, timestamp))] ==
            log + TurnOps(layout, requests, timestamp, n, dirs)
  {
    hide SnapshotOps, StubOps, ListOps, SaveOps, BackupName;
  }

  /** Snapshots, the directories to archive, and the metadata entry. Every failure is an exception. */
  method Collect(disk: Disk, ghost start: set<Path>, requests: seq<Request>, timestamp: Timestamp, n: nat)
    returns (ok: bool, dirs: seq<Path>, metadata: Metadata)
    requires n < |requests| && Ready(start, disk.layout, timestamp) && GoodRequests(requests)
    requires var made := Made(disk.layout, requests, timestamp, n);
             disk.dirs == start + Stubs(made, timestamp) + Parents(made)
    modifies disk
    ensures ok ==> dirs != [] && forall p :: p in dirs <==> p in Archived(disk.layout, requests, timestamp, n)
    ensures ok ==> disk.log == old(disk.log) + CollectOps(disk.layout, requests, timestamp, n, dirs)
    ensures ok ==> Succeeded(disk.works, |old(disk.log)|, |disk.log|)
    ensures ok ==>
              var listed := disk.listing(|old(disk.log)| + ListAt(disk.layout, requests, timestamp, n));
              metadata == EntryFor(requests[n], listed)
    ensures ok ==> var made := Made(disk.layout, requests, timestamp, n + 1);
                   disk.dirs ==
                   start + Stubs(made, timestamp) + Parents(made) + Snaps(disk.layout, requests[n], timestamp)
    ensures old(disk.log) <= disk.log
    ensures !ok ==> Broken(disk.works, |old(disk.log)|, disk.log,
                           Stub(requests[n].keyspace, timestamp) in old(disk.dirs))
  {
    hide Plain, Ready, BackupName, Made, Snaps, Archived, Found, Stubs, Parents, Occurs, SnapshotOps, Stub, EntryFor;
    hide ListedDir;
    var request := requests[n];
    dirs, metadata := [], Metadata(request.keyspace, false, []);
    ghost var log := disk.log;
    ok := TakeSnapshots(disk, request, timestamp);
    if !ok {
      LastSnapshot(log, request, timestamp, disk.log);
      return;
    }
    NotStub(disk.layout, request, timestamp);
    ok, dirs := SearchOrStub(disk, start, requests, timestamp, n);
    if !ok {
      return;
    }
    ok, metadata := PrepareMetadata(disk, request, dirs);
  }

  lemma ReadyIsClean(start: set<Path>, layout: Layout, timestamp: Timestamp)
    requires Ready(start, layout, timestamp)
    ensures Clean(start, timestamp)
  {
  }

  lemma LastSnapshot(before: seq<Op>, request: Request, timestamp: Timestamp, log: seq<Op>)
    requires before < log <= before + SnapshotOps(request, timestamp)
    ensures log[|log| - 1].Snapshot?
  {
    hide BackupName;
    var all := before + SnapshotOps(request, timestamp);
    assert log[|log| - 1] == all[|log| - 1] == SnapshotOps(request, timestamp)[|log| - 1 - |before|];
  }

  /** A snapshot directory is never a stub. */
  lemma NotStub(layout: Layout, request: Request, timestamp: Timestamp)
    ensures Stub(request.keyspace, timestamp) !in Snaps(layout, request, timestamp)
  {
    hide BackupName;
  }

  lemma NothingFound(dirs: seq<Path>, found: set<Path>)
    requires forall p :: p in dirs <==> p in found
    ensures |dirs| == 0 <==> found == {}
  {
    if |dirs| > 0 {
      assert dirs[0] in dirs;
    }
  }

  lemma StubsGrow(made: set<string>, k: string, timestamp: Timestamp)
    ensures Stubs(made + {k}, timestamp) == Stubs(made, timestamp) + {Stub(k, timestamp)}
    ensures Parents(made + {k}) == Parents(made) + {[k]}
  {
  }

  /** The operations of the keyspaces that were finished, whose archives hold some directories. */
  function RunOps(layout: Layout, requests: seq<Request>, timestamp: Timestamp, archives: seq<Archive>): seq<Op>
    requires |archives| <= |requests|
  {
    if archives == [] then []
    else
      var n := |archives| - 1;
      RunOps(layout, requests, timestamp, archives[..n]) + TurnOps(layout, requests, timestamp, n, archives[n].dirs)
  }

  /** Some keyspace is requested again after its stub was made. */
  ghost predicate Repeats(requests: seq<Request>) {
    exists i, j :: 0 <= i < j < |requests| && requests[i].keyspace == requests[j].keyspace
  }

  lemma StubRepeats(start: set<Path>, layout: Layout, requests: seq<Request>, timestamp: Timestamp, n: nat)
    requires n < |requests| && Clean(start, timestamp)
    requires GoodRequests(requests)
    requires var made := Made(layout, requests, timestamp, n);
             Stub(requests[n].keyspace, timestamp) in start + Stubs(made, timestamp) + Parents(made)
    ensures Repeats(requests)
  {
    hide Occurs, Rendered, Made, EndsWith;
    var k := requests[n].keyspace;
    var made := Made(layout, requests, timestamp, n);
    StubMatches(k, k, timestamp);
    WholeEnds(k);
    assert BackupName(k, timestamp) == k + ("-" + timestamp);
    OccursPart(k, "-" + timestamp, Rendered(Stub(k, timestamp)));
    MadeAreRequested(layout, requests, timestamp, n);
    var other :| other in made && Stub(other, timestamp) == Stub(k, timestamp);
    assert other == k by {
      assert BackupName(other, timestamp)[..|other|] == other && BackupName(k, timestamp)[..|k|] == k;
    }
  }

  lemma WholeEnds(k: string)
    ensures EndsWith(k, k)
  {
    assert k[0..] == k;
  }

  /** The i-th turn of a run: its archive holds what the search found, and its metadata entry what was listed.
      base is where the log of the run begins. */
  ghost predicate Recorded(listing: nat -> seq<string>, base: nat, layout: Layout, requests: seq<Request>,
                           timestamp: Timestamp, archives: seq<Archive>, metadata: seq<Metadata>, i: nat)
    requires i < |archives| == |metadata| <= |requests|
  {
    && archives[i].dirs != []
    && Holds(archives[i], ArchiveName(requests[i].keyspace, timestamp), Archived(layout, requests, timestamp, i))
    && metadata[i] == EntryFor(requests[i], listing(
         base + |RunOps(layout, requests, timestamp, archives[..i])| + ListAt(layout, requests, timestamp, i)))
  }

  ghost predicate AllRecorded(listing: nat -> seq<string>, base: nat, layout: Layout, requests: seq<Request>,
                              timestamp: Timestamp, archives: seq<Archive>, metadata: seq<Metadata>) {
    |archives| == |metadata| <= |requests| &&
    forall i :: 0 <= i < |archives| ==> Recorded(listing, base, layout, requests, timestamp, archives, metadata, i)
  }

  lemma OneMoreTurn(listing: nat -> seq<string>, log: seq<Op>, before: seq<Op>, after: seq<Op>, layout: Layout,
                    requests: seq<Request>, timestamp: Timestamp, archives: seq<Archive>, metadata: seq<Metadata>,
                    archive: Archive, entry: Metadata)
    requires AllRecorded(listing, |log|, layout, requests, timestamp, archives, metadata)
    requires |archives| < |requests| && before == log + RunOps(layout, requests, timestamp, archives)
    requires archive.dirs != []
    requires Holds(archive, ArchiveName(requests[|archives|].keyspace, timestamp),
                   Archived(layout, requests, timestamp, |archives|))
    requires after == before + TurnOps(layout, requests, timestamp, |archives|, archive.dirs)
    requires var listed := listing(|before| + ListAt(layout, requests, timestamp, |archives|));
             entry == EntryFor(requests[|archives|], listed)
    ensures AllRecorded(listing, |log|, layout, requests, timestamp, archives + [archive], metadata + [entry])
    ensures after == log + RunOps(layout, requests, timestamp, archives + [archive])
  {
    hide ListAt, TurnOps, EntryFor, Archived, Holds, ArchiveName;
    var more, entries, n := archives + [archive], metadata + [entry], |archives|;
    assert more[..n] == archives && archives[..n] == archives;
    forall i | 0 <= i < |more|
      ensures Recorded(listing, |log|, layout, requests, timestamp, more, entries, i)
    {
      if i < n {
        assert more[..i] == archives[..i];
        assert Recorded(listing, |log|, layout, requests, timestamp, archives, metadata, i);
      }
    }
  }

  /** The whole run. Each archive that was written holds exactly what the model says, even in a run that
      fails later on; and a run that fails has a cause. */
  method Backup(disk: Disk, requests: seq<Request>, timestamp: Timestamp)
    returns (ok: bool, archives: seq<Archive>, metadata: seq<Metadata>)
    requires Ready(disk.dirs, disk.layout, timestamp) && GoodRequests(requests)
    modifies disk
    ensures ok ==> |archives| == |requests|
    ensures AllRecorded(disk.listing, |old(disk.log)|, disk.layout, requests, timestamp, archives, metadata)
    ensures var done := old(disk.log) + RunOps(disk.layout, requests, timestamp, archives);
            && done <= disk.log && Succeeded(disk.works, |old(disk.log)|, |done|)
            && (ok ==> disk.log == done + [WriteMetadata(metadata)])
            && (!ok ==> Broken(disk.works, |done|, disk.log, Repeats(requests)))
  {
    hide Ready, Plain, Holds, Archived, Stubs, Parents, Snaps, Stub, ArchiveName, TurnOps, Repeats, EntryFor, ListAt;
    hide RunOps, Recorded;
    archives, metadata := [], [];
    ghost var start, log := disk.dirs, disk.log;
    NoStubs(timestamp);
    NoTurns(disk.layout, requests, timestamp);
    for n := 0 to |requests|
      invariant |archives| == n
      invariant var made := Made(disk.layout, requests, timestamp, n);
        disk.dirs == start + Stubs(made, timestamp) + Parents(made)
      invariant AllRecorded(disk.listing, |log|, disk.layout, requests, timestamp, archives, metadata)
      invariant disk.log == log + RunOps(disk.layout, requests, timestamp, archives)
      invariant Succeeded(disk.works, |log|, |disk.log|)
    {
      if Stub(requests[n].keyspace, timestamp) in disk.dirs {
        ReadyIsClean(start, disk.layout, timestamp);
        StubRepeats(start, disk.layout, requests, timestamp, n);
      }
      ghost var before := disk.log;
      var end, archive, entry := BackupKeyspace(disk, start, requests, timestamp, n);
      if !end.Finished? {
        return false, archives, metadata;
      }
      OneMoreTurn(disk.listing, log, before, disk.log, disk.layout, requests, timestamp, archives, metadata,
                  archive, entry);
      archives, metadata := archives + [archive], metadata + [entry];
    }
    ok := disk.Write(WriteMetadata(metadata));
  }

  lemma NoTurns(layout: Layout, requests: seq<Request>, timestamp: Timestamp)
    ensures RunOps(layout, requests, timestamp, []) == []
  {
  }

  lemma NoStubs(timestamp: Timestamp)
    ensures Stubs({}, timestamp) == {} && Parents({}) == {}
  {
  }

  // ---------- Archives are complete ----------

  /** The snapshots a request asks for: one of the keyspace, or one of each table. */
  predicate Asked(request: Request, table: Option<string>) {
    if request.tables == [] then table == None else table.Some? && table.value in request.tables
  }

  /** Between two positions: all snapshots were taken, then roles and schema were saved into the first directory of
      the archive, then the archive was written, and only then the snapshot was cleared. */
  ghost predicate PackedBetween(log: seq<Op>, archive: Archive, request: Request, timestamp: Timestamp, from: nat,
                                roles: nat, schema: nat, packed: nat, cleared: nat) {
    && archive.dirs != [] && from < roles < schema < packed < cleared < |log|
    && log[roles] == SaveRoles(request.keyspace, archive.dirs[0])
    && log[schema] == SaveSchema(request.keyspace, archive.dirs[0])
    && log[packed] == WriteArchive(archive.name, archive.dirs)
    && log[cleared] == Clear(BackupName(request.keyspace, timestamp))
    && (forall t :: from <= t < cleared ==> !log[t].Clear?)
    && forall table :: Asked(request, table) ==>
         TakenBetween(log, Snapshot(BackupName(request.keyspace, timestamp), request.keyspace, table), from, roles)
  }

  ghost predicate TakenBetween(log: seq<Op>, op: Op, from: nat, to: nat) {
    exists t :: from <= t < to && t < |log| && log[t] == op
  }

  /** All of this after the first so many operations. */
  ghost predicate Packed(works: nat -> bool, base: nat, log: seq<Op>, archive: Archive, request: Request,
                         timestamp: Timestamp) {
    exists from: nat, roles: nat, schema: nat, packed: nat, cleared: nat ::
      base <= from && PackedBetween(log, archive, request, timestamp, from, roles, schema, packed, cleared) &&
      Succeeded(works, from, cleared + 1)
  }

  lemma {:induction false} RunOpsPrefix(layout: Layout, requests: seq<Request>, timestamp: Timestamp,
                                        archives: seq<Archive>, n: nat)
    requires n <= |archives| <= |requests|
    ensures RunOps(layout, requests, timestamp, archives[..n]) <= RunOps(layout, requests, timestamp, archives)
  {
    hide TurnOps;
    if n < |archives| {
      assert archives[..|archives| - 1][..n] == archives[..n];
      RunOpsPrefix(layout, requests, timestamp, archives[..|archives| - 1], n);
    } else {
      assert archives[..n] == archives;
    }
  }

  /** What comes before the saves of a turn. */
  function HeadOps(layout: Layout, requests: seq<Request>, timestamp: Timestamp, n: nat, dirs: seq<Path>): seq<Op>
    requires n < |requests| && dirs != []
  {
    SnapshotOps(requests[n], timestamp) + StubOps(layout, requests, timestamp, n) + ListOps(requests[n], dirs)
  }

  lemma HeadTakes(layout: Layout, requests: seq<Request>, timestamp: Timestamp, n: nat, dirs: seq<Path>)
    requires n < |requests| && dirs != []
    ensures var head := HeadOps(layout, requests, timestamp, n, dirs);
            && head != [] && (forall t :: 0 <= t < |head| ==> !head[t].Clear?)
            && forall table :: Asked(requests[n], table) ==>
                 TakenBetween(head, Snapshot(BackupName(requests[n].keyspace, timestamp), requests[n].keyspace, table),
                              0, |head|)
  {
    hide BackupName, Found, Stub, ListedDir;
    var request, head := requests[n], HeadOps(layout, requests, timestamp, n, dirs);
    var snapshots := SnapshotOps(request, timestamp);
    assert snapshots <= head;
    forall table | Asked(request, table)
      ensures TakenBetween(head, Snapshot(BackupName(request.keyspace, timestamp), request.keyspace, table), 0, |head|)
    {
      var i: nat := if table.None? then 0 else PlaceOf(request.tables, table.value);
      assert head[i] == snapshots[i] == Snapshot(BackupName(request.keyspace, timestamp), request.keyspace, table);
    }
    assert |snapshots| > 0;
  }

  lemma TurnPacks(layout: Layout, requests: seq<Request>, timestamp: Timestamp, n: nat, archive: Archive,
                  before: seq<Op>, log: seq<Op>) returns (roles: nat)
    requires n < |requests| && archive.dirs != []
    requires archive.name == ArchiveName(requests[n].keyspace, timestamp)
    requires before + TurnOps(layout, requests, timestamp, n, archive.dirs) <= log
    ensures roles + 4 == |before| + |TurnOps(layout, requests, timestamp, n, archive.dirs)|
    ensures PackedBetween(log, archive, requests[n], timestamp, |before|, roles, roles + 1, roles + 2, roles + 3)
  {
    hide ArchiveName, BackupName, HeadOps, TakenBetween, TurnOps, SaveOps;
    var request, dirs := requests[n], archive.dirs;
    var head := HeadOps(layout, requests, timestamp, n, dirs);
    var tail := SaveOps(request.keyspace, timestamp, dirs) + [Clear(BackupName(request.keyspace, timestamp))];
    TurnIs(layout, requests, timestamp, n, dirs);
    HeadTakes(layout, requests, timestamp, n, dirs);
    TailIs(request.keyspace, timestamp, dirs);
    roles := |before| + |head|;
    assert before + (head + tail) == before + head + tail;
    ThreeParts(before, head, tail, log);
    forall table | Asked(request, table)
      ensures TakenBetween(log, Snapshot(BackupName(request.keyspace, timestamp), request.keyspace, table), |before|,
                           roles)
    {
      TakenLater(head, before, log, Snapshot(BackupName(request.keyspace, timestamp), request.keyspace, table));
    }
  }

  lemma TailIs(keyspace: string, timestamp: Timestamp, dirs: seq<Path>)
    requires dirs != []
    ensures SaveOps(keyspace, timestamp, dirs) + [Clear(BackupName(keyspace, timestamp))] ==
            [SaveRoles(keyspace, dirs[0]), SaveSchema(keyspace, dirs[0]),
             WriteArchive(ArchiveName(keyspace, timestamp), dirs), Clear(BackupName(keyspace, timestamp))]
  {
    hide ArchiveName, BackupName;
  }

  lemma ThreeParts(before: seq<Op>, head: seq<Op>, tail: seq<Op>, log: seq<Op>)
    requires before + head + tail <= log
    ensures before + head <= log
    ensures forall t :: |before| <= t < |before| + |head| ==> log[t] == head[t - |before|]
    ensures forall t :: 0 <= t < |tail| ==> log[|before| + |head| + t] == tail[t]
  {
    var all := before + head + tail;
    assert forall t :: 0 <= t < |all| ==> log[t] == all[t];
    assert forall t :: 0 <= t < |tail| ==> all[|before| + |head| + t] == tail[t];
  }

  lemma TurnIs(layout: Layout, requests: seq<Request>, timestamp: Timestamp, n: nat, dirs: seq<Path>)
    requires n < |requests| && dirs != []
    ensures TurnOps(layout, requests, timestamp, n, dirs) ==
            HeadOps(layout, requests, timestamp, n, dirs) +
            (SaveOps(requests[n].keyspace, timestamp, dirs) + [Clear(BackupName(requests[n].keyspace, timestamp))])
  {
    hide SnapshotOps, StubOps, ListOps, SaveOps, BackupName;
  }

  lemma TakenLater(head: seq<Op>, before: seq<Op>, log: seq<Op>, op: Op)
    requires before + head <= log && TakenBetween(head, op, 0, |head|)
    ensures TakenBetween(log, op, |before|, |before| + |head|)
  {
    var t :| 0 <= t < |head| && head[t] == op;
    assert log[|before| + t] == (before + head)[|before| + t] == head[t];
  }

  function PlaceOf(tables: seq<string>, table: string): (i: nat)
    requires table in tables
    ensures i < |tables| && tables[i] == table
  {
    if tables[0] == table then 0 else 1 + PlaceOf(tables[1..], table)
  }

  /** Every archive of a run was written after the roles and the schema of its keyspace were saved into its first
      directory, and while its snapshots were there; all of this succeeded. */
  lemma ArchivesArePacked(works: nat -> bool, listing: nat -> seq<string>, before: seq<Op>, log: seq<Op>,
                          layout: Layout, requests: seq<Request>, timestamp: Timestamp, archives: seq<Archive>,
                          metadata: seq<Metadata>, i: nat)
    requires AllRecorded(listing, |before|, layout, requests, timestamp, archives, metadata) && i < |archives|
    requires var done := before + RunOps(layout, requests, timestamp, archives);
             done <= log && Succeeded(works, |before|, |done|)
    ensures Packed(works, |before|, log, archives[i], requests[i], timestamp)
  {
    hide TurnOps, PackedBetween, Archived, ArchiveName, EntryFor, ListAt;
    var part := RunOps(layout, requests, timestamp, archives[..i + 1]);
    RunOpsPrefix(layout, requests, timestamp, archives, i + 1);
    assert archives[..i + 1][..i] == archives[..i] && archives[..i + 1][i] == archives[i];
    var earlier := before + RunOps(layout, requests, timestamp, archives[..i]);
    assert Recorded(listing, |before|, layout, requests, timestamp, archives, metadata, i);
    assert earlier + TurnOps(layout, requests, timestamp, i, archives[i].dirs) == before + part <= log;
    var roles := TurnPacks(layout, requests, timestamp, i, archives[i], earlier, log);
    assert Succeeded(works, |earlier|, roles + 4);
  }

  // ---------- What the metadata says ----------

  /** Each name is what stands before the first dash of a listed one. */
  ghost predicate CutAtDash(names: seq<string>, listed: seq<string>) {
    |names| == |listed| && forall j :: 0 <= j < |names| ==> CutName(names[j], listed[j])
  }

  predicate CutName(name: string, listed: string) {
    Free(name, '-') && (name == listed || name + "-" <= listed)
  }

  lemma TableIsCut(dir: string)
    ensures CutName(TableOf(dir), dir)
  {
    var n := UpTo(dir, '-');
    if n < |dir| {
      assert TableOf(dir) == dir[..n] && dir[..n] + "-" == dir[..n + 1];
    }
  }

  /** The entry of a keyspace that was backed up whole names what its listing showed, that of a part of it the tables
      that were asked for. */
  lemma MetadataIsRight(listing: nat -> seq<string>, before: seq<Op>, log: seq<Op>, layout: Layout,
                        requests: seq<Request>, timestamp: Timestamp, archives: seq<Archive>, metadata: seq<Metadata>,
                        i: nat)
    requires AllRecorded(listing, |before|, layout, requests, timestamp, archives, metadata) && i < |archives|
    requires before + RunOps(layout, requests, timestamp, archives) <= log
    ensures metadata[i].keyspace == requests[i].keyspace && (metadata[i].allTables <==> requests[i].tables == [])
    ensures requests[i].tables != [] ==> metadata[i].tables == requests[i].tables
    ensures requests[i].tables == [] ==>
              archives[i].dirs != [] &&
              exists p: nat :: |before| <= p < |log| && log[p] == ListTables(ListedDir(archives[i].dirs[0])) &&
                               CutAtDash(metadata[i].tables, listing(p))
  {
    hide TurnOps, Archived, ArchiveName, ListedDir, TableOf, CutName, SnapshotOps, StubOps, SaveOps;
    assert Recorded(listing, |before|, layout, requests, timestamp, archives, metadata, i);
    if requests[i].tables == [] {
      var earlier := before + RunOps(layout, requests, timestamp, archives[..i]);
      var p := |earlier| + ListAt(layout, requests, timestamp, i);
      RunOpsPrefix(layout, requests, timestamp, archives, i + 1);
      assert archives[..i + 1][..i] == archives[..i] && archives[..i + 1][i] == archives[i];
      assert earlier + TurnOps(layout, requests, timestamp, i, archives[i].dirs) <= log;
      ListedAt(layout, requests, timestamp, i, archives[i].dirs);
      assert log[p] == ListTables(ListedDir(archives[i].dirs[0]));
      forall j | 0 <= j < |listing(p)|
        ensures CutName(metadata[i].tables[j], listing(p)[j])
      {
        TableIsCut(listing(p)[j]);
      }
      assert CutAtDash(metadata[i].tables, listing(p));
    }
  }

  lemma ListedAt(layout: Layout, requests: seq<Request>, timestamp: Timestamp, n: nat, dirs: seq<Path>)
    requires n < |requests| && dirs != [] && requests[n].tables == []
    ensures var turn, at := TurnOps(layout, requests, timestamp, n, dirs), ListAt(layout, requests, timestamp, n);
            at < |turn| && turn[at] == ListTables(ListedDir(dirs[0]))
  {
    hide SnapshotOps, StubOps, SaveOps, ListedDir, BackupName;
  }

  // ---------- Archives are exact ----------

  /** An earlier keyspace without snapshots whose name ends in a later keyspace's. */
  ghost predicate Clash(layout: Layout, requests: seq<Request>, timestamp: Timestamp, m: nat, n: nat)
    requires m < n < |requests|
  {
    Snaps(layout, requests[m], timestamp) == {} && EndsWith(requests[m].keyspace, requests[n].keyspace)
  }

  /** With distinct keyspaces every archive holds exactly the directories of its own keyspace, although they
      are searched by substring, if and only if no two requests clash. */
  lemma ArchivesAreExact(layout: Layout, requests: seq<Request>, timestamp: Timestamp)
    requires forall i, j :: 0 <= i < j < |requests| ==> requests[i].keyspace != requests[j].keyspace
    ensures (forall n :: 0 <= n < |requests| ==>
               Archived(layout, requests, timestamp, n) == Own(layout, requests[n], timestamp)) <==>
            (forall m, n :: 0 <= m < n < |requests| ==> !Clash(layout, requests, timestamp, m, n))
  {
    hide Snaps, EndsWith;
    if forall m, n :: 0 <= m < n < |requests| ==> !Clash(layout, requests, timestamp, m, n) {
      forall n | 0 <= n < |requests|
        ensures Archived(layout, requests, timestamp, n) == Own(layout, requests[n], timestamp)
      {
        MadeAreRequested(layout, requests, timestamp, n);
        forall k | k in Made(layout, requests, timestamp, n)
          ensures !EndsWith(k, requests[n].keyspace)
        {
          var i :| 0 <= i < n && requests[i].keyspace == k && Snaps(layout, requests[i], timestamp) == {};
          assert !Clash(layout, requests, timestamp, i, n);
        }
        assert Mistaken(Made(layout, requests, timestamp, n), requests[n].keyspace) == {};
        NoStubs(timestamp);
      }
    } else {
      var m, n :| 0 <= m < n < |requests| && Clash(layout, requests, timestamp, m, n);
      ClashSpoils(layout, requests, timestamp, m, n);
    }
  }

  /** An empty keyspace big_ks before ks: the archive of ks holds the stub of big_ks too. */
  lemma ClashExample(timestamp: Timestamp)
    ensures var requests := [Request("big_ks", []), Request("ks", [])];
            Clash(map["ks" := {"t-0"}], requests, timestamp, 0, 1)
  {
  }

  lemma ClashSpoils(layout: Layout, requests: seq<Request>, timestamp: Timestamp, m: nat, n: nat)
    requires forall i, j :: 0 <= i < j < |requests| ==> requests[i].keyspace != requests[j].keyspace
    requires m < n < |requests| && Clash(layout, requests, timestamp, m, n)
    ensures Archived(layout, requests, timestamp, m) != Own(layout, requests[m], timestamp) ||
            Archived(layout, requests, timestamp, n) != Own(layout, requests[n], timestamp)
  {
    hide Snaps, EndsWith;
    var made := Made(layout, requests, timestamp, m);
    if Mistaken(made, requests[m].keyspace) == {} {
      assert requests[m].keyspace in Made(layout, requests, timestamp, m + 1);
      MadeGrows(layout, requests, timestamp, m + 1, n);
      ForeignStub(layout, requests, timestamp, m, n);
    } else {
      var k :| k in Mistaken(made, requests[m].keyspace);
      MadeAreRequested(layout, requests, timestamp, m);
      var i :| 0 <= i < m && requests[i].keyspace == k && Snaps(layout, requests[i], timestamp) == {};
      ForeignStub(layout, requests, timestamp, i, m);
    }
  }

  lemma {:induction false} MadeGrows(layout: Layout, requests: seq<Request>, timestamp: Timestamp, m: nat, n: nat)
    requires m <= n <= |requests|
    ensures Made(layout, requests, timestamp, m) <= Made(layout, requests, timestamp, n)
  {
    if m < n {
      MadeGrows(layout, requests, timestamp, m, n - 1);
    }
  }

  lemma ForeignStub(layout: Layout, requests: seq<Request>, timestamp: Timestamp, m: nat, n: nat)
    requires m < n < |requests| && requests[m].keyspace != requests[n].keyspace
    requires requests[m].keyspace in Made(layout, requests, timestamp, n)
    requires EndsWith(requests[m].keyspace, requests[n].keyspace)
    ensures Archived(layout, requests, timestamp, n) != Own(layout, requests[n], timestamp)
  {
    hide EndsWith;
    var stub := Stub(requests[m].keyspace, timestamp);
    assert stub in Found(layout, requests, timestamp, n);
    assert forall p :: p in Snaps(layout, requests[n], timestamp) ==> |p| == 4;
    assert stub !in Own(layout, requests[n], timestamp);
  }
}
