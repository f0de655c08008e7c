/** Backup and restore together: every host of a cluster backs up, the archives are collected in a vault, and
    a keyspace is restored from all of them. */
module RoundTrip {
  import opened Text
  import opened HostFiles
  import opened Restore
  import opened RestoreLaws
  import A = ArchiveNames
  import B = BackupRun

  /** The rows of a host by keyspace and table directory. */
  type Contents = map<(string, string), set<Row>>

  /** A host, what it held when its backup ran, what the backup left in the vault, and the operations of the run,
      all of which succeeded. */
  datatype Node = Node(name: string, layout: B.Layout, contents: Contents, archives: seq<B.Archive>,
                       metadata: seq<B.Metadata>, log: seq<B.Op>)

  function RowsIn(contents: Contents, keyspace: string, dir: string): set<Row> {
    if (keyspace, dir) in contents then contents[(keyspace, dir)] else {}
  }

  // ---------- What a finished backup is ----------

  /** A schema was saved in the archive's first directory before the archive was written. */
  predicate SchemaPacked(log: seq<B.Op>, archive: B.Archive, keyspace: string) {
    archive.dirs != [] &&
    exists a, c :: 0 <= a < c < |log| && log[a] == B.SaveSchema(keyspace, archive.dirs[0]) &&
                   log[c] == B.WriteArchive(archive.name, archive.dirs)
  }

  /** And so were the role scripts. */
  predicate RolesPacked(log: seq<B.Op>, archive: B.Archive, keyspace: string) {
    archive.dirs != [] &&
    exists a, c :: 0 <= a < c < |log| && log[a] == B.SaveRoles(keyspace, archive.dirs[0]) &&
                   log[c] == B.WriteArchive(archive.name, archive.dirs)
  }

  ghost predicate BackedUpBy(node: Node, requests: seq<B.Request>, timestamp: A.Timestamp) {
    && |node.archives| == |node.metadata| == |requests|
    && B.WriteMetadata(node.metadata) in node.log
    && forall i :: 0 <= i < |requests| ==>
         && SchemaPacked(node.log, node.archives[i], requests[i].keyspace)
         && RolesPacked(node.log, node.archives[i], requests[i].keyspace)
         && B.Holds(node.archives[i], A.ArchiveName(requests[i].keyspace, timestamp),
                    B.Archived(node.layout, requests, timestamp, i))
         && node.metadata[i].keyspace == requests[i].keyspace
         && node.metadata[i].allTables == (requests[i].tables == [])
  }

  /** What the backup script leaves after a run that completes. */
  lemma FinishedRun(works: nat -> bool, listing: nat -> seq<string>, before: seq<B.Op>, node: Node,
                    requests: seq<B.Request>, timestamp: A.Timestamp)
    requires B.AllRecorded(listing, |before|, node.layout, requests, timestamp, node.archives, node.metadata)
    requires |node.archives| == |requests|
    requires var done := B.RunOps(node.layout, requests, timestamp, node.archives);
             node.log == done + [B.WriteMetadata(node.metadata)] &&
             B.Succeeded(works, |before|, |before + done|)
    ensures BackedUpBy(node, requests, timestamp)
  {
    hide B.Holds, B.Archived, B.RunOps, B.ListAt, A.ArchiveName, B.Packed;
    assert node.log[|node.log| - 1] == B.WriteMetadata(node.metadata);
    forall i | 0 <= i < |requests|
      ensures SchemaPacked(node.log, node.archives[i], requests[i].keyspace)
      ensures RolesPacked(node.log, node.archives[i], requests[i].keyspace)
      ensures B.Holds(node.archives[i], A.ArchiveName(requests[i].keyspace, timestamp),
                      B.Archived(node.layout, requests, timestamp, i))
      ensures node.metadata[i].keyspace == requests[i].keyspace
      ensures node.metadata[i].allTables == (requests[i].tables == [])
    {
      assert B.Recorded(listing, |before|, node.layout, requests, timestamp, node.archives, node.metadata, i);
      B.ArchivesArePacked(works, listing, before, before + node.log, node.layout, requests, timestamp, node.archives,
                          node.metadata, i);
      PackedInRun(works, before, node.log, node.archives[i], requests[i], timestamp);
    }
  }

  lemma PackedInRun(works: nat -> bool, before: seq<B.Op>, log: seq<B.Op>, archive: B.Archive, request: B.Request,
                    timestamp: A.Timestamp)
    requires B.Packed(works, |before|, before + log, archive, request, timestamp)
    ensures SchemaPacked(log, archive, request.keyspace) && RolesPacked(log, archive, request.keyspace)
  {
    hide A.BackupName, B.TakenBetween, B.Asked;
    var from: nat, roles: nat, schema: nat, packed: nat, cleared: nat :|
      |before| <= from &&
      B.PackedBetween(before + log, archive, request, timestamp, from, roles, schema, packed, cleared);
    var n := |before|;
    assert forall t :: n <= t < n + |log| ==> (before + log)[t] == log[t - n];
    assert log[schema - n] == B.SaveSchema(request.keyspace, archive.dirs[0]);
    assert log[roles - n] == B.SaveRoles(request.keyspace, archive.dirs[0]);
    assert log[packed - n] == B.WriteArchive(archive.name, archive.dirs);
  }

  // ---------- What the restore finds in the vault ----------

  /** The directory of one host in the vault. */
  function VaultDir(node: Node): A.Host {
    A.Host(node.name, true,
           seq(|node.archives|, i requires 0 <= i < |node.archives| => A.File(node.archives[i].name, true)) +
           [A.File("metadata.json", true)])
  }

  function Vault(nodes: seq<Node>): seq<A.Host> {
    seq(|nodes|, h requires 0 <= h < |nodes| => VaultDir(nodes[h]))
  }

  /** The archives of one keyspace. */
  function OfKeyspace(backups: seq<A.Backup>, keyspace: string): seq<A.Backup> {
    if backups == [] then []
    else
      var last := backups[|backups| - 1];
      OfKeyspace(backups[..|backups| - 1], keyspace) + (if last.keyspace == keyspace then [last] else [])
  }

  lemma {:induction false} OfKeyspaceAppend(a: seq<A.Backup>, b: seq<A.Backup>, keyspace: string)
    ensures OfKeyspace(a + b, keyspace) == OfKeyspace(a, keyspace) + OfKeyspace(b, keyspace)
  {
    if b == [] {
      assert a + b == a;
    } else {
      assert (a + b)[..|a + b| - 1] == a + b[..|b| - 1];
      OfKeyspaceAppend(a, b[..|b| - 1], keyspace);
    }
  }

  lemma NothingOfKeyspace(keyspace: string)
    ensures OfKeyspace([], keyspace) == []
  {
  }

  lemma OneOfKeyspace(backup: A.Backup, keyspace: string)
    ensures OfKeyspace([backup], keyspace) == if backup.keyspace == keyspace then [backup] else []
  {
    assert [backup][..0] == [];
  }

  lemma MetadataIsNoArchive()
    ensures A.KeyspaceOf("metadata.json").None?
  {
    A.LastStampIsLast("metadata.json", UpTo("metadata.json", '\n'));
  }

  predicate DistinctKeyspaces(requests: seq<B.Request>) {
    forall i, j :: 0 <= i < j < |requests| ==> requests[i].keyspace != requests[j].keyspace
  }

  /** The requests name different keyspaces, each with a name that the archive name keeps. */
  ghost predicate Distinct(requests: seq<B.Request>) {
    && DistinctKeyspaces(requests)
    && forall i :: 0 <= i < |requests| ==> Free(requests[i].keyspace, '\n')
  }

  lemma NoArchives(path: string)
    ensures A.ArchivesIn(path, []) == []
  {
  }

  lemma OneMoreArchive(path: string, files: seq<A.File>, keyspace: string, timestamp: A.Timestamp)
    requires Free(keyspace, '\n')
    ensures A.ArchivesIn(path, files + [A.File(A.ArchiveName(keyspace, timestamp), true)]) ==
            A.ArchivesIn(path, files) + [A.Backup(path, A.ArchiveName(keyspace, timestamp), keyspace)]
  {
    hide A.ArchiveName, A.KeyspaceOf, Free;
    A.ArchiveNameRoundTrip(keyspace, timestamp);
    assert (files + [A.File(A.ArchiveName(keyspace, timestamp), true)])[..|files|] == files;
  }

  lemma {:induction false} ArchivesOfNode(path: string, requests: seq<B.Request>, timestamp: A.Timestamp, n: nat,
                                          i: nat, files: seq<A.File>)
    requires Distinct(requests) && i < |requests| && n <= |requests| && |files| == n
    requires forall j :: 0 <= j < n ==> files[j] == A.File(A.ArchiveName(requests[j].keyspace, timestamp), true)
    ensures OfKeyspace(A.ArchivesIn(path, files), requests[i].keyspace) ==
            if i < n then [A.Backup(path, A.ArchiveName(requests[i].keyspace, timestamp), requests[i].keyspace)] else []
  {
    hide A.ArchiveName, A.ArchivesIn, Free, OfKeyspace;
    if n == 0 {
      NoArchives(path);
      NothingOfKeyspace(requests[i].keyspace);
    } else {
      var k := requests[n - 1].keyspace;
      ArchivesOfNode(path, requests, timestamp, n - 1, i, files[..n - 1]);
      OneMoreArchive(path, files[..n - 1], k, timestamp);
      assert files == files[..n - 1] + [A.File(A.ArchiveName(k, timestamp), true)];
      var last := [A.Backup(path, A.ArchiveName(k, timestamp), k)];
      OfKeyspaceAppend(A.ArchivesIn(path, files[..n - 1]), last, requests[i].keyspace);
      OneOfKeyspace(last[0], requests[i].keyspace);
      assert i != n - 1 ==> requests[i].keyspace != k;
    }
  }

  lemma NodeGives(path: string, node: Node, requests: seq<B.Request>, timestamp: A.Timestamp, i: nat)
    requires Distinct(requests) && i < |requests| && BackedUpBy(node, requests, timestamp)
    ensures OfKeyspace(A.ArchivesIn(path, VaultDir(node).files), requests[i].keyspace) ==
            [A.Backup(path, A.ArchiveName(requests[i].keyspace, timestamp), requests[i].keyspace)]
  {
    hide A.ArchiveName, A.KeyspaceOf, Free, Distinct, B.Archived, OfKeyspace;
    var files := VaultDir(node).files;
    var archives := files[..|files| - 1];
    forall j | 0 <= j < |requests|
      ensures archives[j] == A.File(A.ArchiveName(requests[j].keyspace, timestamp), true)
    {
      assert files[j] == A.File(node.archives[j].name, true);
    }
    ArchivesOfNode(path, requests, timestamp, |requests|, i, archives);
    MetadataIsNoArchive();
    assert A.ArchivesIn(path, files) == A.ArchivesIn(path, archives);
  }

  /** The archive of a keyspace on each host. */
  function BackupsOfAll(vault: string, nodes: seq<Node>, keyspace: string, timestamp: A.Timestamp): seq<A.Backup> {
    seq(|nodes|, h requires 0 <= h < |nodes| =>
      A.Backup(vault + "/" + nodes[h].name, A.ArchiveName(keyspace, timestamp), keyspace))
  }

  /** Every host contributes exactly one archive of a requested keyspace, in the order of the hosts. */
  lemma {:induction false} VaultFinds(vault: string, nodes: seq<Node>, requests: seq<B.Request>,
                                      timestamp: A.Timestamp, i: nat)
    requires Distinct(requests) && i < |requests|
    requires forall h :: 0 <= h < |nodes| ==> BackedUpBy(nodes[h], requests, timestamp) && "cassandra" <= nodes[h].name
    ensures OfKeyspace(A.HostArchives(vault, Vault(nodes)), requests[i].keyspace) ==
            BackupsOfAll(vault, nodes, requests[i].keyspace, timestamp)
  {
    hide A.ArchiveName, A.ArchivesIn, Distinct, BackedUpBy, OfKeyspace;
    if nodes == [] {
      NothingOfKeyspace(requests[i].keyspace);
    } else {
      var init, last := nodes[..|nodes| - 1], nodes[|nodes| - 1];
      VaultFinds(vault, init, requests, timestamp, i);
      assert Vault(nodes)[..|nodes| - 1] == Vault(init);
      var path := vault + "/" + last.name;
      NodeGives(path, last, requests, timestamp, i);
      OfKeyspaceAppend(A.HostArchives(vault, Vault(init)), A.ArchivesIn(path, VaultDir(last).files),
                       requests[i].keyspace);
    }
  }

  // ---------- What an archive is opened as ----------

  function DumpOf(contents: Contents, p: Path): Dump {
    if |p| == 4 then Dump(B.TableOf(p[1]), true, RowsIn(contents, p[0], p[1])) else Dump("", false, {})
  }

  predicate Tagged(p: Path, keyspace: string, tag: string) {
    |p| >= 2 && p[0] == keyspace && p[|p| - 1] == tag
  }

  /** The directories below that of the keyspace that carry the snapshot's name. */
  function DumpsIn(contents: Contents, keyspace: string, tag: string, dirs: seq<Path>): seq<Dump> {
    if dirs == [] then []
    else
      var p := dirs[|dirs| - 1];
      DumpsIn(contents, keyspace, tag, dirs[..|dirs| - 1]) +
      (if Tagged(p, keyspace, tag) then [DumpOf(contents, p)] else [])
  }

  /** What an extracted archive holds of a keyspace. It has a schema of some kind if one was saved before it was
      written, or with its snapshots; that of the keyspace is found if it was saved into a directory of it. */
  function Extracted(node: Node, archive: B.Archive, keyspace: string, meta: Meta): HostBackup {
    var tag := if |archive.name| >= 7 then archive.name[..|archive.name| - 7] else "";
    var packed := SchemaPacked(node.log, archive, keyspace);
    HostBackup(packed || exists p :: p in archive.dirs && |p| == 4,
               packed && archive.dirs[0] != [] && archive.dirs[0][0] == keyspace, meta,
               DumpsIn(node.contents, keyspace, tag, archive.dirs))
  }

  const NotThere := HostBackup(false, false, NoFile, [])

  /** The archive of the i-th request on a host, with the i-th entry of the metadata file. */
  function Opened(node: Node, keyspace: string, i: nat): HostBackup {
    if i >= |node.archives| || i >= |node.metadata| then NotThere
    else
      Extracted(node, node.archives[i], keyspace,
                if B.WriteMetadata(node.metadata) in node.log then Entry(node.metadata[i].allTables) else NoFile)
  }

  function AllOpened(nodes: seq<Node>, keyspace: string, i: nat): seq<HostBackup> {
    if nodes == [] then []
    else AllOpened(nodes[..|nodes| - 1], keyspace, i) + [Opened(nodes[|nodes| - 1], keyspace, i)]
  }

  // ---------- The rows that come back ----------

  /** The rows a host holds of a table, as far as the request asks for it. */
  ghost function RowsOn(node: Node, request: B.Request, table: string): set<Row> {
    if request.keyspace !in node.layout || (request.tables != [] && table !in request.tables) then {}
    else
      set t, x | t in node.layout[request.keyspace] && B.TableOf(t) == table &&
                 x in RowsIn(node.contents, request.keyspace, t) :: x
  }

  ghost function ClusterRows(nodes: seq<Node>, request: B.Request, table: string): set<Row> {
    set h, x | 0 <= h < |nodes| && x in RowsOn(nodes[h], request, table) :: x
  }

  lemma {:induction false} BackedUpMember(dumps: seq<Dump>, table: string, x: Row)
    ensures x in BackedUp(dumps, table) <==>
            exists d :: d in dumps && d.hasSchema && d.table == table && x in d.rows
  {
    if dumps != [] {
      var init, last := dumps[..|dumps| - 1], dumps[|dumps| - 1];
      BackedUpMember(init, table, x);
      assert dumps == init + [last];
    }
  }

  lemma {:induction false} DumpsInMember(contents: Contents, keyspace: string, tag: string, dirs: seq<Path>, d: Dump)
    ensures d in DumpsIn(contents, keyspace, tag, dirs) <==>
            exists p :: p in dirs && Tagged(p, keyspace, tag) && d == DumpOf(contents, p)
  {
    hide DumpOf;
    if dirs != [] {
      var init, last := dirs[..|dirs| - 1], dirs[|dirs| - 1];
      DumpsInMember(contents, keyspace, tag, init, d);
      assert forall p :: p in dirs <==> p in init || p == last;
      var more := if Tagged(last, keyspace, tag) then [DumpOf(contents, last)] else [];
      assert d in DumpsIn(contents, keyspace, tag, dirs) <==> d in DumpsIn(contents, keyspace, tag, init) || d in more;
    }
  }

  /** The archive of a keyspace holds its rows on that host: stubs, its own or another's, add nothing. */
  lemma ArchiveHoldsRows(node: Node, requests: seq<B.Request>, timestamp: A.Timestamp, i: nat, table: string)
    requires i < |requests| && BackedUpBy(node, requests, timestamp)
    ensures BackedUp(Opened(node, requests[i].keyspace, i).dumps, table) == RowsOn(node, requests[i], table)
  {
    hide BackedUp, DumpsIn, B.TableOf, RowsIn, A.BackupName, SchemaPacked, RolesPacked;
    var k, dirs := requests[i].keyspace, node.archives[i].dirs;
    var tag := A.BackupName(k, timestamp);
    A.CutIsBackupName(k, timestamp);
    NameIsLong(k, timestamp);
    var dumps := DumpsIn(node.contents, k, tag, dirs);
    assert Opened(node, k, i).dumps == dumps;
    forall x
      ensures x in BackedUp(dumps, table) <==> x in RowsOn(node, requests[i], table)
    {
      BackedUpMember(dumps, table, x);
      if x in BackedUp(dumps, table) {
        var d :| d in dumps && d.hasSchema && d.table == table && x in d.rows;
        DumpsInMember(node.contents, k, tag, dirs, d);
        var p :| p in dirs && Tagged(p, k, tag) && d == DumpOf(node.contents, p);
        FourDeepIsSnapshot(node.layout, requests, timestamp, i, p);
      }
      if x in RowsOn(node, requests[i], table) {
        var t :| t in node.layout[k] && B.TableOf(t) == table && x in RowsIn(node.contents, k, t);
        var p := B.SnapshotPath(k, t, tag);
        SnapshotIsArchived(node.layout, requests, timestamp, i, t);
        assert Tagged(p, k, tag);
        DumpsInMember(node.contents, k, tag, dirs, DumpOf(node.contents, p));
      }
    }
  }

  lemma NameIsLong(keyspace: string, timestamp: A.Timestamp)
    ensures |A.ArchiveName(keyspace, timestamp)| >= 7
  {
  }

  lemma FourDeepIsSnapshot(layout: B.Layout, requests: seq<B.Request>, timestamp: A.Timestamp, i: nat, p: Path)
    requires i < |requests| && p in B.Archived(layout, requests, timestamp, i)
    ensures |p| == 4 ==>
              && requests[i].keyspace in layout && p[1] in layout[requests[i].keyspace]
              && (requests[i].tables == [] || B.TableOf(p[1]) in requests[i].tables)
  {
    hide A.BackupName, B.TableOf, B.Made, B.Mistaken;
  }

  lemma SnapshotIsArchived(layout: B.Layout, requests: seq<B.Request>, timestamp: A.Timestamp, i: nat, t: string)
    requires i < |requests| && requests[i].keyspace in layout && t in layout[requests[i].keyspace]
    requires requests[i].tables == [] || B.TableOf(t) in requests[i].tables
    ensures B.SnapshotPath(requests[i].keyspace, t, A.BackupName(requests[i].keyspace, timestamp)) in
            B.Archived(layout, requests, timestamp, i)
  {
    hide A.BackupName, B.TableOf, B.Made, B.Mistaken;
    var p := B.SnapshotPath(requests[i].keyspace, t, A.BackupName(requests[i].keyspace, timestamp));
    assert p in B.Snaps(layout, requests[i], timestamp);
    assert p in B.Found(layout, requests, timestamp, i);
  }

  lemma {:induction false} ArchivesHoldRows(nodes: seq<Node>, requests: seq<B.Request>, timestamp: A.Timestamp,
                                            i: nat, table: string)
    requires i < |requests| && forall h :: 0 <= h < |nodes| ==> BackedUpBy(nodes[h], requests, timestamp)
    ensures BackedUp(AllDumps(AllOpened(nodes, requests[i].keyspace, i)), table) ==
            ClusterRows(nodes, requests[i], table)
    ensures |AllOpened(nodes, requests[i].keyspace, i)| == |nodes|
    ensures forall h :: 0 <= h < |nodes| ==>
              AllOpened(nodes, requests[i].keyspace, i)[h] == Opened(nodes[h], requests[i].keyspace, i)
  {
    hide BackedUpBy, RowsOn, Opened, BackedUp, AllDumps, AllOpened, ClusterRows;
    if nodes == [] {
      NoNodes(requests[i], table, i);
    } else {
      var init, last, k := nodes[..|nodes| - 1], nodes[|nodes| - 1], requests[i].keyspace;
      ArchivesHoldRows(init, requests, timestamp, i, table);
      ArchiveHoldsRows(last, requests, timestamp, i, table);
      OpenedIsRead(last, requests, timestamp, k, i);
      BackedUpAppend(AllDumps(AllOpened(init, k, i)), Opened(last, k, i).dumps, table);
      OneMoreOpened(nodes, k, i);
      assert forall h :: 0 <= h < |init| ==> init[h] == nodes[h];
      ClusterRowsSnoc(nodes, requests[i], table);
    }
  }

  lemma NoNodes(request: B.Request, table: string, i: nat)
    ensures AllOpened([], request.keyspace, i) == [] && AllDumps([]) == [] && BackedUp([], table) == {}
    ensures ClusterRows([], request, table) == {}
  {
  }

  lemma OneMoreOpened(nodes: seq<Node>, keyspace: string, i: nat)
    requires nodes != []
    ensures var init, last := nodes[..|nodes| - 1], Opened(nodes[|nodes| - 1], keyspace, i);
            && AllOpened(nodes, keyspace, i) == AllOpened(init, keyspace, i) + [last]
            && AllDumps(AllOpened(nodes, keyspace, i)) ==
               AllDumps(AllOpened(init, keyspace, i)) + (if last.readable then last.dumps else [])
  {
    hide Opened;
    var init := AllOpened(nodes[..|nodes| - 1], keyspace, i);
    assert AllOpened(nodes, keyspace, i)[..|init|] == init;
  }

  lemma OpenedIsRead(node: Node, requests: seq<B.Request>, timestamp: A.Timestamp, keyspace: string, i: nat)
    requires BackedUpBy(node, requests, timestamp) && i < |requests| && keyspace == requests[i].keyspace
    ensures Opened(node, keyspace, i).readable
  {
    hide SchemaPacked, RolesPacked, DumpsIn, B.Holds, B.Archived;
  }

  lemma PackedHasDirs(log: seq<B.Op>, archive: B.Archive, keyspace: string)
    requires SchemaPacked(log, archive, keyspace)
    ensures archive.dirs != []
  {
  }

  lemma ClusterRowsSnoc(nodes: seq<Node>, request: B.Request, table: string)
    requires nodes != []
    ensures ClusterRows(nodes, request, table) ==
            ClusterRows(nodes[..|nodes| - 1], request, table) + RowsOn(nodes[|nodes| - 1], request, table)
  {
    hide RowsOn;
    var init := nodes[..|nodes| - 1];
    assert forall h :: 0 <= h < |init| ==> init[h] == nodes[h];
    forall x | x in ClusterRows(init, request, table)
      ensures x in ClusterRows(nodes, request, table)
    {
      var h :| 0 <= h < |init| && x in RowsOn(init[h], request, table);
      assert x in RowsOn(nodes[h], request, table);
    }
    forall x | x in ClusterRows(nodes, request, table)
      ensures x in ClusterRows(init, request, table) + RowsOn(nodes[|nodes| - 1], request, table)
    {
      var h :| 0 <= h < |nodes| && x in RowsOn(nodes[h], request, table);
      assert h < |init| ==> x in RowsOn(init[h], request, table);
    }
  }

  /** Backup on every host, then a completed restore into a clone: every table of the clone holds exactly the rows
      that the hosts held of it together, on top of what a keyspace of that name held when roles are restored as
      well. */
  lemma BackupThenClone(faults: Faults, nodes: seq<Node>, requests: seq<B.Request>, timestamp: A.Timestamp, i: nat,
                        newName: string, roles: bool, w: World, table: string)
    requires i < |requests| && nodes != [] && newName != ""
    requires forall h :: 0 <= h < |nodes| ==> BackedUpBy(nodes[h], requests, timestamp)
    requires var k := requests[i].keyspace;
             AllWork(faults, Events(Clone(newName), k, AllOpened(nodes, k, i), roles), w)
    ensures var k := requests[i].keyspace;
            var after := Run(faults, Events(Clone(newName), k, AllOpened(nodes, k, i), roles), w).keyspaces;
            var before := if roles then TablesOf(w.keyspaces, newName) else map[];
            && newName in after && after - {newName} == w.keyspaces - {newName}
            && Rows(after[newName], table) == Rows(before, table) + ClusterRows(nodes, requests[i], table)
  {
    hide Run, AllWork, Events, BackedUpBy, Opened, ClusterRows, BackedUp, AllDumps;
    var k := requests[i].keyspace;
    var hosts := AllOpened(nodes, k, i);
    ArchivesHoldRows(nodes, requests, timestamp, i, table);
    OpenedIsRead(nodes[0], requests, timestamp, k, i);
    assert hosts[0].readable;
    CloneRoundTrip(faults, k, newName, hosts, roles, w, table);
  }

  /** Backup on every host, then a completed restore in place: a table comes back exactly when the dump read last
      holds all rows that the hosts held of it. */
  lemma BackupThenRestore(faults: Faults, nodes: seq<Node>, requests: seq<B.Request>, timestamp: A.Timestamp, i: nat,
                          roles: bool, w: World, table: string)
    requires i < |requests| && requests[i].keyspace != ""
    requires forall h :: 0 <= h < |nodes| ==> BackedUpBy(nodes[h], requests, timestamp)
    requires var k := requests[i].keyspace;
             && Holds(AllDumps(AllOpened(nodes, k, i)), table)
             && AllWork(faults, Events(InPlace, k, AllOpened(nodes, k, i), roles), w)
    ensures var k := requests[i].keyspace;
            var hosts := AllOpened(nodes, k, i);
            var after := Run(faults, Events(InPlace, k, hosts, roles), w).keyspaces;
            && k in after && after - {k} == w.keyspaces - {k} && table in after[k]
            && (after[k][table] == ClusterRows(nodes, requests[i], table) <==>
                Complete(LastDump(AllDumps(hosts), table), AllDumps(hosts), table))
  {
    hide Run, AllWork, Events, BackedUpBy, Opened, ClusterRows, BackedUp, AllDumps, Holds, LastDump, Complete;
    hide Surviving;
    var k := requests[i].keyspace;
    var hosts := AllOpened(nodes, k, i);
    ArchivesHoldRows(nodes, requests, timestamp, i, table);
    NodesAgree(nodes, requests, timestamp, i);
    SurvivingAll(InPlace, hosts, roles);
    InPlaceRoundTrip(faults, k, hosts, roles, w, table);
  }

  /** The hosts of one run agree on whether they hold the whole keyspace, because they served the same request. */
  lemma NodesAgree(nodes: seq<Node>, requests: seq<B.Request>, timestamp: A.Timestamp, i: nat)
    requires i < |requests| && forall h :: 0 <= h < |nodes| ==> BackedUpBy(nodes[h], requests, timestamp)
    ensures Agree(AllOpened(nodes, requests[i].keyspace, i))
  {
    hide DumpsIn, B.Archived, B.Holds, RowsOn, BackedUp, AllDumps, SchemaPacked, RolesPacked, AllOpened, ClusterRows;
    ArchivesHoldRows(nodes, requests, timestamp, i, "");
  }

  // ---------- From the vault to the database ----------

  /** The position of an archive by its name, the number of archives when it is not among them. */
  function IndexOf(archives: seq<B.Archive>, name: string): (i: nat)
    ensures i <= |archives|
  {
    if archives == [] then 0 else if archives[0].name == name then 0 else 1 + IndexOf(archives[1..], name)
  }

  /** The first entry of a keyspace in a metadata file. */
  function MetaOf(metadata: seq<B.Metadata>, keyspace: string): Meta {
    if metadata == [] then NoEntry
    else if metadata[0].keyspace == keyspace then Entry(metadata[0].allTables)
    else MetaOf(metadata[1..], keyspace)
  }

  /** An archive found in the directory of a host, with the metadata file beside it. */
  function ExtractedFrom(node: Node, backup: A.Backup): HostBackup {
    var i := IndexOf(node.archives, backup.archive);
    if i == |node.archives| then NotThere
    else
      Extracted(node, node.archives[i], backup.keyspace,
                if B.WriteMetadata(node.metadata) in node.log then MetaOf(node.metadata, backup.keyspace) else NoFile)
  }

  /** An archive found in the vault: its path says whose it is. */
  function Unpacked(vault: string, nodes: seq<Node>, backup: A.Backup): HostBackup {
    if nodes == [] then NotThere
    else if vault + "/" + nodes[0].name == backup.path then ExtractedFrom(nodes[0], backup)
    else Unpacked(vault, nodes[1..], backup)
  }

  /** What the restore finds of each of the databases it is asked for. */
  function FromVault(vault: string, nodes: seq<Node>, dbs: seq<string>): Archives {
    map db | db in dbs :: UnpackedAll(vault, nodes, OfKeyspace(A.HostArchives(vault, Vault(nodes)), db))
  }

  function UnpackedAll(vault: string, nodes: seq<Node>, backups: seq<A.Backup>): seq<HostBackup> {
    seq(|backups|, j requires 0 <= j < |backups| => Unpacked(vault, nodes, backups[j]))
  }

  lemma ArchiveNameInjective(k: string, other: string, timestamp: A.Timestamp)
    requires A.ArchiveName(k, timestamp) == A.ArchiveName(other, timestamp)
    ensures k == other
  {
    var a, b := A.ArchiveName(k, timestamp), A.ArchiveName(other, timestamp);
    A.PrintedStart(k, timestamp);
    A.PrintedStart(other, timestamp);
    A.PrintedStamp(k, timestamp);
    A.PrintedStamp(other, timestamp);
    assert a[..|k|] == k && b[..|other|] == other;
  }

  lemma {:induction false} IndexFound(archives: seq<B.Archive>, i: nat)
    requires i < |archives| && forall j :: 0 <= j < i ==> archives[j].name != archives[i].name
    ensures IndexOf(archives, archives[i].name) == i
  {
    if i > 0 {
      IndexFound(archives[1..], i - 1);
    }
  }

  lemma {:induction false} MetaFound(metadata: seq<B.Metadata>, i: nat)
    requires i < |metadata| && forall j :: 0 <= j < i ==> metadata[j].keyspace != metadata[i].keyspace
    ensures MetaOf(metadata, metadata[i].keyspace) == Entry(metadata[i].allTables)
  {
    if i > 0 {
      MetaFound(metadata[1..], i - 1);
    }
  }

  /** On the host that made it, the archive of a requested keyspace is found by its name, and its entry too. */
  lemma ExtractedIsOpened(path: string, node: Node, requests: seq<B.Request>, timestamp: A.Timestamp, i: nat)
    requires Distinct(requests) && i < |requests| && BackedUpBy(node, requests, timestamp)
    ensures var k := requests[i].keyspace;
            ExtractedFrom(node, A.Backup(path, A.ArchiveName(k, timestamp), k)) == Opened(node, k, i)
  {
    hide A.ArchiveName, B.Archived, DumpsIn, Free;
    forall j | 0 <= j < i
      ensures node.archives[j].name != node.archives[i].name && node.metadata[j].keyspace != node.metadata[i].keyspace
    {
      assert requests[j].keyspace != requests[i].keyspace;
      if node.archives[j].name == node.archives[i].name {
        ArchiveNameInjective(requests[j].keyspace, requests[i].keyspace, timestamp);
      }
    }
    IndexFound(node.archives, i);
    MetaFound(node.metadata, i);
  }

  predicate DistinctNames(nodes: seq<Node>) {
    forall g, h :: 0 <= g < h < |nodes| ==> nodes[g].name != nodes[h].name
  }

  lemma {:induction false} UnpackedOf(vault: string, nodes: seq<Node>, h: nat, backup: A.Backup)
    requires h < |nodes| && DistinctNames(nodes) && backup.path == vault + "/" + nodes[h].name
    ensures Unpacked(vault, nodes, backup) == ExtractedFrom(nodes[h], backup)
  {
    hide ExtractedFrom;
    if h > 0 {
      PathInjective(vault, nodes[0].name, nodes[h].name);
      UnpackedOf(vault, nodes[1..], h - 1, backup);
    }
  }

  lemma PathInjective(vault: string, a: string, b: string)
    ensures vault + "/" + a == vault + "/" + b ==> a == b
  {
    assert (vault + "/" + a)[|vault| + 1..] == a && (vault + "/" + b)[|vault| + 1..] == b;
  }

  /** A cluster whose hosts have all backed up, and whose host directories lie in one vault. */
  ghost predicate Collected(nodes: seq<Node>, requests: seq<B.Request>, timestamp: A.Timestamp) {
    && nodes != [] && DistinctNames(nodes) && Distinct(requests)
    && forall h :: 0 <= h < |nodes| ==> BackedUpBy(nodes[h], requests, timestamp) && "cassandra" <= nodes[h].name
  }

  /** What the restore finds in the vault of a requested keyspace is the archive of each host, in their order. */
  lemma VaultOpens(vault: string, nodes: seq<Node>, requests: seq<B.Request>, timestamp: A.Timestamp, i: nat,
                   dbs: seq<string>)
    requires Collected(nodes, requests, timestamp) && i < |requests| && requests[i].keyspace in dbs
    ensures BackupsOf(FromVault(vault, nodes, dbs), requests[i].keyspace) == AllOpened(nodes, requests[i].keyspace, i)
  {
    hide A.HostArchives, A.ArchiveName, Unpacked, ExtractedFrom, Opened, BackedUpBy, Distinct, DistinctNames;
    hide OfKeyspace, BackedUp, AllDumps, ClusterRows;
    var k := requests[i].keyspace;
    VaultFinds(vault, nodes, requests, timestamp, i);
    ArchivesHoldRows(nodes, requests, timestamp, i, "");
    var backups := BackupsOfAll(vault, nodes, k, timestamp);
    forall h | 0 <= h < |nodes|
      ensures Unpacked(vault, nodes, backups[h]) == Opened(nodes[h], k, i)
    {
      UnpackedOf(vault, nodes, h, backups[h]);
      ExtractedIsOpened(vault + "/" + nodes[h].name, nodes[h], requests, timestamp, i);
    }
    assert UnpackedAll(vault, nodes, backups) == AllOpened(nodes, k, i);
  }
}
