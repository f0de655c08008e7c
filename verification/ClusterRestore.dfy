/** A whole cluster backed up and restored: what comes back, and whether the restore completes at all. */
module ClusterRestore {
  import opened Text
  import opened HostFiles
  import opened Restore
  import opened RestoreLaws
  import opened Completion
  import opened RoundTrip
  import A = ArchiveNames
  import B = BackupRun

  // ---------- What comes back ----------

  /** The rows a restored table holds, next to those the hosts held of it together. */
  ghost predicate TableBack(kss: Keyspaces, tables: Tables, mode: Mode, hosts: seq<HostBackup>, rows: set<Row>,
                            roles: bool, table: string) {
    match mode
    case InPlace =>
      Holds(AllDumps(hosts), table) ==>
        && table in tables
        && (tables[table] == rows <==> Complete(LastDump(AllDumps(hosts), table), AllDumps(hosts), table))
    case Clone(newName) =>
      Rows(tables, table) == Rows(if roles then TablesOf(kss, newName) else map[], table) + rows
  }

  lemma OneBack(nodes: seq<Node>, requests: seq<B.Request>, timestamp: A.Timestamp, i: nat, mode: Mode, roles: bool,
                kss: Keyspaces, table: string)
    requires Collected(nodes, requests, timestamp) && i < |requests| && Target(mode, requests[i].keyspace) != ""
    ensures var k, hosts := requests[i].keyspace, AllOpened(nodes, requests[i].keyspace, i);
            var after := Effect(kss, Events(mode, k, hosts, roles));
            && AnyReadable(hosts) && Target(mode, k) in after
            && TableBack(kss, after[Target(mode, k)], mode, hosts, ClusterRows(nodes, requests[i], table), roles, table)
  {
    hide Effect, Events, BackedUpBy, Opened, ClusterRows, BackedUp, AllDumps, Holds, LastDump, Complete, Surviving;
    hide PlacedAll;
    var k, hosts := requests[i].keyspace, AllOpened(nodes, requests[i].keyspace, i);
    ArchivesHoldRows(nodes, requests, timestamp, i, table);
    OpenedIsRead(nodes[0], requests, timestamp, k, i);
    assert hosts[0].readable;
    HostsEffect(mode, k, hosts, roles, kss);
    match mode
    case InPlace =>
      if Holds(AllDumps(hosts), table) {
        NodesAgree(nodes, requests, timestamp, i);
        SurvivingAll(InPlace, hosts, roles);
        InPlaceRows(k, hosts, roles, kss, table);
      }
    case Clone(newName) =>
      CloneRows(k, newName, hosts, roles, kss, table);
  }

  /** All hosts back up, their archives are collected in a vault, and a completed restore of some of the requested
      keyspaces, each into a keyspace of its own, gives every table the rows of the whole cluster: in a clone
      always, in place exactly when the dump read last holds them all. Other keyspaces are as they were. */
  lemma WholeRestore(faults: Faults, vault: string, nodes: seq<Node>, requests: seq<B.Request>,
                     timestamp: A.Timestamp, dbs: seq<string>, renaming: Option<map<string, string>>, roles: bool,
                     w: World, j: nat, i: nat, table: string)
    requires Collected(nodes, requests, timestamp) && DistinctTargets(dbs, renaming)
    requires j < |dbs| && i < |requests| && dbs[j] == requests[i].keyspace
    requires AllWork(faults, AllEvents(dbs, FromVault(vault, nodes, dbs), renaming, roles, |dbs|), w)
    ensures var after := Run(faults, AllEvents(dbs, FromVault(vault, nodes, dbs), renaming, roles, |dbs|), w).keyspaces;
            var k := TargetOf(renaming, dbs[j]);
            && k in after
            && TableBack(w.keyspaces, after[k], ModeOf(renaming, dbs[j]), AllOpened(nodes, dbs[j], i),
                         ClusterRows(nodes, requests[i], table), roles, table)
            && forall other :: Untargeted(dbs, renaming, |dbs|, other) ==> SameAt(w.keyspaces, after, other)
  {
    hide Run, AllWork, Effect, Events, AllEvents, AfterKeyspaces, TableBack, ClusterRows, AllOpened, Collected;
    hide SameAt, PlacedAll, FromVault, Untargeted, ModeOf, Surviving;
    var archives, db := FromVault(vault, nodes, dbs), dbs[j];
    RunEffect(faults, AllEvents(dbs, archives, renaming, roles, |dbs|), w);
    AllEventsEffect(w.keyspaces, dbs, archives, renaming, roles, |dbs|);
    KeyspacesIndependent(w.keyspaces, dbs, archives, renaming, roles, |dbs|);
    VaultOpens(vault, nodes, requests, timestamp, i, dbs);
    OneBack(nodes, requests, timestamp, i, ModeOf(renaming, db), roles, w.keyspaces, table);
    HostsEffect(ModeOf(renaming, db), db, BackupsOf(archives, db), roles, w.keyspaces);
  }

  // ---------- Whether the restore completes ----------

  /** In place, a keyspace that was backed up whole is opened with the schema of the first host only. */
  predicate SchemaAsked(mode: Mode, request: B.Request, h: nat) {
    mode.Clone? || request.tables != [] || h == 0
  }

  /** The first directory of a host's archive is one of the keyspace's own. */
  predicate SchemaThere(node: Node, keyspace: string, i: nat) {
    && i < |node.archives| && node.archives[i].dirs != [] && node.archives[i].dirs[0] != []
    && node.archives[i].dirs[0][0] == keyspace
  }

  lemma OpenedMeta(node: Node, requests: seq<B.Request>, timestamp: A.Timestamp, i: nat)
    requires BackedUpBy(node, requests, timestamp) && i < |requests|
    ensures var host := Opened(node, requests[i].keyspace, i);
            && host.readable && host.meta == Entry(requests[i].tables == [])
            && (host.schema <==> SchemaThere(node, requests[i].keyspace, i))
  {
    hide SchemaPacked, RolesPacked, B.Holds, B.Archived, DumpsIn;
    PackedHasDirs(node.log, node.archives[i], requests[i].keyspace);
  }

  lemma WholeFromFirst(nodes: seq<Node>, requests: seq<B.Request>, timestamp: A.Timestamp, i: nat, roles: bool,
                       h: nat)
    requires i < |requests| && forall g :: 0 <= g < |nodes| ==> BackedUpBy(nodes[g], requests, timestamp)
    requires h < |nodes|
    ensures |AllOpened(nodes, requests[i].keyspace, i)| == |nodes|
    ensures Dropped(InPlace, AllOpened(nodes, requests[i].keyspace, i)[..h], roles) <==>
            h > 0 && requests[i].tables == []
  {
    hide BackedUpBy, Opened, ClusterRows, BackedUp, AllDumps, Dropped;
    var hosts := AllOpened(nodes, requests[i].keyspace, i);
    ArchivesHoldRows(nodes, requests, timestamp, i, "");
    FirstClears(InPlace, hosts[..h], roles);
    forall g | 0 <= g < h
      ensures hosts[..h][g].readable && hosts[..h][g].meta == Entry(requests[i].tables == [])
    {
      OpenedMeta(nodes[g], requests, timestamp, i);
    }
    assert h > 0 ==> hosts[..h][0].readable;
  }

  /** After the backup of all hosts, a restore during which nothing outside fails completes if and only if it has a
      name to restore under and each archive whose schema is asked for begins with a directory of its keyspace. */
  lemma BackupRestores(nodes: seq<Node>, requests: seq<B.Request>, timestamp: A.Timestamp, i: nat, mode: Mode,
                       roles: bool, faults: Faults, w: World)
    requires i < |requests| && nodes != [] && forall n :: faults(n).Calm?
    requires forall h :: 0 <= h < |nodes| ==> BackedUpBy(nodes[h], requests, timestamp)
    ensures var k := requests[i].keyspace;
            AllWork(faults, Events(mode, k, AllOpened(nodes, k, i), roles), w) <==>
            && Target(mode, k) != ""
            && forall h :: 0 <= h < |nodes| && SchemaAsked(mode, requests[i], h) ==> SchemaThere(nodes[h], k, i)
  {
    hide AllWork, Events, BackedUpBy, Opened, ClusterRows, BackedUp, AllDumps, Dropped;
    var k := requests[i].keyspace;
    var hosts := AllOpened(nodes, k, i);
    CalmRestoreCompletes(faults, mode, k, hosts, roles, w);
    ArchivesHoldRows(nodes, requests, timestamp, i, "");
    forall h | 0 <= h < |nodes|
      ensures Opens(mode, k, hosts[h], Dropped(mode, hosts[..h], roles)) <==>
              (mode.InPlace? && h > 0 && requests[i].tables == []) ||
              (SchemaThere(nodes[h], k, i) && Target(mode, k) != "")
    {
      OpenedMeta(nodes[h], requests, timestamp, i);
      WholeFromFirst(nodes, requests, timestamp, i, roles, h);
    }
    assert AllOpen(mode, k, hosts, roles) ==> Opens(mode, k, hosts[0], Dropped(mode, hosts[..0], roles));
  }

  // ---------- Names that clash ----------

  /** Without a clash of names the first directory of an archive is its own, so its keyspace's schema is found. */
  lemma SchemaIsFound(node: Node, requests: seq<B.Request>, timestamp: A.Timestamp, i: nat)
    requires i < |requests| && BackedUpBy(node, requests, timestamp)
    requires B.Archived(node.layout, requests, timestamp, i) == B.Own(node.layout, requests[i], timestamp)
    ensures SchemaThere(node, requests[i].keyspace, i)
  {
    hide A.BackupName, B.TableOf, B.Archived, DumpsIn;
    assert node.archives[i].dirs[0] in node.archives[i].dirs;
  }

  /** An archive that is not exact holds another keyspace's directory. */
  lemma ForeignDir(layout: B.Layout, requests: seq<B.Request>, timestamp: A.Timestamp, i: nat) returns (p: Path)
    requires i < |requests| && DistinctKeyspaces(requests)
    requires B.Archived(layout, requests, timestamp, i) != B.Own(layout, requests[i], timestamp)
    ensures p in B.Archived(layout, requests, timestamp, i) && p != [] && p[0] != requests[i].keyspace
  {
    hide B.Snaps, A.BackupName, EndsWith;
    var made, k := B.Made(layout, requests, timestamp, i), requests[i].keyspace;
    if B.Mistaken(made, k) == {} {
      B.NoStubs(timestamp);
    }
    var other :| other in B.Mistaken(made, k);
    B.MadeAreRequested(layout, requests, timestamp, i);
    p := B.Stub(other, timestamp);
    assert p in B.Found(layout, requests, timestamp, i);
  }

  /** An operation of a run in which another directory of an archive was found first. */
  function Redirected(op: B.Op, keyspace: string, archive: B.Archive, p: Path): B.Op {
    match op
    case SaveRoles(k, _) => if k == keyspace then B.SaveRoles(k, p) else op
    case SaveSchema(k, _) => if k == keyspace then B.SaveSchema(k, p) else op
    case WriteArchive(name, dirs) =>
      if name == archive.name then B.WriteArchive(name, [p] + archive.dirs) else op
    case _ => op
  }

  function RedirectedLog(log: seq<B.Op>, keyspace: string, archive: B.Archive, p: Path): seq<B.Op> {
    seq(|log|, t requires 0 <= t < |log| => Redirected(log[t], keyspace, archive, p))
  }

  /** The same node, with one of the directories of an archive found first. */
  function FoundFirst(node: Node, keyspace: string, i: nat, p: Path): Node
    requires i < |node.archives|
  {
    var archive := node.archives[i];
    node.(archives := node.archives[i := B.Archive(archive.name, [p] + archive.dirs)],
          log := RedirectedLog(node.log, keyspace, archive, p))
  }

  lemma StillPacked(log: seq<B.Op>, archive: B.Archive, other: B.Archive, keyspace: string, k: string, p: Path)
    requires SchemaPacked(log, other, k) && RolesPacked(log, other, k)
    requires (k == keyspace && other == archive) || (k != keyspace && other.name != archive.name)
    ensures var after := if k == keyspace then B.Archive(archive.name, [p] + archive.dirs) else other;
            var more := RedirectedLog(log, keyspace, archive, p);
            SchemaPacked(more, after, k) && RolesPacked(more, after, k)
  {
    var more := RedirectedLog(log, keyspace, archive, p);
    var after := if k == keyspace then B.Archive(archive.name, [p] + archive.dirs) else other;
    var a, c :| 0 <= a < c < |log| && log[a] == B.SaveSchema(k, other.dirs[0]) &&
                log[c] == B.WriteArchive(other.name, other.dirs);
    assert more[a] == B.SaveSchema(k, after.dirs[0]) && more[c] == B.WriteArchive(after.name, after.dirs);
    var b, d :| 0 <= b < d < |log| && log[b] == B.SaveRoles(k, other.dirs[0]) &&
                log[d] == B.WriteArchive(other.name, other.dirs);
    assert more[b] == B.SaveRoles(k, after.dirs[0]) && more[d] == B.WriteArchive(after.name, after.dirs);
  }

  lemma StillBackedUp(node: Node, requests: seq<B.Request>, timestamp: A.Timestamp, i: nat, p: Path)
    requires i < |requests| && BackedUpBy(node, requests, timestamp) && DistinctKeyspaces(requests)
    requires p in B.Archived(node.layout, requests, timestamp, i)
    ensures BackedUpBy(FoundFirst(node, requests[i].keyspace, i, p), requests, timestamp)
    ensures SchemaThere(FoundFirst(node, requests[i].keyspace, i, p), requests[i].keyspace, i) ==>
              p != [] && p[0] == requests[i].keyspace
  {
    hide B.Archived, A.ArchiveName, DumpsIn, SchemaPacked, RolesPacked, Redirected;
    var k, archive := requests[i].keyspace, node.archives[i];
    var after := FoundFirst(node, k, i, p);
    var w :| 0 <= w < |node.log| && node.log[w] == B.WriteMetadata(node.metadata);
    assert after.log[w] == B.WriteMetadata(node.metadata) by {
      MetadataKept(node.metadata, k, archive, p);
    }
    forall j | 0 <= j < |requests|
      ensures SchemaPacked(after.log, after.archives[j], requests[j].keyspace)
      ensures RolesPacked(after.log, after.archives[j], requests[j].keyspace)
    {
      if j != i && node.archives[j].name == archive.name {
        ArchiveNameInjective(requests[j].keyspace, k, timestamp);
      }
      StillPacked(node.log, archive, node.archives[j], k, requests[j].keyspace, p);
    }
  }

  lemma MetadataKept(metadata: seq<B.Metadata>, keyspace: string, archive: B.Archive, p: Path)
    ensures Redirected(B.WriteMetadata(metadata), keyspace, archive, p) == B.WriteMetadata(metadata)
  {
  }

  /** Hosts with the same tables after a backup of the same requests: the order in which the directories were found
      may be another one. */
  ghost predicate Likewise(nodes: seq<Node>, others: seq<Node>, requests: seq<B.Request>, timestamp: A.Timestamp) {
    |others| == |nodes| &&
    forall h :: 0 <= h < |nodes| ==>
      BackedUpBy(others[h], requests, timestamp) && others[h].layout == nodes[h].layout
  }

  ghost predicate CompletesAfter(nodes: seq<Node>, others: seq<Node>, requests: seq<B.Request>,
                                 timestamp: A.Timestamp, i: nat, mode: Mode, roles: bool, faults: Faults, w: World)
    requires i < |requests|
  {
    var k := requests[i].keyspace;
    Likewise(nodes, others, requests, timestamp) ==>
      AllWork(faults, Events(mode, k, AllOpened(others, k, i), roles), w)
  }

  /** Whatever the order in which directories are found, a restore during which nothing outside fails completes, if
      and only if the archives whose schema is asked for are exact. */
  lemma CompletesInAnyOrder(nodes: seq<Node>, requests: seq<B.Request>, timestamp: A.Timestamp, i: nat, mode: Mode,
                            roles: bool, faults: Faults, w: World)
    requires i < |requests| && nodes != [] && DistinctKeyspaces(requests) && forall n :: faults(n).Calm?
    requires forall h :: 0 <= h < |nodes| ==> BackedUpBy(nodes[h], requests, timestamp)
    requires Target(mode, requests[i].keyspace) != ""
    ensures (forall others :: CompletesAfter(nodes, others, requests, timestamp, i, mode, roles, faults, w)) <==>
            forall h :: 0 <= h < |nodes| && SchemaAsked(mode, requests[i], h) ==>
              B.Archived(nodes[h].layout, requests, timestamp, i) == B.Own(nodes[h].layout, requests[i], timestamp)
  {
    hide AllWork, Events, BackedUpBy, SchemaThere, B.Archived, B.Own, AllOpened, DistinctKeyspaces;
    if forall h :: 0 <= h < |nodes| && SchemaAsked(mode, requests[i], h) ==>
         B.Archived(nodes[h].layout, requests, timestamp, i) == B.Own(nodes[h].layout, requests[i], timestamp) {
      forall others
        ensures CompletesAfter(nodes, others, requests, timestamp, i, mode, roles, faults, w)
      {
        if Likewise(nodes, others, requests, timestamp) {
          forall h | 0 <= h < |others| && SchemaAsked(mode, requests[i], h)
            ensures SchemaThere(others[h], requests[i].keyspace, i)
          {
            SchemaIsFound(others[h], requests, timestamp, i);
          }
          BackupRestores(others, requests, timestamp, i, mode, roles, faults, w);
        }
      }
    } else {
      var h :| 0 <= h < |nodes| && SchemaAsked(mode, requests[i], h) &&
               B.Archived(nodes[h].layout, requests, timestamp, i) != B.Own(nodes[h].layout, requests[i], timestamp);
      var p := ForeignDir(nodes[h].layout, requests, timestamp, i);
      ArchivesAreThere(nodes[h], requests, timestamp, i);
      StillBackedUp(nodes[h], requests, timestamp, i, p);
      var others := nodes[h := FoundFirst(nodes[h], requests[i].keyspace, i, p)];
      BackupRestores(others, requests, timestamp, i, mode, roles, faults, w);
      assert !SchemaThere(others[h], requests[i].keyspace, i);
      assert !CompletesAfter(nodes, others, requests, timestamp, i, mode, roles, faults, w);
    }
  }

  lemma ArchivesAreThere(node: Node, requests: seq<B.Request>, timestamp: A.Timestamp, i: nat)
    requires i < |requests| && BackedUpBy(node, requests, timestamp)
    ensures i < |node.archives|
  {
  }

  /** After the backup of a whole keyspace in which the first host's archive begins with another keyspace's directory,
      a restore in place with roles has dropped the keyspace when it stops for want of a schema. */
  lemma HiddenSchemaDropsKeyspace(nodes: seq<Node>, requests: seq<B.Request>, timestamp: A.Timestamp, i: nat,
                                  faults: Faults, w: World)
    requires i < |requests| && nodes != [] && requests[i].tables == [] && forall n :: faults(n).Calm?
    requires forall h :: 0 <= h < |nodes| ==> BackedUpBy(nodes[h], requests, timestamp)
    requires !SchemaThere(nodes[0], requests[i].keyspace, i)
    ensures var k := requests[i].keyspace;
            var events := Events(InPlace, k, AllOpened(nodes, k, i), true);
            !AllWork(faults, events, w) && Run(faults, events, w).keyspaces == w.keyspaces - {k}
  {
    hide Run, AllWork, Events, BackedUpBy, Opened, AllOpened, ClusterRows, BackedUp, AllDumps;
    var k := requests[i].keyspace;
    var hosts := AllOpened(nodes, k, i);
    ArchivesHoldRows(nodes, requests, timestamp, i, "");
    OpenedMeta(nodes[0], requests, timestamp, i);
    UnopenedChangesLittle(faults, InPlace, k, hosts, true, w);
  }

  // ---------- A cluster in which they clash ----------

  const ClashRequests := [B.Request("big_ks", []), B.Request("ks", [])]

  const ClashLayout: B.Layout := map["ks" := {"t-0"}]

  function ClashArchives(timestamp: A.Timestamp): seq<B.Archive> {
    [B.Archive(A.ArchiveName("big_ks", timestamp), [B.Stub("big_ks", timestamp)]),
     B.Archive(A.ArchiveName("ks", timestamp),
               [B.Stub("big_ks", timestamp), B.SnapshotPath("ks", "t-0", A.BackupName("ks", timestamp))])]
  }

  /** The metadata that the listings of such a run give. */
  function ClashMetadata(listing: nat -> seq<string>, base: nat, timestamp: A.Timestamp): seq<B.Metadata> {
    var archives := ClashArchives(timestamp);
    [B.EntryFor(ClashRequests[0], listing(base + |B.RunOps(ClashLayout, ClashRequests, timestamp, [])| +
                                          B.ListAt(ClashLayout, ClashRequests, timestamp, 0))),
     B.EntryFor(ClashRequests[1], listing(base + |B.RunOps(ClashLayout, ClashRequests, timestamp, archives[..1])| +
                                          B.ListAt(ClashLayout, ClashRequests, timestamp, 1)))]
  }

  lemma ClashArchived(timestamp: A.Timestamp)
    ensures B.Archived(ClashLayout, ClashRequests, timestamp, 0) == {B.Stub("big_ks", timestamp)}
    ensures B.Archived(ClashLayout, ClashRequests, timestamp, 1) ==
            {B.Stub("big_ks", timestamp), B.SnapshotPath("ks", "t-0", A.BackupName("ks", timestamp))}
  {
    hide A.BackupName, B.TableOf;
    B.NoStubs(timestamp);
    assert "big_ks"[4..] == "ks";
    assert B.Made(ClashLayout, ClashRequests, timestamp, 0) == {};
    assert B.Mistaken({}, "big_ks") == {};
    assert B.Made(ClashLayout, ClashRequests, timestamp, 1) == {"big_ks"};
    assert B.Mistaken({"big_ks"}, "ks") == {"big_ks"};
    assert B.Snaps(ClashLayout, ClashRequests[1], timestamp) ==
           {B.SnapshotPath("ks", "t-0", A.BackupName("ks", timestamp))};
  }

  function ClashNode(listing: nat -> seq<string>, base: nat, contents: Contents, timestamp: A.Timestamp): Node {
    var archives, metadata := ClashArchives(timestamp), ClashMetadata(listing, base, timestamp);
    Node("cassandra0", ClashLayout, contents, archives, metadata,
         B.RunOps(ClashLayout, ClashRequests, timestamp, archives) + [B.WriteMetadata(metadata)])
  }

  /** This is what a completed backup may leave of a host, and no restore of ks completes after it; in place with
      roles, the keyspace is gone. */
  lemma ClashNeverRestores(works: nat -> bool, listing: nat -> seq<string>, before: seq<B.Op>, contents: Contents,
                           timestamp: A.Timestamp, mode: Mode, roles: bool, faults: Faults, w: World)
    requires (forall n :: works(n)) && forall n :: faults(n).Calm?
    ensures var node := ClashNode(listing, |before|, contents, timestamp);
            && B.AllRecorded(listing, |before|, ClashLayout, ClashRequests, timestamp, node.archives, node.metadata)
            && !AllWork(faults, Events(mode, "ks", AllOpened([node], "ks", 1), roles), w)
            && Run(faults, Events(InPlace, "ks", AllOpened([node], "ks", 1), true), w).keyspaces == w.keyspaces - {"ks"}
  {
    hide AllWork, Run, Events, AllOpened, A.ArchiveName, A.BackupName, B.Archived, B.RunOps, B.ListAt, DumpsIn;
    hide B.EntryFor;
    var node := ClashNode(listing, |before|, contents, timestamp);
    var archives, metadata := node.archives, node.metadata;
    ClashArchived(timestamp);
    assert archives[..0] == [];
    assert B.Recorded(listing, |before|, ClashLayout, ClashRequests, timestamp, archives, metadata, 0);
    assert B.Recorded(listing, |before|, ClashLayout, ClashRequests, timestamp, archives, metadata, 1);
    FinishedRun(works, listing, before, node, ClashRequests, timestamp);
    BackupRestores([node], ClashRequests, timestamp, 1, mode, roles, faults, w);
    assert !SchemaThere([node][0], "ks", 1);
    HiddenSchemaDropsKeyspace([node], ClashRequests, timestamp, 1, faults, w);
  }
}
