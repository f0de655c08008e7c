/** The name of a backup archive, printed on the Cassandra host and read again by the backup daemon. */
module ArchiveNames {
  import opened Text

  predicate DigitsAt(s: string, from: nat, to: nat) {
    from <= to <= |s| && forall i :: from <= i < to ==> IsDigit(s[i])
  }

  /** Eight digits, an underscore, six digits. */
  type Timestamp = s: string | |s| == 15 && DigitsAt(s, 0, 8) && s[8] == '_' && DigitsAt(s, 9, 15)
    witness "00000000_000000"

  function BackupName(keyspace: string, timestamp: Timestamp): string {
    keyspace + "-" + timestamp
  }

  function ArchiveName(keyspace: string, timestamp: Timestamp): string {
    BackupName(keyspace, timestamp) + ".tar.gz"
  }

  /** The part of the pattern after the group matches at i; both dots of the ending match any character
      but a newline, and what comes after the ending does not matter. */
  predicate StampAt(file: string, i: nat) {
    && i + 23 <= |file|
    && file[i] == '-' && DigitsAt(file, i + 1, i + 9) && file[i + 9] == '_' && DigitsAt(file, i + 10, i + 16)
    && file[i + 16] != '\n' && file[i + 17..i + 20] == "tar"
    && file[i + 20] != '\n' && file[i + 21..i + 23] == "gz"
  }

  /** The last position up to n where the stamp matches. */
  function LastStamp(file: string, n: nat): Option<nat> {
    if StampAt(file, n) then Some(n) else if n == 0 then None else LastStamp(file, n - 1)
  }

  /** The group of the greedy pattern: it takes as much of the first line as leaves a stamp to match. */
  function KeyspaceOf(file: string): Option<string> {
    var i := LastStamp(file, UpTo(file, '\n'));
    if i.None? then None else if i.value <= |file| then Some(file[..i.value]) else None
  }

  lemma {:induction false} LastStampIsLast(file: string, n: nat)
    ensures var i := LastStamp(file, n);
            && (i.Some? ==>
                  i.value <= n && StampAt(file, i.value) && forall j :: i.value < j <= n ==> !StampAt(file, j))
            && (i.None? ==> forall j :: 0 <= j <= n ==> !StampAt(file, j))
  {
    if !StampAt(file, n) && n > 0 {
      LastStampIsLast(file, n - 1);
    }
  }

  /** Backtracking from the end of the line. */
  method MatchArchive(file: string) returns (keyspace: Option<string>)
    ensures keyspace == KeyspaceOf(file)
  {
    var i := UpTo(file, '\n');
    while i > 0 && !StampAt(file, i)
      invariant 0 <= i <= UpTo(file, '\n')
      invariant LastStamp(file, i) == LastStamp(file, UpTo(file, '\n'))
    {
      i := i - 1;
    }
    keyspace := if StampAt(file, i) then Some(file[..i]) else None;
  }

  lemma PrintedStamp(keyspace: string, timestamp: Timestamp)
    ensures StampAt(ArchiveName(keyspace, timestamp), |keyspace|)
    ensures |ArchiveName(keyspace, timestamp)| == |keyspace| + 23
  {
  }

  /** The keyspace is read back from every printed name exactly when it holds no newline, whatever dashes
      or stamps it holds. */
  lemma ArchiveNameRoundTrip(keyspace: string, timestamp: Timestamp)
    ensures KeyspaceOf(ArchiveName(keyspace, timestamp)) == Some(keyspace) <==> Free(keyspace, '\n')
  {
    hide LastStamp, UpTo, ArchiveName;
    var file := ArchiveName(keyspace, timestamp);
    var n := UpTo(file, '\n');
    PrintedStamp(keyspace, timestamp);
    LastStampIsLast(file, n);
    assert file[..|keyspace|] == keyspace by {
      PrintedStart(keyspace, timestamp);
    }
    if Free(keyspace, '\n') {
      NoNewlineBefore(file, |keyspace|);
      assert LastStamp(file, n) == Some(|keyspace|);
    } else {
      var j :| 0 <= j < |keyspace| && keyspace[j] == '\n';
      assert file[..|keyspace|][j] == '\n';
      assert n <= j by {
        NewlineStops(file, j);
      }
    }
  }

  lemma PrintedStart(keyspace: string, timestamp: Timestamp)
    ensures ArchiveName(keyspace, timestamp)[..|keyspace|] == keyspace
  {
  }

  lemma NoNewlineBefore(file: string, k: nat)
    requires k <= |file| && Free(file[..k], '\n')
    ensures UpTo(file, '\n') >= k
  {
  }

  lemma NewlineStops(file: string, j: nat)
    requires j < |file| && file[j] == '\n'
    ensures UpTo(file, '\n') <= j
  {
  }

  /** Cutting the seven characters of the ending leaves the snapshot tag. */
  lemma CutIsBackupName(keyspace: string, timestamp: Timestamp)
    ensures var file := ArchiveName(keyspace, timestamp); file[..|file| - 7] == BackupName(keyspace, timestamp)
  {
  }

  /** The listing of backed-up databases cuts at the first dash instead. */
  function ListedName(file: string): string {
    Split(file, '-')[0]
  }

  lemma ListedNameAgrees(keyspace: string, timestamp: Timestamp)
    ensures ListedName(ArchiveName(keyspace, timestamp)) == keyspace <==> Free(keyspace, '-')
  {
    var tail := timestamp + ".tar.gz";
    assert ArchiveName(keyspace, timestamp) == keyspace + ['-'] + tail;
    if Free(keyspace, '-') {
      SplitFirst(keyspace, '-', tail);
    } else {
      var file := ArchiveName(keyspace, timestamp);
      assert ListedName(file) == file[..UpTo(file, '-')];
      assert Free(ListedName(file), '-');
    }
  }

  // ---------- Collecting the archives of all hosts ----------

  datatype File = File(name: string, isFile: bool)

  datatype Host = Host(name: string, isDir: bool, files: seq<File>)

  datatype Backup = Backup(path: string, archive: string, keyspace: string)

  predicate IsHostDir(h: Host) {
    h.isDir && "cassandra" <= h.name
  }

  function ArchivesIn(path: string, files: seq<File>): seq<Backup> {
    if files == [] then []
    else
      var last := files[|files| - 1];
      ArchivesIn(path, files[..|files| - 1]) +
      (if last.isFile && KeyspaceOf(last.name).Some?
       then [Backup(path, last.name, KeyspaceOf(last.name).value)] else [])
  }

  function HostArchives(vault: string, hosts: seq<Host>): seq<Backup> {
    if hosts == [] then []
    else
      var last := hosts[|hosts| - 1];
      HostArchives(vault, hosts[..|hosts| - 1]) +
      (if IsHostDir(last) then ArchivesIn(vault + "/" + last.name, last.files) else [])
  }

  method FindHostArchives(vault: string, hosts: seq<Host>) returns (backups: seq<Backup>)
    ensures backups == HostArchives(vault, hosts)
  {
    backups := [];
    for i := 0 to |hosts|
      invariant backups == HostArchives(vault, hosts[..i])
    {
      assert hosts[..i + 1][..i] == hosts[..i];
      if IsHostDir(hosts[i]) {
        var files, path := hosts[i].files, vault + "/" + hosts[i].name;
        ghost var before := backups;
        for j := 0 to |files|
          invariant backups == before + ArchivesIn(path, files[..j])
        {
          assert files[..j + 1][..j] == files[..j];
          var keyspace := MatchArchive(files[j].name);
          if files[j].isFile && keyspace.Some? {
            backups := backups + [Backup(path, files[j].name, keyspace.value)];
          }
        }
        assert files[..|files|] == files;
      }
    }
    assert hosts[..|hosts|] == hosts;
  }

  /** An archive made on a host is found with its own keyspace, and only in that host's directory. */
  lemma {:induction false} ArchiveFound(vault: string, hosts: seq<Host>, h: nat, f: nat,
                                        keyspace: string, timestamp: Timestamp)
    requires h < |hosts| && IsHostDir(hosts[h]) && f < |hosts[h].files|
    requires hosts[h].files[f] == File(ArchiveName(keyspace, timestamp), true) && Free(keyspace, '\n')
    ensures Backup(vault + "/" + hosts[h].name, ArchiveName(keyspace, timestamp), keyspace) in
            HostArchives(vault, hosts)
  {
    hide ArchiveName, KeyspaceOf;
    if h < |hosts| - 1 {
      ArchiveFound(vault, hosts[..|hosts| - 1], h, f, keyspace, timestamp);
    } else {
      ArchiveListed(vault + "/" + hosts[h].name, hosts[h].files, f, keyspace, timestamp);
    }
  }

  lemma {:induction false} ArchiveListed(path: string, files: seq<File>, f: nat, keyspace: string, timestamp: Timestamp)
    requires f < |files| && files[f] == File(ArchiveName(keyspace, timestamp), true) && Free(keyspace, '\n')
    ensures Backup(path, ArchiveName(keyspace, timestamp), keyspace) in ArchivesIn(path, files)
  {
    hide ArchiveName, KeyspaceOf;
    ArchiveNameRoundTrip(keyspace, timestamp);
    if f < |files| - 1 {
      ArchiveListed(path, files[..|files| - 1], f, keyspace, timestamp);
    }
  }

  /** What is found: the archives in directories whose name begins as a host's does, and nothing else. */
  lemma {:induction false} ArchivesFoundExactly(vault: string, hosts: seq<Host>, b: Backup)
    ensures b in HostArchives(vault, hosts) <==>
            exists h, f :: 0 <= h < |hosts| && 0 <= f < |hosts[h].files| && IsFoundAt(vault, hosts[h], f, b)
  {
    hide IsFoundAt, ArchivesIn, IsHostDir;
    if hosts != [] {
      var init, last := hosts[..|hosts| - 1], hosts[|hosts| - 1];
      ArchivesFoundExactly(vault, init, b);
      FoundInHost(vault, last, |last.files|, b);
      assert last.files[..|last.files|] == last.files;
      if h, f :| 0 <= h < |hosts| && 0 <= f < |hosts[h].files| && IsFoundAt(vault, hosts[h], f, b) {
        assert h < |init| ==> init[h] == hosts[h];
      }
      if h, f :| 0 <= h < |init| && 0 <= f < |init[h].files| && IsFoundAt(vault, init[h], f, b) {
        assert hosts[h] == init[h];
      }
      if f :| 0 <= f < |last.files| && IsFoundAt(vault, last, f, b) {
        assert hosts[|hosts| - 1] == last;
      }
    }
  }

  /** A file of a host directory that is named like an archive. */
  ghost predicate IsFoundAt(vault: string, host: Host, f: nat, b: Backup)
    requires f < |host.files|
  {
    && host.isDir && "cassandra" <= host.name && host.files[f].isFile
    && KeyspaceOf(host.files[f].name) == Some(b.keyspace)
    && b.archive == host.files[f].name && b.path == vault + "/" + host.name
  }

  lemma {:induction false} FoundInHost(vault: string, host: Host, n: nat, b: Backup)
    requires n <= |host.files|
    ensures (IsHostDir(host) && b in ArchivesIn(vault + "/" + host.name, host.files[..n])) <==>
            exists f :: 0 <= f < n && IsFoundAt(vault, host, f, b)
  {
    hide KeyspaceOf;
    if n > 0 {
      FoundInHost(vault, host, n - 1, b);
      assert host.files[..n][..n - 1] == host.files[..n - 1] && host.files[..n][n - 1] == host.files[n - 1];
      assert IsFoundAt(vault, host, n - 1, b) <==>
        IsHostDir(host) && host.files[n - 1].isFile && KeyspaceOf(host.files[n - 1].name).Some? &&
        b == Backup(vault + "/" + host.name, host.files[n - 1].name, KeyspaceOf(host.files[n - 1].name).value);
    }
  }
}
