/** The key pair with which the backup daemon reaches the Cassandra pods: made once, kept in a
    table that two separate inserts fill, published as a secret, and copied to every pod. */
module SshKeys {
  import opened Text
  import opened Cassandra

  datatype KeyPair = KeyPair(publicKey: string, privateKey: string)

  /** The pairs key generation can come up with, in the order it does. */
  type KeySource = nat -> KeyPair

  // ---------- The table ----------

  function Rows(s: State): map<string, string> {
    if "ssh" in s.keyspaces && "backup" in s.keyspaces["ssh"].tables then s.keyspaces["ssh"].tables["backup"] else map[]
  }

  predicate BothStored(s: State) {
    "public" in Rows(s) && "private" in Rows(s)
  }

  function StoredPair(s: State): KeyPair
    requires BothStored(s)
  {
    KeyPair(Rows(s)["public"], Rows(s)["private"])
  }

  /** A stored private key has its own public key beside it. */
  ghost predicate Matched(s: State, keys: KeySource) {
    "private" in Rows(s) ==> "public" in Rows(s) && exists n :: keys(n) == StoredPair(s)
  }

  function ReadKey(id: string): Statement {
    Select("ssh", "backup", id)
  }

  /** What scanning the rows of a query finds: nothing as well when the query failed. */
  function Scanned(weather: Weather, id: string, w: World): Option<string> {
    if Works(weather, ReadKey(id), w) && id in Rows(w.state) then Some(Rows(w.state)[id]) else None
  }

  function StoreStatements(replication: string, pair: KeyPair): seq<Statement> {
    [EnsureKeyspace("ssh", replication), CreateTable("ssh", "backup"),
     Insert("ssh", "backup", "public", pair.publicKey), Insert("ssh", "backup", "private", pair.privateKey)]
  }

  // ---------- One run ----------

  /** How a run goes: the pair that key generation comes up with, None when it fails, and how many of the two
      reads the run sends before it is stopped. A stop at a later statement is a fault of that statement. */
  datatype Visit = Visit(generated: Option<KeyPair>, sent: nat)

  /** Both reads are sent before the answer to either is scanned. */
  function AfterReads(weather: Weather, w: World): World {
    Next(weather, ReadKey("private"), Next(weather, ReadKey("public"), w))
  }

  predicate FoundBoth(weather: Weather, w: World) {
    Scanned(weather, "public", w).Some? &&
    Scanned(weather, "private", Next(weather, ReadKey("public"), w)).Some?
  }

  /** The writes of a run that has read; none where key generation panics. */
  function KeyStatements(weather: Weather, replication: string, visit: Visit, w: World): seq<Statement> {
    if FoundBoth(weather, w) then [AlterKeyspace("ssh", replication)]
    else if visit.generated.None? then []
    else StoreStatements(replication, visit.generated.value)
  }

  function AfterKeyStep(weather: Weather, replication: string, visit: Visit, w: World): World {
    if visit.sent == 0 then w
    else if visit.sent == 1 then Next(weather, ReadKey("public"), w)
    else Run(weather, KeyStatements(weather, replication, visit, w), AfterReads(weather, w))
  }

  predicate KeyStepCompletes(weather: Weather, replication: string, visit: Visit, w: World) {
    && visit.sent >= 2
    && (FoundBoth(weather, w) || visit.generated.Some?)
    && AllWork(weather, KeyStatements(weather, replication, visit, w), AfterReads(weather, w))
  }

  /** The reads whose rows are scanned are answered: the second one's only after a key came from the first. */
  predicate ReadsAnswered(weather: Weather, w: World) {
    weather(w.clock).Calm? && (Scanned(weather, "public", w).Some? ==> weather(w.clock + 1).Calm?)
  }

  /** The step up to the published secret. Every failed write is a panic, which ends the run, and so is a
      secret that cannot be made. */
  method EnsureKeys(cluster: Cluster, replication: string, visit: Visit, secretMade: bool)
    returns (published: Option<KeyPair>)
    modifies cluster
    ensures cluster.Now() == AfterKeyStep(cluster.weather, replication, visit, old(cluster.Now()))
    ensures published.Some? <==>
            KeyStepCompletes(cluster.weather, replication, visit, old(cluster.Now())) && secretMade
    ensures published.Some? && FoundBoth(cluster.weather, old(cluster.Now())) ==>
              published.value == StoredPair(old(cluster.Now()).state)
    ensures published.Some? && !FoundBoth(cluster.weather, old(cluster.Now())) ==> published == visit.generated
  {
    hide Run, AllWork, Apply;
    published := None;
    if visit.sent == 0 {
      return;
    }
    ghost var start := cluster.Now();
    ghost var stmts := KeyStatements(cluster.weather, replication, visit, start);
    ReadChangesNothing(cluster.weather, "public", start);
    ReadChangesNothing(cluster.weather, "private", Next(cluster.weather, ReadKey("public"), start));
    var answered := cluster.Execute(ReadKey("public"));
    if visit.sent == 1 {
      return;
    }
    var rows := Rows(cluster.Now().state);
    var publicKey := if answered && "public" in rows then Some(rows["public"]) else None;
    answered := cluster.Execute(ReadKey("private"));
    var privateKey := if answered && "private" in rows then Some(rows["private"]) else None;
    hide Next, Works;
    RunNothing(cluster.weather, cluster.Now());
    ghost var read := cluster.Now();
    if publicKey.None? || privateKey.None? {
      if visit.generated.None? {
        return;
      }
      var pair := visit.generated.value;
      var ok := StorePair(cluster, replication, pair);
      published := if ok && secretMade then Some(pair) else None;
    } else {
      RunStep(cluster.weather, stmts, 0, read);
      var ok := cluster.Execute(AlterKeyspace("ssh", replication));
      assert stmts[..1] == stmts;
      published := if ok && secretMade then Some(KeyPair(publicKey.value, privateKey.value)) else None;
    }
  }

  /** The four writes of a new pair, up to the first that fails. */
  method StorePair(cluster: Cluster, replication: string, pair: KeyPair) returns (ok: bool)
    modifies cluster
    ensures cluster.Now() == Run(cluster.weather, StoreStatements(replication, pair), old(cluster.Now()))
    ensures ok <==> AllWork(cluster.weather, StoreStatements(replication, pair), old(cluster.Now()))
  {
    hide Run, AllWork, Apply, Next, Works;
    ghost var read, stmts := cluster.Now(), StoreStatements(replication, pair);
    RunNothing(cluster.weather, read);
    RunStep(cluster.weather, stmts, 0, read);
    ok := cluster.Execute(EnsureKeyspace("ssh", replication));
    if !ok {
      return;
    }
    RunStep(cluster.weather, stmts, 1, read);
    ok := cluster.Execute(CreateTable("ssh", "backup"));
    if !ok {
      return;
    }
    RunStep(cluster.weather, stmts, 2, read);
    ok := cluster.Execute(Insert("ssh", "backup", "public", pair.publicKey));
    if !ok {
      return;
    }
    RunStep(cluster.weather, stmts, 3, read);
    ok := cluster.Execute(Insert("ssh", "backup", "private", pair.privateKey));
    assert stmts[..4] == stmts;
  }

  lemma ReadChangesNothing(weather: Weather, id: string, w: World)
    ensures Next(weather, ReadKey(id), w).state == w.state
    ensures Works(weather, ReadKey(id), w) ==> weather(w.clock).Calm?
    ensures weather(w.clock).Calm? && Rows(w.state) != map[] ==> Works(weather, ReadKey(id), w)
  {
    SshFolds();
  }

  lemma SshFolds()
    ensures Fold("ssh") == "ssh" && IsIdentifier("ssh")
  {
  }

  // ---------- What a run does to the pair ----------

  lemma SchemaKeepsRows(weather: Weather, stmt: Statement, w: World)
    requires stmt.EnsureKeyspace? || stmt.AlterKeyspace? || stmt == CreateTable("ssh", "backup")
    ensures Rows(Next(weather, stmt, w).state) == Rows(w.state)
  {
  }

  lemma InsertSetsRow(weather: Weather, id: string, key: string, w: World)
    ensures var after := Rows(Next(weather, Insert("ssh", "backup", id, key), w).state);
            && (after == Rows(w.state) || after == Rows(w.state)[id := key])
            && (Works(weather, Insert("ssh", "backup", id, key), w) ==> after == Rows(w.state)[id := key])
  {
    SshFolds();
  }

  /** Each of the four writes of a new pair, applied or not. */
  lemma WritesInOrder(weather: Weather, replication: string, pair: KeyPair, w: World)
    ensures var stmts := StoreStatements(replication, pair);
            var after := Run(weather, stmts, w);
            && (Rows(after.state) == Rows(w.state) ||
                Rows(after.state) == Rows(w.state)["public" := pair.publicKey] ||
                Rows(after.state) == Rows(w.state)["public" := pair.publicKey]["private" := pair.privateKey])
            && (AllWork(weather, stmts, w) ==>
                  Rows(after.state) == Rows(w.state)["public" := pair.publicKey]["private" := pair.privateKey])
  {
    hide Run, AllWork, Next, Works, Rows;
    var stmts := StoreStatements(replication, pair);
    RunNothing(weather, w);
    assert stmts[..4] == stmts && stmts[..0] == [];
    RunStep(weather, stmts, 0, w);
    SchemaKeepsRows(weather, stmts[0], w);
    if AllWork(weather, stmts[..1], w) {
      RunStep(weather, stmts, 1, w);
      SchemaKeepsRows(weather, stmts[1], Run(weather, stmts[..1], w));
      if AllWork(weather, stmts[..2], w) {
        RunStep(weather, stmts, 2, w);
        InsertSetsRow(weather, "public", pair.publicKey, Run(weather, stmts[..2], w));
        if AllWork(weather, stmts[..3], w) {
          RunStep(weather, stmts, 3, w);
          InsertSetsRow(weather, "private", pair.privateKey, Run(weather, stmts[..3], w));
        }
      }
    }
  }

  /** A run that may stop anywhere keeps a private key and its public key together and never touches a pair that
      is complete, while the reads it scans are answered; a run that completes publishes the stored pair. */
  lemma KeyStepKeepsPair(weather: Weather, replication: string, keys: KeySource, n: nat, visit: Visit, w: World)
    requires Matched(w.state, keys) && (visit.sent >= 2 ==> ReadsAnswered(weather, w))
    requires visit.generated.Some? ==> visit.generated.value == keys(n)
    ensures var after := AfterKeyStep(weather, replication, visit, w).state;
            && Matched(after, keys)
            && (BothStored(w.state) ==> BothStored(after) && StoredPair(after) == StoredPair(w.state))
            && (KeyStepCompletes(weather, replication, visit, w) ==>
                  BothStored(after) &&
                  StoredPair(after) == if FoundBoth(weather, w) then StoredPair(w.state) else keys(n))
  {
    hide Apply;
    ReadChangesNothing(weather, "public", w);
    ReadChangesNothing(weather, "private", Next(weather, ReadKey("public"), w));
    var read := AfterReads(weather, w);
    assert read.state == w.state;
    if visit.sent < 2 {
      assert AfterKeyStep(weather, replication, visit, w).state == w.state;
    } else if FoundBoth(weather, w) {
      AlterKeepsRows(weather, replication, read);
    } else if visit.generated.Some? {
      assert !BothStored(w.state);
      WritesInOrder(weather, replication, keys(n), read);
      var after := AfterKeyStep(weather, replication, visit, w).state;
      assert "private" !in Rows(w.state);
      assert "private" in Rows(after) ==> StoredPair(after) == keys(n);
    }
  }

  lemma AlterKeepsRows(weather: Weather, replication: string, w: World)
    ensures Rows(Run(weather, [AlterKeyspace("ssh", replication)], w).state) == Rows(w.state)
  {
  }

  /** A completed run has given the keyspace of the keys the replication asked for, unless it had to make the keys in
      a keyspace that was there. */
  lemma CompletedRunReplicates(weather: Weather, replication: string, visit: Visit, w: World)
    requires KeyStepCompletes(weather, replication, visit, w)
    ensures var after := AfterKeyStep(weather, replication, visit, w).state;
            && "ssh" in after.keyspaces
            && after.keyspaces["ssh"].replication ==
               if FoundBoth(weather, w) || "ssh" !in w.state.keyspaces then replication
               else w.state.keyspaces["ssh"].replication
  {
    hide Run, AllWork, Next, Works;
    SshFolds();
    ReadChangesNothing(weather, "public", w);
    ReadChangesNothing(weather, "private", Next(weather, ReadKey("public"), w));
    var read := AfterReads(weather, w);
    assert read.state == w.state;
    RunNothing(weather, read);
    if FoundBoth(weather, w) {
      var stmts := [AlterKeyspace("ssh", replication)];
      assert stmts[..0] == [] && stmts[..1] == stmts;
      RunStep(weather, stmts, 0, read);
      ReplicationSet(weather, stmts[0], read);
    } else {
      var stmts := StoreStatements(replication, visit.generated.value);
      assert stmts[..0] == [] && stmts[..4] == stmts;
      assert AllWork(weather, stmts, read);
      WorksInOrder(weather, stmts, read);
      RunStep(weather, stmts, 0, read);
      RunStep(weather, stmts, 1, read);
      RunStep(weather, stmts, 2, read);
      RunStep(weather, stmts, 3, read);
      ReplicationSet(weather, stmts[0], read);
      ReplicationSet(weather, stmts[1], Run(weather, stmts[..1], read));
      ReplicationSet(weather, stmts[2], Run(weather, stmts[..2], read));
      ReplicationSet(weather, stmts[3], Run(weather, stmts[..3], read));
    }
  }

  lemma ReplicationSet(weather: Weather, stmt: Statement, w: World)
    requires Works(weather, stmt, w)
    requires stmt.EnsureKeyspace? || stmt.AlterKeyspace? || stmt.CreateTable? || stmt.Insert?
    requires stmt.keyspace == "ssh"
    ensures var after := Next(weather, stmt, w).state;
            && "ssh" in after.keyspaces
            && after.keyspaces["ssh"].replication ==
               if stmt.AlterKeyspace? || "ssh" !in w.state.keyspaces then
                 (if stmt.AlterKeyspace? || stmt.EnsureKeyspace? then stmt.replication else "")
               else w.state.keyspaces["ssh"].replication
  {
    SshFolds();
  }

  /** All statements of a run that works do. */
  lemma WorksInOrder(weather: Weather, stmts: seq<Statement>, w: World)
    requires AllWork(weather, stmts, w)
    ensures forall i :: 0 <= i <= |stmts| ==> AllWork(weather, stmts[..i], w)
  {
    hide Run, AllWork;
    forall i | 0 <= i <= |stmts|
      ensures AllWork(weather, stmts[..i], w)
    {
      RunAppend(weather, stmts[..i], stmts[i..], w);
      assert stmts[..i] + stmts[i..] == stmts;
    }
  }

  /** When nothing outside fails, a run that is not stopped completes exactly when a pair is stored or key generation
      comes up with one. */
  lemma CalmKeyStepCompletes(weather: Weather, replication: string, visit: Visit, w: World)
    requires (forall n :: weather(n).Calm?) && visit.sent >= 2
    ensures KeyStepCompletes(weather, replication, visit, w) <==> BothStored(w.state) || visit.generated.Some?
  {
    hide Run, AllWork, Works;
    SshFolds();
    ReadChangesNothing(weather, "public", w);
    ReadChangesNothing(weather, "private", Next(weather, ReadKey("public"), w));
    var read := AfterReads(weather, w);
    RunNothing(weather, read);
    assert FoundBoth(weather, w) <==> BothStored(w.state);
    if FoundBoth(weather, w) {
      var stmts := [AlterKeyspace("ssh", replication)];
      assert stmts[..0] == [] && stmts[..1] == stmts;
      RunStep(weather, stmts, 0, read);
      SchemaWorks(weather, stmts[0], read);
    } else if visit.generated.Some? {
      var stmts := StoreStatements(replication, visit.generated.value);
      assert stmts[..0] == [] && stmts[..4] == stmts;
      RunStep(weather, stmts, 0, read);
      SchemaWorks(weather, stmts[0], read);
      RunStep(weather, stmts, 1, read);
      SchemaWorks(weather, stmts[1], Run(weather, stmts[..1], read));
      RunStep(weather, stmts, 2, read);
      SchemaWorks(weather, stmts[2], Run(weather, stmts[..2], read));
      RunStep(weather, stmts, 3, read);
      SchemaWorks(weather, stmts[3], Run(weather, stmts[..3], read));
    }
  }

  predicate TableThere(s: State) {
    "ssh" in s.keyspaces && "backup" in s.keyspaces["ssh"].tables
  }

  lemma SchemaWorks(weather: Weather, stmt: Statement, w: World)
    requires weather(w.clock).Calm?
    ensures stmt.EnsureKeyspace? && stmt.keyspace == "ssh" ==>
              Works(weather, stmt, w) && "ssh" in Next(weather, stmt, w).state.keyspaces
    ensures stmt.AlterKeyspace? && stmt.keyspace == "ssh" && "ssh" in w.state.keyspaces ==> Works(weather, stmt, w)
    ensures stmt == CreateTable("ssh", "backup") && "ssh" in w.state.keyspaces ==>
              Works(weather, stmt, w) && TableThere(Next(weather, stmt, w).state)
    ensures stmt.Insert? && stmt.keyspace == "ssh" && stmt.table == "backup" && TableThere(w.state) ==>
              Works(weather, stmt, w) && TableThere(Next(weather, stmt, w).state)
  {
    SshFolds();
  }

  /** The new public key reaches the table: keyspace and table are answered for, and the insert is applied. */
  predicate PublicKeyWritten(weather: Weather, w: World) {
    weather(w.clock + 2).Calm? && weather(w.clock + 3).Calm? && !weather(w.clock + 4).Rejected?
  }

  /** A failed query and an empty table look the same to the step: a complete pair survives a run exactly when
      the reads are answered or the new public key does not reach the table. */
  lemma PairSurvivesExactlyWhenRead(weather: Weather, replication: string, pair: KeyPair, w: World)
    requires BothStored(w.state)
    requires pair.publicKey != Rows(w.state)["public"]
    ensures Rows(AfterKeyStep(weather, replication, Visit(Some(pair), 2), w).state) == Rows(w.state) <==>
            ReadsAnswered(weather, w) || !PublicKeyWritten(weather, w)
  {
    hide Run, AllWork, KeyStatements;
    ReadChangesNothing(weather, "public", w);
    ReadChangesNothing(weather, "private", Next(weather, ReadKey("public"), w));
    var read := AfterReads(weather, w);
    assert read.state == w.state && read.clock == w.clock + 2;
    KeyStatementsAre(weather, replication, pair, w);
    if FoundBoth(weather, w) {
      AlterKeepsRows(weather, replication, read);
    } else {
      StoreOverPair(weather, replication, pair, read);
    }
  }

  lemma KeyStatementsAre(weather: Weather, replication: string, pair: KeyPair, w: World)
    ensures KeyStatements(weather, replication, Visit(Some(pair), 2), w) ==
            if FoundBoth(weather, w) then [AlterKeyspace("ssh", replication)] else StoreStatements(replication, pair)
  {
  }

  /** Writing over a stored pair with another public key shows as soon as the first insert is applied. */
  lemma StoreOverPair(weather: Weather, replication: string, pair: KeyPair, w: World)
    requires BothStored(w.state) && pair.publicKey != Rows(w.state)["public"]
    ensures Rows(Run(weather, StoreStatements(replication, pair), w).state) == Rows(w.state) <==>
            !(weather(w.clock).Calm? && weather(w.clock + 1).Calm? && !weather(w.clock + 2).Rejected?)
  {
    hide Run, AllWork, Next, Works, Rows;
    var stmts := StoreStatements(replication, pair);
    RunNothing(weather, w);
    assert stmts[..4] == stmts && stmts[..0] == [];
    RunStep(weather, stmts, 0, w);
    OverPair(weather, replication, w);
    if weather(w.clock).Calm? {
      var w1 := Run(weather, stmts[..1], w);
      RunStep(weather, stmts, 1, w);
      OverPair(weather, replication, w1);
      if weather(w.clock + 1).Calm? {
        var w2 := Run(weather, stmts[..2], w);
        RunStep(weather, stmts, 2, w);
        InsertOverPair(weather, "public", pair.publicKey, w2);
        if weather(w.clock + 2).Calm? {
          RunStep(weather, stmts, 3, w);
          InsertSetsRow(weather, "private", pair.privateKey, Run(weather, stmts[..3], w));
        }
      }
    }
  }

  /** Over a stored pair, keyspace and table are there, so the two schema statements work unless faulted. */
  lemma OverPair(weather: Weather, replication: string, w: World)
    requires BothStored(w.state)
    ensures forall stmt :: stmt == EnsureKeyspace("ssh", replication) || stmt == CreateTable("ssh", "backup") ==>
              && (Works(weather, stmt, w) <==> weather(w.clock).Calm?)
              && Next(weather, stmt, w).clock == w.clock + 1
              && Rows(Next(weather, stmt, w).state) == Rows(w.state)
  {
    SshFolds();
  }

  lemma InsertOverPair(weather: Weather, id: string, key: string, w: World)
    requires BothStored(w.state)
    ensures Works(weather, Insert("ssh", "backup", id, key), w) <==> weather(w.clock).Calm?
    ensures Rows(Next(weather, Insert("ssh", "backup", id, key), w).state) ==
            if weather(w.clock).Rejected? then Rows(w.state) else Rows(w.state)[id := key]
  {
    SshFolds();
  }

  /** An unanswered read and a stop between the two inserts leave a private key with another's public key. */
  lemma UnansweredReadCanSplitPair(weather: Weather, replication: string, pair: KeyPair, w: World)
    requires BothStored(w.state) && weather(w.clock) == Rejected
    requires weather(w.clock + 2).Calm? && weather(w.clock + 3).Calm? && weather(w.clock + 4).Calm?
    requires weather(w.clock + 5) == Rejected
    ensures var rows := Rows(AfterKeyStep(weather, replication, Visit(Some(pair), 2), w).state);
            rows == Rows(w.state)["public" := pair.publicKey]
  {
    hide Run, AllWork;
    SshFolds();
    ReadChangesNothing(weather, "public", w);
    ReadChangesNothing(weather, "private", Next(weather, ReadKey("public"), w));
    var read := AfterReads(weather, w);
    var stmts := StoreStatements(replication, pair);
    RunNothing(weather, read);
    RunStep(weather, stmts, 0, read);
    RunStep(weather, stmts, 1, read);
    RunStep(weather, stmts, 2, read);
    RunStep(weather, stmts, 3, read);
    assert stmts[..4] == stmts;
  }

  // ---------- Any number of runs ----------

  /** The world after n runs one after the other, each of which goes its own way. */
  function AfterRuns(weather: Weather, replication: string, visits: nat -> Visit, w: World, n: nat): World {
    if n == 0 then w
    else AfterKeyStep(weather, replication, visits(n - 1), AfterRuns(weather, replication, visits, w, n - 1))
  }

  /** Each of the first n runs that comes to scanning has its reads answered. */
  ghost predicate AllAnswered(weather: Weather, replication: string, visits: nat -> Visit, w: World, n: nat) {
    n == 0 ||
    (AllAnswered(weather, replication, visits, w, n - 1) &&
     (visits(n - 1).sent >= 2 ==> ReadsAnswered(weather, AfterRuns(weather, replication, visits, w, n - 1))))
  }

  /** Key generation, where it succeeds, draws from one source. */
  ghost predicate DrawnFrom(visits: nat -> Visit, keys: KeySource) {
    forall i :: visits(i).generated.Some? ==> visits(i).generated.value == keys(i)
  }

  /** From no keys, through any runs stopped between any two statements, of which those that scan have their
      reads answered: keys stay matched, and from the first complete pair on the stored pair is the same. */
  lemma {:induction false} PairSurvivesStops(weather: Weather, replication: string, keys: KeySource,
                                             visits: nat -> Visit, w: World, m: nat, n: nat)
    requires Rows(w.state) == map[] && m <= n && DrawnFrom(visits, keys)
    requires AllAnswered(weather, replication, visits, w, n)
    ensures Matched(AfterRuns(weather, replication, visits, w, n).state, keys)
    ensures var early := AfterRuns(weather, replication, visits, w, m).state;
            var late := AfterRuns(weather, replication, visits, w, n).state;
            BothStored(early) ==> BothStored(late) && StoredPair(late) == StoredPair(early)
    decreases n
  {
    hide AfterKeyStep, ReadsAnswered, Matched, Rows, KeyStepCompletes, FoundBoth, DrawnFrom, StoredPair;
    if n == 0 {
      NoKeysMatched(w.state, keys);
    } else {
      DrawnAt(visits, keys, n - 1);
      PairSurvivesStops(weather, replication, keys, visits, w, if m < n then m else n - 1, n - 1);
      KeyStepKeepsPair(weather, replication, keys, n - 1, visits(n - 1),
                       AfterRuns(weather, replication, visits, w, n - 1));
    }
  }

  lemma DrawnAt(visits: nat -> Visit, keys: KeySource, i: nat)
    requires DrawnFrom(visits, keys)
    ensures visits(i).generated.Some? ==> visits(i).generated.value == keys(i)
  {
  }

  lemma NoKeysMatched(s: State, keys: KeySource)
    requires Rows(s) == map[]
    ensures Matched(s, keys)
  {
  }

  // ---------- Copying the public key to the pods ----------

  datatype Command = Command(text: string, ignoreOnError: bool)

  const KeyDir := "/var/lib/cassandra/data/.ssh"

  const KeyFile := "/var/lib/cassandra/data/.ssh/authorized_keys"

  function Commands(publicKey: string): seq<Command> {
    [Command("mkdir -p " + KeyDir + "/", false),
     Command("rm -rf " + KeyFile, false),
     Command("echo '" + publicKey + "' > " + KeyFile, false),
     Command("chmod -R 700 " + KeyDir, false),
     Command("chmod 600 " + KeyFile, false)]
  }

  datatype Remote = Remote(pod: string, command: string)

  class Shell {
    /** Every command sent to a pod so far; outcome says whether the k-th of them succeeded. */
    var log: seq<Remote>
    const outcome: nat -> bool

    constructor (outcome: nat -> bool)
      ensures log == [] && this.outcome == outcome
    {
      log := [];
      this.outcome := outcome;
    }

    method ExecRemote(pod: string, command: string) returns (ok: bool)
      modifies this
      ensures log == old(log) + [Remote(pod, command)] && ok == outcome(|old(log)|)
    {
      ok := outcome(|log|);
      log := log + [Remote(pod, command)];
    }
  }

  /** One attempt on a pod: where in the log it starts, how many commands it sent, whether it got through. */
  datatype Attempt = Attempt(pod: string, start: nat, sent: nat, passed: bool)

  /** The attempt is in the log: a run of the commands in order that ends with the first failure, or with
      the last command when all succeed. */
  ghost predicate Logged(a: Attempt, commands: seq<Command>, log: seq<Remote>, outcome: nat -> bool) {
    && 1 <= a.sent <= |commands| && a.start + a.sent <= |log|
    && (forall i :: 0 <= i < a.sent ==> log[a.start + i] == Remote(a.pod, commands[i].text))
    && (forall t :: a.start <= t < a.start + a.sent - 1 ==> outcome(t))
    && (outcome(a.start + a.sent - 1) <==> a.passed)
    && (a.passed ==> a.sent == |commands|)
  }

  method TryPod(shell: Shell, pod: string, publicKey: string) returns (a: Attempt)
    modifies shell
    ensures a.pod == pod && a.start == |old(shell.log)| && |shell.log| == a.start + a.sent
    ensures old(shell.log) <= shell.log
    ensures Logged(a, Commands(publicKey), shell.log, shell.outcome)
  {
    var commands := Commands(publicKey);
    hide Commands;
    NoneIgnored(publicKey);
    ghost var start := |shell.log|;
    var commandError := false;
    var sent := 0;
    while sent < |commands|
      invariant 0 <= sent <= |commands| && |shell.log| == start + sent
      invariant old(shell.log) <= shell.log
      invariant forall i :: 0 <= i < sent ==> shell.log[start + i] == Remote(pod, commands[i].text)
      invariant !commandError && forall t :: start <= t < start + sent ==> shell.outcome(t)
    {
      var ok := shell.ExecRemote(pod, commands[sent].text);
      commandError := !ok;
      sent := sent + 1;
      if commandError && !commands[sent - 1].ignoreOnError {
        break;
      }
    }
    a := Attempt(pod, |shell.log| - sent, sent, !commandError);
  }

  lemma NoneIgnored(publicKey: string)
    ensures |Commands(publicKey)| == 5
    ensures forall i :: 0 <= i < 5 ==> !Commands(publicKey)[i].ignoreOnError
  {
  }

  /** The log from a position on is the attempts one after the other, without a gap. */
  ghost predicate Journal(attempts: seq<Attempt>, commands: seq<Command>, from: nat, log: seq<Remote>,
                          outcome: nat -> bool) {
    if attempts == [] then |log| == from
    else
      var last := attempts[|attempts| - 1];
      && Logged(last, commands, log, outcome) && |log| == last.start + last.sent
      && Journal(attempts[..|attempts| - 1], commands, from, log[..last.start], outcome)
  }

  /** The attempts on one pod: failures below the limit and then a success, or as many failures as the limit. */
  ghost predicate PodAttempts(attempts: seq<Attempt>, pod: string, tries: nat, passed: bool) {
    && 1 <= |attempts| <= tries
    && (forall i :: 0 <= i < |attempts| ==> attempts[i].pod == pod)
    && (forall i :: 0 <= i < |attempts| - 1 ==> !attempts[i].passed)
    && attempts[|attempts| - 1].passed == passed
    && (!passed ==> |attempts| == tries)
  }

  function TriesOf(configured: int): nat {
    if configured < 1 then 1 else configured
  }

  method PropagateToPod(shell: Shell, pod: string, publicKey: string, tries: nat)
    returns (passed: bool, attempts: seq<Attempt>)
    requires tries >= 1
    modifies shell
    ensures old(shell.log) <= shell.log
    ensures Journal(attempts, Commands(publicKey), |old(shell.log)|, shell.log, shell.outcome)
    ensures PodAttempts(attempts, pod, tries, passed)
  {
    hide Commands, Logged;
    passed, attempts := false, [];
    var doneTriesCount := 0;
    while doneTriesCount < tries
      invariant doneTriesCount == |attempts| <= tries
      invariant old(shell.log) <= shell.log
      invariant Journal(attempts, Commands(publicKey), |old(shell.log)|, shell.log, shell.outcome)
      invariant forall i :: 0 <= i < |attempts| ==> attempts[i].pod == pod && !attempts[i].passed
      decreases tries - doneTriesCount
    {
      ghost var before := shell.log;
      var a := TryPod(shell, pod, publicKey);
      JournalGrows(attempts, a, Commands(publicKey), |old(shell.log)|, before, shell.log, shell.outcome);
      attempts := attempts + [a];
      if a.passed {
        passed := true;
        break;
      }
      doneTriesCount := doneTriesCount + 1;
    }
  }

  lemma JournalGrows(attempts: seq<Attempt>, a: Attempt, commands: seq<Command>, from: nat, before: seq<Remote>,
                     after: seq<Remote>, outcome: nat -> bool)
    requires Journal(attempts, commands, from, before, outcome) && before <= after
    requires a.start == |before| && |after| == a.start + a.sent && Logged(a, commands, after, outcome)
    ensures Journal(attempts + [a], commands, from, after, outcome)
  {
    hide Logged;
    assert (attempts + [a])[..|attempts|] == attempts && after[..a.start] == before;
  }

  function Flat(groups: seq<seq<Attempt>>): seq<Attempt> {
    if groups == [] then [] else Flat(groups[..|groups| - 1]) + groups[|groups| - 1]
  }

  /** groups[i] holds the attempts on pod i, and together they are everything that was sent. A completed step
      has passed every pod; a panic comes after as many failed attempts on one pod as are allowed. Without a
      pod list there is nothing to do. */
  method Propagate(shell: Shell, pods: Option<seq<string>>, publicKey: string, configuredTries: int)
    returns (panicked: bool, groups: seq<seq<Attempt>>)
    modifies shell
    ensures old(shell.log) <= shell.log
    ensures Journal(Flat(groups), Commands(publicKey), |old(shell.log)|, shell.log, shell.outcome)
    ensures pods.None? ==> !panicked && groups == []
    ensures pods.Some? ==> |groups| <= |pods.value| && (!panicked ==> |groups| == |pods.value|)
    ensures panicked ==> groups != []
    ensures forall i :: 0 <= i < |groups| ==>
              PodAttempts(groups[i], pods.value[i], TriesOf(configuredTries), !panicked || i < |groups| - 1)
  {
    hide Commands, Logged, PodAttempts, Journal, Flat;
    panicked, groups := false, [];
    assert Flat([]) == [] by {
      FlatNothing();
    }
    EmptyJournal(Commands(publicKey), shell.log, shell.outcome);
    if pods.None? {
      return;
    }
    var tries := TriesOf(configuredTries);
    for k := 0 to |pods.value|
      invariant |groups| == k && old(shell.log) <= shell.log
      invariant forall i :: 0 <= i < k ==> PodAttempts(groups[i], pods.value[i], tries, true)
      invariant Journal(Flat(groups), Commands(publicKey), |old(shell.log)|, shell.log, shell.outcome)
    {
      ghost var before := shell.log;
      var passed, attempts := PropagateToPod(shell, pods.value[k], publicKey, tries);
      JournalAppend(Flat(groups), attempts, Commands(publicKey), |old(shell.log)|, before, shell.log, shell.outcome);
      FlatOneMore(groups, attempts);
      groups := groups + [attempts];
      if !passed {
        return true, groups;
      }
    }
  }

  lemma FlatNothing()
    ensures Flat([]) == []
  {
  }

  lemma FlatOneMore(groups: seq<seq<Attempt>>, attempts: seq<Attempt>)
    ensures Flat(groups + [attempts]) == Flat(groups) + attempts
  {
  }

  lemma EmptyJournal(commands: seq<Command>, log: seq<Remote>, outcome: nat -> bool)
    ensures Journal([], commands, |log|, log, outcome)
  {
  }

  lemma {:induction false} JournalLength(attempts: seq<Attempt>, commands: seq<Command>, from: nat, log: seq<Remote>,
                                         outcome: nat -> bool)
    requires Journal(attempts, commands, from, log, outcome)
    ensures from <= |log|
  {
    if attempts != [] {
      var last := attempts[|attempts| - 1];
      JournalLength(attempts[..|attempts| - 1], commands, from, log[..last.start], outcome);
    }
  }

  lemma {:induction false} JournalAppend(a: seq<Attempt>, b: seq<Attempt>, commands: seq<Command>, from: nat,
                                         before: seq<Remote>, after: seq<Remote>, outcome: nat -> bool)
    requires Journal(a, commands, from, before, outcome) && before <= after
    requires Journal(b, commands, |before|, after, outcome)
    ensures Journal(a + b, commands, from, after, outcome)
    decreases |b|
  {
    hide Logged;
    if b == [] {
      assert a + b == a && after == before;
    } else {
      var init, last := b[..|b| - 1], b[|b| - 1];
      LoggedFits(last, commands, after, outcome);
      JournalLength(init, commands, |before|, after[..last.start], outcome);
      JournalAppend(a, init, commands, from, before, after[..last.start], outcome);
      assert (a + b)[..|a + b| - 1] == a + init;
    }
  }

  lemma LoggedFits(a: Attempt, commands: seq<Command>, log: seq<Remote>, outcome: nat -> bool)
    requires Logged(a, commands, log, outcome)
    ensures a.start + a.sent <= |log|
  {
  }
}
