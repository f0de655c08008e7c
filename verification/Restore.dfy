/** Restoring keyspaces from the archives of several hosts, in place or into a clone. */
module Restore {
  // ---------- The database ----------

  type Row = string

  type Tables = map<string, set<Row>>

  type Keyspaces = map<string, Tables>

  /** What the restore asks of the outside, in the order it asks. Consult reads a host's metadata file, an
      entry of it, or the file with the keyspace's schema, which must be there; Roles runs the role scripts. */
  datatype Event =
    | Consult(present: bool)
    | DropKeyspace(keyspace: string)
    | CreateKeyspace(keyspace: string)
    | DropAllTables(keyspace: string)
    | DropTable(keyspace: string, table: string)
    | CreateTable(keyspace: string, table: string)
    | Load(keyspace: string, table: string, rows: set<Row>)
    | Roles(keyspace: string)

  predicate Possible(e: Event, kss: Keyspaces) {
    match e
    case Consult(present) => present
    case CreateKeyspace(k) => k != ""
    case CreateTable(k, _) => k in kss
    case Load(k, t, _) => k in kss && t in kss[k]
    case _ => true
  }

  /** Everything that is created or dropped is so only if it is not or is there. Loading adds rows. */
  function Applied(e: Event, kss: Keyspaces): Keyspaces {
    if !Possible(e, kss) then kss
    else
      match e
      case Consult(_) => kss
      case DropKeyspace(k) => kss - {k}
      case CreateKeyspace(k) => if k in kss then kss else kss[k := map[]]
      case DropAllTables(k) => if k in kss then kss[k := map[]] else kss
      case DropTable(k, t) => if k in kss then kss[k := kss[k] - {t}] else kss
      case CreateTable(k, t) => if t in kss[k] then kss else kss[k := kss[k][t := {}]]
      case Load(k, t, rows) => kss[k := kss[k][t := kss[k][t] + rows]]
      case Roles(_) => kss
  }

  function Effect(kss: Keyspaces, events: seq<Event>): Keyspaces {
    if events == [] then kss else Applied(events[|events| - 1], Effect(kss, events[..|events| - 1]))
  }

  lemma {:induction false} EffectAppend(kss: Keyspaces, a: seq<Event>, b: seq<Event>)
    ensures Effect(kss, a + b) == Effect(Effect(kss, a), b)
  {
    if b == [] {
      assert a + b == a;
    } else {
      assert (a + b)[..|a + b| - 1] == a + b[..|b| - 1];
      EffectAppend(kss, a, b[..|b| - 1]);
    }
  }

  lemma EffectNothing(kss: Keyspaces)
    ensures Effect(kss, []) == kss
  {
  }

  lemma EffectOne(kss: Keyspaces, e: Event)
    ensures Effect(kss, [e]) == Applied(e, kss)
  {
  }

  /** As for statements, and HalfWay for the drop of all tables, which is a drop of one after the other: it fails
      with just these tables gone. */
  datatype Fault = Calm | Rejected | Lost | HalfWay(gone: set<string>)

  type Faults = nat -> Fault

  /** The database and every event asked for, the ones that failed included. */
  datatype World = World(keyspaces: Keyspaces, log: seq<Event>)

  function AppliedUnder(fault: Fault, e: Event, kss: Keyspaces): Keyspaces {
    match fault
    case Rejected => kss
    case HalfWay(gone) =>
      if e.DropAllTables? && e.keyspace in kss then kss[e.keyspace := kss[e.keyspace] - gone] else kss
    case _ => Applied(e, kss)
  }

  function Step(faults: Faults, e: Event, w: World): World {
    World(AppliedUnder(faults(|w.log|), e, w.keyspaces), w.log + [e])
  }

  predicate Works(faults: Faults, e: Event, w: World) {
    faults(|w.log|).Calm? && Possible(e, w.keyspaces)
  }

  /** Events one after the other up to and including the first that fails. */
  function Run(faults: Faults, events: seq<Event>, w: World): World {
    if events == [] then w
    else if Works(faults, events[0], w) then Run(faults, events[1..], Step(faults, events[0], w))
    else Step(faults, events[0], w)
  }

  predicate AllWork(faults: Faults, events: seq<Event>, w: World) {
    events == [] || (Works(faults, events[0], w) && AllWork(faults, events[1..], Step(faults, events[0], w)))
  }

  lemma RunNothing(faults: Faults, w: World)
    ensures Run(faults, [], w) == w && AllWork(faults, [], w)
  {
  }

  lemma RunFirst(faults: Faults, e: Event, rest: seq<Event>, w: World)
    ensures Run(faults, [e] + rest, w) ==
              if Works(faults, e, w) then Run(faults, rest, Step(faults, e, w)) else Step(faults, e, w)
    ensures AllWork(faults, [e] + rest, w) <==> Works(faults, e, w) && AllWork(faults, rest, Step(faults, e, w))
  {
    hide Works, Step;
    assert ([e] + rest)[1..] == rest;
  }

  lemma {:induction false} RunAppend(faults: Faults, a: seq<Event>, b: seq<Event>, w: World)
    ensures AllWork(faults, a, w) ==> Run(faults, a + b, w) == Run(faults, b, Run(faults, a, w))
    ensures !AllWork(faults, a, w) ==> Run(faults, a + b, w) == Run(faults, a, w)
    ensures AllWork(faults, a + b, w) <==> AllWork(faults, a, w) && AllWork(faults, b, Run(faults, a, w))
  {
    hide Works, Step;
    if a == [] {
      assert a + b == b;
    } else {
      assert (a + b)[0] == a[0] && (a + b)[1..] == a[1..] + b;
      RunAppend(faults, a[1..], b, Step(faults, a[0], w));
    }
  }

  /** What fails within a part fails within the whole at the same place. */
  lemma RunCut(faults: Faults, part: seq<Event>, whole: seq<Event>, w: World)
    requires part <= whole && !AllWork(faults, part, w)
    ensures Run(faults, whole, w) == Run(faults, part, w) && !AllWork(faults, whole, w)
  {
    RunAppend(faults, part, whole[|part|..], w);
    assert part + whole[|part|..] == whole;
  }

  /** A run that completes has the effect of its events, and every run asks for its events in order. */
  lemma {:induction false} RunEffect(faults: Faults, events: seq<Event>, w: World)
    ensures AllWork(faults, events, w) ==>
              Run(faults, events, w) == World(Effect(w.keyspaces, events), w.log + events)
    ensures w.log <= Run(faults, events, w).log <= w.log + events
  {
    hide Applied, Possible, Effect;
    if events == [] {
      EffectNothing(w.keyspaces);
    } else {
      var next := Step(faults, events[0], w);
      RunEffect(faults, events[1..], next);
      EffectAppend(w.keyspaces, [events[0]], events[1..]);
      EffectOne(w.keyspaces, events[0]);
      assert [events[0]] + events[1..] == events;
      assert w.log + [events[0]] + events[1..] == w.log + events;
    }
  }

  class Database {
    var keyspaces: Keyspaces
    var log: seq<Event>
    const faults: Faults

    constructor (keyspaces: Keyspaces, faults: Faults)
      ensures this.keyspaces == keyspaces && this.faults == faults && log == []
    {
      this.keyspaces, this.faults, log := keyspaces, faults, [];
    }

    ghost function Now(): World
      reads this
    {
      World(keyspaces, log)
    }

    method Send(e: Event) returns (ok: bool)
      modifies this
      ensures Now() == Step(faults, e, old(Now()))
      ensures ok <==> Works(faults, e, old(Now()))
    {
      var fault := faults(|log|);
      ok := fault.Calm? && Possible(e, keyspaces);
      keyspaces := AppliedUnder(fault, e, keyspaces);
      log := log + [e];
    }
  }

  // ---------- Backups ----------

  /** One snapshot directory of a host's archive; without a table schema there is nothing to restore. */
  datatype Dump = Dump(table: string, hasSchema: bool, rows: set<Row>)

  /** What a host's metadata file says of a keyspace, if the file is there and has an entry for it. */
  datatype Meta = NoFile | NoEntry | Entry(allTables: bool)

  /** One host's archive of a keyspace. readable says whether it holds a schema of any kind, schema whether that
      of the keyspace lies in the keyspace's own directory. */
  datatype HostBackup = HostBackup(readable: bool, schema: bool, meta: Meta, dumps: seq<Dump>)

  /** How a keyspace is restored: clone names the new keyspace. */
  datatype Mode = InPlace | Clone(newName: string)

  function Target(mode: Mode, keyspace: string): string {
    if mode.InPlace? then keyspace else mode.newName
  }

  function WholeKeyspace(host: HostBackup): bool {
    host.meta == Entry(true)
  }

  // ---------- What is asked for ----------

  function DumpEvents(mode: Mode, keyspace: string, dump: Dump): seq<Event> {
    var k := Target(mode, keyspace);
    if !dump.hasSchema then []
    else if mode.InPlace? then [DropTable(k, dump.table), CreateTable(k, dump.table), Load(k, dump.table, dump.rows)]
    else [CreateTable(k, dump.table), Load(k, dump.table, dump.rows)]
  }

  function DumpsEvents(mode: Mode, keyspace: string, dumps: seq<Dump>): seq<Event> {
    if dumps == [] then []
    else DumpsEvents(mode, keyspace, dumps[..|dumps| - 1]) + DumpEvents(mode, keyspace, dumps[|dumps| - 1])
  }

  function InPlaceOpening(keyspace: string, host: HostBackup, roles: bool, dropped: bool): seq<Event> {
    if dropped then []
    else [Consult(host.meta.Entry?)] +
         (if WholeKeyspace(host) && roles then [DropKeyspace(keyspace)] else []) +
         [Consult(host.schema), CreateKeyspace(keyspace)]
  }

  function CloneOpening(newName: string, host: HostBackup, roles: bool, dropped: bool): seq<Event> {
    [Consult(host.schema), CreateKeyspace(newName)] + (if !dropped && !roles then [DropAllTables(newName)] else [])
  }

  /** What comes before the tables of a host; dropped is the flag the hosts of a keyspace share. */
  function Opening(mode: Mode, keyspace: string, host: HostBackup, roles: bool, dropped: bool): seq<Event> {
    [Consult(!host.meta.NoFile?)] +
    (match mode
     case InPlace => InPlaceOpening(keyspace, host, roles, dropped)
     case Clone(newName) => CloneOpening(newName, host, roles, dropped)) +
    (if roles then [Roles(keyspace)] else [])
  }

  function HostEvents(mode: Mode, keyspace: string, host: HostBackup, roles: bool, dropped: bool): seq<Event> {
    if !host.readable then []
    else Opening(mode, keyspace, host, roles, dropped) + DumpsEvents(mode, keyspace, host.dumps)
  }

  function DroppedAfter(mode: Mode, host: HostBackup, roles: bool, dropped: bool): bool {
    dropped || (host.readable && if mode.InPlace? then WholeKeyspace(host) else !roles)
  }

  function Dropped(mode: Mode, hosts: seq<HostBackup>, roles: bool): bool {
    hosts != [] && DroppedAfter(mode, hosts[|hosts| - 1], roles, Dropped(mode, hosts[..|hosts| - 1], roles))
  }

  function Events(mode: Mode, keyspace: string, hosts: seq<HostBackup>, roles: bool): seq<Event> {
    if hosts == [] then []
    else
      var init := hosts[..|hosts| - 1];
      Events(mode, keyspace, init, roles) +
      HostEvents(mode, keyspace, hosts[|hosts| - 1], roles, Dropped(mode, init, roles))
  }

  // ---------- The restore ----------

  method RestoreTable(db: Database, mode: Mode, keyspace: string, dump: Dump) returns (ok: bool)
    modifies db
    ensures db.Now() == Run(db.faults, DumpEvents(mode, keyspace, dump), old(db.Now()))
    ensures ok <==> AllWork(db.faults, DumpEvents(mode, keyspace, dump), old(db.Now()))
  {
    hide Works, Step;
    ok := true;
    if !dump.hasSchema {
      return;
    }
    var k := Target(mode, keyspace);
    ghost var rest := [CreateTable(k, dump.table), Load(k, dump.table, dump.rows)];
    if mode.InPlace? {
      RunFirst(db.faults, DropTable(k, dump.table), rest, db.Now());
      ok := db.Send(DropTable(k, dump.table));
      if !ok {
        return;
      }
    }
    RunFirst(db.faults, CreateTable(k, dump.table), rest[1..], db.Now());
    ok := db.Send(CreateTable(k, dump.table));
    if !ok {
      return;
    }
    RunFirst(db.faults, Load(k, dump.table, dump.rows), [], db.Now());
    ok := db.Send(Load(k, dump.table, dump.rows));
  }

  method RestoreTables(db: Database, mode: Mode, keyspace: string, dumps: seq<Dump>) returns (ok: bool)
    modifies db
    ensures db.Now() == Run(db.faults, DumpsEvents(mode, keyspace, dumps), old(db.Now()))
    ensures ok <==> AllWork(db.faults, DumpsEvents(mode, keyspace, dumps), old(db.Now()))
  {
    hide Run, AllWork, DumpEvents;
    ghost var start := db.Now();
    RunNothing(db.faults, start);
    for i := 0 to |dumps|
      invariant AllWork(db.faults, DumpsEvents(mode, keyspace, dumps[..i]), start)
      invariant db.Now() == Run(db.faults, DumpsEvents(mode, keyspace, dumps[..i]), start)
    {
      assert dumps[..i + 1][..i] == dumps[..i];
      RunAppend(db.faults, DumpsEvents(mode, keyspace, dumps[..i]), DumpEvents(mode, keyspace, dumps[i]), start);
      ok := RestoreTable(db, mode, keyspace, dumps[i]);
      if !ok {
        DumpsPrefix(mode, keyspace, dumps, i + 1);
        RunCut(db.faults, DumpsEvents(mode, keyspace, dumps[..i + 1]), DumpsEvents(mode, keyspace, dumps), start);
        return;
      }
    }
    assert dumps[..|dumps|] == dumps;
    ok := true;
  }

  lemma {:induction false} DumpsPrefix(mode: Mode, keyspace: string, dumps: seq<Dump>, n: nat)
    requires n <= |dumps|
    ensures DumpsEvents(mode, keyspace, dumps[..n]) <= DumpsEvents(mode, keyspace, dumps)
  {
    if n < |dumps| {
      assert dumps[..|dumps| - 1][..n] == dumps[..n];
      DumpsPrefix(mode, keyspace, dumps[..|dumps| - 1], n);
    } else {
      assert dumps[..n] == dumps;
    }
  }

  method OpenKeyspace(db: Database, mode: Mode, keyspace: string, host: HostBackup, roles: bool, dropped: bool)
    returns (ok: bool)
    modifies db
    ensures db.Now() == Run(db.faults, Opening(mode, keyspace, host, roles, dropped), old(db.Now()))
    ensures ok <==> AllWork(db.faults, Opening(mode, keyspace, host, roles, dropped), old(db.Now()))
  {
    hide Works, Step;
    ghost var rest := Opening(mode, keyspace, host, roles, dropped)[1..];
    RunFirst(db.faults, Consult(!host.meta.NoFile?), rest, db.Now());
    assert [Consult(!host.meta.NoFile?)] + rest == Opening(mode, keyspace, host, roles, dropped);
    ok := db.Send(Consult(!host.meta.NoFile?));
    if !ok {
      return;
    }
    if mode.InPlace? {
      ok := OpenInPlace(db, keyspace, host, roles, dropped);
    } else {
      ok := OpenClone(db, mode.newName, host, roles, dropped);
    }
    ghost var last := if roles then [Roles(keyspace)] else [];
    ghost var body := if mode.InPlace? then InPlaceOpening(keyspace, host, roles, dropped)
                      else CloneOpening(mode.newName, host, roles, dropped);
    assert rest == body + last;
    RunAppend(db.faults, body, last, Step(db.faults, Consult(!host.meta.NoFile?), old(db.Now())));
    if ok && roles {
      RunFirst(db.faults, Roles(keyspace), [], db.Now());
      ok := db.Send(Roles(keyspace));
    }
  }

  method OpenInPlace(db: Database, keyspace: string, host: HostBackup, roles: bool, dropped: bool)
    returns (ok: bool)
    modifies db
    ensures db.Now() == Run(db.faults, InPlaceOpening(keyspace, host, roles, dropped), old(db.Now()))
    ensures ok <==> AllWork(db.faults, InPlaceOpening(keyspace, host, roles, dropped), old(db.Now()))
  {
    hide Works, Step;
    ok := true;
    if dropped {
      return;
    }
    ghost var create := [Consult(host.schema), CreateKeyspace(keyspace)];
    ghost var drop := if WholeKeyspace(host) && roles then [DropKeyspace(keyspace)] else [];
    assert [Consult(host.meta.Entry?)] + drop + create == [Consult(host.meta.Entry?)] + (drop + create);
    RunFirst(db.faults, Consult(host.meta.Entry?), drop + create, db.Now());
    ok := db.Send(Consult(host.meta.Entry?));
    if !ok {
      return;
    }
    if WholeKeyspace(host) && roles {
      RunFirst(db.faults, DropKeyspace(keyspace), create, db.Now());
      ok := db.Send(DropKeyspace(keyspace));
      if !ok {
        return;
      }
    } else {
      assert drop + create == create;
    }
    RunFirst(db.faults, Consult(host.schema), create[1..], db.Now());
    assert [Consult(host.schema)] + create[1..] == create;
    ok := db.Send(Consult(host.schema));
    if !ok {
      return;
    }
    RunFirst(db.faults, CreateKeyspace(keyspace), [], db.Now());
    ok := db.Send(CreateKeyspace(keyspace));
  }

  method OpenClone(db: Database, newName: string, host: HostBackup, roles: bool, dropped: bool) returns (ok: bool)
    modifies db
    ensures db.Now() == Run(db.faults, CloneOpening(newName, host, roles, dropped), old(db.Now()))
    ensures ok <==> AllWork(db.faults, CloneOpening(newName, host, roles, dropped), old(db.Now()))
  {
    hide Works, Step;
    ghost var clear := if !dropped && !roles then [DropAllTables(newName)] else [];
    assert CloneOpening(newName, host, roles, dropped) == [Consult(host.schema)] + ([CreateKeyspace(newName)] + clear);
    RunFirst(db.faults, Consult(host.schema), [CreateKeyspace(newName)] + clear, db.Now());
    ok := db.Send(Consult(host.schema));
    if !ok {
      return;
    }
    RunFirst(db.faults, CreateKeyspace(newName), clear, db.Now());
    ok := db.Send(CreateKeyspace(newName));
    if !ok {
      return;
    }
    if !dropped && !roles {
      assert clear + [] == clear;
      RunFirst(db.faults, DropAllTables(newName), [], db.Now());
      ok := db.Send(DropAllTables(newName));
    }
  }

  /** One archive; the flag is true from the first host on whose metadata or mode has had something dropped. */
  method RestoreHost(db: Database, mode: Mode, keyspace: string, host: HostBackup, roles: bool, dropped: bool)
    returns (ok: bool, droppedAfter: bool)
    modifies db
    ensures droppedAfter == DroppedAfter(mode, host, roles, dropped)
    ensures db.Now() == Run(db.faults, HostEvents(mode, keyspace, host, roles, dropped), old(db.Now()))
    ensures ok <==> AllWork(db.faults, HostEvents(mode, keyspace, host, roles, dropped), old(db.Now()))
  {
    hide Run, AllWork, Opening, DumpsEvents;
    RunNothing(db.faults, db.Now());
    droppedAfter := dropped;
    if !host.readable {
      return true, droppedAfter;
    }
    if mode.InPlace? {
      if !dropped && WholeKeyspace(host) {
        droppedAfter := true;
      }
    } else if !dropped && !roles {
      droppedAfter := true;
    }
    RunAppend(db.faults, Opening(mode, keyspace, host, roles, dropped), DumpsEvents(mode, keyspace, host.dumps),
              db.Now());
    ok := OpenKeyspace(db, mode, keyspace, host, roles, dropped);
    if ok {
      ok := RestoreTables(db, mode, keyspace, host.dumps);
    }
  }

  method RestoreKeyspace(db: Database, mode: Mode, keyspace: string, hosts: seq<HostBackup>, roles: bool)
    returns (ok: bool)
    modifies db
    ensures db.Now() == Run(db.faults, Events(mode, keyspace, hosts, roles), old(db.Now()))
    ensures ok <==> AllWork(db.faults, Events(mode, keyspace, hosts, roles), old(db.Now()))
  {
    hide Run, AllWork, HostEvents, DroppedAfter;
    ghost var start := db.Now();
    RunNothing(db.faults, start);
    var keyspaceDropped := false;
    for i := 0 to |hosts|
      invariant keyspaceDropped == Dropped(mode, hosts[..i], roles)
      invariant AllWork(db.faults, Events(mode, keyspace, hosts[..i], roles), start)
      invariant db.Now() == Run(db.faults, Events(mode, keyspace, hosts[..i], roles), start)
    {
      assert hosts[..i + 1][..i] == hosts[..i];
      RunAppend(db.faults, Events(mode, keyspace, hosts[..i], roles),
                HostEvents(mode, keyspace, hosts[i], roles, keyspaceDropped), start);
      ok, keyspaceDropped := RestoreHost(db, mode, keyspace, hosts[i], roles, keyspaceDropped);
      if !ok {
        EventsPrefix(mode, keyspace, hosts, i + 1, roles);
        RunCut(db.faults, Events(mode, keyspace, hosts[..i + 1], roles), Events(mode, keyspace, hosts, roles), start);
        return;
      }
    }
    assert hosts[..|hosts|] == hosts;
    ok := true;
  }

  lemma {:induction false} EventsPrefix(mode: Mode, keyspace: string, hosts: seq<HostBackup>, n: nat, roles: bool)
    requires n <= |hosts|
    ensures Events(mode, keyspace, hosts[..n], roles) <= Events(mode, keyspace, hosts, roles)
  {
    hide HostEvents;
    if n < |hosts| {
      assert hosts[..|hosts| - 1][..n] == hosts[..n];
      EventsPrefix(mode, keyspace, hosts[..|hosts| - 1], n, roles);
    } else {
      assert hosts[..n] == hosts;
    }
  }

  // ---------- Dropping a keyspace is safe ----------

  ghost predicate LoadsInto(events: seq<Event>, keyspace: string) {
    exists i :: 0 <= i < |events| && events[i].Load? && events[i].keyspace == keyspace
  }

  ghost predicate Drops(events: seq<Event>, keyspace: string) {
    exists i :: 0 <= i < |events| && events[i] == DropKeyspace(keyspace)
  }

  /** Somewhere the keyspace is dropped after rows were loaded into it. */
  ghost predicate DropsLoaded(events: seq<Event>, keyspace: string) {
    exists i, j :: 0 <= i < j < |events| &&
      events[i].Load? && events[i].keyspace == keyspace && events[j] == DropKeyspace(keyspace)
  }

  ghost predicate DropsTwice(events: seq<Event>, keyspace: string) {
    exists i, j :: 0 <= i < j < |events| && events[i] == events[j] == DropKeyspace(keyspace)
  }

  predicate HasTables(host: HostBackup) {
    host.readable && exists d :: 0 <= d < |host.dumps| && host.dumps[d].hasSchema
  }

  /** The hosts whose archives are read agree on whether they hold whole keyspaces. */
  ghost predicate Agree(hosts: seq<HostBackup>) {
    forall i, j :: 0 <= i < |hosts| && 0 <= j < |hosts| && hosts[i].readable && hosts[j].readable ==>
      WholeKeyspace(hosts[i]) == WholeKeyspace(hosts[j])
  }

  /** A host that has the keyspace dropped comes after one that loads tables without having had it dropped. */
  ghost predicate LateDrop(hosts: seq<HostBackup>) {
    exists i, j :: 0 <= i < j < |hosts| && HasTables(hosts[i]) && hosts[j].readable && WholeKeyspace(hosts[j]) &&
      forall m :: 0 <= m < j && hosts[m].readable ==> !WholeKeyspace(hosts[m])
  }

  lemma {:induction false} DumpsLoad(mode: Mode, keyspace: string, dumps: seq<Dump>)
    ensures var events := DumpsEvents(mode, keyspace, dumps);
            && !Drops(events, Target(mode, keyspace))
            && (LoadsInto(events, Target(mode, keyspace)) <==> exists d :: 0 <= d < |dumps| && dumps[d].hasSchema)
  {
    if dumps != [] {
      var init, last := dumps[..|dumps| - 1], dumps[|dumps| - 1];
      DumpsLoad(mode, keyspace, init);
      var k := Target(mode, keyspace);
      LoadsAppend(DumpsEvents(mode, keyspace, init), DumpEvents(mode, keyspace, last), k);
      if last.hasSchema {
        var events := DumpEvents(mode, keyspace, last);
        assert events[|events| - 1] == Load(k, last.table, last.rows);
        assert dumps[|dumps| - 1].hasSchema;
      } else if d :| 0 <= d < |init| && init[d].hasSchema {
        assert dumps[d].hasSchema;
      }
      if d :| 0 <= d < |dumps| && dumps[d].hasSchema {
        assert d < |init| ==> init[d].hasSchema;
      }
    }
  }

  lemma LoadsAppend(a: seq<Event>, b: seq<Event>, k: string)
    ensures LoadsInto(a + b, k) <==> LoadsInto(a, k) || LoadsInto(b, k)
    ensures Drops(a + b, k) <==> Drops(a, k) || Drops(b, k)
    ensures DropsLoaded(a + b, k) <==> DropsLoaded(a, k) || DropsLoaded(b, k) || (LoadsInto(a, k) && Drops(b, k))
    ensures DropsTwice(a + b, k) <==> DropsTwice(a, k) || DropsTwice(b, k) || (Drops(a, k) && Drops(b, k))
  {
    var all := a + b;
    assert forall i :: 0 <= i < |a| ==> a[i] == all[i];
    assert forall i :: 0 <= i < |b| ==> b[i] == all[|a| + i];
    assert forall i :: |a| <= i < |all| ==> all[i] == b[i - |a|];
  }
}
