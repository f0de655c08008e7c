/** What a restore may drop, and what the restored keyspaces hold. */
module RestoreLaws {
  import opened Text
  import opened Restore

  // ---------- Dropping a keyspace ----------

  lemma OpeningDrops(mode: Mode, keyspace: string, host: HostBackup, roles: bool, dropped: bool)
    ensures var events := Opening(mode, keyspace, host, roles, dropped);
            var k := Target(mode, keyspace);
            && !LoadsInto(events, k) && !DropsTwice(events, k)
            && (Drops(events, k) <==> mode.InPlace? && !dropped && WholeKeyspace(host) && roles)
  {
    hide DropsLoaded;
    var k := Target(mode, keyspace);
    var events := Opening(mode, keyspace, host, roles, dropped);
    if mode.InPlace? && !dropped && WholeKeyspace(host) && roles {
      assert events == [Consult(true), Consult(true), DropKeyspace(k), Consult(host.schema), CreateKeyspace(k),
                        Roles(keyspace)];
      assert events[2] == DropKeyspace(k);
    }
  }

  lemma HostDrops(mode: Mode, keyspace: string, host: HostBackup, roles: bool, dropped: bool)
    ensures var events := HostEvents(mode, keyspace, host, roles, dropped);
            var k := Target(mode, keyspace);
            && !DropsLoaded(events, k) && !DropsTwice(events, k)
            && (LoadsInto(events, k) <==> HasTables(host))
            && (Drops(events, k) <==> host.readable && mode.InPlace? && !dropped && WholeKeyspace(host) && roles)
  {
    hide Opening, DumpsEvents, LoadsInto, Drops;
    var k := Target(mode, keyspace);
    if host.readable {
      OpeningDrops(mode, keyspace, host, roles, dropped);
      DumpsLoad(mode, keyspace, host.dumps);
      LoadsAppend(Opening(mode, keyspace, host, roles, dropped), DumpsEvents(mode, keyspace, host.dumps), k);
      NothingToDrop(Opening(mode, keyspace, host, roles, dropped), k);
      NothingToDrop(DumpsEvents(mode, keyspace, host.dumps), k);
    } else {
      NothingAtAll(k);
    }
  }

  lemma NothingToDrop(events: seq<Event>, k: string)
    ensures !Drops(events, k) ==> !DropsLoaded(events, k) && !DropsTwice(events, k)
    ensures !LoadsInto(events, k) ==> !DropsLoaded(events, k)
  {
  }

  lemma NothingAtAll(k: string)
    ensures !Drops([], k) && !LoadsInto([], k) && !DropsLoaded([], k) && !DropsTwice([], k)
  {
  }

  predicate AnyWhole(hosts: seq<HostBackup>) {
    exists i :: 0 <= i < |hosts| && hosts[i].readable && WholeKeyspace(hosts[i])
  }

  predicate AnyTables(hosts: seq<HostBackup>) {
    exists i :: 0 <= i < |hosts| && HasTables(hosts[i])
  }

  lemma AnyWholeSnoc(hosts: seq<HostBackup>)
    requires hosts != []
    ensures var init, last := hosts[..|hosts| - 1], hosts[|hosts| - 1];
            && (AnyWhole(hosts) <==> AnyWhole(init) || (last.readable && WholeKeyspace(last)))
            && (AnyTables(hosts) <==> AnyTables(init) || HasTables(last))
            && (LateDrop(hosts) <==>
                LateDrop(init) || (AnyTables(init) && !AnyWhole(init) && last.readable && WholeKeyspace(last)))
  {
    hide HasTables, WholeKeyspace;
    var init, last := hosts[..|hosts| - 1], hosts[|hosts| - 1];
    assert forall i :: 0 <= i < |init| ==> init[i] == hosts[i];
  }

  /** In place, the keyspace is dropped at most once; it is dropped after a load into it exactly when roles are
      restored and a host with the whole-keyspace flag comes, as the first such, after one that loads tables. */
  lemma {:induction false} DropsInPlace(keyspace: string, hosts: seq<HostBackup>, roles: bool)
    ensures var events := Events(InPlace, keyspace, hosts, roles);
            && !DropsTwice(events, keyspace)
            && (Drops(events, keyspace) <==> roles && AnyWhole(hosts))
            && (LoadsInto(events, keyspace) <==> AnyTables(hosts))
            && (DropsLoaded(events, keyspace) <==> roles && LateDrop(hosts))
            && (Dropped(InPlace, hosts, roles) <==> AnyWhole(hosts))
  {
    hide HostEvents, HasTables, LateDrop, AnyWhole, AnyTables, LoadsInto, Drops, DropsLoaded, DropsTwice;
    if hosts == [] {
      NothingAtAll(keyspace);
      NoHosts();
    } else {
      var init, last := hosts[..|hosts| - 1], hosts[|hosts| - 1];
      DropsInPlace(keyspace, init, roles);
      AnyWholeSnoc(hosts);
      HostDrops(InPlace, keyspace, last, roles, Dropped(InPlace, init, roles));
      LoadsAppend(Events(InPlace, keyspace, init, roles),
                  HostEvents(InPlace, keyspace, last, roles, Dropped(InPlace, init, roles)), keyspace);
    }
  }

  lemma NoHosts()
    ensures !AnyWhole([]) && !AnyTables([]) && !LateDrop([])
  {
  }

  /** While the metadata of the hosts agree, no run, completed or not, drops what it has loaded, and none drops
      the keyspace twice. */
  lemma AgreementIsSafe(faults: Faults, keyspace: string, hosts: seq<HostBackup>, roles: bool, w: World)
    requires Agree(hosts)
    ensures var after := Run(faults, Events(InPlace, keyspace, hosts, roles), w);
            && w.log <= after.log
            && !DropsLoaded(after.log[|w.log|..], keyspace) && !DropsTwice(after.log[|w.log|..], keyspace)
  {
    hide Run, Events;
    var events := Events(InPlace, keyspace, hosts, roles);
    DropsInPlace(keyspace, hosts, roles);
    RunEffect(faults, events, w);
    var log := Run(faults, events, w).log;
    assert (w.log + events)[|w.log|..] == events;
    assert forall i :: 0 <= i < |log| - |w.log| ==> log[|w.log|..][i] == events[i];
  }

  const DisagreeingHosts := [HostBackup(true, true, Entry(false), [Dump("t", true, {"a"})]),
                             HostBackup(true, true, Entry(true), [])]

  /** Hosts that disagree: the second has the rows of the first dropped with the keyspace. */
  lemma DisagreementDropsLoaded()
    ensures DropsLoaded(Events(InPlace, "ks", DisagreeingHosts, true), "ks")
  {
    DropsInPlace("ks", DisagreeingHosts, true);
    assert HasTables(DisagreeingHosts[0]) && WholeKeyspace(DisagreeingHosts[1]);
    assert LateDrop(DisagreeingHosts);
  }

  /** A clone drops no keyspace at all. */
  lemma {:induction false} CloneDropsNothing(keyspace: string, newName: string, hosts: seq<HostBackup>, roles: bool)
    ensures !Drops(Events(Clone(newName), keyspace, hosts, roles), newName)
  {
    hide HostEvents, Drops, LoadsInto;
    if hosts == [] {
      NothingAtAll(newName);
    } else {
      var init, last := hosts[..|hosts| - 1], hosts[|hosts| - 1];
      var dropped := Dropped(Clone(newName), init, roles);
      CloneDropsNothing(keyspace, newName, init, roles);
      HostDrops(Clone(newName), keyspace, last, roles, dropped);
      LoadsAppend(Events(Clone(newName), keyspace, init, roles),
                  HostEvents(Clone(newName), keyspace, last, roles, dropped), newName);
    }
  }

  // ---------- What the tables hold ----------

  function Rows(tables: Tables, table: string): set<Row> {
    if table in tables then tables[table] else {}
  }

  /** In place every dump replaces its table; in a clone it adds to it. */
  function Placed(mode: Mode, tables: Tables, dump: Dump): Tables {
    if !dump.hasSchema then tables
    else tables[dump.table := (if mode.InPlace? then {} else Rows(tables, dump.table)) + dump.rows]
  }

  function PlacedAll(mode: Mode, tables: Tables, dumps: seq<Dump>): Tables {
    if dumps == [] then tables
    else Placed(mode, PlacedAll(mode, tables, dumps[..|dumps| - 1]), dumps[|dumps| - 1])
  }

  lemma DumpPlaces(mode: Mode, keyspace: string, dump: Dump, kss: Keyspaces)
    requires Target(mode, keyspace) in kss
    ensures var k := Target(mode, keyspace);
            Effect(kss, DumpEvents(mode, keyspace, dump)) == kss[k := Placed(mode, kss[k], dump)]
  {
    hide Effect, Applied;
    var k := Target(mode, keyspace);
    if !dump.hasSchema {
      EffectNothing(kss);
      assert kss[k := kss[k]] == kss;
    } else {
      var create, load := CreateTable(k, dump.table), Load(k, dump.table, dump.rows);
      var start := if mode.InPlace? then Applied(DropTable(k, dump.table), kss) else kss;
      if mode.InPlace? {
        EffectAppend(kss, [DropTable(k, dump.table)], [create, load]);
        assert [DropTable(k, dump.table)] + [create, load] == DumpEvents(mode, keyspace, dump);
        EffectOne(kss, DropTable(k, dump.table));
      }
      EffectAppend(start, [create], [load]);
      assert [create] + [load] == [create, load];
      EffectOne(start, create);
      EffectOne(Applied(create, start), load);
      CreateLoad(mode, kss, k, dump);
    }
  }

  lemma CreateLoad(mode: Mode, kss: Keyspaces, k: string, dump: Dump)
    requires k in kss && dump.hasSchema
    ensures var start := if mode.InPlace? then Applied(DropTable(k, dump.table), kss) else kss;
            Applied(Load(k, dump.table, dump.rows), Applied(CreateTable(k, dump.table), start)) ==
            kss[k := Placed(mode, kss[k], dump)]
  {
    var start := if mode.InPlace? then Applied(DropTable(k, dump.table), kss) else kss;
    var created := Applied(CreateTable(k, dump.table), start);
    assert Applied(Load(k, dump.table, dump.rows), created)[k] == Placed(mode, kss[k], dump);
  }

  lemma {:induction false} DumpsPlace(mode: Mode, keyspace: string, dumps: seq<Dump>, kss: Keyspaces)
    requires Target(mode, keyspace) in kss
    ensures var k := Target(mode, keyspace);
            Effect(kss, DumpsEvents(mode, keyspace, dumps)) == kss[k := PlacedAll(mode, kss[k], dumps)]
  {
    hide Effect, DumpEvents, Placed;
    var k := Target(mode, keyspace);
    if dumps == [] {
      EffectNothing(kss);
      assert kss[k := kss[k]] == kss;
    } else {
      var init, last := dumps[..|dumps| - 1], dumps[|dumps| - 1];
      DumpsPlace(mode, keyspace, init, kss);
      var before := kss[k := PlacedAll(mode, kss[k], init)];
      EffectAppend(kss, DumpsEvents(mode, keyspace, init), DumpEvents(mode, keyspace, last));
      DumpPlaces(mode, keyspace, last, before);
    }
  }

  lemma {:induction false} PlacedAppend(mode: Mode, tables: Tables, a: seq<Dump>, b: seq<Dump>)
    ensures PlacedAll(mode, tables, a + b) == PlacedAll(mode, PlacedAll(mode, tables, a), b)
  {
    if b == [] {
      assert a + b == a;
    } else {
      assert (a + b)[..|a + b| - 1] == a + b[..|b| - 1];
      PlacedAppend(mode, tables, a, b[..|b| - 1]);
    }
  }

  /** The dumps of all archives that are read, in the order they are read. */
  function AllDumps(hosts: seq<HostBackup>): seq<Dump> {
    if hosts == [] then []
    else AllDumps(hosts[..|hosts| - 1]) + (if hosts[|hosts| - 1].readable then hosts[|hosts| - 1].dumps else [])
  }

  predicate AnyReadable(hosts: seq<HostBackup>) {
    exists i :: 0 <= i < |hosts| && hosts[i].readable
  }

  /** Whether a host that is read has something dropped: the keyspace, or in a clone its tables. */
  predicate Clears(mode: Mode, host: HostBackup, roles: bool, dropped: bool) {
    !dropped && if mode.InPlace? then WholeKeyspace(host) && roles else !roles
  }

  function TablesOf(kss: Keyspaces, k: string): Tables {
    if k in kss then kss[k] else map[]
  }

  /** Only the keyspace itself is written. */
  lemma SetTables(kss: Keyspaces, k: string, tables: Tables)
    ensures k in kss ==> kss[k := kss[k]] == kss
    ensures (kss - {k})[k := tables] == kss[k := tables]
  {
  }

  lemma ConsultThenOne(kss: Keyspaces, present: bool, e: Event)
    ensures Effect(kss, [Consult(present), e]) == Applied(e, kss)
  {
    hide Effect;
    assert [Consult(present), e] == [Consult(present)] + [e];
    EffectAppend(kss, [Consult(present)], [e]);
    EffectOne(kss, Consult(present));
    EffectOne(Applied(Consult(present), kss), e);
  }

  lemma OpeningInPlace(keyspace: string, host: HostBackup, roles: bool, dropped: bool, kss: Keyspaces)
    requires keyspace != "" && (dropped ==> keyspace in kss)
    ensures Effect(kss, InPlaceOpening(keyspace, host, roles, dropped)) ==
            kss[keyspace := if Clears(InPlace, host, roles, dropped) then map[] else TablesOf(kss, keyspace)]
  {
    hide Effect;
    var consult, create := [Consult(host.meta.Entry?)], [Consult(host.schema), CreateKeyspace(keyspace)];
    var drop := if WholeKeyspace(host) && roles then [DropKeyspace(keyspace)] else [];
    SetTables(kss, keyspace, map[]);
    EffectNothing(kss);
    if !dropped {
      EffectAppend(kss, consult + drop, create);
      EffectAppend(kss, consult, drop);
      EffectOne(kss, consult[0]);
      EffectOne(kss, DropKeyspace(keyspace));
      ConsultThenOne(kss, host.schema, create[1]);
      ConsultThenOne(kss - {keyspace}, host.schema, create[1]);
    }
  }

  lemma OpeningClone(newName: string, host: HostBackup, roles: bool, dropped: bool, kss: Keyspaces)
    requires newName != ""
    ensures Effect(kss, CloneOpening(newName, host, roles, dropped)) ==
            kss[newName := if Clears(Clone(newName), host, roles, dropped) then map[] else TablesOf(kss, newName)]
  {
    hide Effect;
    var create := [Consult(host.schema), CreateKeyspace(newName)];
    var clear := if !dropped && !roles then [DropAllTables(newName)] else [];
    EffectAppend(kss, create, clear);
    ConsultThenOne(kss, host.schema, create[1]);
    var created := Applied(create[1], kss);
    SetTables(kss, newName, map[]);
    SetTables(created, newName, map[]);
    EffectNothing(created);
    EffectOne(created, DropAllTables(newName));
  }

  /** The beginning of a host's archive clears the keyspace or leaves its tables alone. */
  lemma OpeningEffect(mode: Mode, keyspace: string, host: HostBackup, roles: bool, dropped: bool, kss: Keyspaces)
    requires Target(mode, keyspace) != "" && (mode.InPlace? && dropped ==> keyspace in kss)
    ensures var k := Target(mode, keyspace);
            Effect(kss, Opening(mode, keyspace, host, roles, dropped)) ==
            kss[k := if Clears(mode, host, roles, dropped) then map[] else TablesOf(kss, k)]
  {
    hide Effect, Clears, InPlaceOpening, CloneOpening;
    var consult, tail := Consult(!host.meta.NoFile?), if roles then [Roles(keyspace)] else [];
    var body := if mode.InPlace? then InPlaceOpening(keyspace, host, roles, dropped)
                else CloneOpening(mode.newName, host, roles, dropped);
    assert Opening(mode, keyspace, host, roles, dropped) == [consult] + body + tail;
    EffectAppend(kss, [consult] + body, tail);
    EffectAppend(kss, [consult], body);
    EffectOne(kss, consult);
    if mode.InPlace? {
      OpeningInPlace(keyspace, host, roles, dropped, kss);
    } else {
      OpeningClone(mode.newName, host, roles, dropped, kss);
    }
    EffectNothing(Effect(kss, body));
    EffectOne(Effect(kss, body), Roles(keyspace));
  }

  lemma HostEffect(mode: Mode, keyspace: string, host: HostBackup, roles: bool, dropped: bool, kss: Keyspaces)
    requires host.readable && Target(mode, keyspace) != "" && (dropped ==> Target(mode, keyspace) in kss)
    ensures var k := Target(mode, keyspace);
            var ground := if Clears(mode, host, roles, dropped) then map[] else TablesOf(kss, k);
            Effect(kss, HostEvents(mode, keyspace, host, roles, dropped)) ==
            kss[k := PlacedAll(mode, ground, host.dumps)]
  {
    hide Effect, Opening, DumpsEvents, PlacedAll, Clears;
    OpeningEffect(mode, keyspace, host, roles, dropped, kss);
    var ready := Effect(kss, Opening(mode, keyspace, host, roles, dropped));
    DumpsPlace(mode, keyspace, host.dumps, ready);
    EffectAppend(kss, Opening(mode, keyspace, host, roles, dropped), DumpsEvents(mode, keyspace, host.dumps));
  }

  /** The dumps that are placed after the last time something was dropped, in the order they are read. */
  function Surviving(mode: Mode, hosts: seq<HostBackup>, roles: bool): seq<Dump> {
    if hosts == [] then []
    else
      var init, last := hosts[..|hosts| - 1], hosts[|hosts| - 1];
      if !last.readable then Surviving(mode, init, roles)
      else if Clears(mode, last, roles, Dropped(mode, init, roles)) then last.dumps
      else Surviving(mode, init, roles) + last.dumps
  }

  predicate AnyClears(mode: Mode, hosts: seq<HostBackup>, roles: bool) {
    if mode.InPlace? then roles && AnyWhole(hosts) else !roles && AnyReadable(hosts)
  }

  /** The tables the surviving dumps are placed on: none where something was dropped. */
  function Ground(mode: Mode, kss: Keyspaces, k: string, hosts: seq<HostBackup>, roles: bool): Tables {
    if AnyClears(mode, hosts, roles) then map[] else TablesOf(kss, k)
  }

  lemma {:induction false} FirstClears(mode: Mode, hosts: seq<HostBackup>, roles: bool)
    ensures Dropped(mode, hosts, roles) <==> if mode.InPlace? then AnyWhole(hosts) else !roles && AnyReadable(hosts)
    ensures !AnyReadable(hosts) ==> AllDumps(hosts) == [] && Surviving(mode, hosts, roles) == [] && !AnyWhole(hosts)
  {
    if hosts != [] {
      FirstClears(mode, hosts[..|hosts| - 1], roles);
      AnyReadableSnoc(hosts);
      AnyWholeSnoc(hosts);
    }
  }

  lemma AnyClearsSnoc(mode: Mode, hosts: seq<HostBackup>, roles: bool)
    requires hosts != []
    ensures var init, last := hosts[..|hosts| - 1], hosts[|hosts| - 1];
            AnyClears(mode, hosts, roles) <==>
            AnyClears(mode, init, roles) || (last.readable && Clears(mode, last, roles, Dropped(mode, init, roles)))
  {
    FirstClears(mode, hosts[..|hosts| - 1], roles);
    AnyReadableSnoc(hosts);
    AnyWholeSnoc(hosts);
  }

  /** The keyspace after all hosts, whatever their metadata say: the surviving dumps placed one after the other
      on what was there, or on nothing where something was dropped. */
  lemma {:induction false} HostsEffect(mode: Mode, keyspace: string, hosts: seq<HostBackup>, roles: bool,
                                       kss: Keyspaces)
    requires Target(mode, keyspace) != ""
    ensures var k := Target(mode, keyspace);
            Effect(kss, Events(mode, keyspace, hosts, roles)) ==
            if AnyReadable(hosts)
            then kss[k := PlacedAll(mode, Ground(mode, kss, k, hosts, roles), Surviving(mode, hosts, roles))]
            else kss
  {
    hide Effect, HostEvents, PlacedAll, Clears, AnyWhole, Target;
    var k := Target(mode, keyspace);
    if hosts == [] {
      EffectNothing(kss);
    } else {
      var init, last := hosts[..|hosts| - 1], hosts[|hosts| - 1];
      HostsEffect(mode, keyspace, init, roles, kss);
      FirstClears(mode, init, roles);
      var dropped := Dropped(mode, init, roles);
      var before := Effect(kss, Events(mode, keyspace, init, roles));
      EffectAppend(kss, Events(mode, keyspace, init, roles), HostEvents(mode, keyspace, last, roles, dropped));
      AnyReadableSnoc(hosts);
      AnyClearsSnoc(mode, hosts, roles);
      if last.readable {
        var ground := Ground(mode, kss, k, init, roles);
        HostEffect(mode, keyspace, last, roles, dropped, before);
        PlacedAppend(mode, ground, Surviving(mode, init, roles), last.dumps);
        PlacedNothing(mode, ground);
      } else {
        NotRead(mode, keyspace, last, roles, dropped, before);
      }
    }
  }

  /** Nothing is lost to a drop when nothing is dropped in place, in a clone, and when the hosts agree. */
  lemma {:induction false} SurvivingAll(mode: Mode, hosts: seq<HostBackup>, roles: bool)
    requires mode.Clone? || !roles || Agree(hosts)
    ensures Surviving(mode, hosts, roles) == AllDumps(hosts)
  {
    if hosts != [] {
      var init, last := hosts[..|hosts| - 1], hosts[|hosts| - 1];
      assert Agree(hosts) ==> Agree(init) by {
        assert forall i :: 0 <= i < |init| ==> init[i] == hosts[i];
      }
      SurvivingAll(mode, init, roles);
      FirstClears(mode, init, roles);
      if last.readable && Clears(mode, last, roles, Dropped(mode, init, roles)) {
        assert forall i :: 0 <= i < |init| ==> init[i] == hosts[i];
        assert !AnyReadable(init);
      }
    }
  }

  /** In place, what is dropped late takes the dumps of the hosts before it along: those from the first host on
      that holds the whole keyspace survive, and no others. */
  lemma {:induction false} SurvivingFromFirstWhole(hosts: seq<HostBackup>, p: nat)
    requires p < |hosts| && hosts[p].readable && WholeKeyspace(hosts[p]) && !AnyWhole(hosts[..p])
    ensures Surviving(InPlace, hosts, true) == AllDumps(hosts[p..])
  {
    var init := hosts[..|hosts| - 1];
    FirstClears(InPlace, init, true);
    if p == |hosts| - 1 {
      assert hosts[p..] == [hosts[p]] && hosts[p..][..0] == [] && init == hosts[..p];
      assert AllDumps(hosts[p..]) == [] + hosts[p].dumps;
    } else {
      assert init[..p] == hosts[..p] && init[p] == hosts[p];
      SurvivingFromFirstWhole(init, p);
      assert hosts[p..][..|hosts[p..]| - 1] == init[p..];
    }
  }

  lemma AnyReadableSnoc(hosts: seq<HostBackup>)
    requires hosts != []
    ensures AnyReadable(hosts) <==> AnyReadable(hosts[..|hosts| - 1]) || hosts[|hosts| - 1].readable
  {
  }

  lemma PlacedNothing(mode: Mode, tables: Tables)
    ensures PlacedAll(mode, tables, []) == tables
  {
  }

  lemma NotRead(mode: Mode, keyspace: string, host: HostBackup, roles: bool, dropped: bool, kss: Keyspaces)
    requires !host.readable
    ensures Effect(kss, HostEvents(mode, keyspace, host, roles, dropped)) == kss
  {
  }

  // ---------- Backup and restore as a round trip ----------

  /** The rows of a table in the backup: those of all its dumps together. */
  function BackedUp(dumps: seq<Dump>, table: string): set<Row> {
    if dumps == [] then {}
    else
      var last := dumps[|dumps| - 1];
      BackedUp(dumps[..|dumps| - 1], table) + (if last.hasSchema && last.table == table then last.rows else {})
  }

  predicate Holds(dumps: seq<Dump>, table: string) {
    exists i :: 0 <= i < |dumps| && dumps[i].hasSchema && dumps[i].table == table
  }

  /** The last dump of a table, in the order the archives are read. */
  function LastDump(dumps: seq<Dump>, table: string): Dump
    requires Holds(dumps, table)
  {
    var last := dumps[|dumps| - 1];
    if last.hasSchema && last.table == table then last
    else HoldsEarlier(dumps, table); LastDump(dumps[..|dumps| - 1], table)
  }

  lemma HoldsEarlier(dumps: seq<Dump>, table: string)
    requires dumps != []
    ensures var last := dumps[|dumps| - 1];
            Holds(dumps, table) <==> (last.hasSchema && last.table == table) || Holds(dumps[..|dumps| - 1], table)
  {
  }

  /** A table restored in place holds the rows of its last dump; one without a dump is left alone. */
  lemma {:induction false} InPlaceHoldsLast(tables: Tables, dumps: seq<Dump>, table: string)
    ensures var after := PlacedAll(InPlace, tables, dumps);
            && (Holds(dumps, table) ==> table in after && after[table] == LastDump(dumps, table).rows)
            && (!Holds(dumps, table) ==>
                  Rows(after, table) == Rows(tables, table) && (table in after <==> table in tables))
    ensures Holds(dumps, table) ==> LastDump(dumps, table).rows <= BackedUp(dumps, table)
  {
    if dumps != [] {
      HoldsEarlier(dumps, table);
      InPlaceHoldsLast(tables, dumps[..|dumps| - 1], table);
    }
  }

  /** A cloned table holds what was there and all rows of the backup. */
  lemma {:induction false} CloneHoldsAll(newName: string, tables: Tables, dumps: seq<Dump>, table: string)
    ensures Rows(PlacedAll(Clone(newName), tables, dumps), table) == Rows(tables, table) + BackedUp(dumps, table)
    ensures table in PlacedAll(Clone(newName), tables, dumps) <==> table in tables || Holds(dumps, table)
  {
    if dumps != [] {
      HoldsEarlier(dumps, table);
      CloneHoldsAll(newName, tables, dumps[..|dumps| - 1], table);
    }
  }

  predicate Complete(dump: Dump, dumps: seq<Dump>, table: string) {
    forall i :: 0 <= i < |dumps| && dumps[i].hasSchema && dumps[i].table == table ==> dumps[i].rows <= dump.rows
  }

  lemma {:induction false} BackedUpWithin(dumps: seq<Dump>, table: string, rows: set<Row>)
    ensures BackedUp(dumps, table) <= rows <==>
            forall i :: 0 <= i < |dumps| && dumps[i].hasSchema && dumps[i].table == table ==> dumps[i].rows <= rows
  {
    if dumps != [] {
      var init := dumps[..|dumps| - 1];
      BackedUpWithin(init, table, rows);
      assert forall i :: 0 <= i < |init| ==> init[i] == dumps[i];
    }
  }

  /** What a restore in place comes to for a table. */
  ghost predicate BackInPlace(kss: Keyspaces, after: Keyspaces, keyspace: string, hosts: seq<HostBackup>, roles: bool,
                              table: string) {
    var all, left := AllDumps(hosts), Surviving(InPlace, hosts, roles);
    && keyspace in after && after - {keyspace} == kss - {keyspace}
    && (table in after[keyspace] <==> Holds(left, table))
    && (Holds(left, table) ==>
          && after[keyspace][table] == LastDump(left, table).rows
          && (after[keyspace][table] == BackedUp(all, table) <==> Complete(LastDump(left, table), all, table)))
  }

  lemma InPlaceRows(keyspace: string, hosts: seq<HostBackup>, roles: bool, kss: Keyspaces, table: string)
    requires keyspace != "" && Holds(AllDumps(hosts), table)
    ensures BackInPlace(kss, Effect(kss, Events(InPlace, keyspace, hosts, roles)), keyspace, hosts, roles, table)
  {
    hide Effect, Events, PlacedAll, LastDump, AllDumps, Surviving, AnyWhole;
    var all, left := AllDumps(hosts), Surviving(InPlace, hosts, roles);
    HostsEffect(InPlace, keyspace, hosts, roles, kss);
    FirstClears(InPlace, hosts, roles);
    assert !AnyReadable(hosts) ==> !Holds(all, table);
    if !(roles && AnyWhole(hosts)) {
      NothingCleared(hosts, roles);
    }
    InPlaceHoldsLast(Ground(InPlace, kss, keyspace, hosts, roles), left, table);
    if Holds(left, table) {
      BackedUpWithin(all, table, LastDump(left, table).rows);
      SurvivingAmong(InPlace, hosts, roles, table);
    }
  }

  /** In place, whatever the metadata say: after a completed restore a table holds exactly the rows of its last dump
      that survives, because every dump drops the table again, so it comes back whole exactly when that one dump is
      complete. A table none of whose dumps survives is gone. Other keyspaces are as they were. */
  lemma InPlaceRoundTrip(faults: Faults, keyspace: string, hosts: seq<HostBackup>, roles: bool, w: World,
                         table: string)
    requires keyspace != "" && Holds(AllDumps(hosts), table)
    requires AllWork(faults, Events(InPlace, keyspace, hosts, roles), w)
    ensures BackInPlace(w.keyspaces, Run(faults, Events(InPlace, keyspace, hosts, roles), w).keyspaces, keyspace, hosts,
                        roles, table)
  {
    hide Run, AllWork, Events, BackInPlace;
    RunEffect(faults, Events(InPlace, keyspace, hosts, roles), w);
    InPlaceRows(keyspace, hosts, roles, w.keyspaces, table);
  }

  lemma {:induction false} NothingCleared(hosts: seq<HostBackup>, roles: bool)
    requires !(roles && AnyWhole(hosts))
    ensures Surviving(InPlace, hosts, roles) == AllDumps(hosts)
  {
    if hosts != [] {
      AnyWholeSnoc(hosts);
      NothingCleared(hosts[..|hosts| - 1], roles);
    }
  }

  /** What survives is part of the backup. */
  lemma {:induction false} SurvivingAmong(mode: Mode, hosts: seq<HostBackup>, roles: bool, table: string)
    ensures forall dump :: dump in Surviving(mode, hosts, roles) ==> dump in AllDumps(hosts)
    ensures BackedUp(Surviving(mode, hosts, roles), table) <= BackedUp(AllDumps(hosts), table)
    ensures Holds(Surviving(mode, hosts, roles), table) ==>
              LastDump(Surviving(mode, hosts, roles), table).rows <= BackedUp(AllDumps(hosts), table)
  {
    hide Clears;
    if hosts != [] {
      var init, last := hosts[..|hosts| - 1], hosts[|hosts| - 1];
      SurvivingAmong(mode, init, roles, table);
      if last.readable {
        BackedUpAppend(AllDumps(init), last.dumps, table);
        BackedUpAppend(Surviving(mode, init, roles), last.dumps, table);
        assert AllDumps(hosts) == AllDumps(init) + last.dumps;
      } else {
        assert AllDumps(hosts) == AllDumps(init);
      }
    }
    InPlaceHoldsLast(map[], Surviving(mode, hosts, roles), table);
  }

  lemma {:induction false} BackedUpAppend(a: seq<Dump>, b: seq<Dump>, table: string)
    ensures BackedUp(a + b, table) == BackedUp(a, table) + BackedUp(b, table)
  {
    if b == [] {
      assert a + b == a;
    } else {
      assert (a + b)[..|a + b| - 1] == a + b[..|b| - 1];
      BackedUpAppend(a, b[..|b| - 1], table);
    }
  }

  const HalfHosts := [HostBackup(true, true, Entry(true), [Dump("t", true, {"a"})]),
                      HostBackup(true, true, Entry(true), [Dump("t", true, {"b"})])]

  /** Two hosts that hold a row each: only the second row comes back. */
  lemma InPlaceLosesRows(faults: Faults, roles: bool, w: World)
    requires AllWork(faults, Events(InPlace, "ks", HalfHosts, roles), w)
    ensures var after := Run(faults, Events(InPlace, "ks", HalfHosts, roles), w).keyspaces;
            "ks" in after && Rows(after["ks"], "t") == {"b"} && BackedUp(AllDumps(HalfHosts), "t") == {"a", "b"}
  {
    hide Run, AllWork, Events;
    var a, b := Dump("t", true, {"a"}), Dump("t", true, {"b"});
    assert HalfHosts[..1] == [HalfHosts[0]] && HalfHosts[..1][..0] == [];
    assert AllDumps(HalfHosts[..1]) == [a];
    assert AllDumps(HalfHosts) == [a] + [b];
    assert ([a] + [b])[..1] == [a] && [a][..0] == [];
    assert BackedUp([a], "t") == {"a"};
    assert ([a] + [b])[1] == b;
    assert Holds(AllDumps(HalfHosts), "t");
    SurvivingAll(InPlace, HalfHosts, roles);
    InPlaceRoundTrip(faults, "ks", HalfHosts, roles, w, "t");
  }

  /** What a restore into a clone comes to for a table. */
  ghost predicate InClone(kss: Keyspaces, after: Keyspaces, newName: string, hosts: seq<HostBackup>, roles: bool,
                          table: string) {
    var before := if roles then TablesOf(kss, newName) else map[];
    && newName in after && after - {newName} == kss - {newName}
    && Rows(after[newName], table) == Rows(before, table) + BackedUp(AllDumps(hosts), table)
    && (table in after[newName] <==> table in before || Holds(AllDumps(hosts), table))
  }

  lemma CloneRows(keyspace: string, newName: string, hosts: seq<HostBackup>, roles: bool, kss: Keyspaces,
                  table: string)
    requires newName != "" && AnyReadable(hosts)
    ensures InClone(kss, Effect(kss, Events(Clone(newName), keyspace, hosts, roles)), newName, hosts, roles, table)
  {
    hide Effect, Events, PlacedAll;
    HostsEffect(Clone(newName), keyspace, hosts, roles, kss);
    SurvivingAll(Clone(newName), hosts, roles);
    CloneHoldsAll(newName, Ground(Clone(newName), kss, newName, hosts, roles), AllDumps(hosts), table);
  }

  /** Into a clone: after a completed restore every table holds exactly the rows of the backup, on top of what the
      new keyspace held when roles are restored as well, and instead of it when they are not. */
  lemma CloneRoundTrip(faults: Faults, keyspace: string, newName: string, hosts: seq<HostBackup>, roles: bool,
                       w: World, table: string)
    requires newName != "" && AnyReadable(hosts)
    requires AllWork(faults, Events(Clone(newName), keyspace, hosts, roles), w)
    ensures InClone(w.keyspaces, Run(faults, Events(Clone(newName), keyspace, hosts, roles), w).keyspaces, newName,
                    hosts, roles, table)
  {
    hide Run, AllWork, Events, InClone;
    RunEffect(faults, Events(Clone(newName), keyspace, hosts, roles), w);
    CloneRows(keyspace, newName, hosts, roles, w.keyspaces, table);
  }

  // ---------- Many keyspaces ----------

  /** The archives of a keyspace over all hosts, in the order they are found. */
  type Archives = map<string, seq<HostBackup>>

  function BackupsOf(archives: Archives, keyspace: string): seq<HostBackup> {
    if keyspace in archives then archives[keyspace] else []
  }

  /** The renaming of a clone; a name it lacks becomes empty. */
  function ModeOf(renaming: Option<map<string, string>>, keyspace: string): Mode {
    if renaming.None? then InPlace
    else Clone(if keyspace in renaming.value then renaming.value[keyspace] else "")
  }

  function AfterKeyspaces(kss: Keyspaces, dbs: seq<string>, archives: Archives, renaming: Option<map<string, string>>,
                          roles: bool, n: nat): Keyspaces
    requires n <= |dbs|
  {
    if n == 0 then kss
    else
      Effect(AfterKeyspaces(kss, dbs, archives, renaming, roles, n - 1),
             Events(ModeOf(renaming, dbs[n - 1]), dbs[n - 1], BackupsOf(archives, dbs[n - 1]), roles))
  }

  /** What the first n requests ask for, one after the other. */
  function AllEvents(dbs: seq<string>, archives: Archives, renaming: Option<map<string, string>>, roles: bool, n: nat):
    seq<Event>
    requires n <= |dbs|
  {
    if n == 0 then []
    else
      AllEvents(dbs, archives, renaming, roles, n - 1) +
      Events(ModeOf(renaming, dbs[n - 1]), dbs[n - 1], BackupsOf(archives, dbs[n - 1]), roles)
  }

  /** How many of the first n requests come before one that has no backup. */
  function Backed(dbs: seq<string>, archives: Archives, n: nat): (m: nat)
    requires n <= |dbs|
    ensures m <= n
  {
    if n == 0 then 0
    else
      var m := Backed(dbs, archives, n - 1);
      if m == n - 1 && BackupsOf(archives, dbs[n - 1]) != [] then n else m
  }

  lemma {:induction false} BackedGrows(dbs: seq<string>, archives: Archives, n: nat, more: nat)
    requires n <= more <= |dbs|
    ensures Backed(dbs, archives, n) <= Backed(dbs, archives, more)
    ensures Backed(dbs, archives, n) < n ==> Backed(dbs, archives, more) == Backed(dbs, archives, n)
  {
    if n < more {
      BackedGrows(dbs, archives, n, more - 1);
    }
  }

  lemma {:induction false} AllEventsPrefix(dbs: seq<string>, archives: Archives, renaming: Option<map<string, string>>,
                                           roles: bool, n: nat, more: nat)
    requires n <= more <= |dbs|
    ensures AllEvents(dbs, archives, renaming, roles, n) <= AllEvents(dbs, archives, renaming, roles, more)
  {
    hide Events;
    if n < more {
      AllEventsPrefix(dbs, archives, renaming, roles, n, more - 1);
    }
  }

  lemma {:induction false} AllEventsEffect(kss: Keyspaces, dbs: seq<string>, archives: Archives,
                                           renaming: Option<map<string, string>>, roles: bool, n: nat)
    requires n <= |dbs|
    ensures Effect(kss, AllEvents(dbs, archives, renaming, roles, n)) ==
            AfterKeyspaces(kss, dbs, archives, renaming, roles, n)
  {
    hide Effect, Events;
    if n == 0 {
      EffectNothing(kss);
    } else {
      AllEventsEffect(kss, dbs, archives, renaming, roles, n - 1);
      EffectAppend(kss, AllEvents(dbs, archives, renaming, roles, n - 1),
                   Events(ModeOf(renaming, dbs[n - 1]), dbs[n - 1], BackupsOf(archives, dbs[n - 1]), roles));
    }
  }

  /** All requests in order, up to the first without a backup or the first event that fails. */
  method RestoreAll(db: Database, dbs: seq<string>, archives: Archives, renaming: Option<map<string, string>>,
                    roles: bool)
    returns (ok: bool)
    modifies db
    ensures var events := AllEvents(dbs, archives, renaming, roles, Backed(dbs, archives, |dbs|));
            && db.Now() == Run(db.faults, events, old(db.Now()))
            && (ok <==> Backed(dbs, archives, |dbs|) == |dbs| && AllWork(db.faults, events, old(db.Now())))
    ensures ok ==> db.keyspaces == AfterKeyspaces(old(db.keyspaces), dbs, archives, renaming, roles, |dbs|)
  {
    hide Effect, Events, Run, AllWork, AfterKeyspaces;
    ghost var start := db.Now();
    RunNothing(db.faults, start);
    for n := 0 to |dbs|
      invariant Backed(dbs, archives, n) == n
      invariant AllWork(db.faults, AllEvents(dbs, archives, renaming, roles, n), start)
      invariant db.Now() == Run(db.faults, AllEvents(dbs, archives, renaming, roles, n), start)
    {
      var backups := BackupsOf(archives, dbs[n]);
      BackedGrows(dbs, archives, n + 1, |dbs|);
      if |backups| == 0 {
        return false;
      }
      RunAppend(db.faults, AllEvents(dbs, archives, renaming, roles, n),
                Events(ModeOf(renaming, dbs[n]), dbs[n], backups, roles), start);
      ok := RestoreKeyspace(db, ModeOf(renaming, dbs[n]), dbs[n], backups, roles);
      if !ok {
        ghost var m := Backed(dbs, archives, |dbs|);
        AllEventsPrefix(dbs, archives, renaming, roles, n + 1, m);
        RunCut(db.faults, AllEvents(dbs, archives, renaming, roles, n + 1),
               AllEvents(dbs, archives, renaming, roles, m), start);
        return;
      }
    }
    ok := true;
    RunEffect(db.faults, AllEvents(dbs, archives, renaming, roles, |dbs|), start);
    AllEventsEffect(start.keyspaces, dbs, archives, renaming, roles, |dbs|);
  }

  function TargetOf(renaming: Option<map<string, string>>, keyspace: string): string {
    Target(ModeOf(renaming, keyspace), keyspace)
  }

  ghost predicate DistinctTargets(dbs: seq<string>, renaming: Option<map<string, string>>) {
    && (forall i, j :: 0 <= i < j < |dbs| ==> TargetOf(renaming, dbs[i]) != TargetOf(renaming, dbs[j]))
    && forall i :: 0 <= i < |dbs| ==> TargetOf(renaming, dbs[i]) != ""
  }

  /** The keyspace a request restores into, had it been the only one. */
  ghost predicate RestoredAlone(kss: Keyspaces, after: Keyspaces, db: string, archives: Archives,
                                renaming: Option<map<string, string>>, roles: bool) {
    var mode, hosts, k := ModeOf(renaming, db), BackupsOf(archives, db), TargetOf(renaming, db);
    k in after && after[k] == PlacedAll(mode, Ground(mode, kss, k, hosts, roles), Surviving(mode, hosts, roles))
  }

  ghost predicate SameAt(before: Keyspaces, after: Keyspaces, k: string) {
    (k in after <==> k in before) && (k in before ==> after[k] == before[k])
  }

  predicate Untargeted(dbs: seq<string>, renaming: Option<map<string, string>>, n: nat, k: string)
    requires n <= |dbs|
  {
    forall i :: 0 <= i < n ==> k != TargetOf(renaming, dbs[i])
  }

  lemma OneKeyspace(kss: Keyspaces, before: Keyspaces, db: string, archives: Archives,
                    renaming: Option<map<string, string>>, roles: bool)
    requires TargetOf(renaming, db) != ""
    requires SameAt(kss, before, TargetOf(renaming, db))
    ensures var after := Effect(before, Events(ModeOf(renaming, db), db, BackupsOf(archives, db), roles));
            AnyReadable(BackupsOf(archives, db)) ==> RestoredAlone(kss, after, db, archives, renaming, roles)
  {
    hide Effect, Events, PlacedAll, AllDumps;
    HostsEffect(ModeOf(renaming, db), db, BackupsOf(archives, db), roles, before);
  }

  lemma OtherKeyspaces(before: Keyspaces, db: string, archives: Archives, renaming: Option<map<string, string>>,
                       roles: bool, k: string)
    requires TargetOf(renaming, db) != ""
    requires k != TargetOf(renaming, db)
    ensures SameAt(before, Effect(before, Events(ModeOf(renaming, db), db, BackupsOf(archives, db), roles)), k)
  {
    hide Effect, Events, PlacedAll, AllDumps;
    HostsEffect(ModeOf(renaming, db), db, BackupsOf(archives, db), roles, before);
  }

  /** Each requested keyspace ends as if it had been restored alone, when no two have the same target, and a
      keyspace that is no target stays as it was. */
  lemma {:induction false} KeyspacesIndependent(kss: Keyspaces, dbs: seq<string>, archives: Archives,
                                                renaming: Option<map<string, string>>, roles: bool, n: nat)
    requires n <= |dbs| && DistinctTargets(dbs, renaming)
    ensures var after := AfterKeyspaces(kss, dbs, archives, renaming, roles, n);
            && (forall k :: Untargeted(dbs, renaming, n, k) ==> SameAt(kss, after, k))
            && forall i :: 0 <= i < n && AnyReadable(BackupsOf(archives, dbs[i])) ==>
                 RestoredAlone(kss, after, dbs[i], archives, renaming, roles)
  {
    hide Effect, Events, RestoredAlone, SameAt, TargetOf, ModeOf, AnyReadable;
    if n == 0 {
      SameAsItself(kss);
    } else {
      KeyspacesIndependent(kss, dbs, archives, renaming, roles, n - 1);
      var before := AfterKeyspaces(kss, dbs, archives, renaming, roles, n - 1);
      var after :=
        Effect(before, Events(ModeOf(renaming, dbs[n - 1]), dbs[n - 1], BackupsOf(archives, dbs[n - 1]), roles));
      assert AfterKeyspaces(kss, dbs, archives, renaming, roles, n) == after;
      assert Untargeted(dbs, renaming, n - 1, TargetOf(renaming, dbs[n - 1]));
      OneKeyspace(kss, before, dbs[n - 1], archives, renaming, roles);
      forall k | Untargeted(dbs, renaming, n, k)
        ensures SameAt(kss, after, k)
      {
        assert Untargeted(dbs, renaming, n - 1, k) && k != TargetOf(renaming, dbs[n - 1]);
        OtherKeyspaces(before, dbs[n - 1], archives, renaming, roles, k);
        SameTransitive(kss, before, after, k);
      }
      forall i | 0 <= i < n - 1 && AnyReadable(BackupsOf(archives, dbs[i]))
        ensures RestoredAlone(kss, after, dbs[i], archives, renaming, roles)
      {
        OtherKeyspaces(before, dbs[n - 1], archives, renaming, roles, TargetOf(renaming, dbs[i]));
        StaysAlone(kss, before, after, dbs[i], archives, renaming, roles);
      }
    }
  }

  lemma SameAsItself(kss: Keyspaces)
    ensures forall k :: SameAt(kss, kss, k)
  {
  }

  lemma SameTransitive(a: Keyspaces, b: Keyspaces, c: Keyspaces, k: string)
    requires SameAt(a, b, k) && SameAt(b, c, k)
    ensures SameAt(a, c, k)
  {
  }

  lemma StaysAlone(kss: Keyspaces, before: Keyspaces, after: Keyspaces, db: string, archives: Archives,
                   renaming: Option<map<string, string>>, roles: bool)
    requires RestoredAlone(kss, before, db, archives, renaming, roles)
    requires SameAt(before, after, TargetOf(renaming, db))
    ensures RestoredAlone(kss, after, db, archives, renaming, roles)
  {
  }
}
