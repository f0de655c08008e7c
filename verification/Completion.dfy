/** When a restore completes, if nothing outside fails: the files it consults must be there. */
module Completion {
  import opened Text
  import opened Restore
  import opened RestoreLaws

  ghost predicate AllPossible(events: seq<Event>, kss: Keyspaces) {
    events == [] || (Possible(events[0], kss) && AllPossible(events[1..], Applied(events[0], kss)))
  }

  /** When nothing outside fails, a run completes exactly when each event is possible where it comes. */
  lemma {:induction false} CalmRun(faults: Faults, events: seq<Event>, w: World)
    requires forall n :: faults(n).Calm?
    ensures AllWork(faults, events, w) <==> AllPossible(events, w.keyspaces)
  {
    hide Applied, Possible;
    if events != [] {
      CalmRun(faults, events[1..], Step(faults, events[0], w));
    }
  }

  lemma NothingPossible(kss: Keyspaces)
    ensures AllPossible([], kss)
  {
  }

  lemma {:induction false} PossibleAppend(a: seq<Event>, b: seq<Event>, kss: Keyspaces)
    ensures AllPossible(a + b, kss) <==> AllPossible(a, kss) && AllPossible(b, Effect(kss, a))
  {
    hide Applied, Possible, Effect;
    if a == [] {
      assert a + b == b;
      EffectNothing(kss);
    } else {
      assert (a + b)[1..] == a[1..] + b && [a[0]] + a[1..] == a;
      PossibleAppend(a[1..], b, Applied(a[0], kss));
      EffectAppend(kss, [a[0]], a[1..]);
      EffectOne(kss, a[0]);
    }
  }

  // ---------- The tables of a host ----------

  lemma {:induction false} DumpsPossible(mode: Mode, keyspace: string, dumps: seq<Dump>, kss: Keyspaces)
    requires Target(mode, keyspace) in kss
    ensures AllPossible(DumpsEvents(mode, keyspace, dumps), kss)
  {
    hide Effect, PlacedAll, DumpEvents;
    if dumps != [] {
      var init, last := dumps[..|dumps| - 1], dumps[|dumps| - 1];
      DumpsPossible(mode, keyspace, init, kss);
      DumpsPlace(mode, keyspace, init, kss);
      PossibleAppend(DumpsEvents(mode, keyspace, init), DumpEvents(mode, keyspace, last), kss);
      DumpPossible(mode, keyspace, last, Effect(kss, DumpsEvents(mode, keyspace, init)));
    }
  }

  lemma DumpPossible(mode: Mode, keyspace: string, dump: Dump, kss: Keyspaces)
    requires Target(mode, keyspace) in kss
    ensures AllPossible(DumpEvents(mode, keyspace, dump), kss)
  {
    var k := Target(mode, keyspace);
    if dump.hasSchema {
      var create, load := CreateTable(k, dump.table), Load(k, dump.table, dump.rows);
      var start := if mode.InPlace? then Applied(DropTable(k, dump.table), kss) else kss;
      assert k in start && k in Applied(create, start) && dump.table in Applied(create, start)[k];
      assert [load][1..] == [] && [create, load][1..] == [load];
      assert AllPossible([load], Applied(create, start)) && AllPossible([create, load], start);
      assert mode.InPlace? ==> DumpEvents(mode, keyspace, dump)[1..] == [create, load];
    }
  }

  // ---------- The beginning of a host ----------

  /** What the restore needs of a host that it reads: the metadata file, and unless the keyspace is already open
      in place, an entry in it, the schema and a name to create the keyspace under. */
  predicate Opens(mode: Mode, keyspace: string, host: HostBackup, dropped: bool) {
    host.readable ==>
      && !host.meta.NoFile?
      && ((mode.InPlace? && dropped) ||
          (host.schema && Target(mode, keyspace) != "" && (mode.InPlace? ==> host.meta.Entry?)))
  }

  /** Whether an event of the beginning is possible does not depend on the database. */
  predicate PossibleAnywhere(e: Event) {
    match e
    case Consult(present) => present
    case CreateKeyspace(k) => k != ""
    case _ => !e.CreateTable? && !e.Load?
  }

  lemma {:induction false} PossibleByItself(events: seq<Event>, kss: Keyspaces)
    requires forall i :: 0 <= i < |events| ==> !events[i].CreateTable? && !events[i].Load?
    ensures AllPossible(events, kss) <==> forall i :: 0 <= i < |events| ==> PossibleAnywhere(events[i])
  {
    hide Applied;
    if events != [] {
      PossibleByItself(events[1..], Applied(events[0], kss));
      assert forall i :: 1 <= i < |events| ==> events[i] == events[1..][i - 1];
    }
  }

  lemma OpeningPossible(mode: Mode, keyspace: string, host: HostBackup, roles: bool, dropped: bool, kss: Keyspaces)
    requires host.readable
    ensures AllPossible(Opening(mode, keyspace, host, roles, dropped), kss) <==> Opens(mode, keyspace, host, dropped)
  {
    var consult, tail := [Consult(!host.meta.NoFile?)], if roles then [Roles(keyspace)] else [];
    var body := if mode.InPlace? then InPlaceOpening(keyspace, host, roles, dropped)
                else CloneOpening(mode.newName, host, roles, dropped);
    assert Opening(mode, keyspace, host, roles, dropped) == consult + body + tail;
    PossibleAppend(consult + body, tail, kss);
    PossibleAppend(consult, body, kss);
    PossibleByItself(consult, kss);
    PossibleByItself(tail, Effect(kss, consult + body));
    assert consult[0] == Consult(!host.meta.NoFile?);
    BodyPossible(mode, keyspace, host, roles, dropped, Effect(kss, consult));
  }

  lemma BodyPossible(mode: Mode, keyspace: string, host: HostBackup, roles: bool, dropped: bool, kss: Keyspaces)
    ensures var body := if mode.InPlace? then InPlaceOpening(keyspace, host, roles, dropped)
                        else CloneOpening(mode.newName, host, roles, dropped);
            AllPossible(body, kss) <==>
            (mode.InPlace? && dropped) ||
            (host.schema && Target(mode, keyspace) != "" && (mode.InPlace? ==> host.meta.Entry?))
  {
    hide AllPossible;
    var body := if mode.InPlace? then InPlaceOpening(keyspace, host, roles, dropped)
                else CloneOpening(mode.newName, host, roles, dropped);
    PossibleByItself(body, kss);
    if mode.InPlace? && !dropped {
      var n := |body|;
      assert body[0] == Consult(host.meta.Entry?);
      assert body[n - 2] == Consult(host.schema) && body[n - 1] == CreateKeyspace(keyspace);
    } else if mode.Clone? {
      assert body[0] == Consult(host.schema) && body[1] == CreateKeyspace(mode.newName);
    }
  }

  // ---------- All hosts ----------

  /** Every host has what the restore needs of it. */
  ghost predicate AllOpen(mode: Mode, keyspace: string, hosts: seq<HostBackup>, roles: bool) {
    forall h :: 0 <= h < |hosts| ==> Opens(mode, keyspace, hosts[h], Dropped(mode, hosts[..h], roles))
  }

  lemma AllOpenSnoc(mode: Mode, keyspace: string, hosts: seq<HostBackup>, roles: bool)
    requires hosts != []
    ensures var init, last := hosts[..|hosts| - 1], hosts[|hosts| - 1];
            AllOpen(mode, keyspace, hosts, roles) <==>
            AllOpen(mode, keyspace, init, roles) && Opens(mode, keyspace, last, Dropped(mode, init, roles))
  {
    hide Opens, Dropped;
    var init := hosts[..|hosts| - 1];
    assert forall h :: 0 <= h < |init| ==> init[h] == hosts[h] && init[..h] == hosts[..h];
  }

  lemma {:induction false} HostsPossible(mode: Mode, keyspace: string, hosts: seq<HostBackup>, roles: bool,
                                         kss: Keyspaces)
    ensures AllPossible(Events(mode, keyspace, hosts, roles), kss) <==> AllOpen(mode, keyspace, hosts, roles)
    ensures AllOpen(mode, keyspace, hosts, roles) && Target(mode, keyspace) == "" ==> !AnyReadable(hosts)
  {
    hide Effect, Opening, DumpsEvents, PlacedAll, AllPossible, AllOpen, Target, AnyReadable;
    NothingPossible(kss);
    if hosts == [] {
      NoHostOpens(mode, keyspace, roles);
    } else {
      var init, last := hosts[..|hosts| - 1], hosts[|hosts| - 1];
      var before, dropped := Events(mode, keyspace, init, roles), Dropped(mode, init, roles);
      HostsPossible(mode, keyspace, init, roles, kss);
      AllOpenSnoc(mode, keyspace, hosts, roles);
      AnyReadableSnoc(hosts);
      FirstClears(mode, init, roles);
      PossibleAppend(before, HostEvents(mode, keyspace, last, roles, dropped), kss);
      NothingPossible(Effect(kss, before));
      if last.readable {
        HostPossible(mode, keyspace, init, last, roles, kss);
      }
    }
  }

  lemma NoHostOpens(mode: Mode, keyspace: string, roles: bool)
    ensures AllOpen(mode, keyspace, [], roles) && !AnyReadable([])
  {
  }

  lemma HostPossible(mode: Mode, keyspace: string, init: seq<HostBackup>, last: HostBackup, roles: bool,
                     kss: Keyspaces)
    requires last.readable
    ensures var dropped, there := Dropped(mode, init, roles), Effect(kss, Events(mode, keyspace, init, roles));
            Target(mode, keyspace) != "" ==>
              (AllPossible(HostEvents(mode, keyspace, last, roles, dropped), there) <==>
               Opens(mode, keyspace, last, dropped))
    ensures var dropped, there := Dropped(mode, init, roles), Effect(kss, Events(mode, keyspace, init, roles));
            AllPossible(HostEvents(mode, keyspace, last, roles, dropped), there) ==>
              Opens(mode, keyspace, last, dropped)
  {
    hide Effect, Opening, DumpsEvents, PlacedAll, AllPossible, AnyReadable, Opens;
    var dropped, there := Dropped(mode, init, roles), Effect(kss, Events(mode, keyspace, init, roles));
    var opening := Opening(mode, keyspace, last, roles, dropped);
    OpeningPossible(mode, keyspace, last, roles, dropped, there);
    PossibleAppend(opening, DumpsEvents(mode, keyspace, last.dumps), there);
    if Target(mode, keyspace) != "" {
      HostsEffect(mode, keyspace, init, roles, kss);
      FirstClears(mode, init, roles);
      OpeningEffect(mode, keyspace, last, roles, dropped, there);
      DumpsPossible(mode, keyspace, last.dumps, Effect(there, opening));
    }
  }

  /** When nothing outside fails, the restore of a keyspace completes exactly when every host has what the restore
      needs of it, whatever the database held. */
  lemma CalmRestoreCompletes(faults: Faults, mode: Mode, keyspace: string, hosts: seq<HostBackup>, roles: bool,
                             w: World)
    requires forall n :: faults(n).Calm?
    ensures AllWork(faults, Events(mode, keyspace, hosts, roles), w) <==> AllOpen(mode, keyspace, hosts, roles)
  {
    hide AllWork, Events, AllOpen;
    CalmRun(faults, Events(mode, keyspace, hosts, roles), w);
    HostsPossible(mode, keyspace, hosts, roles, w.keyspaces);
  }

  lemma {:induction false} AllEventsPossible(dbs: seq<string>, archives: Archives,
                                             renaming: Option<map<string, string>>, roles: bool, n: nat,
                                             kss: Keyspaces)
    requires n <= |dbs|
    ensures AllPossible(AllEvents(dbs, archives, renaming, roles, n), kss) <==>
            forall i :: 0 <= i < n ==> AllOpen(ModeOf(renaming, dbs[i]), dbs[i], BackupsOf(archives, dbs[i]), roles)
  {
    hide AllPossible, Effect, Events, AllOpen, ModeOf, BackupsOf;
    if n == 0 {
      NothingPossible(kss);
    } else {
      var mode, hosts := ModeOf(renaming, dbs[n - 1]), BackupsOf(archives, dbs[n - 1]);
      AllEventsPossible(dbs, archives, renaming, roles, n - 1, kss);
      var before := AllEvents(dbs, archives, renaming, roles, n - 1);
      PossibleAppend(before, Events(mode, dbs[n - 1], hosts, roles), kss);
      HostsPossible(mode, dbs[n - 1], hosts, roles, Effect(kss, before));
    }
  }

  /** And the restore of many keyspaces when this holds for each of them, whether or not their targets differ. */
  lemma CalmRestoreAllCompletes(faults: Faults, dbs: seq<string>, archives: Archives,
                                renaming: Option<map<string, string>>, roles: bool, w: World)
    requires forall n :: faults(n).Calm?
    ensures AllWork(faults, AllEvents(dbs, archives, renaming, roles, |dbs|), w) <==>
            forall i :: 0 <= i < |dbs| ==>
              AllOpen(ModeOf(renaming, dbs[i]), dbs[i], BackupsOf(archives, dbs[i]), roles)
  {
    hide AllWork, AllEvents, AllOpen;
    CalmRun(faults, AllEvents(dbs, archives, renaming, roles, |dbs|), w);
    AllEventsPossible(dbs, archives, renaming, roles, |dbs|, w.keyspaces);
  }

  // ---------- Where a restore stops ----------

  /** What is asked for between the metadata file and the schema. */
  function EntryEvents(mode: Mode, keyspace: string, host: HostBackup, roles: bool): seq<Event> {
    if mode.Clone? then []
    else [Consult(host.meta.Entry?)] + (if WholeKeyspace(host) && roles then [DropKeyspace(keyspace)] else [])
  }

  lemma OpeningShape(mode: Mode, keyspace: string, host: HostBackup, roles: bool) returns (rest: seq<Event>)
    ensures Opening(mode, keyspace, host, roles, false) ==
            [Consult(!host.meta.NoFile?)] +
            (EntryEvents(mode, keyspace, host, roles) +
             ([Consult(host.schema)] + ([CreateKeyspace(Target(mode, keyspace))] + rest)))
  {
    rest := (if mode.Clone? && !roles then [DropAllTables(mode.newName)] else []) +
            (if roles then [Roles(keyspace)] else []);
  }

  lemma FirstHostEvents(mode: Mode, keyspace: string, host: HostBackup, roles: bool) returns (rest: seq<Event>)
    requires host.readable
    ensures Events(mode, keyspace, [host], roles) ==
            [Consult(!host.meta.NoFile?)] +
            (EntryEvents(mode, keyspace, host, roles) +
             ([Consult(host.schema)] + ([CreateKeyspace(Target(mode, keyspace))] + rest)))
  {
    hide DumpsEvents, Opening, EntryEvents;
    var hosts, dumps := [host], DumpsEvents(mode, keyspace, host.dumps);
    assert hosts[..0] == [] && Events(mode, keyspace, [], roles) == [];
    assert Events(mode, keyspace, hosts, roles) == Opening(mode, keyspace, host, roles, false) + dumps;
    var opening := OpeningShape(mode, keyspace, host, roles);
    rest := opening + dumps;
  }

  /** What a restore has done when the first archive lacks something it needs, or there is no name to restore under:
      nothing, except that in place, with roles, a keyspace that was backed up whole has been dropped already. */
  lemma UnopenedChangesLittle(faults: Faults, mode: Mode, keyspace: string, hosts: seq<HostBackup>, roles: bool,
                              w: World)
    requires forall n :: faults(n).Calm?
    requires hosts != [] && hosts[0].readable && !Opens(mode, keyspace, hosts[0], false)
    ensures var events := Events(mode, keyspace, hosts, roles);
            && !AllWork(faults, events, w)
            && Run(faults, events, w).keyspaces ==
               if mode.InPlace? && roles && hosts[0].meta == Entry(true) then w.keyspaces - {keyspace}
               else w.keyspaces
  {
    hide Run, AllWork, Events;
    var host := hosts[0];
    assert hosts[..1] == [host];
    FirstHostStops(faults, mode, keyspace, host, roles, w);
    EventsPrefix(mode, keyspace, hosts, 1, roles);
    RunCut(faults, Events(mode, keyspace, hosts[..1], roles), Events(mode, keyspace, hosts, roles), w);
  }

  lemma FirstHostStops(faults: Faults, mode: Mode, keyspace: string, host: HostBackup, roles: bool, w: World)
    requires forall n :: faults(n).Calm?
    requires host.readable && !Opens(mode, keyspace, host, false)
    ensures var events := Events(mode, keyspace, [host], roles);
            && !AllWork(faults, events, w)
            && Run(faults, events, w).keyspaces ==
               if mode.InPlace? && roles && host.meta == Entry(true) then w.keyspaces - {keyspace} else w.keyspaces
  {
    hide Run, AllWork, Events;
    var rest := FirstHostEvents(mode, keyspace, host, roles);
    var file, schema := Consult(!host.meta.NoFile?), Consult(host.schema);
    var create := CreateKeyspace(Target(mode, keyspace));
    var drop := if WholeKeyspace(host) && roles then [DropKeyspace(keyspace)] else [];
    var entry := EntryEvents(mode, keyspace, host, roles);
    var tail := [schema] + ([create] + rest);
    RunFirst(faults, file, entry + tail, w);
    var w1 := Step(faults, file, w);
    if !host.meta.NoFile? {
      if mode.InPlace? {
        assert entry + tail == [Consult(host.meta.Entry?)] + (drop + tail);
        RunFirst(faults, Consult(host.meta.Entry?), drop + tail, w1);
        var w2 := Step(faults, Consult(host.meta.Entry?), w1);
        if host.meta.Entry? {
          if drop != [] {
            RunFirst(faults, DropKeyspace(keyspace), tail, w2);
            SchemaStops(faults, schema, create, rest, Step(faults, DropKeyspace(keyspace), w2));
          } else {
            assert drop + tail == tail;
            SchemaStops(faults, schema, create, rest, w2);
          }
        }
      } else {
        assert entry + tail == tail;
        SchemaStops(faults, schema, create, rest, w1);
      }
    }
  }

  lemma SchemaStops(faults: Faults, schema: Event, create: Event, rest: seq<Event>, w: World)
    requires forall n :: faults(n).Calm?
    requires schema.Consult? && create.CreateKeyspace? && (!schema.present || create.keyspace == "")
    ensures var events := [schema] + ([create] + rest);
            !AllWork(faults, events, w) && Run(faults, events, w).keyspaces == w.keyspaces
  {
    hide Run, AllWork;
    RunFirst(faults, schema, [create] + rest, w);
    RunFirst(faults, create, rest, Step(faults, schema, w));
  }
}
