/** In which order a restore does things, whatever it restores and however: keyspace, roles, tables, host by host. */
module RestoreOrder {
  import opened Restore
  import opened RestoreLaws

  // ---------- What is promised ----------

  /** The rows loaded, by table, in order. */
  function Loads(events: seq<Event>, k: string): seq<(string, set<Row>)> {
    if events == [] then []
    else
      var last := events[|events| - 1];
      Loads(events[..|events| - 1], k) +
      (if last.Load? && last.keyspace == k then [(last.table, last.rows)] else [])
  }

  /** The rows that the dumps with a schema hold, by table, in order. */
  function Held(dumps: seq<Dump>): seq<(string, set<Row>)> {
    if dumps == [] then []
    else
      var last := dumps[|dumps| - 1];
      Held(dumps[..|dumps| - 1]) + (if last.hasSchema then [(last.table, last.rows)] else [])
  }

  function RolesRuns(events: seq<Event>): nat {
    if events == [] then 0
    else RolesRuns(events[..|events| - 1]) + (if events[|events| - 1].Roles? then 1 else 0)
  }

  /** The roles of the keyspace are restored at one point, and all tables after it. */
  ghost predicate RolesThenTables(part: seq<Event>, keyspace: string) {
    exists r: nat :: r < |part| && part[r] == Roles(keyspace) && OnlyRolesAt(part, r)
  }

  ghost predicate OnlyRolesAt(part: seq<Event>, r: nat) {
    && (forall t :: 0 <= t < |part| && t != r ==> !part[t].Roles?)
    && (forall t :: 0 <= t < r && t < |part| ==> !part[t].DropTable? && !part[t].CreateTable? && !part[t].Load?)
    && (forall t :: r < t < |part| ==> part[t].DropTable? || part[t].CreateTable? || part[t].Load?)
  }

  /** What is done for one host: nothing if its archive is not read; otherwise its dumps are loaded in order, after
      its roles when these are asked for. */
  ghost predicate HostPart(part: seq<Event>, mode: Mode, keyspace: string, host: HostBackup, roles: bool) {
    if !host.readable then part == []
    else
      && Loads(part, Target(mode, keyspace)) == Held(host.dumps)
      && if roles then RolesThenTables(part, keyspace) else forall t :: 0 <= t < |part| ==> !part[t].Roles?
  }

  /** The h-th part of a log, between two of its cuts. */
  ghost predicate PartAt(log: seq<Event>, from: nat, cuts: seq<nat>, h: nat, mode: Mode, keyspace: string,
                         host: HostBackup, roles: bool) {
    && h + 1 < |cuts| && from <= cuts[h] <= cuts[h + 1] <= |log|
    && HostPart(log[cuts[h]..cuts[h + 1]], mode, keyspace, host, roles)
  }

  /** The log from a position on falls into one part for each host, in their order. */
  ghost predicate Parts(log: seq<Event>, from: nat, cuts: seq<nat>, mode: Mode, keyspace: string,
                        hosts: seq<HostBackup>, roles: bool) {
    && |cuts| == |hosts| + 1 && cuts[0] == from && cuts[|hosts|] == |log|
    && forall h :: 0 <= h < |hosts| ==> PartAt(log, from, cuts, h, mode, keyspace, hosts[h], roles)
  }

  /** No roles are restored before the keyspace they are for was created. */
  ghost predicate CreatedBeforeRoles(log: seq<Event>, from: nat, k: string) {
    forall r :: from <= r < |log| && log[r].Roles? ==> CreatedBetween(log, from, r, k)
  }

  ghost predicate CreatedBetween(log: seq<Event>, from: nat, to: nat, k: string) {
    exists c :: from <= c < to && c < |log| && log[c] == CreateKeyspace(k)
  }

  function Readables(hosts: seq<HostBackup>): nat {
    if hosts == [] then 0
    else Readables(hosts[..|hosts| - 1]) + (if hosts[|hosts| - 1].readable then 1 else 0)
  }

  // ---------- One host ----------

  lemma {:induction false} AppendLoads(a: seq<Event>, b: seq<Event>, k: string)
    ensures Loads(a + b, k) == Loads(a, k) + Loads(b, k)
    ensures RolesRuns(a + b) == RolesRuns(a) + RolesRuns(b)
  {
    if b == [] {
      assert a + b == a;
    } else {
      assert (a + b)[..|a + b| - 1] == a + b[..|b| - 1];
      AppendLoads(a, b[..|b| - 1], k);
    }
  }

  lemma {:induction false} NoLoads(events: seq<Event>, k: string)
    requires forall t :: 0 <= t < |events| ==> !events[t].Load?
    ensures Loads(events, k) == []
  {
    if events != [] {
      NoLoads(events[..|events| - 1], k);
    }
  }

  lemma DumpLoads(mode: Mode, keyspace: string, dump: Dump)
    ensures var events := DumpEvents(mode, keyspace, dump);
            && Loads(events, Target(mode, keyspace)) == (if dump.hasSchema then [(dump.table, dump.rows)] else [])
            && forall t :: 0 <= t < |events| ==>
                 events[t].DropTable? || events[t].CreateTable? || events[t].Load?
  {
    var k, events := Target(mode, keyspace), DumpEvents(mode, keyspace, dump);
    if dump.hasSchema {
      var n := |events|;
      assert events[n - 1] == Load(k, dump.table, dump.rows);
      NoLoads(events[..n - 1], k);
    }
  }

  lemma {:induction false} DumpsLoadHeld(mode: Mode, keyspace: string, dumps: seq<Dump>)
    ensures var events := DumpsEvents(mode, keyspace, dumps);
            && Loads(events, Target(mode, keyspace)) == Held(dumps)
            && forall t :: 0 <= t < |events| ==>
                 events[t].DropTable? || events[t].CreateTable? || events[t].Load?
  {
    hide DumpEvents, Target;
    if dumps != [] {
      var init, last := dumps[..|dumps| - 1], dumps[|dumps| - 1];
      DumpsLoadHeld(mode, keyspace, init);
      DumpLoads(mode, keyspace, last);
      AppendLoads(DumpsEvents(mode, keyspace, init), DumpEvents(mode, keyspace, last), Target(mode, keyspace));
    }
  }

  /** What the beginning of a host is made of: no tables, and the roles at its end when they are asked for. */
  lemma OpeningOrder(mode: Mode, keyspace: string, host: HostBackup, roles: bool, dropped: bool)
    ensures var events := Opening(mode, keyspace, host, roles, dropped);
            var n := if roles then |events| - 1 else |events|;
            && n >= 0 && (roles ==> events[n] == Roles(keyspace))
            && (forall t :: 0 <= t < n ==> !events[t].Roles?)
            && (forall t :: 0 <= t < |events| ==>
                  !events[t].DropTable? && !events[t].CreateTable? && !events[t].Load?)
            && (mode.Clone? || !dropped ==> CreatedBetween(events, 0, n, Target(mode, keyspace)))
  {
    var events := Opening(mode, keyspace, host, roles, dropped);
    var n := if roles then |events| - 1 else |events|;
    var body := if mode.InPlace? then InPlaceOpening(keyspace, host, roles, dropped)
                else CloneOpening(mode.newName, host, roles, dropped);
    assert events == [Consult(!host.meta.NoFile?)] + body + (if roles then [Roles(keyspace)] else []);
    assert n == 1 + |body|;
    assert forall t :: 1 <= t < n ==> events[t] == body[t - 1];
    if mode.Clone? {
      assert body[1] == CreateKeyspace(mode.newName) && events[2] == CreateKeyspace(Target(mode, keyspace));
    } else if !dropped {
      assert body[|body| - 1] == CreateKeyspace(keyspace);
      assert events[n - 1] == CreateKeyspace(Target(mode, keyspace));
    }
  }

  lemma HostOrder(mode: Mode, keyspace: string, host: HostBackup, roles: bool, dropped: bool)
    ensures var events := HostEvents(mode, keyspace, host, roles, dropped);
            && HostPart(events, mode, keyspace, host, roles)
            && RolesRuns(events) == (if host.readable && roles then 1 else 0)
            && (mode.Clone? || !dropped ==> CreatedBeforeRoles(events, 0, Target(mode, keyspace)))
            && (host.readable && (mode.Clone? || !dropped) ==>
                  CreatedBetween(events, 0, |events|, Target(mode, keyspace)))
  {
    hide Opening, DumpsEvents, Target, Loads, RolesRuns, Held;
    var k := Target(mode, keyspace);
    if host.readable {
      var opening, tables := Opening(mode, keyspace, host, roles, dropped), DumpsEvents(mode, keyspace, host.dumps);
      OpeningOrder(mode, keyspace, host, roles, dropped);
      DumpsLoadHeld(mode, keyspace, host.dumps);
      AppendLoads(opening, tables, k);
      NoLoads(opening, k);
      NoRoles(tables);
      var n := if roles then |opening| - 1 else |opening|;
      var events := opening + tables;
      assert forall t :: 0 <= t < |opening| ==> events[t] == opening[t];
      assert forall t :: |opening| <= t < |events| ==> events[t] == tables[t - |opening|];
      NoRoles(opening[..n]);
      assert roles ==> opening == opening[..n] + [Roles(keyspace)];
      OneRoles(keyspace);
      AppendLoads(opening[..n], [Roles(keyspace)], k);
      assert !roles ==> opening[..n] == opening;
      assert roles ==> events[n] == Roles(keyspace) && OnlyRolesAt(events, n);
      if mode.Clone? || !dropped {
        var c :| 0 <= c < n && opening[c] == CreateKeyspace(k);
        assert events[c] == CreateKeyspace(k);
      }
    } else {
      NoRoles([]);
    }
  }

  lemma {:induction false} NoRoles(events: seq<Event>)
    requires forall t :: 0 <= t < |events| ==> !events[t].Roles?
    ensures RolesRuns(events) == 0
  {
    if events != [] {
      NoRoles(events[..|events| - 1]);
    }
  }

  lemma OneRoles(keyspace: string)
    ensures RolesRuns([Roles(keyspace)]) == 1
  {
    assert [Roles(keyspace)][..0] == [];
    NoRoles([]);
  }

  // ---------- All hosts ----------

  lemma {:induction false} HostsOrder(mode: Mode, keyspace: string, hosts: seq<HostBackup>, roles: bool)
    returns (cuts: seq<nat>)
    ensures var events := Events(mode, keyspace, hosts, roles);
            && Parts(events, 0, cuts, mode, keyspace, hosts, roles)
            && CreatedBeforeRoles(events, 0, Target(mode, keyspace))
            && RolesRuns(events) == (if roles then Readables(hosts) else 0)
            && (mode.InPlace? && Dropped(mode, hosts, roles) ==>
                  CreatedBetween(events, 0, |events|, Target(mode, keyspace)))
  {
    hide HostEvents, Target, HostPart, RolesRuns;
    var k := Target(mode, keyspace);
    if hosts == [] {
      cuts := [0];
      NoRoles([]);
    } else {
      var init, last := hosts[..|hosts| - 1], hosts[|hosts| - 1];
      var dropped := Dropped(mode, init, roles);
      var before, more := Events(mode, keyspace, init, roles), HostEvents(mode, keyspace, last, roles, dropped);
      var earlier := HostsOrder(mode, keyspace, init, roles);
      HostOrder(mode, keyspace, last, roles, dropped);
      AppendLoads(before, more, k);
      cuts := earlier + [|before + more|];
      OnePartMore(before, more, earlier, mode, keyspace, hosts, roles);
      OneMoreCreated(before, more, k, mode.InPlace? && dropped);
    }
  }

  lemma OnePartMore(before: seq<Event>, more: seq<Event>, cuts: seq<nat>, mode: Mode, keyspace: string,
                    hosts: seq<HostBackup>, roles: bool)
    requires hosts != [] && Parts(before, 0, cuts, mode, keyspace, hosts[..|hosts| - 1], roles)
    requires HostPart(more, mode, keyspace, hosts[|hosts| - 1], roles)
    ensures Parts(before + more, 0, cuts + [|before + more|], mode, keyspace, hosts, roles)
  {
    hide HostPart;
    var n, all, next := |hosts| - 1, before + more, cuts + [|before + more|];
    forall h | 0 <= h < |hosts|
      ensures PartAt(all, 0, next, h, mode, keyspace, hosts[h], roles)
    {
      if h < n {
        assert PartAt(before, 0, cuts, h, mode, keyspace, hosts[..n][h], roles);
        assert all[next[h]..next[h + 1]] == before[cuts[h]..cuts[h + 1]] && hosts[..n][h] == hosts[h];
      } else {
        assert all[next[h]..next[h + 1]] == more;
      }
    }
  }

  lemma OneMoreCreated(before: seq<Event>, more: seq<Event>, k: string, already: bool)
    requires CreatedBeforeRoles(before, 0, k)
    requires if already then CreatedBetween(before, 0, |before|, k) else CreatedBeforeRoles(more, 0, k)
    ensures CreatedBeforeRoles(before + more, 0, k)
    ensures CreatedBetween(before, 0, |before|, k) || CreatedBetween(more, 0, |more|, k) ==>
              CreatedBetween(before + more, 0, |before + more|, k)
  {
    var all := before + more;
    assert forall t :: 0 <= t < |before| ==> all[t] == before[t];
    assert forall t :: 0 <= t < |more| ==> all[|before| + t] == more[t];
    if already {
      var c :| 0 <= c < |before| && before[c] == CreateKeyspace(k);
      assert all[c] == CreateKeyspace(k);
    }
    forall r | 0 <= r < |all| && all[r].Roles?
      ensures CreatedBetween(all, 0, r, k)
    {
      if r < |before| {
        assert CreatedBetween(before, 0, r, k);
        var c :| 0 <= c < r && before[c] == CreateKeyspace(k);
        assert all[c] == CreateKeyspace(k);
      } else if !already {
        assert CreatedBetween(more, 0, r - |before|, k);
        var c :| 0 <= c < r - |before| && more[c] == CreateKeyspace(k);
        assert all[|before| + c] == CreateKeyspace(k);
      }
    }
    if c :| 0 <= c < |before| && before[c] == CreateKeyspace(k) {
      assert all[c] == CreateKeyspace(k);
    } else if c :| 0 <= c < |more| && more[c] == CreateKeyspace(k) {
      assert all[|before| + c] == CreateKeyspace(k);
    }
  }

  lemma PartsLater(log: seq<Event>, events: seq<Event>, parts: seq<nat>, mode: Mode, keyspace: string,
                   hosts: seq<HostBackup>, roles: bool) returns (cuts: seq<nat>)
    requires Parts(events, 0, parts, mode, keyspace, hosts, roles)
    ensures Parts(log + events, |log|, cuts, mode, keyspace, hosts, roles)
  {
    hide HostPart;
    cuts := seq(|parts|, h requires 0 <= h < |parts| => |log| + parts[h]);
    forall h | 0 <= h < |hosts|
      ensures PartAt(log + events, |log|, cuts, h, mode, keyspace, hosts[h], roles)
    {
      assert PartAt(events, 0, parts, h, mode, keyspace, hosts[h], roles);
      assert (log + events)[cuts[h]..cuts[h + 1]] == events[parts[h]..parts[h + 1]];
    }
  }

  lemma CreatedLater(log: seq<Event>, events: seq<Event>, k: string)
    requires CreatedBeforeRoles(events, 0, k)
    ensures CreatedBeforeRoles(log + events, |log|, k)
  {
    var n, all := |log|, log + events;
    forall r | n <= r < |all| && all[r].Roles?
      ensures CreatedBetween(all, n, r, k)
    {
      assert events[r - n] == all[r] && CreatedBetween(events, 0, r - n, k);
      var c :| 0 <= c < r - n && events[c] == CreateKeyspace(k);
      assert all[n + c] == CreateKeyspace(k);
    }
  }

  /** A completed restore, in place or into a clone: its log falls into one part for each host, in which the roles are
      restored once, if they are asked for, before the host's own dumps are loaded in order; no roles are restored
      before their keyspace was created; and they are restored once for each archive that is read, or never. */
  lemma CompletedRestoreOrder(faults: Faults, mode: Mode, keyspace: string, hosts: seq<HostBackup>, roles: bool,
                              w: World) returns (cuts: seq<nat>)
    requires AllWork(faults, Events(mode, keyspace, hosts, roles), w)
    ensures var log := Run(faults, Events(mode, keyspace, hosts, roles), w).log;
            && w.log <= log
            && Parts(log, |w.log|, cuts, mode, keyspace, hosts, roles)
            && CreatedBeforeRoles(log, |w.log|, Target(mode, keyspace))
            && RolesRuns(log[|w.log|..]) == (if roles then Readables(hosts) else 0)
  {
    hide Run, AllWork, Events, HostPart, RolesRuns, Target, Parts, CreatedBeforeRoles;
    var events := Events(mode, keyspace, hosts, roles);
    RunEffect(faults, events, w);
    assert (w.log + events)[|w.log|..] == events;
    var parts := HostsOrder(mode, keyspace, hosts, roles);
    cuts := PartsLater(w.log, events, parts, mode, keyspace, hosts, roles);
    CreatedLater(w.log, events, Target(mode, keyspace));
  }

  // ---------- Requests without a backup ----------

  /** A restore of many keyspaces gets to all requests exactly when each of them has a backup. */
  lemma {:induction false} AllBacked(dbs: seq<string>, archives: Archives, n: nat)
    requires n <= |dbs|
    ensures Backed(dbs, archives, n) == n <==> forall i :: 0 <= i < n ==> BackupsOf(archives, dbs[i]) != []
    ensures forall i :: 0 <= i < Backed(dbs, archives, n) ==> BackupsOf(archives, dbs[i]) != []
    ensures Backed(dbs, archives, n) < n ==> BackupsOf(archives, dbs[Backed(dbs, archives, n)]) == []
  {
    if n > 0 {
      AllBacked(dbs, archives, n - 1);
    }
  }
}
