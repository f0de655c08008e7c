/** What the users added to existing databases are worth: whether the reported password logs in, and what its user
    may do there. */
module Credentials {
  import opened Text
  import opened Cassandra
  import opened DbAdmin
  import opened DbUsers
  import opened Provisioned

  // ---------- One user ----------

  /** The role is an ordinary one, logs in with the password, and may do on the database exactly what its service
      role allows, and nothing anywhere else. */
  ghost predicate Usable(service: Service, s: State, name: string, password: string, role: string, dbName: string) {
    && name in s.roles && s.roles[name] == Role(Password(password), false, true)
    && forall g: Grant :: g.role == name ==>
         (g in s.grants <==> g.keyspace == Fold(dbName) && Allowed(service, Some(role), g.permission))
  }

  ghost predicate UserDone(weather: Weather, service: Service, w: World, name: string, password: string,
                           req: UserRequest) {
    var script := UserScript(service, w.state, name, password, req);
    script.finishes && AllWork(weather, script.statements, w)
  }

  function UserWorld(weather: Weather, service: Service, w: World, name: string, password: string,
                     req: UserRequest): World {
    Run(weather, UserScript(service, w.state, name, password, req).statements, w)
  }

  /** A name that was not there becomes a usable user with the password that is reported. */
  lemma NewUserIsUsable(weather: Weather, service: Service, w: World, name: string, password: string,
                        req: UserRequest)
    requires WellFormed(w.state) && name !in w.state.roles
    ensures UserDone(weather, service, w, name, password, req) ==>
              Usable(service, UserWorld(weather, service, w, name, password, req).state, name, password,
                     if req.role == "" then "admin" else req.role, req.dbName)
  {
    hide Fold, IsIdentifier, Grants, Run, AllWork;
    if UserDone(weather, service, w, name, password, req) {
      var list, create := [ListRoles], [CreateRole(name, password, false)];
      var role := RoleOr(req.role);
      var grants := Grants(RolePermissions(service, role), req.dbName, name);
      assert UserScript(service, w.state, name, password, req).statements == list + (create + grants);
      RunAppend(weather, list, create + grants, w);
      RunAppend(weather, create, grants, Run(weather, list, w));
      OneStatement(weather, ListRoles, w);
      OneStatement(weather, create[0], Run(weather, list, w));
      var made := Run(weather, create, Run(weather, list, w));
      GrantsEffect(weather, RolePermissions(service, role), req.dbName, name, made);
      assert forall p :: p in RolePermissions(service, role) <==> Allowed(service, Some(role), p);
    }
  }

  lemma OneStatement(weather: Weather, stmt: Statement, w: World)
    ensures Run(weather, [stmt], w) == Next(weather, stmt, w)
    ensures AllWork(weather, [stmt], w) <==> Works(weather, stmt, w)
  {
  }

  /** When nothing outside fails, a new user is refused exactly when CQL refuses its name or password, or its service
      role has permissions and the database is not there. */
  lemma NewUserRefused(weather: Weather, service: Service, w: World, name: string, password: string,
                       req: UserRequest)
    requires name !in w.state.roles && forall n :: weather(n).Calm?
    ensures var role := if req.role == "" then "admin" else req.role;
            !UserDone(weather, service, w, name, password, req) <==>
            || name == "" || !FitsQuotes(name) || !FitsQuotes(password)
            || (role in service.permissions && service.permissions[role] != [] &&
                (!IsIdentifier(req.dbName) || Fold(req.dbName) !in w.state.keyspaces))
  {
    hide Fold, IsIdentifier, Grants, Run, AllWork;
    var list, create := [ListRoles], [CreateRole(name, password, false)];
    var permissions := RolePermissions(service, RoleOr(req.role));
    var grants := Grants(permissions, req.dbName, name);
    assert UserScript(service, w.state, name, password, req).statements == list + (create + grants);
    RunAppend(weather, list, create + grants, w);
    RunAppend(weather, create, grants, Run(weather, list, w));
    OneStatement(weather, ListRoles, w);
    OneStatement(weather, create[0], Run(weather, list, w));
    var made := Run(weather, create, Run(weather, list, w));
    if name != "" && FitsQuotes(name) && FitsQuotes(password) {
      GrantsWorkExactly(weather, permissions, req.dbName, name, made);
    }
  }

  lemma {:induction false} GrantsWorkExactly(weather: Weather, permissions: seq<string>, keyspace: string, role: string,
                                             w: World)
    requires (forall n :: weather(n).Calm?) && role in w.state.roles && FitsQuotes(role)
    ensures AllWork(weather, Grants(permissions, keyspace, role), w) <==>
            permissions == [] || (IsIdentifier(keyspace) && Fold(keyspace) in w.state.keyspaces)
  {
    hide Fold, IsIdentifier;
    var stmts := Grants(permissions, keyspace, role);
    if permissions != [] {
      assert stmts[1..] == Grants(permissions[1..], keyspace, role);
      assert stmts[0] == GrantOn(permissions[0], keyspace, role);
      GrantsWorkExactly(weather, permissions[1..], keyspace, role, Next(weather, stmts[0], w));
    }
  }

  /** An existing user that is reported logs in with the new password; it keeps its permissions and its rank. */
  lemma UpdatedUserLogsIn(weather: Weather, service: Service, w: World, name: string, password: string,
                          req: UserRequest)
    requires name in w.state.roles
    ensures UserDone(weather, service, w, name, password, req) ==>
              var after := UserWorld(weather, service, w, name, password, req).state;
              && CanLogIn(after.roles, name, password)
              && after == w.state.(roles := w.state.roles[name :=
                                     Role(Password(password), w.state.roles[name].superuser, true)])
  {
    hide Fold, IsIdentifier, Run, AllWork, HoldsGrant;
    if UserDone(weather, service, w, name, password, req) {
      var look := [ListRoles] + (if req.dbName == "" then [] else [ListPermissions(req.dbName)]);
      RunAppend(weather, look, [AlterRole(name, password, true)], w);
      LookingChangesNothing(weather, req.dbName, w);
      OneStatement(weather, AlterRole(name, password, true), Run(weather, look, w));
    }
  }

  lemma LookingChangesNothing(weather: Weather, dbName: string, w: World)
    ensures var look := [ListRoles] + (if dbName == "" then [] else [ListPermissions(dbName)]);
            && Run(weather, look, w).state == w.state
            && ((forall n :: weather(n).Calm?) ==>
                  (AllWork(weather, look, w) <==>
                   dbName == "" || (IsIdentifier(dbName) && Fold(dbName) in w.state.keyspaces)))
  {
    hide Fold, IsIdentifier;
    if dbName == "" {
      assert [ListRoles] + [] == [ListRoles];
      OneStatement(weather, ListRoles, w);
    } else {
      RunAppend(weather, [ListRoles], [ListPermissions(dbName)], w);
      OneStatement(weather, ListRoles, w);
      OneStatement(weather, ListPermissions(dbName), Next(weather, ListRoles, w));
    }
  }

  /** When nothing outside fails, an existing user is refused exactly when the database it is to be updated for is
      not there or has granted it nothing, or when CQL refuses the name or the password. */
  lemma ExistingUserRefused(weather: Weather, service: Service, w: World, name: string, password: string,
                            req: UserRequest)
    requires name in w.state.roles && forall n :: weather(n).Calm?
    ensures !UserDone(weather, service, w, name, password, req) <==>
            || !FitsQuotes(name) || !FitsQuotes(password)
            || (req.dbName != "" &&
                (!IsIdentifier(req.dbName) || Fold(req.dbName) !in w.state.keyspaces ||
                 forall g :: g in w.state.grants && g.role == name ==>
                   g.keyspace != Fold(req.dbName) && g.keyspace != AllKeyspaces))
  {
    hide Fold, IsIdentifier, Run, AllWork;
    var look := [ListRoles] + (if req.dbName == "" then [] else [ListPermissions(req.dbName)]);
    RunAppend(weather, look, [AlterRole(name, password, true)], w);
    LookingChangesNothing(weather, req.dbName, w);
    OneStatement(weather, AlterRole(name, password, true), Run(weather, look, w));
  }

  /** While the roles are not listed, or the permissions on the database of an existing user are not, nothing is
      done. */
  lemma UnansweredChangesNothing(weather: Weather, service: Service, w: World, name: string, password: string,
                                 req: UserRequest)
    requires !weather(w.clock).Calm? ||
             (name in w.state.roles && req.dbName != "" && !weather(w.clock + 1).Calm?)
    ensures !UserDone(weather, service, w, name, password, req)
    ensures UserWorld(weather, service, w, name, password, req).state == w.state
  {
    hide Fold, IsIdentifier, HoldsGrant, Grants;
    var stmts := UserScript(service, w.state, name, password, req).statements;
    assert stmts[0] == ListRoles;
    if weather(w.clock).Calm? {
      assert stmts[1] == ListPermissions(req.dbName) && stmts[1..][0] == stmts[1];
      var listed := Next(weather, ListRoles, w);
      assert !Works(weather, stmts[1], listed);
      assert Run(weather, stmts, w) == Run(weather, stmts[1..], listed);
      assert AllWork(weather, stmts, w) ==> AllWork(weather, stmts[1..], listed);
    }
  }

  // ---------- The batch ----------

  /** The name of the m-th user of a batch that began to draw at a: each draws one UUID for its name and one for its
      password. */
  function NameAt(uuids: nat -> UuidText, a: nat, m: nat): string {
    "role_" + ShortUuid(uuids(a + 2 * m))
  }

  function NamesUpTo(uuids: nat -> UuidText, a: nat, n: nat): set<string> {
    set m | 0 <= m < n :: NameAt(uuids, a, m)
  }

  /** The first n names are new and differ. */
  ghost predicate AllFresh(uuids: nat -> UuidText, a: nat, n: nat, s: State) {
    forall m :: 0 <= m < n ==> NameAt(uuids, a, m) !in s.roles && NameAt(uuids, a, m) !in NamesUpTo(uuids, a, m)
  }

  /** Where a batch stands that began to draw at a, after n users: every role is an old one or has one of the n
      names. */
  ghost predicate After(uuids: nat -> UuidText, a: nat, n: nat, start: State, t: Turn) {
    && t.drawn == a + 2 * n && WellFormed(t.world.state)
    && t.world.state.roles.Keys <= start.roles.Keys + NamesUpTo(uuids, a, n)
  }

  lemma NextIsNew(uuids: nat -> UuidText, a: nat, n: nat, more: nat, start: State, t: Turn)
    requires After(uuids, a, n, start, t) && AllFresh(uuids, a, more, start) && n < more
    ensures NameAt(uuids, a, n) !in t.world.state.roles
    ensures NamesUpTo(uuids, a, n + 1) == NamesUpTo(uuids, a, n) + {NameAt(uuids, a, n)}
  {
    hide NameAt;
  }

  /** What concerns one name is not touched by what is confined to another. */
  lemma UsableStays(service: Service, before: State, after: State, other: string, name: string, password: string,
                    role: string, dbName: string)
    requires Usable(service, before, name, password, role, dbName) && name != other
    requires Without(after, {}, {other}) == Without(before, {}, {other})
    ensures Usable(service, after, name, password, role, dbName)
  {
    hide Allowed, Fold;
    var kept, was := after.roles - {other}, before.roles - {other};
    assert kept == was && name in was;
    assert kept[name] == after.roles[name];
    forall g: Grant | g.role == name
      ensures g in after.grants <==> g in before.grants
    {
      assert g in Without(after, {}, {other}).grants <==> g in after.grants;
      assert g in Without(before, {}, {other}).grants <==> g in before.grants;
    }
  }

  lemma OnlyRole(before: State, after: State, name: string)
    requires Without(after, {}, {name}) == Without(before, {}, {name})
    ensures after.roles.Keys <= before.roles.Keys + {name}
  {
    var kept, was := after.roles - {name}, before.roles - {name};
    assert kept == was;
    forall r | r in after.roles && r != name
      ensures r in before.roles
    {
      assert r in kept;
    }
  }

  lemma OneMoreUser(weather: Weather, reachable: nat -> bool, service: Service, dbName: string, role: string,
                    uuids: nat -> UuidText, a: nat, n: nat, more: nat, start: State, t: Turn)
    requires After(uuids, a, n, start, t) && AllFresh(uuids, a, more, start) && n < more
    ensures var after := OneMore(weather, reachable, service, dbName, role, uuids, t);
            var name := NameAt(uuids, a, n);
            && After(uuids, a, n + 1, start, after)
            && Without(after.world.state, {}, {name}) == Without(t.world.state, {}, {name})
            && (after.ok ==>
                  && |after.users| == |t.users| + 1 && after.users[..|t.users|] == t.users
                  && after.users[|t.users|].name == name
                  && after.users[|t.users|].password == ShortUuid(uuids(a + 2 * n + 1))
                  && Usable(service, after.world.state, name, after.users[|t.users|].password,
                            if role == "" then "admin" else role, dbName))
            && (!after.ok ==> after.users == t.users)
  {
    hide Run, AllWork, UserScript, Without, ShortUuid, Usable, WellFormed, NamesUpTo, AllFresh;
    var name, password := NameAt(uuids, a, n), ShortUuid(uuids(t.drawn + 1));
    var req := UserRequest(dbName, "", role);
    var script := UserScript(service, t.world.state, name, password, req);
    NextIsNew(uuids, a, n, more, start, t);
    UserScriptEffect(weather, service, t.world, name, password, req);
    NewUserIsUsable(weather, service, t.world, name, password, req);
    RunKeepsWellFormed(weather, script.statements, t.world);
    OnlyRole(t.world.state, Run(weather, script.statements, t.world).state, name);
  }

  // ---------- What has been reported ----------

  /** A reported user: its credentials, its service role and its database. */
  datatype Entry = Entry(name: string, password: string, role: string, dbName: string)

  /** Every entry has one of the first n names and is usable. */
  ghost predicate AllUsable(service: Service, s: State, names: set<string>, entries: set<Entry>) {
    forall e :: e in entries ==> e.name in names && Usable(service, s, e.name, e.password, e.role, e.dbName)
  }

  function EntriesOf(users: seq<User>, roles: seq<string>, dbName: string): set<Entry> {
    set i | 0 <= i < |users| && i < |roles| ::
      Entry(users[i].name, users[i].password, if roles[i] == "" then "admin" else roles[i], dbName)
  }

  lemma EntriesStay(service: Service, before: State, after: State, names: set<string>, other: string,
                    entries: set<Entry>)
    requires AllUsable(service, before, names, entries) && other !in names
    requires Without(after, {}, {other}) == Without(before, {}, {other})
    ensures AllUsable(service, after, names + {other}, entries)
  {
    hide Usable, Without;
    forall e | e in entries
      ensures Usable(service, after, e.name, e.password, e.role, e.dbName)
    {
      UsableStays(service, before, after, other, e.name, e.password, e.role, e.dbName);
    }
  }

  lemma EntriesMore(users: seq<User>, roles: seq<string>, user: User, role: string, dbName: string)
    requires |users| == |roles|
    ensures EntriesOf(users + [user], roles + [role], dbName) ==
            EntriesOf(users, roles, dbName) +
            {Entry(user.name, user.password, if role == "" then "admin" else role, dbName)}
    ensures EntriesOf(users, roles + [role], dbName) == EntriesOf(users, roles, dbName)
  {
    var all, rs := users + [user], roles + [role];
    assert forall i :: 0 <= i < |users| ==> all[i] == users[i] && rs[i] == roles[i];
    assert all[|users|] == user && rs[|users|] == role;
  }

  lemma EntriesCut(users: seq<User>, roles: seq<string>, role: string, dbName: string)
    requires |users| <= |roles|
    ensures EntriesOf(users, roles + [role], dbName) == EntriesOf(users, roles, dbName)
  {
    assert forall i :: 0 <= i < |users| ==> (roles + [role])[i] == roles[i];
  }

  /** The users made for one database are usable, and so are those of before still. */
  lemma {:induction false} MadeUsersUsable(weather: Weather, reachable: nat -> bool, service: Service,
                                           dbName: string, roles: seq<string>, uuids: nat -> UuidText, a: nat,
                                           more: nat, start: State, t: Turn, entries: set<Entry>)
    returns (n: nat)
    requires t.ok && t.users == [] && AllFresh(uuids, a, more, start)
    requires exists m ::
               After(uuids, a, m, start, t) && AllUsable(service, t.world.state, NamesUpTo(uuids, a, m), entries)
    requires UsersMade(weather, reachable, service, dbName, roles, uuids, t).drawn <= a + 2 * more
    ensures var after := UsersMade(weather, reachable, service, dbName, roles, uuids, t);
            && After(uuids, a, n, start, after)
            && |after.users| <= |roles| && (after.ok ==> |after.users| == |roles|)
            && AllUsable(service, after.world.state, NamesUpTo(uuids, a, n),
                         entries + EntriesOf(after.users, roles, dbName))
  {
    hide OneMore, Usable, Without, AllFresh, After, AllUsable, NamesUpTo, EntriesOf;
    if roles == [] {
      n :| After(uuids, a, n, start, t) && AllUsable(service, t.world.state, NamesUpTo(uuids, a, n), entries);
      NobodyEntered(roles, dbName);
      assert entries + {} == entries;
    } else {
      var init, role := roles[..|roles| - 1], roles[|roles| - 1];
      var before := UsersMade(weather, reachable, service, dbName, init, uuids, t);
      assert roles == init + [role];
      OneMoreDraws(weather, reachable, service, dbName, role, uuids, before);
      n := MadeUsersUsable(weather, reachable, service, dbName, init, uuids, a, more, start, t, entries);
      EntriesCut(before.users, init, role, dbName);
      if before.ok {
        var after := OneMore(weather, reachable, service, dbName, role, uuids, before);
        var earlier := entries + EntriesOf(before.users, init, dbName);
        EnoughNames(uuids, a, n, more, start, before);
        OneMoreUser(weather, reachable, service, dbName, role, uuids, a, n, more, start, before);
        NextIsNew(uuids, a, n, more, start, before);
        FreshAt(uuids, a, n, more, start);
        EntriesStay(service, before.world.state, after.world.state, NamesUpTo(uuids, a, n), NameAt(uuids, a, n),
                    earlier);
        if after.ok {
          var user := after.users[|before.users|];
          assert after.users == before.users + [user];
          EntriesMore(before.users, init, user, role, dbName);
          var entry := Entry(user.name, user.password, if role == "" then "admin" else role, dbName);
          OneEntry(service, after.world.state, NamesUpTo(uuids, a, n + 1), earlier, entry);
          assert earlier + {entry} == entries + EntriesOf(after.users, roles, dbName);
        }
        n := n + 1;
      }
    }
  }

  lemma NobodyEntered(roles: seq<string>, dbName: string)
    ensures EntriesOf([], roles, dbName) == {}
  {
  }

  lemma OneMoreDraws(weather: Weather, reachable: nat -> bool, service: Service, dbName: string, role: string,
                     uuids: nat -> UuidText, t: Turn)
    ensures OneMore(weather, reachable, service, dbName, role, uuids, t).drawn == t.drawn + 2
  {
    hide Run, AllWork, UserScript;
  }

  lemma EnoughNames(uuids: nat -> UuidText, a: nat, n: nat, more: nat, start: State, t: Turn)
    requires After(uuids, a, n, start, t) && t.drawn + 2 <= a + 2 * more
    ensures n < more
  {
  }

  lemma FreshAt(uuids: nat -> UuidText, a: nat, n: nat, more: nat, start: State)
    requires AllFresh(uuids, a, more, start) && n < more
    ensures NameAt(uuids, a, n) !in NamesUpTo(uuids, a, n)
  {
  }

  lemma OneEntry(service: Service, s: State, names: set<string>, entries: set<Entry>, e: Entry)
    requires AllUsable(service, s, names, entries) && e.name in names
    requires Usable(service, s, e.name, e.password, e.role, e.dbName)
    ensures AllUsable(service, s, names, entries + {e})
  {
    hide Usable;
  }

  // ---------- All requests ----------

  /** The users that the successes of a batch report, with the service roles that their databases lacked. */
  function Reported(service: Service, requests: seq<AdditionalRole>, success: seq<Success>): set<Entry> {
    set i, j | 0 <= i < |success| && i < |requests| && 0 <= j < |success[i].connections| &&
               j < |Missing(GetSupportedRoles(service), requests[i].connectionRoles)| ::
      ReportedAt(service, requests, success, i, j)
  }

  function ReportedAt(service: Service, requests: seq<AdditionalRole>, success: seq<Success>, i: nat, j: nat): Entry
    requires i < |success| && i < |requests| && j < |success[i].connections|
    requires j < |Missing(GetSupportedRoles(service), requests[i].connectionRoles)|
  {
    var role := Missing(GetSupportedRoles(service), requests[i].connectionRoles)[j];
    Entry(success[i].connections[j].username, success[i].connections[j].password,
          if role == "" then "admin" else role, requests[i].dbName)
  }

  lemma ReportedCut(service: Service, requests: seq<AdditionalRole>, request: AdditionalRole, success: seq<Success>)
    requires |success| <= |requests|
    ensures Reported(service, requests + [request], success) == Reported(service, requests, success)
  {
    hide Missing;
    var rs := requests + [request];
    assert forall i :: 0 <= i < |success| ==> rs[i] == requests[i];
    forall e
      ensures e in Reported(service, rs, success) <==> e in Reported(service, requests, success)
    {
      if e in Reported(service, rs, success) {
        var i, j :| 0 <= i < |success| && i < |rs| && 0 <= j < |success[i].connections| &&
                    j < |Missing(GetSupportedRoles(service), rs[i].connectionRoles)| &&
                    e == ReportedAt(service, rs, success, i, j);
        assert e == ReportedAt(service, requests, success, i, j);
      }
      if e in Reported(service, requests, success) {
        var i, j :| 0 <= i < |success| && i < |requests| && 0 <= j < |success[i].connections| &&
                    j < |Missing(GetSupportedRoles(service), requests[i].connectionRoles)| &&
                    e == ReportedAt(service, requests, success, i, j);
        assert e == ReportedAt(service, rs, success, i, j);
      }
    }
  }

  lemma ReportedMore(service: Service, requests: seq<AdditionalRole>, request: AdditionalRole, success: seq<Success>,
                     one: Success, users: seq<User>)
    requires |success| == |requests| && one.connections == Connections(service, request.dbName, users)
    ensures Reported(service, requests + [request], success + [one]) <=
            Reported(service, requests, success) +
            EntriesOf(users, Missing(GetSupportedRoles(service), request.connectionRoles), request.dbName)
  {
    hide Missing, KeyspaceUrl;
    var all, rs, missing := success + [one], requests + [request],
                            Missing(GetSupportedRoles(service), request.connectionRoles);
    assert forall i :: 0 <= i < |success| ==> all[i] == success[i] && rs[i] == requests[i];
    forall e | e in Reported(service, rs, all)
      ensures e in Reported(service, requests, success) + EntriesOf(users, missing, request.dbName)
    {
      var i, j :| 0 <= i < |all| && i < |rs| && 0 <= j < |all[i].connections| &&
                  j < |Missing(GetSupportedRoles(service), rs[i].connectionRoles)| &&
                  e == ReportedAt(service, rs, all, i, j);
      if i < |success| {
        assert e == ReportedAt(service, requests, success, i, j);
      } else {
        assert e == Entry(users[j].name, users[j].password, if missing[j] == "" then "admin" else missing[j],
                          request.dbName);
      }
    }
  }

  /** Where a batch stands: the names it has drawn, and what it has reported so far. */
  ghost predicate BatchUsable(service: Service, requests: seq<AdditionalRole>, uuids: nat -> UuidText, a: nat, n: nat,
                              start: State, b: Batch) {
    After(uuids, a, n, start, b.turn) &&
    AllUsable(service, b.turn.world.state, NamesUpTo(uuids, a, n), Reported(service, requests, b.success))
  }

  lemma OneRequestUsable(weather: Weather, reachable: nat -> bool, service: Service, requests: seq<AdditionalRole>,
                         request: AdditionalRole, uuids: nat -> UuidText, a: nat, more: nat, start: State, b: Batch)
    requires b.turn.ok && b.failure.None? && |b.success| == |requests| && AllFresh(uuids, a, more, start)
    requires exists m :: BatchUsable(service, requests, uuids, a, m, start, b)
    requires OneRequest(weather, reachable, service, request, uuids, b).turn.drawn <= a + 2 * more
    ensures exists n :: BatchUsable(service, requests + [request], uuids, a, n, start,
                                    OneRequest(weather, reachable, service, request, uuids, b))
  {
    hide UsersMade, Usable, AllUsable, NamesUpTo, AllFresh, Reported, EntriesOf, Connections, UserResources, Missing;
    var m :| BatchUsable(service, requests, uuids, a, m, start, b);
    ReportedCut(service, requests, request, b.success);
    var after := OneRequest(weather, reachable, service, request, uuids, b);
    if None in request.connectionRoles {
      assert BatchUsable(service, requests + [request], uuids, a, m, start, after);
    } else {
      var t, roles := b.turn.(users := []), Missing(GetSupportedRoles(service), request.connectionRoles);
      var entries := Reported(service, requests, b.success);
      assert After(uuids, a, m, start, t) && AllUsable(service, t.world.state, NamesUpTo(uuids, a, m), entries);
      var n := MadeUsersUsable(weather, reachable, service, request.dbName, roles, uuids, a, more, start, t, entries);
      var made := UsersMade(weather, reachable, service, request.dbName, roles, uuids, t);
      var all := entries + EntriesOf(made.users, roles, request.dbName);
      if made.ok {
        ReportedMore(service, requests, request, b.success, after.success[|b.success|], made.users);
      }
      FewerEntries(service, made.world.state, NamesUpTo(uuids, a, n), all,
                   Reported(service, requests + [request], after.success));
      assert BatchUsable(service, requests + [request], uuids, a, n, start, after);
    }
  }

  lemma FewerEntries(service: Service, s: State, names: set<string>, all: set<Entry>, some: set<Entry>)
    requires AllUsable(service, s, names, all) && some <= all
    ensures AllUsable(service, s, names, some)
  {
    hide Usable;
  }

  lemma OneRequestDraws(weather: Weather, reachable: nat -> bool, service: Service, request: AdditionalRole,
                        uuids: nat -> UuidText, b: Batch)
    ensures b.turn.drawn <= OneRequest(weather, reachable, service, request, uuids, b).turn.drawn || !b.turn.ok
  {
    hide UsersMade, Connections, UserResources;
    if b.turn.ok {
      UsersMadeFor(weather, reachable, service, request.dbName,
                   Missing(GetSupportedRoles(service), request.connectionRoles), uuids, b.turn.(users := []));
    }
  }

  /** While the names drawn are new and differ, every user that a batch reports, in the successes before a failure
      too, is usable at its end: it logs in with the password reported, and may do on its database exactly what its
      service role allows. */
  lemma {:induction false} ReportedUsersAreUsable(weather: Weather, reachable: nat -> bool, service: Service,
                                                  requests: seq<AdditionalRole>, uuids: nat -> UuidText, start: Turn,
                                                  more: nat)
    requires start.ok && WellFormed(start.world.state) && AllFresh(uuids, start.drawn, more, start.world.state)
    requires Served(weather, reachable, service, requests, uuids, start).turn.drawn <= start.drawn + 2 * more
    ensures exists n :: BatchUsable(service, requests, uuids, start.drawn, n, start.world.state,
                                    Served(weather, reachable, service, requests, uuids, start))
  {
    hide OneRequest, BatchUsable, AllFresh, Reported, WellFormed;
    var b := Served(weather, reachable, service, requests, uuids, start);
    if requests == [] {
      assert BatchUsable(service, requests, uuids, start.drawn, 0, start.world.state, b) by {
        NothingReported(service, uuids, start);
      }
    } else {
      var init, request := requests[..|requests| - 1], requests[|requests| - 1];
      var before := Served(weather, reachable, service, init, uuids, start);
      assert requests == init + [request];
      BatchShape(weather, reachable, service, init, uuids, start);
      OneRequestDraws(weather, reachable, service, request, uuids, before);
      ReportedUsersAreUsable(weather, reachable, service, init, uuids, start, more);
      if before.failure.None? {
        OneRequestUsable(weather, reachable, service, init, request, uuids, start.drawn, more, start.world.state,
                         before);
      } else {
        var n :| BatchUsable(service, init, uuids, start.drawn, n, start.world.state, before);
        ReportedCut(service, init, request, before.success);
        assert BatchUsable(service, requests, uuids, start.drawn, n, start.world.state, b) by {
          SameReport(service, init, requests, uuids, start.drawn, n, start.world.state, b);
        }
      }
    }
  }

  lemma NothingReported(service: Service, uuids: nat -> UuidText, start: Turn)
    requires WellFormed(start.world.state)
    ensures BatchUsable(service, [], uuids, start.drawn, 0, start.world.state, Batch(start, [], None))
  {
  }

  lemma SameReport(service: Service, requests: seq<AdditionalRole>, other: seq<AdditionalRole>,
                   uuids: nat -> UuidText, a: nat, n: nat, start: State, b: Batch)
    requires BatchUsable(service, requests, uuids, a, n, start, b)
    requires Reported(service, other, b.success) == Reported(service, requests, b.success)
    ensures BatchUsable(service, other, uuids, a, n, start, b)
  {
  }

  /** The same, connection by connection. */
  lemma ReportedUserWorks(weather: Weather, reachable: nat -> bool, service: Service, requests: seq<AdditionalRole>,
                          uuids: nat -> UuidText, start: Turn, more: nat, i: nat, j: nat)
    requires start.ok && WellFormed(start.world.state) && AllFresh(uuids, start.drawn, more, start.world.state)
    requires Served(weather, reachable, service, requests, uuids, start).turn.drawn <= start.drawn + 2 * more
    requires var b := Served(weather, reachable, service, requests, uuids, start);
             i < |b.success| && j < |b.success[i].connections|
    ensures i < |requests|
    ensures var b := Served(weather, reachable, service, requests, uuids, start);
            var c, roles := b.success[i].connections[j],
                            Missing(GetSupportedRoles(service), requests[i].connectionRoles);
            && j < |roles|
            && Usable(service, b.turn.world.state, c.username, c.password,
                      if roles[j] == "" then "admin" else roles[j], requests[i].dbName)
            && CanLogIn(b.turn.world.state.roles, c.username, c.password)
  {
    hide Served, Usable, AllFresh, WellFormed, Missing;
    var b := Served(weather, reachable, service, requests, uuids, start);
    ReportedUsersAreUsable(weather, reachable, service, requests, uuids, start, more);
    BatchShape(weather, reachable, service, requests, uuids, start);
    assert Serves(service, requests[i], b.success[i], DrawnNames(uuids, b.turn.drawn));
    var e := ReportedAt(service, requests, b.success, i, j);
    assert e in Reported(service, requests, b.success);
    UsableLogsIn(service, b.turn.world.state, e.name, e.password, e.role, e.dbName);
  }

  lemma UsableLogsIn(service: Service, s: State, name: string, password: string, role: string, dbName: string)
    ensures Usable(service, s, name, password, role, dbName) ==> CanLogIn(s.roles, name, password)
  {
  }
}
