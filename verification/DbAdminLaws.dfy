/** What creating, undoing and dropping a database amount to for the cluster as a whole. */
module DbAdminLaws {
  import opened Text
  import opened Cassandra
  import opened DbAdmin

  // ---------- A creation only adds ----------

  predicate Adds(stmt: Statement, keyspace: string) {
    match stmt
    case CreateKeyspace(k, _) => Fold(k) == keyspace
    case CreateTable(k, _) => Fold(k) == keyspace
    case Insert(k, _, _, _) => Fold(k) == keyspace
    case CreateRole(_, _, _) => true
    case GrantOn(_, k, _) => Fold(k) == keyspace
    case _ => false
  }

  function RolesMade(stmts: seq<Statement>): set<string> {
    set i | 0 <= i < |stmts| && stmts[i].CreateRole? :: stmts[i].role
  }

  /** after is before plus one keyspace, grants on that keyspace, and new roles among the given ones. */
  ghost predicate Grown(before: State, after: State, keyspace: string, made: set<string>) {
    && after.keyspaces - {keyspace} == before.keyspaces - {keyspace}
    && (forall g: Grant :: g.keyspace != keyspace ==> (g in after.grants <==> g in before.grants))
    && before.roles.Keys <= after.roles.Keys <= before.roles.Keys + made
    && (forall r :: r in before.roles ==> after.roles[r] == before.roles[r])
  }

  lemma {:induction false} RunGrows(weather: Weather, stmts: seq<Statement>, w: World, keyspace: string)
    requires forall i :: 0 <= i < |stmts| ==> Adds(stmts[i], keyspace)
    ensures Grown(w.state, Run(weather, stmts, w).state, keyspace, RolesMade(stmts))
    ensures AllWork(weather, stmts, w) ==> RolesMade(stmts) <= Run(weather, stmts, w).state.roles.Keys
  {
    if stmts != [] {
      var next := Next(weather, stmts[0], w);
      RunGrows(weather, stmts[1..], next, keyspace);
      FirstStepGrows(weather(w.clock), stmts[0], w.state, keyspace);
      var head := if stmts[0].CreateRole? then {stmts[0].role} else {};
      RolesMadeHead(stmts);
      assert Grown(w.state, next.state, keyspace, head);
    }
  }

  lemma FirstStepGrows(fault: Fault, stmt: Statement, s: State, keyspace: string)
    requires Adds(stmt, keyspace)
    ensures Grown(s, After(fault, stmt, s), keyspace, if stmt.CreateRole? then {stmt.role} else {})
    ensures stmt.CreateRole? && Succeeds(fault, stmt, s) ==> stmt.role in After(fault, stmt, s).roles
  {
  }

  lemma RolesMadeHead(stmts: seq<Statement>)
    requires stmts != []
    ensures RolesMade(stmts) == RolesMade(stmts[1..]) + if stmts[0].CreateRole? then {stmts[0].role} else {}
  {
  }

  function NamesOf(users: seq<User>): set<string> {
    set i | 0 <= i < |users| :: users[i].name
  }

  /** A creation script writes its own keyspace and creates exactly the roles of its users. */
  lemma ScriptAdds(service: Service, req: CreateRequest, name: string, uuids: nat -> UuidText)
    ensures var script := CreateScript(service, req, name, uuids);
            && (forall i :: 0 <= i < |script.statements| ==> Adds(script.statements[i], Fold(name)))
            && RolesMade(script.statements) <= NamesOf(Users(service, req, uuids))
            && (script.finishes ==> RolesMade(script.statements) == NamesOf(Users(service, req, uuids)))
  {
    hide Users, Accounts, Prelude, Fold, NamesOf;
    var users := Users(service, req, uuids);
    AccountsAdd(service, name, users);
    var script := CreateScript(service, req, name, uuids);
    if script.finishes {
      var prelude := Prelude(name, req.replication.value, req.metadata.value);
      PreludeAdds(name, req.replication.value, req.metadata.value);
      RolesMadeAppend(prelude, Accounts(service, name, users));
    }
  }

  lemma PreludeAdds(name: string, replication: string, metadata: string)
    ensures var stmts := Prelude(name, replication, metadata);
            && (forall i :: 0 <= i < |stmts| ==> Adds(stmts[i], Fold(name)))
            && RolesMade(stmts) == {}
  {
    hide Trim, Fold;
  }

  lemma RolesMadeAppend(a: seq<Statement>, b: seq<Statement>)
    ensures RolesMade(a + b) == RolesMade(a) + RolesMade(b)
  {
    var c := a + b;
    assert forall i :: 0 <= i < |a| ==> c[i] == a[i];
    assert forall i :: 0 <= i < |b| ==> b[i] == c[|a| + i];
  }

  lemma {:induction false} AccountsAdd(service: Service, keyspace: string, users: seq<User>)
    ensures var stmts := Accounts(service, keyspace, users);
            && (forall i :: 0 <= i < |stmts| ==> Adds(stmts[i], Fold(keyspace)))
            && RolesMade(stmts) == NamesOf(users)
  {
    if users != [] {
      var before, last := users[..|users| - 1], users[|users| - 1];
      AccountsAdd(service, keyspace, before);
      AccountAdds(service, keyspace, last);
      RolesMadeAppend(Accounts(service, keyspace, before), Account(service, keyspace, last));
      NamesOfAppend(before, last);
      assert users == before + [last];
    }
  }

  lemma AccountAdds(service: Service, keyspace: string, user: User)
    ensures var stmts := Account(service, keyspace, user);
            && (forall i :: 0 <= i < |stmts| ==> Adds(stmts[i], Fold(keyspace)))
            && RolesMade(stmts) == {user.name}
  {
    var stmts := Account(service, keyspace, user);
    assert stmts[0] == CreateRole(user.name, user.password, false);
    assert forall i :: 0 < i < |stmts| ==> stmts[i].GrantOn? && stmts[i].keyspace == keyspace;
  }

  lemma NamesOfAppend(users: seq<User>, user: User)
    ensures NamesOf(users + [user]) == NamesOf(users) + {user.name}
  {
    var all := users + [user];
    assert all[|users|] == user && forall i :: 0 <= i < |users| ==> all[i] == users[i];
  }

  // ---------- Bulk drop ----------

  function KeyspacesNamed(resources: seq<DbResource>): set<string> {
    set i | 0 <= i < |resources| && resources[i].kind == DatabaseKind :: Fold(resources[i].name)
  }

  function RolesNamed(resources: seq<DbResource>): set<string> {
    set i | 0 <= i < |resources| && resources[i].kind == UserKind :: Fold(resources[i].name)
  }

  /** When every drop is reported DELETED, exactly what the resources name is gone, folded as CQL folds it. */
  lemma {:induction false} DropsRemove(weather: Weather, resources: seq<DbResource>, n: nat, w: World)
    requires n <= |resources|
    requires forall i :: 0 <= i < n ==> DropWorked(weather, resources, i, w)
    ensures AfterDrops(weather, resources, n, w).state ==
            Without(w.state, KeyspacesNamed(resources[..n]), RolesNamed(resources[..n]))
  {
    hide Fold, IsIdentifier, KeyspacesNamed, RolesNamed;
    if n == 0 {
      NothingNamed();
      assert Without(w.state, {}, {}) == w.state;
    } else {
      DropsRemove(weather, resources, n - 1, w);
      var r := resources[n - 1];
      assert DropWorked(weather, resources, n - 1, w);
      var ks, rs := KeyspacesNamed(resources[..n - 1]), RolesNamed(resources[..n - 1]);
      var k := if r.kind == DatabaseKind then {Fold(r.name)} else {};
      var f := if r.kind == UserKind then {Fold(r.name)} else {};
      WithoutCompose(w.state, ks, rs, k, f);
      assert resources[..n] == resources[..n - 1] + [r];
      NamedAppend(resources[..n - 1], r);
    }
  }

  /** A drop works exactly when nothing outside fails, its kind is known and CQL accepts the name without quotes. */
  lemma DropWorksExactly(weather: Weather, resources: seq<DbResource>, i: nat, w: World)
    requires i < |resources|
    ensures DropWorked(weather, resources, i, w) <==>
            && weather(w.clock + i).Calm?
            && (resources[i].kind == DatabaseKind || resources[i].kind == UserKind)
            && IsIdentifier(resources[i].name)
  {
    DropsCount(weather, resources, i, w);
  }

  lemma {:induction false} DropsCount(weather: Weather, resources: seq<DbResource>, n: nat, w: World)
    requires n <= |resources|
    ensures AfterDrops(weather, resources, n, w).clock == w.clock + n
  {
    if n > 0 {
      DropsCount(weather, resources, n - 1, w);
    }
  }

  lemma NothingNamed()
    ensures KeyspacesNamed([]) == {} && RolesNamed([]) == {}
  {
  }

  lemma NamedAppend(resources: seq<DbResource>, r: DbResource)
    ensures KeyspacesNamed(resources + [r]) ==
            KeyspacesNamed(resources) + if r.kind == DatabaseKind then {Fold(r.name)} else {}
    ensures RolesNamed(resources + [r]) == RolesNamed(resources) + if r.kind == UserKind then {Fold(r.name)} else {}
  {
    hide Fold;
    var all := resources + [r];
    assert all[|resources|] == r && forall i :: 0 <= i < |resources| ==> all[i] == resources[i];
  }

  function FoldedNames(users: seq<User>): set<string> {
    set i | 0 <= i < |users| :: Fold(users[i].name)
  }

  lemma ResourcesName(keyspace: string, users: seq<User>)
    ensures KeyspacesNamed(Resources(keyspace, users)) == {Fold(keyspace)}
    ensures RolesNamed(Resources(keyspace, users)) == FoldedNames(users)
  {
    var rs := Resources(keyspace, users);
    assert rs[0] == DbResource(DatabaseKind, keyspace, Unset);
    assert forall i :: 0 <= i < |users| ==> rs[i + 1] == DbResource(UserKind, users[i].name, Unset);
    forall f | f in FoldedNames(users)
      ensures f in RolesNamed(rs)
    {
      var i :| 0 <= i < |users| && Fold(users[i].name) == f;
      assert rs[i + 1].kind == UserKind && Fold(rs[i + 1].name) == f;
    }
    forall f | f in RolesNamed(rs)
      ensures f in FoldedNames(users)
    {
      var i :| 0 <= i < |rs| && rs[i].kind == UserKind && Fold(rs[i].name) == f;
      assert f == Fold(users[i - 1].name);
    }
  }

  // ---------- Create, then drop ----------

  /** CREATE ROLE keeps the case of the name and DROP ROLE folds it. A user goes again without a trace
      when its name is lower-case and new, or when it was there already and no role has the folded name. */
  predicate Reversible(s: State, name: string) {
    Fold(name) !in s.roles && (Fold(name) == name || name in s.roles)
  }

  ghost predicate Completes(weather: Weather, script: Script, w: World) {
    script.finishes && AllWork(weather, script.statements, w)
  }

  /** Every drop is reported DELETED. */
  ghost predicate AllDeleted(weather: Weather, resources: seq<DbResource>, w: World) {
    forall i :: 0 <= i < |resources| ==> DropWorked(weather, resources, i, w)
  }

  /** If creating a database completes and dropping all its resources, at whatever later time, works, then the
      cluster is what it was before, in every mode, exactly when each of the users is reversible. */
  lemma CreateThenDropIsIdentity(weather: Weather, service: Service, req: CreateRequest, name: string,
                                 uuids: nat -> UuidText, w: World, later: nat)
    requires WellFormed(w.state)
    ensures var created := World(AfterCreate(weather, service, req, name, uuids, w).state, later);
            var users := Users(service, req, uuids);
            var resources := Resources(name, users);
            Completes(weather, CreateScript(service, req, name, uuids), w) &&
            AllDeleted(weather, resources, created) ==>
              (AfterDrops(weather, resources, |resources|, created).state == w.state <==>
               forall i :: 0 <= i < |users| ==> Reversible(w.state, users[i].name))
  {
    hide AllWork, Run, Next, Works, CreateScript, DropWorked, Resources, AfterDrops, Users;
    var script := CreateScript(service, req, name, uuids);
    var users := Users(service, req, uuids);
    var resources := Resources(name, users);
    var created := World(AfterCreate(weather, service, req, name, uuids, w).state, later);
    if Completes(weather, script, w) && AllDeleted(weather, resources, created) {
      ScriptAdds(service, req, name, uuids);
      RunGrows(weather, script.statements, w, Fold(name));
      DropsRemove(weather, resources, |resources|, created);
      assert resources[..|resources|] == resources;
      ResourcesName(name, users);
      ScriptStarts(service, req, name, uuids);
      KeyspaceWasFree(weather, script.statements, w);
      assert Fold(name) != AllKeyspaces;
      AddThenRemove(w.state, created.state, Fold(name), users);
    }
  }

  lemma ScriptStarts(service: Service, req: CreateRequest, name: string, uuids: nat -> UuidText)
    ensures var script := CreateScript(service, req, name, uuids);
            script.finishes ==>
              script.statements != [] && script.statements[0] == CreateKeyspace(name, req.replication.value)
  {
    hide Accounts, Users, Trim;
  }

  lemma KeyspaceWasFree(weather: Weather, stmts: seq<Statement>, w: World)
    requires stmts != [] && stmts[0].CreateKeyspace? && AllWork(weather, stmts, w)
    ensures Fold(stmts[0].keyspace) !in w.state.keyspaces && Fold(stmts[0].keyspace) != AllKeyspaces
  {
  }

  lemma AddThenRemove(before: State, grown: State, keyspace: string, users: seq<User>)
    requires WellFormed(before) && keyspace !in before.keyspaces && keyspace != AllKeyspaces
    requires Grown(before, grown, keyspace, NamesOf(users)) && NamesOf(users) <= grown.roles.Keys
    ensures Without(grown, {keyspace}, FoldedNames(users)) == before <==>
            forall i :: 0 <= i < |users| ==> Reversible(before, users[i].name)
  {
  }

  // ---------- Rolling back a creation that failed ----------

  /** The roles a creation generates names for: every supported role but the admin, and none in v1. */
  function GeneratedNames(service: Service, req: CreateRequest, uuids: nat -> UuidText): set<string> {
    NamesOf(Users(service, req, uuids)) - {req.username}
  }

  ghost predicate Fails(weather: Weather, script: Script, w: World) {
    !(script.finishes && AllWork(weather, script.statements, w))
  }

  /** The environment lets both drops of a rollback through. The cluster may still refuse them. */
  predicate RollbackAnswered(weather: Weather, w: World) {
    weather(w.clock).Calm? && weather(w.clock + 1).Calm?
  }

  /** What a drop of this name takes away: nothing when CQL does not accept the name unquoted. */
  function Dropped(name: string): set<string> {
    if IsIdentifier(name) then {Fold(name)} else {}
  }

  /** A role that was created under this name is dropped under it. */
  predicate Droppable(name: string) {
    IsIdentifier(name) && Fold(name) == name
  }

  /** All keyspaces, grants and roles of before are there as they were. */
  ghost predicate Untouched(before: State, after: State) {
    && after.keyspaces == before.keyspaces && after.grants == before.grants
    && forall r :: r in before.roles ==> r in after.roles && after.roles[r] == before.roles[r]
  }

  /** When the second of the two drops is not applied, it is the role that stays. */
  lemma RollbackDropsKeyspaceFirst(weather: Weather, name: string, username: string, w: World)
    requires weather(w.clock).Calm? && weather(w.clock + 1).Rejected?
    ensures Rollback(weather, name, username, w).state == Without(w.state, Dropped(name), {})
  {
    hide IsIdentifier, Fold;
    assert Without(w.state, {}, {}) == w.state;
  }

  lemma RollbackEffect(weather: Weather, name: string, username: string, w: World)
    requires RollbackAnswered(weather, w)
    ensures Rollback(weather, name, username, w).state == Without(w.state, Dropped(name), Dropped(username))
  {
    hide IsIdentifier, Fold;
    var middle := Without(w.state, Dropped(name), {});
    assert Without(w.state, {}, {}) == w.state;
    assert Next(weather, DropKeyspace(name), w).state == middle;
    WithoutCompose(w.state, Dropped(name), {}, {}, Dropped(username));
    assert Dropped(name) + {} == Dropped(name) && {} + Dropped(username) == Dropped(username);
    assert Without(middle, {}, {}) == middle;
  }

  /** Whatever statement fails, and whether or not the failing one was applied: when the environment lets both
      drops through, all that existed before is untouched if and only if the request named neither an existing
      keyspace nor an existing role, unless CQL refuses to drop under that name. No grant on the keyspace is left,
      and a role that is left over is a generated one or the request's, if that one is not droppable. */
  lemma RollbackRestores(weather: Weather, service: Service, req: CreateRequest, name: string,
                         uuids: nat -> UuidText, w: World)
    requires WellFormed(w.state)
    requires var script := CreateScript(service, req, name, uuids);
             Fails(weather, script, w) && RollbackAnswered(weather, Run(weather, script.statements, w))
    ensures var after := AfterCreate(weather, service, req, name, uuids, w).state;
            && (Untouched(w.state, after) <==>
                (IsIdentifier(name) ==> Fold(name) !in w.state.keyspaces) &&
                (IsIdentifier(req.username) ==> Fold(req.username) !in w.state.roles))
            && after.keyspaces.Keys !! Dropped(name) && after.roles.Keys !! Dropped(req.username)
            && after.keyspaces.Keys <= w.state.keyspaces.Keys
            && after.roles.Keys <= w.state.roles.Keys + GeneratedNames(service, req, uuids) +
                                   (if Droppable(req.username) then {} else {req.username})
  {
    hide AllWork, Run, CreateScript, Users, Without, IsIdentifier, Fold;
    var script := CreateScript(service, req, name, uuids);
    var reached := Run(weather, script.statements, w);
    ScriptAdds(service, req, name, uuids);
    RunGrows(weather, script.statements, w, Fold(name));
    RollbackEffect(weather, name, req.username, reached);
    OnlyIdentifiersAreCreated(weather, service, req, name, uuids, w);
    GrownUndone(w.state, reached.state, Fold(name), Dropped(name), Dropped(req.username),
                NamesOf(Users(service, req, uuids)));
  }

  /** A name that CQL refuses gets no keyspace, and then nothing else either. */
  lemma OnlyIdentifiersAreCreated(weather: Weather, service: Service, req: CreateRequest, name: string,
                                  uuids: nat -> UuidText, w: World)
    ensures !IsIdentifier(name) ==>
              Run(weather, CreateScript(service, req, name, uuids).statements, w).state == w.state
    ensures IsIdentifier(name) ==> Fold(name) != AllKeyspaces
  {
    hide Accounts, Users, Trim;
    var stmts := CreateScript(service, req, name, uuids).statements;
    if !IsIdentifier(name) && stmts != [] {
      assert stmts[0] == CreateKeyspace(name, req.replication.value);
    }
  }

  /** Whatever fails, the drops included: other keyspaces, other roles and the grants between them are never
      touched, and the only new roles are the request's users. */
  lemma RollbackSparesOthers(weather: Weather, service: Service, req: CreateRequest, name: string,
                             uuids: nat -> UuidText, w: World)
    ensures var before, after := w.state, AfterCreate(weather, service, req, name, uuids, w).state;
            && after.keyspaces - {Fold(name)} == before.keyspaces - {Fold(name)}
            && (forall r :: r in before.roles && r != Fold(req.username) ==>
                  r in after.roles && after.roles[r] == before.roles[r])
            && (forall g: Grant :: g.keyspace != Fold(name) && g.role != Fold(req.username) ==>
                  (g in after.grants <==> g in before.grants))
            && after.roles.Keys <= before.roles.Keys + NamesOf(Users(service, req, uuids))
  {
    hide AllWork, Run, CreateScript, Users, IsIdentifier, Fold;
    var script := CreateScript(service, req, name, uuids);
    var reached := Run(weather, script.statements, w);
    ScriptAdds(service, req, name, uuids);
    RunGrows(weather, script.statements, w, Fold(name));
    RollbackTakes(weather, name, req.username, reached);
  }

  lemma RollbackTakes(weather: Weather, name: string, username: string, w: World)
    ensures var after := Rollback(weather, name, username, w).state;
            && after.keyspaces - {Fold(name)} == w.state.keyspaces - {Fold(name)}
            && after.roles - {Fold(username)} == w.state.roles - {Fold(username)}
            && after.roles.Keys <= w.state.roles.Keys
            && (forall g: Grant :: g.keyspace != Fold(name) && g.role != Fold(username) ==>
                  (g in after.grants <==> g in w.state.grants))
  {
    hide IsIdentifier, Fold;
  }

  /** The request's role is left over when the rollback found it and its name is not droppable. */
  lemma RequestRoleLeftOver(weather: Weather, service: Service, req: CreateRequest, name: string,
                            uuids: nat -> UuidText, w: World)
    requires var script := CreateScript(service, req, name, uuids);
             Fails(weather, script, w) && RollbackAnswered(weather, Run(weather, script.statements, w))
    ensures req.username in AfterCreate(weather, service, req, name, uuids, w).state.roles <==>
            req.username in Run(weather, CreateScript(service, req, name, uuids).statements, w).state.roles &&
            !Droppable(req.username)
  {
    hide AllWork, Run, CreateScript, IsIdentifier, Fold;
    RollbackEffect(weather, name, req.username, Run(weather, CreateScript(service, req, name, uuids).statements, w));
  }

  const ExampleService :=
    Service("v1", false, [], map[], "host", 9042, false)

  const ExampleRequest :=
    CreateRequest(Some(""), NoClassifier, "db", "Bob", "secret", Some("{}"), Some("{}"))

  const ExampleStart := World(State(map[], map[], {}), 0)

  /** A request for the user Bob whose grant is refused leaves the role Bob in an empty cluster. */
  lemma MixedCaseRoleSurvives(weather: Weather, uuids: nat -> UuidText)
    requires forall n :: 0 <= n < 5 ==> weather(n).Calm?
    requires weather(5).Rejected? && weather(6).Calm? && weather(7).Calm?
    ensures "Bob" in AfterCreate(weather, ExampleService, ExampleRequest, "db", uuids, ExampleStart).state.roles
  {
    hide CreateScript, Prelude, Run, AllWork, Rollback;
    var prelude, account := Prelude("db", "{}", "{}"), ExampleAccount;
    ExampleScript(uuids);
    RunAppend(weather, prelude, account, ExampleStart);
    assert IsIdentifier("db") && Fold("db") !in ExampleStart.state.keyspaces;
    CalmPrelude(weather, "db", "{}", "{}", ExampleStart);
    assert Fold("db") == "db";
    RefusedGrant(weather, Run(weather, prelude, ExampleStart));
    assert Fold("Bob")[0] == 'b';
    RequestRoleLeftOver(weather, ExampleService, ExampleRequest, "db", uuids, ExampleStart);
  }

  const ExampleAccount := [CreateRole("Bob", "secret", false), GrantOn("ALL", "db", "Bob")]

  lemma ExampleScript(uuids: nat -> UuidText)
    ensures CreateScript(ExampleService, ExampleRequest, "db", uuids) ==
            Script(Prelude("db", "{}", "{}") + ExampleAccount, true)
  {
    hide Prelude, Fold;
    var users := Users(ExampleService, ExampleRequest, uuids);
    assert users[..0] == [] && Accounts(ExampleService, "db", []) == [];
    assert Grants(["ALL"], "db", "Bob") == [GrantOn("ALL", "db", "Bob")];
    assert Account(ExampleService, "db", users[0]) == ExampleAccount;
  }

  lemma RefusedGrant(weather: Weather, w: World)
    requires w.clock == 4 && weather(4).Calm? && weather(5).Rejected?
    ensures "Bob" in Run(weather, ExampleAccount, w).state.roles && !AllWork(weather, ExampleAccount, w)
    ensures Run(weather, ExampleAccount, w).clock == 6
  {
  }

  ghost predicate CalmBetween(weather: Weather, from: nat, to: nat) {
    forall n :: from <= n < to ==> weather(n).Calm?
  }

  /** In calm weather a new keyspace with a name that CQL accepts gets its metadata. */
  lemma CalmPrelude(weather: Weather, name: string, replication: string, metadata: string, w: World)
    requires IsIdentifier(name) && Fold(name) !in w.state.keyspaces
    requires CalmBetween(weather, w.clock, w.clock + 4)
    ensures var stmts := Prelude(name, replication, metadata);
            var after := Run(weather, stmts, w);
            && AllWork(weather, stmts, w) && after.clock == w.clock + 4
            && after.state.roles == w.state.roles && Fold(name) in after.state.keyspaces
  {
    hide Run, AllWork, Trim, Fold, IsIdentifier;
    var p := Prelude(name, replication, metadata);
    RunNothing(weather, w);
    assert p[..0] == [] && p[..4] == p;
    RunStep(weather, p, 0, w);
    RunStep(weather, p, 1, w);
    RunStep(weather, p, 2, w);
    RunStep(weather, p, 3, w);
  }

  /** Taking away a keyspace and a role, or neither, from what a creation made of the cluster. */
  lemma GrownUndone(before: State, grown: State, keyspace: string, keyspaces: set<string>, roles: set<string>,
                    made: set<string>)
    requires WellFormed(before) && Grown(before, grown, keyspace, made)
    requires (keyspaces == {keyspace} && keyspace != AllKeyspaces) || (keyspaces == {} && grown == before)
    ensures var after := Without(grown, keyspaces, roles);
            && (Untouched(before, after) <==> keyspaces !! before.keyspaces.Keys && roles !! before.roles.Keys)
            && after.keyspaces.Keys !! keyspaces && after.roles.Keys !! roles
            && after.keyspaces.Keys <= before.keyspaces.Keys
            && after.roles.Keys <= before.roles.Keys + (made - roles)
  {
  }

  /** A request for a name that is taken never succeeds, and its rollback drops the keyspace of that name and
      the role of the request's, where CQL accepts these names. */
  lemma CreateOverExistingDropsIt(weather: Weather, service: Service, req: CreateRequest, name: string,
                                  uuids: nat -> UuidText, w: World)
    requires Fold(name) in w.state.keyspaces
    requires RollbackAnswered(weather, Run(weather, CreateScript(service, req, name, uuids).statements, w))
    ensures Fails(weather, CreateScript(service, req, name, uuids), w)
    ensures AfterCreate(weather, service, req, name, uuids, w).state ==
            Without(w.state, Dropped(name), Dropped(req.username))
  {
    hide Without, AllWork, Run;
    var script := CreateScript(service, req, name, uuids);
    TakenNameFails(weather, service, req, name, uuids, w);
    RollbackEffect(weather, name, req.username, Run(weather, script.statements, w));
  }

  lemma TakenNameFails(weather: Weather, service: Service, req: CreateRequest, name: string,
                       uuids: nat -> UuidText, w: World)
    requires Fold(name) in w.state.keyspaces
    ensures var script := CreateScript(service, req, name, uuids);
            Fails(weather, script, w) && Run(weather, script.statements, w).state == w.state
  {
    hide Accounts, Users, Trim, Fold, IsIdentifier;
    var stmts := CreateScript(service, req, name, uuids).statements;
    if stmts != [] {
      assert stmts[0] == CreateKeyspace(name, req.replication.value);
    }
  }
}
