/** Adding users to databases that exist: one user at a time, and the batch that adds
    to every database the users of the supported roles it still lacks. */
module DbUsers {
  import opened Text
  import opened Cassandra
  import opened DbAdmin

  datatype UserRequest = UserRequest(dbName: string, password: string, role: string)

  datatype CreatedUser = CreatedUser(connection: ConnectionProperties, resources: seq<DbResource>, name: string)

  datatype UserOutcome = UserCreated(user: CreatedUser) | UserRefused | UserPanicked

  // ---------- One user ----------

  function RoleOr(role: string): string {
    if role == "" then "admin" else role
  }

  /** What listing the permissions on a keyspace shows of a role: those on all keyspaces too. */
  predicate HoldsGrant(s: State, role: string, keyspace: string) {
    exists g | g in s.grants :: g.role == role && (g.keyspace == keyspace || g.keyspace == AllKeyspaces)
  }

  /** A user that is there gets a new password, provided it has a permission on the database asked
      for; one that is not there is created with the permissions of its role. */
  function UserScript(service: Service, s: State, name: string, password: string, req: UserRequest): Script {
    if name in s.roles then
      var look := [ListRoles] + (if req.dbName == "" then [] else [ListPermissions(req.dbName)]);
      if req.dbName == "" || HoldsGrant(s, name, Fold(req.dbName))
      then Script(look + [AlterRole(name, password, true)], true) else Script(look, false)
    else
      Script([ListRoles, CreateRole(name, password, false)] +
             Grants(RolePermissions(service, RoleOr(req.role)), req.dbName, name), true)
  }

  function NameOr(userName: string, uuids: nat -> UuidText, drawn: nat): string {
    if userName == "" then "role_" + ShortUuid(uuids(drawn)) else userName
  }

  function PasswordOr(userName: string, password: string, uuids: nat -> UuidText, drawn: nat): string {
    if password != "" then password
    else ShortUuid(uuids(if userName == "" then drawn + 1 else drawn))
  }

  function UserAnswer(service: Service, name: string, password: string, req: UserRequest): CreatedUser {
    CreatedUser(ConnectionFor(service, req.dbName, User(name, password, RoleOr(req.role))),
                [DbResource(UserKind, name, Unset)], req.dbName)
  }

  /** Everything a script for a user writes is that user's. */
  lemma UserScriptConfined(service: Service, s: State, name: string, password: string, req: UserRequest)
    ensures var stmts := UserScript(service, s, name, password, req).statements;
            forall i :: 0 <= i < |stmts| ==> Confined(stmts[i], {}, {name})
  {
  }

  method SendUserScript(cluster: Cluster, service: Service, name: string, password: string, req: UserRequest)
    returns (ok: bool)
    modifies cluster
    ensures var script := UserScript(service, old(cluster.Now()).state, name, password, req);
            && cluster.Now() == Run(cluster.weather, script.statements, old(cluster.Now()))
            && (ok <==> script.finishes && AllWork(cluster.weather, script.statements, old(cluster.Now())))
  {
    hide Next, Works, Run, AllWork;
    ghost var start := cluster.Now();
    ghost var script := UserScript(service, start.state, name, password, req);
    ghost var stmts := script.statements;
    RunNothing(cluster.weather, start);
    RunStep(cluster.weather, stmts, 0, start);
    ok := cluster.Execute(ListRoles);
    if !ok {
      return;
    }
    ReadsChangeNothing(cluster.weather, ListRoles, start);
    if name in cluster.roles {
      if req.dbName != "" {
        ReadsChangeNothing(cluster.weather, ListPermissions(req.dbName), cluster.Now());
        RunStep(cluster.weather, stmts, 1, start);
        ok := cluster.Execute(ListPermissions(req.dbName));
        if !ok {
          return;
        }
        if !HoldsGrant(cluster.Now().state, name, Fold(req.dbName)) {
          assert stmts[..2] == stmts;
          return false;
        }
      }
      RunStep(cluster.weather, stmts, |stmts| - 1, start);
      assert stmts[..|stmts|] == stmts;
      ok := cluster.Execute(AlterRole(name, password, true));
    } else {
      RunStep(cluster.weather, stmts, 1, start);
      ok := cluster.Execute(CreateRole(name, password, false));
      if !ok {
        return;
      }
      RunAppend(cluster.weather, stmts[..2], stmts[2..], start);
      assert stmts[..2] + stmts[2..] == stmts;
      assert stmts[2..] == Grants(RolePermissions(service, RoleOr(req.role)), req.dbName, name);
      ok := GrantPermissions(cluster, req.dbName, name, RolePermissions(service, RoleOr(req.role)));
    }
  }

  lemma ReadsChangeNothing(weather: Weather, stmt: Statement, w: World)
    requires stmt.ListRoles? || stmt.ListPermissions?
    ensures Next(weather, stmt, w).state == w.state
  {
  }

  method CreateUser(cluster: Cluster, sessions: Sessions, service: Service, userName: string, req: UserRequest,
                    uuids: nat -> UuidText, drawn: nat)
    returns (outcome: UserOutcome, drawnAfter: nat)
    requires cluster as object != sessions
    modifies cluster, sessions
    ensures sessions.opens - sessions.closes == old(sessions.opens) - old(sessions.closes)
    ensures drawnAfter == drawn + (if userName == "" then 1 else 0) + (if req.password == "" then 1 else 0)
    ensures outcome.UserRefused? <==> !MatchesNamePattern(NameOr(userName, uuids, drawn))
    ensures sessions.attempts == old(sessions.attempts) + (if outcome.UserRefused? then 0 else 1)
    ensures sessions.opens == old(sessions.opens) +
              (if !outcome.UserRefused? && sessions.reachable(old(sessions.attempts)) then 1 else 0)
    ensures sessions.opens == old(sessions.opens) ==> cluster.Now() == old(cluster.Now()) && !outcome.UserCreated?
    ensures sessions.opens > old(sessions.opens) ==>
              var name, password := NameOr(userName, uuids, drawn), PasswordOr(userName, req.password, uuids, drawn);
              var script := UserScript(service, old(cluster.Now()).state, name, password, req);
              && cluster.Now() == Run(cluster.weather, script.statements, old(cluster.Now()))
              && outcome == if script.finishes && AllWork(cluster.weather, script.statements, old(cluster.Now()))
                            then UserCreated(UserAnswer(service, name, password, req)) else UserPanicked
  {
    hide Run, AllWork, UserScript;
    drawnAfter := drawn;
    var name, password := userName, req.password;
    if name == "" {
      name := "role_" + ShortUuid(uuids(drawnAfter));
      drawnAfter := drawnAfter + 1;
    }
    if password == "" {
      password := ShortUuid(uuids(drawnAfter));
      drawnAfter := drawnAfter + 1;
    }
    if !MatchesNamePattern(name) {
      return UserRefused, drawnAfter;
    }
    var open := sessions.Open();
    if !open {
      return UserPanicked, drawnAfter;
    }
    var ok := SendUserScript(cluster, service, name, password, req);
    outcome := if ok then UserCreated(UserAnswer(service, name, password, req)) else UserPanicked;
    sessions.Close();
  }

  // ---------- The batch ----------

  /** A role in connectionRoles is None where the connection properties hold no string. */
  datatype AdditionalRole = AdditionalRole(id: string, dbName: string, connectionRoles: seq<Option<string>>)

  datatype Success = Success(id: string, dbName: string, connections: seq<ConnectionProperties>,
                             resources: seq<DbResource>)

  /** The roles a database lacks, in the order the service supports them. */
  function Missing(supported: seq<string>, existing: seq<Option<string>>): seq<string> {
    if supported == [] then []
    else
      var last := supported[|supported| - 1];
      Missing(supported[..|supported| - 1], existing) + (if Some(last) in existing then [] else [last])
  }

  /** Missing keeps every supported role that does not exist, as often and in the order it is supported. */
  lemma {:induction false} MissingAppend(supported: seq<string>, more: seq<string>, existing: seq<Option<string>>)
    ensures Missing(supported + more, existing) == Missing(supported, existing) + Missing(more, existing)
  {
    if more == [] {
      assert supported + more == supported;
    } else {
      var all, init := supported + more, more[..|more| - 1];
      assert all[..|all| - 1] == supported + init;
      MissingAppend(supported, init, existing);
    }
  }

  lemma {:induction false} MissingRoles(supported: seq<string>, existing: seq<Option<string>>, role: string)
    ensures role in Missing(supported, existing) <==> role in supported && Some(role) !in existing
  {
    if supported != [] {
      MissingRoles(supported[..|supported| - 1], existing, role);
      assert supported == supported[..|supported| - 1] + [supported[|supported| - 1]];
    }
  }

  function DrawnNames(uuids: nat -> UuidText, drawn: nat): set<string> {
    set i | 0 <= i < drawn :: "role_" + ShortUuid(uuids(i))
  }

  /** What a successful entry reports: one user with a generated name for each missing role, in order. */
  ghost predicate Serves(service: Service, request: AdditionalRole, success: Success, names: set<string>) {
    && success.id == request.id && success.dbName == request.dbName
    && Fits(service, request.dbName, Missing(GetSupportedRoles(service), request.connectionRoles),
            success.connections, success.resources, names)
  }

  ghost predicate Fits(service: Service, dbName: string, roles: seq<string>,
                       connections: seq<ConnectionProperties>, resources: seq<DbResource>, names: set<string>) {
    && |connections| == |resources| == |roles|
    && forall i :: 0 <= i < |roles| ==>
         && connections[i] ==
            ConnectionFor(service, dbName, User(connections[i].username, connections[i].password, RoleOr(roles[i])))
         && connections[i].username in names
         && resources[i] == DbResource(UserKind, connections[i].username, Unset)
  }

  lemma {:induction false} RunKeepsRoles(weather: Weather, stmts: seq<Statement>, w: World, name: string)
    requires forall i :: 0 <= i < |stmts| ==> !stmts[i].DropRole?
    ensures w.state.roles.Keys <= Run(weather, stmts, w).state.roles.Keys
    ensures AllWork(weather, stmts, w) &&
            (exists i :: 0 <= i < |stmts| && stmts[i].CreateRole? && stmts[i].role == name) ==>
              name in Run(weather, stmts, w).state.roles
  {
    if stmts != [] {
      RunKeepsRoles(weather, stmts[1..], Next(weather, stmts[0], w), name);
      assert forall i :: 0 < i < |stmts| ==> stmts[1..][i - 1] == stmts[i];
    }
  }

  /** Whatever becomes of a user's script, only that user's role and grants differ, no role is lost,
      and a user that was reported is there. */
  lemma UserScriptEffect(weather: Weather, service: Service, w: World, name: string, password: string, req: UserRequest)
    ensures var script := UserScript(service, w.state, name, password, req);
            var after := Run(weather, script.statements, w).state;
            && Without(after, {}, {name}) == Without(w.state, {}, {name})
            && w.state.roles.Keys <= after.roles.Keys
            && (script.finishes && AllWork(weather, script.statements, w) ==> name in after.roles)
  {
    hide Run, AllWork, Without;
    var script := UserScript(service, w.state, name, password, req);
    UserScriptConfined(service, w.state, name, password, req);
    RunConfined(weather, script.statements, w, {}, {name});
    RunKeepsRoles(weather, script.statements, w, name);
    if name !in w.state.roles {
      assert script.statements[1] == CreateRole(name, password, false);
    }
  }

  lemma WithoutMore(s: State, t: State, fewer: set<string>, more: set<string>)
    requires Without(s, {}, fewer) == Without(t, {}, fewer) && fewer <= more
    ensures Without(s, {}, more) == Without(t, {}, more)
  {
    WithoutCompose(s, {}, fewer, {}, more);
    WithoutCompose(t, {}, fewer, {}, more);
    var none: set<string> := {};
    assert fewer + more == more && none + none == none;
  }

  // ---------- One database of the batch ----------

  /** Where a batch stands: the users made for the database at hand, UUIDs drawn, sessions asked for. */
  datatype Turn = Turn(world: World, attempts: nat, drawn: nat, ok: bool, users: seq<User>)

  /** One more generated user, for one role of one database. */
  function OneMore(weather: Weather, reachable: nat -> bool, service: Service, dbName: string, role: string,
                   uuids: nat -> UuidText, t: Turn): Turn {
    var user := User("role_" + ShortUuid(uuids(t.drawn)), ShortUuid(uuids(t.drawn + 1)), RoleOr(role));
    var script := UserScript(service, t.world.state, user.name, user.password, UserRequest(dbName, "", role));
    if !reachable(t.attempts) then Turn(t.world, t.attempts + 1, t.drawn + 2, false, t.users)
    else
      var ok := script.finishes && AllWork(weather, script.statements, t.world);
      Turn(Run(weather, script.statements, t.world), t.attempts + 1, t.drawn + 2, ok,
           if ok then t.users + [user] else t.users)
  }

  /** Users for some roles, one after the other until the first panic. */
  function UsersMade(weather: Weather, reachable: nat -> bool, service: Service, dbName: string, roles: seq<string>,
                     uuids: nat -> UuidText, t: Turn): Turn {
    if roles == [] then t
    else
      var before := UsersMade(weather, reachable, service, dbName, roles[..|roles| - 1], uuids, t);
      if before.ok then OneMore(weather, reachable, service, dbName, roles[|roles| - 1], uuids, before) else before
  }

  lemma {:induction false} UsersMadeCut(weather: Weather, reachable: nat -> bool, service: Service, dbName: string,
                                        roles: seq<string>, more: seq<string>, uuids: nat -> UuidText, t: Turn)
    requires !UsersMade(weather, reachable, service, dbName, roles, uuids, t).ok
    ensures UsersMade(weather, reachable, service, dbName, roles + more, uuids, t) ==
            UsersMade(weather, reachable, service, dbName, roles, uuids, t)
  {
    if more == [] {
      assert roles + more == roles;
    } else {
      assert (roles + more)[..|roles + more| - 1] == roles + more[..|more| - 1];
      UsersMadeCut(weather, reachable, service, dbName, roles, more[..|more| - 1], uuids, t);
    }
  }

  /** What the users of a turn are, and that they exist; and that nothing but generated users has changed. */
  ghost predicate MadeFor(start: Turn, t: Turn, roles: seq<string>, uuids: nat -> UuidText) {
    && start.drawn <= t.drawn
    && |t.users| <= |roles| && (t.ok ==> |t.users| == |roles|)
    && (forall i :: 0 <= i < |t.users| ==>
          && t.users[i].role == RoleOr(roles[i])
          && t.users[i].name in DrawnNames(uuids, t.drawn)
          && t.users[i].name in t.world.state.roles)
    && OnlyUsersAdded(start.world.state, t.world.state, DrawnNames(uuids, t.drawn))
  }

  /** No role is lost, and outside the named roles and their grants nothing differs. */
  ghost predicate OnlyUsersAdded(before: State, after: State, names: set<string>) {
    before.roles.Keys <= after.roles.Keys && Without(after, {}, names) == Without(before, {}, names)
  }

  lemma {:induction false} UsersMadeFor(weather: Weather, reachable: nat -> bool, service: Service, dbName: string,
                                        roles: seq<string>, uuids: nat -> UuidText, t: Turn)
    requires t.ok && t.users == []
    ensures MadeFor(t, UsersMade(weather, reachable, service, dbName, roles, uuids, t), roles, uuids)
  {
    hide Run, AllWork, UserScript, Without, OneMore, DrawnNames;
    if roles != [] {
      var init, role := roles[..|roles| - 1], roles[|roles| - 1];
      UsersMadeFor(weather, reachable, service, dbName, init, uuids, t);
      var before := UsersMade(weather, reachable, service, dbName, init, uuids, t);
      if before.ok {
        var after := OneMore(weather, reachable, service, dbName, role, uuids, before);
        OneMoreMade(weather, reachable, service, dbName, role, uuids, before);
        WithoutMore(before.world.state, t.world.state, DrawnNames(uuids, before.drawn), DrawnNames(uuids, after.drawn));
        assert forall i :: 0 <= i < |before.users| ==> after.users[i] == before.users[i];
      }
    }
  }

  lemma OneMoreMade(weather: Weather, reachable: nat -> bool, service: Service, dbName: string, role: string,
                    uuids: nat -> UuidText, t: Turn)
    ensures var after := OneMore(weather, reachable, service, dbName, role, uuids, t);
            && after.drawn == t.drawn + 2
            && DrawnNames(uuids, t.drawn) <= DrawnNames(uuids, after.drawn)
            && OnlyUsersAdded(t.world.state, after.world.state, DrawnNames(uuids, after.drawn))
            && if after.ok then
                 && |after.users| == |t.users| + 1 && after.users[..|t.users|] == t.users
                 && var user := after.users[|t.users|];
                    user.role == RoleOr(role) && user.name in DrawnNames(uuids, after.drawn) &&
                    user.name in after.world.state.roles
               else after.users == t.users
  {
    hide Run, AllWork, UserScript, Without, ShortUuid;
    var name, password := "role_" + ShortUuid(uuids(t.drawn)), ShortUuid(uuids(t.drawn + 1));
    UserScriptEffect(weather, service, t.world, name, password, UserRequest(dbName, "", role));
    var after := OneMore(weather, reachable, service, dbName, role, uuids, t);
    assert name in DrawnNames(uuids, after.drawn);
    if reachable(t.attempts) {
      WithoutMore(after.world.state, t.world.state, {name}, DrawnNames(uuids, after.drawn));
    }
  }

  lemma UsersMadeStep(weather: Weather, reachable: nat -> bool, service: Service, dbName: string, roles: seq<string>,
                      role: string, uuids: nat -> UuidText, t: Turn)
    requires UsersMade(weather, reachable, service, dbName, roles, uuids, t).ok
    ensures UsersMade(weather, reachable, service, dbName, roles + [role], uuids, t) ==
            OneMore(weather, reachable, service, dbName, role, uuids,
                    UsersMade(weather, reachable, service, dbName, roles, uuids, t))
  {
    hide OneMore;
    assert (roles + [role])[..|roles|] == roles;
  }

  lemma UsersMadeNothing(weather: Weather, reachable: nat -> bool, service: Service, dbName: string,
                         supported: seq<string>, existing: seq<Option<string>>, uuids: nat -> UuidText, t: Turn)
    ensures UsersMade(weather, reachable, service, dbName, Missing(supported[..0], existing), uuids, t) == t
  {
  }

  lemma MissingStep(supported: seq<string>, existing: seq<Option<string>>, k: nat)
    requires k < |supported|
    ensures Missing(supported[..k + 1], existing) ==
            if Some(supported[k]) in existing then Missing(supported[..k], existing)
            else Missing(supported[..k], existing) + [supported[k]]
  {
    assert supported[..k + 1][..k] == supported[..k];
  }

  lemma AnswersStep(service: Service, keyspace: string, users: seq<User>, user: User)
    ensures Connections(service, keyspace, []) == [] && UserResources([]) == []
    ensures Connections(service, keyspace, users + [user]) ==
            Connections(service, keyspace, users) + [ConnectionFor(service, keyspace, user)]
    ensures UserResources(users + [user]) == UserResources(users) + [DbResource(UserKind, user.name, Unset)]
  {
    hide ConnectionFor;
  }

  /** One generated user for a role of a database. t is where the batch stood before it. */
  method CreateForRole(cluster: Cluster, sessions: Sessions, service: Service, dbName: string, role: string,
                       uuids: nat -> UuidText, drawn: nat, ghost t: Turn)
    returns (created: Option<CreatedUser>, drawnAfter: nat)
    requires cluster as object != sessions
    requires t.world == cluster.Now() && t.attempts == sessions.attempts && t.drawn == drawn
    modifies cluster, sessions
    ensures sessions.opens - sessions.closes == old(sessions.opens) - old(sessions.closes)
    ensures var next := OneMore(cluster.weather, sessions.reachable, service, dbName, role, uuids, t);
            && next.world == cluster.Now() && next.attempts == sessions.attempts && next.drawn == drawnAfter
            && next.ok == created.Some?
            && (created.Some? ==>
                  && |next.users| == |t.users| + 1 && next.users == t.users + [next.users[|t.users|]]
                  && created.value.connection == ConnectionFor(service, dbName, next.users[|t.users|])
                  && created.value.resources == [DbResource(UserKind, next.users[|t.users|].name, Unset)])
  {
    hide Run, AllWork, UserScript, ShortUuid, MatchesNamePattern, ConnectionFor;
    GeneratedNameIsPlain("role_", uuids(drawn));
    var outcome;
    outcome, drawnAfter :=
      CreateUser(cluster, sessions, service, "", UserRequest(dbName, "", role), uuids, drawn);
    created := if outcome.UserCreated? then Some(outcome.user) else None;
  }

  /** The users one database lacks: stops at the first panic, with the users made until then. */
  method CreateMissing(cluster: Cluster, sessions: Sessions, service: Service, request: AdditionalRole,
                       uuids: nat -> UuidText, drawn: nat)
    returns (panicked: bool, connections: seq<ConnectionProperties>, resources: seq<DbResource>, drawnAfter: nat)
    requires cluster as object != sessions
    modifies cluster, sessions
    ensures sessions.opens - sessions.closes == old(sessions.opens) - old(sessions.closes)
    ensures var start := Turn(old(cluster.Now()), old(sessions.attempts), drawn, true, []);
            var t := UsersMade(cluster.weather, sessions.reachable, service, request.dbName,
                               Missing(GetSupportedRoles(service), request.connectionRoles), uuids, start);
            && t.world == cluster.Now() && t.attempts == sessions.attempts && t.drawn == drawnAfter
            && t.ok == !panicked
            && connections == Connections(service, request.dbName, t.users) && resources == UserResources(t.users)
  {
    hide OneMore, ConnectionFor, Connections, UserResources, UsersMade, Missing, Run, AllWork;
    connections, resources, drawnAfter := [], [], drawn;
    var roles, existing := GetSupportedRoles(service), request.connectionRoles;
    AnswersStep(service, request.dbName, [], User("", "", ""));
    ghost var t := Turn(cluster.Now(), sessions.attempts, drawn, true, []);
    ghost var start := t;
    UsersMadeNothing(cluster.weather, sessions.reachable, service, request.dbName, roles, existing, uuids, start);
    for k := 0 to |roles|
      invariant sessions.opens - sessions.closes == old(sessions.opens) - old(sessions.closes)
      invariant t == UsersMade(cluster.weather, sessions.reachable, service, request.dbName,
                               Missing(roles[..k], existing), uuids, start)
      invariant t.ok && t.world == cluster.Now() && t.attempts == sessions.attempts && t.drawn == drawnAfter
      invariant connections == Connections(service, request.dbName, t.users) && resources == UserResources(t.users)
    {
      MissingStep(roles, existing, k);
      if Some(roles[k]) !in existing {
        var created;
        created, drawnAfter :=
          CreateForRole(cluster, sessions, service, request.dbName, roles[k], uuids, drawnAfter, t);
        ghost var missing, earlier := Missing(roles[..k], existing), t.users;
        UsersMadeStep(cluster.weather, sessions.reachable, service, request.dbName, missing, roles[k], uuids, start);
        t := OneMore(cluster.weather, sessions.reachable, service, request.dbName, roles[k], uuids, t);
        if created.None? {
          OneMoreMade(cluster.weather, sessions.reachable, service, request.dbName, roles[k], uuids,
                      UsersMade(cluster.weather, sessions.reachable, service, request.dbName, missing, uuids, start));
          assert roles == roles[..k + 1] + roles[k + 1..];
          MissingAppend(roles[..k + 1], roles[k + 1..], existing);
          UsersMadeCut(cluster.weather, sessions.reachable, service, request.dbName, missing + [roles[k]],
                       Missing(roles[k + 1..], existing), uuids, start);
          return true, connections, resources, drawnAfter;
        }
        AnswersStep(service, request.dbName, earlier, t.users[|earlier|]);
        connections := connections + [created.value.connection];
        resources := resources + created.value.resources;
      }
    }
    assert roles[..|roles|] == roles;
    panicked := false;
  }

  // ---------- The whole batch ----------

  datatype Batch = Batch(turn: Turn, success: seq<Success>, failure: Option<string>)

  function OneRequest(weather: Weather, reachable: nat -> bool, service: Service, request: AdditionalRole,
                      uuids: nat -> UuidText, b: Batch): Batch {
    if None in request.connectionRoles then b.(failure := Some(request.id))
    else
      var t := UsersMade(weather, reachable, service, request.dbName,
                         Missing(GetSupportedRoles(service), request.connectionRoles), uuids, b.turn.(users := []));
      if !t.ok then Batch(t, b.success, Some(request.id))
      else Batch(t, b.success + [Success(request.id, request.dbName, Connections(service, request.dbName, t.users),
                                         UserResources(t.users))], None)
  }

  /** The requests in order, up to the first that fails. */
  function Served(weather: Weather, reachable: nat -> bool, service: Service, requests: seq<AdditionalRole>,
                  uuids: nat -> UuidText, start: Turn): Batch {
    if requests == [] then Batch(start, [], None)
    else
      var before := Served(weather, reachable, service, requests[..|requests| - 1], uuids, start);
      if before.failure.Some? then before
      else OneRequest(weather, reachable, service, requests[|requests| - 1], uuids, before)
  }

  lemma {:induction false} ServedCut(weather: Weather, reachable: nat -> bool, service: Service,
                                     requests: seq<AdditionalRole>, k: nat, uuids: nat -> UuidText, start: Turn)
    requires k <= |requests| && Served(weather, reachable, service, requests[..k], uuids, start).failure.Some?
    ensures Served(weather, reachable, service, requests, uuids, start) ==
            Served(weather, reachable, service, requests[..k], uuids, start)
  {
    hide OneRequest;
    if k == |requests| {
      assert requests[..k] == requests;
    } else {
      assert requests[..|requests| - 1][..k] == requests[..k];
      ServedCut(weather, reachable, service, requests[..|requests| - 1], k, uuids, start);
    }
  }

  /** All requests in order. The first panic ends the batch, and what was finished before it is reported. */
  method CreateRoles(cluster: Cluster, sessions: Sessions, service: Service, requests: seq<AdditionalRole>,
                     uuids: nat -> UuidText)
    returns (success: seq<Success>, failure: Option<string>, drawn: nat)
    requires cluster as object != sessions
    modifies cluster, sessions
    ensures sessions.opens - sessions.closes == old(sessions.opens) - old(sessions.closes)
    ensures var b := Served(cluster.weather, sessions.reachable, service, requests, uuids,
                            Turn(old(cluster.Now()), old(sessions.attempts), 0, true, []));
            && success == b.success && failure == b.failure && drawn == b.turn.drawn
            && cluster.Now() == b.turn.world && sessions.attempts == b.turn.attempts
  {
    hide UsersMade, ShortUuid, Connections, UserResources;
    success, failure, drawn := [], None, 0;
    ghost var start := Turn(cluster.Now(), sessions.attempts, 0, true, []);
    ghost var b := Batch(start, [], None);
    for k := 0 to |requests|
      invariant sessions.opens - sessions.closes == old(sessions.opens) - old(sessions.closes)
      invariant b == Served(cluster.weather, sessions.reachable, service, requests[..k], uuids, start)
      invariant b.failure.None? && b.success == success && b.turn.ok && b.turn.drawn == drawn
      invariant b.turn.world == cluster.Now() && b.turn.attempts == sessions.attempts
    {
      var request := requests[k];
      assert requests[..k + 1][..k] == requests[..k];
      b := OneRequest(cluster.weather, sessions.reachable, service, request, uuids, b);
      if None in request.connectionRoles {
        ServedCut(cluster.weather, sessions.reachable, service, requests, k + 1, uuids, start);
        return success, Some(request.id), drawn;
      }
      var panicked, connections, resources;
      panicked, connections, resources, drawn :=
        CreateMissing(cluster, sessions, service, request, uuids, drawn);
      if panicked {
        ServedCut(cluster.weather, sessions.reachable, service, requests, k + 1, uuids, start);
        return success, Some(request.id), drawn;
      }
      success := success + [Success(request.id, request.dbName, connections, resources)];
    }
    assert requests[..|requests|] == requests;
    failure := None;
  }

  /** The shape of a batch's result. The successes are the first requests, in order, each with exactly the users
      its database lacked, and those users exist; a failure is the request after them, and without one all
      requests succeeded. Nothing but generated users has changed, whatever failed. */
  lemma {:induction false} BatchShape(weather: Weather, reachable: nat -> bool, service: Service,
                                      requests: seq<AdditionalRole>, uuids: nat -> UuidText, start: Turn)
    requires start.ok
    ensures var b := Served(weather, reachable, service, requests, uuids, start);
            var names := DrawnNames(uuids, b.turn.drawn);
            && start.drawn <= b.turn.drawn
            && (b.failure.None? ==> b.turn.ok && |b.success| == |requests|)
            && (b.failure.Some? ==> |b.success| < |requests| && b.failure.value == requests[|b.success|].id)
            && (forall i :: 0 <= i < |b.success| ==>
                  Serves(service, requests[i], b.success[i], names) && AllThere(b.success[i], b.turn.world.state) &&
                  None !in requests[i].connectionRoles)
            && OnlyUsersAdded(start.world.state, b.turn.world.state, names)
  {
    hide UsersMade, Without, Serves, AllThere, OneRequest;
    if requests != [] {
      var init, request := requests[..|requests| - 1], requests[|requests| - 1];
      BatchShape(weather, reachable, service, init, uuids, start);
      var before := Served(weather, reachable, service, init, uuids, start);
      if before.failure.None? {
        OneRequestShape(weather, reachable, service, request, uuids, before);
        var after := OneRequest(weather, reachable, service, request, uuids, before);
        var names, more := DrawnNames(uuids, before.turn.drawn), DrawnNames(uuids, after.turn.drawn);
        WithoutMore(before.turn.world.state, start.world.state, names, more);
        forall i | 0 <= i < |before.success|
          ensures after.success[i] == before.success[i]
          ensures Serves(service, requests[i], after.success[i], more)
          ensures AllThere(after.success[i], after.turn.world.state)
        {
          assert after.success[i] == after.success[..|before.success|][i];
          ServesMore(service, names, more, requests[i], before.success[i]);
          StillThere(before.success[i], before.turn.world.state, after.turn.world.state);
        }
      }
    }
  }

  /** The reported users exist as roles. */
  ghost predicate AllThere(success: Success, s: State) {
    forall j :: 0 <= j < |success.connections| ==> success.connections[j].username in s.roles
  }

  lemma StillThere(success: Success, before: State, after: State)
    requires AllThere(success, before) && before.roles.Keys <= after.roles.Keys
    ensures AllThere(success, after)
  {
  }

  lemma OneRequestShape(weather: Weather, reachable: nat -> bool, service: Service, request: AdditionalRole,
                        uuids: nat -> UuidText, b: Batch)
    requires b.turn.ok && b.failure.None?
    ensures var after := OneRequest(weather, reachable, service, request, uuids, b);
            var names := DrawnNames(uuids, after.turn.drawn);
            && b.turn.drawn <= after.turn.drawn
            && DrawnNames(uuids, b.turn.drawn) <= names
            && OnlyUsersAdded(b.turn.world.state, after.turn.world.state, names)
            && (after.failure.Some? ==> after.failure.value == request.id && after.success == b.success)
            && (after.failure.None? ==>
                  && after.turn.ok && |after.success| == |b.success| + 1
                  && after.success[..|b.success|] == b.success
                  && Serves(service, request, after.success[|b.success|], names)
                  && AllThere(after.success[|b.success|], after.turn.world.state)
                  && None !in request.connectionRoles)
  {
    hide UsersMade, Without, ShortUuid, KeyspaceUrl;
    if None !in request.connectionRoles {
      UsersMadeFor(weather, reachable, service, request.dbName,
                   Missing(GetSupportedRoles(service), request.connectionRoles), uuids, b.turn.(users := []));
    }
  }

  lemma ServesMore(service: Service, names: set<string>, more: set<string>,
                   request: AdditionalRole, success: Success)
    requires Serves(service, request, success, names) && names <= more
    ensures Serves(service, request, success, more)
  {
  }
}
