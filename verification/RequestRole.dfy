/** Over all the ways a creation can fail: when the role of the request is sure to be gone after the rollback,
    and when the whole request is all or nothing. */
module RequestRole {
  import opened Text
  import opened Cassandra
  import opened DbAdmin
  import opened DbAdminLaws

  // ---------- A creation in calm weather ----------

  /** CQL accepts a role of this name with this password. */
  predicate Creatable(user: User) {
    user.name != "" && FitsQuotes(user.name) && FitsQuotes(user.password)
  }

  lemma {:induction false} GrantsWork(weather: Weather, permissions: seq<string>, keyspace: string, role: string,
                                      w: World)
    requires IsIdentifier(keyspace) && Fold(keyspace) in w.state.keyspaces
    requires role in w.state.roles && FitsQuotes(role)
    requires CalmBetween(weather, w.clock, w.clock + |permissions|)
    ensures var stmts := Grants(permissions, keyspace, role);
            var after := Run(weather, stmts, w);
            && AllWork(weather, stmts, w) && after.clock == w.clock + |permissions|
            && after.state.roles == w.state.roles && after.state.keyspaces == w.state.keyspaces
  {
    hide Fold, IsIdentifier;
    var stmts := Grants(permissions, keyspace, role);
    if permissions != [] {
      assert stmts[1..] == Grants(permissions[1..], keyspace, role);
      assert stmts[0] == GrantOn(permissions[0], keyspace, role);
      GrantsWork(weather, permissions[1..], keyspace, role, Next(weather, stmts[0], w));
    }
  }

  lemma AccountWorks(weather: Weather, service: Service, keyspace: string, user: User, w: World)
    requires IsIdentifier(keyspace) && Fold(keyspace) in w.state.keyspaces && Creatable(user)
    requires CalmBetween(weather, w.clock, w.clock + |Account(service, keyspace, user)|)
    ensures var stmts := Account(service, keyspace, user);
            var after := Run(weather, stmts, w);
            && AllWork(weather, stmts, w) && after.clock == w.clock + |stmts|
            && after.state.keyspaces == w.state.keyspaces
  {
    hide Fold, IsIdentifier, Grants;
    var create, permissions := CreateRole(user.name, user.password, false), PermissionsOf(service, user.role);
    var grants := Grants(permissions, keyspace, user.name);
    assert ([create] + grants)[1..] == grants;
    GrantsLength(permissions, keyspace, user.name);
    GrantsWork(weather, permissions, keyspace, user.name, Next(weather, create, w));
  }

  lemma GrantsLength(permissions: seq<string>, keyspace: string, role: string)
    ensures |Grants(permissions, keyspace, role)| == |permissions|
  {
  }

  lemma {:induction false} AccountsWork(weather: Weather, service: Service, keyspace: string, users: seq<User>,
                                        w: World)
    requires IsIdentifier(keyspace) && Fold(keyspace) in w.state.keyspaces
    requires forall i :: 0 <= i < |users| ==> Creatable(users[i])
    requires CalmBetween(weather, w.clock, w.clock + |Accounts(service, keyspace, users)|)
    ensures var stmts := Accounts(service, keyspace, users);
            var after := Run(weather, stmts, w);
            && AllWork(weather, stmts, w) && after.clock == w.clock + |stmts|
            && after.state.keyspaces == w.state.keyspaces
  {
    hide Fold, IsIdentifier, Account, Run, AllWork;
    if users == [] {
      RunNothing(weather, w);
    } else {
      var init, last := users[..|users| - 1], users[|users| - 1];
      AccountsWork(weather, service, keyspace, init, w);
      var before, account := Accounts(service, keyspace, init), Account(service, keyspace, last);
      AccountWorks(weather, service, keyspace, last, Run(weather, before, w));
      RunAppend(weather, before, account, w);
    }
  }

  lemma {:induction false} AccountsPrefix(service: Service, keyspace: string, users: seq<User>, k: nat)
    requires k <= |users|
    ensures Accounts(service, keyspace, users[..k]) <= Accounts(service, keyspace, users)
  {
    hide Account;
    if k < |users| {
      assert users[..|users| - 1][..k] == users[..k];
      AccountsPrefix(service, keyspace, users[..|users| - 1], k);
    } else {
      assert users[..k] == users;
    }
  }

  // ---------- Whether the role of the request can be made at all ----------

  /** The role of this name is made for one of the users, and CQL accepts all users up to that one. */
  predicate Reaches(users: seq<User>, name: string) {
    exists u :: 0 <= u < |users| && users[u].name == name && AllCreatable(users[..u + 1])
  }

  predicate AllCreatable(users: seq<User>) {
    forall i :: 0 <= i < |users| ==> Creatable(users[i])
  }

  /** Some run of this request gets as far as creating the request's role. */
  predicate CanMakeRole(service: Service, req: CreateRequest, name: string, uuids: nat -> UuidText, s: State) {
    && Reaches(Users(service, req, uuids), req.username)
    && req.replication.Some? && req.metadata.Some?
    && IsIdentifier(name) && Fold(name) !in s.keyspaces
  }

  /** Nothing follows a user that CQL refuses. */
  lemma {:induction false} UnreachedNeverMade(weather: Weather, service: Service, keyspace: string, users: seq<User>,
                                              name: string, w: World)
    requires name !in w.state.roles && !Reaches(users, name)
    ensures name !in Run(weather, Accounts(service, keyspace, users), w).state.roles
    ensures AllWork(weather, Accounts(service, keyspace, users), w) ==> AllCreatable(users)
  {
    hide Run, AllWork, Account, Creatable;
    if users == [] {
      RunNothing(weather, w);
    } else {
      var init, last := users[..|users| - 1], users[|users| - 1];
      ReachesMore(init, last, name);
      assert users[..|init| + 1] == users && users == init + [last];
      UnreachedNeverMade(weather, service, keyspace, init, name, w);
      var before := Accounts(service, keyspace, init);
      RunAppend(weather, before, Account(service, keyspace, last), w);
      OneAccount(weather, service, keyspace, last, Run(weather, before, w));
    }
  }

  lemma ReachesMore(users: seq<User>, last: User, name: string)
    ensures Reaches(users, name) ==> Reaches(users + [last], name)
  {
    hide AllCreatable;
    if u :| 0 <= u < |users| && users[u].name == name && AllCreatable(users[..u + 1]) {
      assert (users + [last])[u] == users[u] && (users + [last])[..u + 1] == users[..u + 1];
    }
  }

  lemma OneAccount(weather: Weather, service: Service, keyspace: string, user: User, w: World)
    ensures Run(weather, Account(service, keyspace, user), w).state.roles.Keys <= w.state.roles.Keys + {user.name}
    ensures !Creatable(user) ==> Run(weather, Account(service, keyspace, user), w).state == w.state
    ensures AllWork(weather, Account(service, keyspace, user), w) ==> Creatable(user)
  {
    hide Fold;
    AccountAdds(service, keyspace, user);
    RunGrows(weather, Account(service, keyspace, user), w, Fold(keyspace));
  }

  lemma NeverMade(weather: Weather, service: Service, req: CreateRequest, name: string, uuids: nat -> UuidText,
                  w: World)
    requires req.username !in w.state.roles && !CanMakeRole(service, req, name, uuids, w.state)
    ensures req.username !in Run(weather, CreateScript(service, req, name, uuids).statements, w).state.roles
  {
    hide Users, Accounts, Trim, IsIdentifier, Fold, Run, NamesOf, Reaches, Prelude;
    var script, users := CreateScript(service, req, name, uuids), Users(service, req, uuids);
    ScriptAdds(service, req, name, uuids);
    RunGrows(weather, script.statements, w, Fold(name));
    if req.replication.None? || req.metadata.None? {
      assert RolesMade(script.statements) == {};
    } else if !Reaches(users, req.username) {
      var prelude := Prelude(name, req.replication.value, req.metadata.value);
      PreludeAdds(name, req.replication.value, req.metadata.value);
      RunGrows(weather, prelude, w, Fold(name));
      RunAppend(weather, prelude, Accounts(service, name, users), w);
      UnreachedNeverMade(weather, service, name, users, req.username, Run(weather, prelude, w));
    } else if !IsIdentifier(name) {
      OnlyIdentifiersAreCreated(weather, service, req, name, uuids, w);
    } else {
      TakenNameFails(weather, service, req, name, uuids, w);
    }
  }

  /** The answer to the request's CREATE ROLE is lost: the role is there, and the creation has failed. */
  lemma LostAnswer(service: Service, req: CreateRequest, name: string, uuids: nat -> UuidText, w: World)
    returns (weather: Weather)
    requires CanMakeRole(service, req, name, uuids, w.state)
    ensures var script := CreateScript(service, req, name, uuids);
            var reached := Run(weather, script.statements, w);
            Fails(weather, script, w) && RollbackAnswered(weather, reached) && req.username in reached.state.roles
  {
    hide Trim, IsIdentifier, Fold, Run, AllWork, Users, Prelude, Accounts;
    var users := Users(service, req, uuids);
    var u :| 0 <= u < |users| && users[u].name == req.username && AllCreatable(users[..u + 1]);
    assert users[..u + 1][u] == users[u];
    assert forall i :: 0 <= i < u ==> users[..u + 1][i] == users[..u][i];
    var prelude := Prelude(name, req.replication.value, req.metadata.value);
    var before := Accounts(service, name, users[..u]);
    var n := w.clock + |prelude + before|;
    weather := m => if m == n then Lost else Calm;
    PreludeLength(name, req.replication.value, req.metadata.value);
    CalmPrelude(weather, name, req.replication.value, req.metadata.value, w);
    AccountsWork(weather, service, name, users[..u], Run(weather, prelude, w));
    RunAppend(weather, prelude, before, w);
    var stmts := CreateScript(service, req, name, uuids).statements;
    NextIsCreateRole(service, req, name, users, u, prelude);
    assert stmts == prelude + Accounts(service, name, users);
    RunStep(weather, stmts, |prelude + before|, w);
  }

  lemma PreludeLength(name: string, replication: string, metadata: string)
    ensures |Prelude(name, replication, metadata)| == 4
  {
  }

  lemma NextIsCreateRole(service: Service, req: CreateRequest, name: string, users: seq<User>, u: nat,
                         prelude: seq<Statement>)
    requires u < |users|
    ensures var before := Accounts(service, name, users[..u]);
            var stmts := prelude + Accounts(service, name, users);
            && |prelude + before| < |stmts| && stmts[..|prelude + before|] == prelude + before
            && stmts[|prelude + before|] == CreateRole(users[u].name, users[u].password, false)
  {
    var before, account := Accounts(service, name, users[..u]), Account(service, name, users[u]);
    assert users[..u + 1][..u] == users[..u];
    assert Accounts(service, name, users[..u + 1]) == before + account;
    AccountsPrefix(service, name, users, u + 1);
    var all := Accounts(service, name, users);
    assert all[|before|] == (before + account)[|before|] == account[0];
    assert all[..|before|] == (before + account)[..|before|] == before;
  }

  /** When nothing outside fails, a creation completes exactly when it has a replication and metadata, its name is
      one that CQL accepts and is not taken, and CQL accepts all its users. */
  lemma CalmCreationCompletes(weather: Weather, service: Service, req: CreateRequest, name: string,
                              uuids: nat -> UuidText, w: World)
    requires forall n :: weather(n).Calm?
    ensures Completes(weather, CreateScript(service, req, name, uuids), w) <==>
            && req.replication.Some? && req.metadata.Some?
            && IsIdentifier(name) && Fold(name) !in w.state.keyspaces
            && AllCreatable(Users(service, req, uuids))
  {
    hide Trim, IsIdentifier, Fold, Run, AllWork, Users, Prelude, Accounts, AllCreatable;
    var users, script := Users(service, req, uuids), CreateScript(service, req, name, uuids);
    if script.finishes {
      var prelude := Prelude(name, req.replication.value, req.metadata.value);
      RunAppend(weather, prelude, Accounts(service, name, users), w);
      PreludeLength(name, req.replication.value, req.metadata.value);
      if IsIdentifier(name) && Fold(name) !in w.state.keyspaces {
        CalmPrelude(weather, name, req.replication.value, req.metadata.value, w);
        if AllCreatable(users) {
          AllAreCreatable(users);
          AccountsWork(weather, service, name, users, Run(weather, prelude, w));
        } else if AllWork(weather, script.statements, w) {
          UsersMustBeCreatable(weather, service, name, users, Run(weather, prelude, w));
        }
      } else if AllWork(weather, script.statements, w) {
        ScriptStarts(service, req, name, uuids);
        KeyspaceWasFree(weather, script.statements, w);
        OnlyIdentifiersWork(weather, script.statements, w);
      }
    }
  }

  lemma AllAreCreatable(users: seq<User>)
    requires AllCreatable(users)
    ensures forall i :: 0 <= i < |users| ==> Creatable(users[i])
  {
  }

  lemma OnlyIdentifiersWork(weather: Weather, stmts: seq<Statement>, w: World)
    requires stmts != [] && stmts[0].CreateKeyspace? && AllWork(weather, stmts, w)
    ensures IsIdentifier(stmts[0].keyspace)
  {
  }

  lemma {:induction false} UsersMustBeCreatable(weather: Weather, service: Service, keyspace: string,
                                                users: seq<User>, w: World)
    requires AllWork(weather, Accounts(service, keyspace, users), w)
    ensures AllCreatable(users)
  {
    hide AllWork, Account, Creatable;
    if users != [] {
      var init, last := users[..|users| - 1], users[|users| - 1];
      var before := Accounts(service, keyspace, init);
      RunAppend(weather, before, Account(service, keyspace, last), w);
      UsersMustBeCreatable(weather, service, keyspace, init, w);
      OneAccount(weather, service, keyspace, last, Run(weather, before, w));
      assert users == init + [last];
    }
  }

  /** A creation that fails at once. */
  lemma FailsAtOnce(service: Service, req: CreateRequest, name: string, uuids: nat -> UuidText, w: World)
    returns (weather: Weather)
    ensures var script := CreateScript(service, req, name, uuids);
            var reached := Run(weather, script.statements, w);
            Fails(weather, script, w) && RollbackAnswered(weather, reached) && reached.state == w.state
  {
    hide Trim, Users, Accounts;
    var stmts := CreateScript(service, req, name, uuids).statements;
    weather := m => if m == w.clock && stmts != [] then Rejected else Calm;
  }

  // ---------- Over all failures ----------

  ghost predicate RoleGone(weather: Weather, service: Service, req: CreateRequest, name: string,
                           uuids: nat -> UuidText, w: World) {
    var script := CreateScript(service, req, name, uuids);
    Fails(weather, script, w) && RollbackAnswered(weather, Run(weather, script.statements, w)) ==>
      req.username !in AfterCreate(weather, service, req, name, uuids, w).state.roles
  }

  /** Whatever fails, the request's role is gone after the rollback, if and only if it can be dropped under its
      name, or it was not there and this request cannot come to creating it. */
  lemma RequestRoleAlwaysGone(service: Service, req: CreateRequest, name: string, uuids: nat -> UuidText, w: World)
    ensures (forall weather: Weather :: RoleGone(weather, service, req, name, uuids, w)) <==>
            Droppable(req.username) ||
            (req.username !in w.state.roles && !CanMakeRole(service, req, name, uuids, w.state))
  {
    hide CreateScript, Run, AllWork, AfterCreate, CanMakeRole, Droppable, Fails, RollbackAnswered;
    if Droppable(req.username) || (req.username !in w.state.roles && !CanMakeRole(service, req, name, uuids, w.state)) {
      forall weather: Weather
        ensures RoleGone(weather, service, req, name, uuids, w)
      {
        var script := CreateScript(service, req, name, uuids);
        if Fails(weather, script, w) && RollbackAnswered(weather, Run(weather, script.statements, w)) {
          RequestRoleLeftOver(weather, service, req, name, uuids, w);
          if !Droppable(req.username) {
            NeverMade(weather, service, req, name, uuids, w);
          }
        }
      }
    } else {
      var weather;
      if req.username in w.state.roles {
        weather := FailsAtOnce(service, req, name, uuids, w);
      } else {
        weather := LostAnswer(service, req, name, uuids, w);
      }
      RequestRoleLeftOver(weather, service, req, name, uuids, w);
      assert !RoleGone(weather, service, req, name, uuids, w);
    }
  }

  ghost predicate NothingLeft(weather: Weather, service: Service, req: CreateRequest, name: string,
                              uuids: nat -> UuidText, w: World) {
    var script := CreateScript(service, req, name, uuids);
    Fails(weather, script, w) && RollbackAnswered(weather, Run(weather, script.statements, w)) ==>
      AfterCreate(weather, service, req, name, uuids, w).state == w.state
  }

  /** With one user, whatever fails, a failed creation leaves the cluster as it was, if and only if the request
      names no existing keyspace and no existing role that CQL would drop, and its role is droppable, or was
      there, or cannot be made. */
  lemma SingleUserIsAllOrNothing(service: Service, req: CreateRequest, name: string, uuids: nat -> UuidText, w: World)
    requires WellFormed(w.state)
    requires service.apiVersion == "v1" || GetSupportedRoles(service) == ["admin"]
    ensures (forall weather: Weather :: NothingLeft(weather, service, req, name, uuids, w)) <==>
            && (IsIdentifier(name) ==> Fold(name) !in w.state.keyspaces)
            && (IsIdentifier(req.username) ==> Fold(req.username) !in w.state.roles)
            && (Droppable(req.username) || req.username in w.state.roles ||
                !CanMakeRole(service, req, name, uuids, w.state))
  {
    hide CreateScript, Run, AllWork, AfterCreate, CanMakeRole, Droppable, Fails, RollbackAnswered, IsIdentifier, Fold;
    var taken := !((IsIdentifier(name) ==> Fold(name) !in w.state.keyspaces) &&
                   (IsIdentifier(req.username) ==> Fold(req.username) !in w.state.roles));
    var kept := !(Droppable(req.username) || req.username in w.state.roles ||
                  !CanMakeRole(service, req, name, uuids, w.state));
    if taken {
      var weather := FailsAtOnce(service, req, name, uuids, w);
      RollbackRestores(weather, service, req, name, uuids, w);
      assert !NothingLeft(weather, service, req, name, uuids, w);
    } else if kept {
      var weather := LostAnswer(service, req, name, uuids, w);
      RequestRoleLeftOver(weather, service, req, name, uuids, w);
      assert !NothingLeft(weather, service, req, name, uuids, w);
    } else {
      forall weather: Weather
        ensures NothingLeft(weather, service, req, name, uuids, w)
      {
        var script := CreateScript(service, req, name, uuids);
        if Fails(weather, script, w) && RollbackAnswered(weather, Run(weather, script.statements, w)) {
          SingleUserUndone(weather, service, req, name, uuids, w);
        }
      }
    }
  }

  lemma SingleUserUndone(weather: Weather, service: Service, req: CreateRequest, name: string,
                         uuids: nat -> UuidText, w: World)
    requires WellFormed(w.state)
    requires service.apiVersion == "v1" || GetSupportedRoles(service) == ["admin"]
    requires IsIdentifier(name) ==> Fold(name) !in w.state.keyspaces
    requires IsIdentifier(req.username) ==> Fold(req.username) !in w.state.roles
    requires Droppable(req.username) || req.username in w.state.roles ||
             !CanMakeRole(service, req, name, uuids, w.state)
    requires var script := CreateScript(service, req, name, uuids);
             Fails(weather, script, w) && RollbackAnswered(weather, Run(weather, script.statements, w))
    ensures AfterCreate(weather, service, req, name, uuids, w).state == w.state
  {
    hide CreateScript, Run, AllWork, CanMakeRole, Droppable, Fails, RollbackAnswered, IsIdentifier, Fold;
    RollbackRestores(weather, service, req, name, uuids, w);
    RequestRoleLeftOver(weather, service, req, name, uuids, w);
    var users := Users(service, req, uuids);
    if service.apiVersion != "v1" {
      UsersAt(["admin"], req, uuids, 0);
    }
    assert |users| == 1 && users[0].name == req.username;
    assert NamesOf(users) == {req.username};
    if !Droppable(req.username) && req.username !in w.state.roles {
      NeverMade(weather, service, req, name, uuids, w);
    }
    assert AfterCreate(weather, service, req, name, uuids, w).state.roles == w.state.roles;
  }
}
