/** What a database that was created is: its keyspace and metadata, its users' credentials and permissions. */
module Provisioned {
  import opened Text
  import opened Cassandra
  import opened DbAdmin
  import opened DbAdminLaws

  // ---------- What is promised ----------

  /** The roles whose users a service makes for a database, None standing for the one user of version v1. */
  function ServiceRoles(service: Service): seq<Option<string>> {
    if service.apiVersion == "v1" then [None]
    else if !service.multiUsers then [Some("admin")]
    else seq(|service.supportedRoles|, i requires 0 <= i < |service.supportedRoles| => Some(service.supportedRoles[i]))
  }

  /** What the user of a service role may do on its database. */
  predicate Allowed(service: Service, role: Option<string>, permission: string) {
    match role
    case None => permission == "ALL"
    case Some(r) => r in service.permissions && permission in service.permissions[r]
  }

  /** The keyspace of a new database, with the metadata and the trimmed replication under their own ids. */
  function NewKeyspace(replication: string, metadata: string): Keyspace {
    Keyspace(replication, map["metadata" := map["metadata" := metadata, "replication" := Trim(replication)]])
  }

  /** No connection before the k-th has the same user. */
  predicate FirstOfName(connections: seq<ConnectionProperties>, k: nat)
    requires k < |connections|
  {
    forall j :: 0 <= j < k ==> connections[j].username != connections[k].username
  }

  /** Roles that were there are as they were; a new one logs in with the password of the first connection that
      reports it, and is no superuser. */
  ghost predicate RightRoles(before: State, after: State, connections: seq<ConnectionProperties>) {
    forall k :: 0 <= k < |connections| && FirstOfName(connections, k) ==>
      var c := connections[k];
      && c.username in after.roles
      && after.roles[c.username] ==
         if c.username in before.roles then before.roles[c.username] else Role(Password(c.password), false, true)
  }

  /** On the new keyspace there are exactly the permissions of each user's service role. */
  ghost predicate RightGrants(service: Service, after: State, keyspace: string,
                              connections: seq<ConnectionProperties>) {
    && |connections| == |ServiceRoles(service)|
    && forall g: Grant :: g.keyspace == keyspace ==>
         (g in after.grants <==> GrantedTo(service, connections, g.role, g.permission))
  }

  ghost predicate GrantedTo(service: Service, connections: seq<ConnectionProperties>, name: string,
                            permission: string)
    requires |connections| == |ServiceRoles(service)|
  {
    exists k :: 0 <= k < |connections| && connections[k].username == name &&
                Allowed(service, ServiceRoles(service)[k], permission)
  }

  // ---------- The keyspace ----------

  lemma PreludeEffect(weather: Weather, name: string, replication: string, metadata: string, w: World)
    requires AllWork(weather, Prelude(name, replication, metadata), w)
    ensures var after := Run(weather, Prelude(name, replication, metadata), w).state;
            && Fold(name) !in w.state.keyspaces && Fold(name) != AllKeyspaces
            && after == w.state.(keyspaces := w.state.keyspaces[Fold(name) := NewKeyspace(replication, metadata)])
  {
    hide Trim, Fold;
    var stmts := Prelude(name, replication, metadata);
    var w1 := Next(weather, stmts[0], w);
    var w2 := Next(weather, stmts[1], w1);
    var w3 := Next(weather, stmts[2], w2);
    FourSteps(weather, stmts, w);
    assert w1.state.keyspaces[Fold(name)] == Keyspace(replication, map[]);
    assert w2.state.keyspaces[Fold(name)] == Keyspace(replication, map["metadata" := map[]]);
    assert w3.state.keyspaces[Fold(name)] == Keyspace(replication, map["metadata" := map["metadata" := metadata]]);
    var made := Next(weather, stmts[3], w3).state;
    assert made.keyspaces[Fold(name)] == NewKeyspace(replication, metadata);
    assert made.keyspaces == w.state.keyspaces[Fold(name) := NewKeyspace(replication, metadata)];
    FoldedIsNamed(name);
  }

  lemma FoldedIsNamed(name: string)
    ensures IsIdentifier(name) ==> Fold(name) != AllKeyspaces
  {
  }

  lemma FourSteps(weather: Weather, stmts: seq<Statement>, w: World)
    requires |stmts| == 4 && AllWork(weather, stmts, w)
    ensures var w1 := Next(weather, stmts[0], w);
            var w2 := Next(weather, stmts[1], w1);
            var w3 := Next(weather, stmts[2], w2);
            && Works(weather, stmts[0], w) && Works(weather, stmts[1], w1)
            && Works(weather, stmts[2], w2) && Works(weather, stmts[3], w3)
            && Run(weather, stmts, w) == Next(weather, stmts[3], w3)
  {
    hide Next, Works;
    var w1 := Next(weather, stmts[0], w);
    var w2 := Next(weather, stmts[1], w1);
    var w3 := Next(weather, stmts[2], w2);
    assert stmts[1..][0] == stmts[1] && stmts[1..][1..] == stmts[2..];
    assert stmts[2..][0] == stmts[2] && stmts[2..][1..] == stmts[3..];
    assert stmts[3..][0] == stmts[3] && stmts[3..][1..] == [];
    assert AllWork(weather, stmts[1..], w1) && AllWork(weather, stmts[2..], w2) && AllWork(weather, stmts[3..], w3);
    RunNothing(weather, Next(weather, stmts[3], w3));
    assert Run(weather, stmts[3..], w3) == Next(weather, stmts[3], w3);
    assert Run(weather, stmts[2..], w2) == Run(weather, stmts[3..], w3);
    assert Run(weather, stmts[1..], w1) == Run(weather, stmts[2..], w2);
  }

  // ---------- The users ----------

  lemma {:induction false} GrantsEffect(weather: Weather, permissions: seq<string>, keyspace: string, role: string,
                                        w: World)
    requires AllWork(weather, Grants(permissions, keyspace, role), w)
    ensures var after := Run(weather, Grants(permissions, keyspace, role), w).state;
            && after.keyspaces == w.state.keyspaces && after.roles == w.state.roles
            && after.grants == w.state.grants + set p | p in permissions :: Grant(role, Fold(keyspace), p)
  {
    hide Fold, IsIdentifier;
    var stmts := Grants(permissions, keyspace, role);
    if permissions != [] {
      assert stmts[1..] == Grants(permissions[1..], keyspace, role);
      assert stmts[0] == GrantOn(permissions[0], keyspace, role);
      GrantsEffect(weather, permissions[1..], keyspace, role, Next(weather, stmts[0], w));
      assert permissions == [permissions[0]] + permissions[1..];
    }
  }

  /** A role that is there keeps everything; the grants of a user are those of its service role. */
  lemma AccountEffect(weather: Weather, service: Service, keyspace: string, user: User, role: Option<string>,
                      w: World)
    requires AllWork(weather, Account(service, keyspace, user), w)
    requires role == if service.apiVersion == "v1" then None else Some(user.role)
    ensures var after := Run(weather, Account(service, keyspace, user), w).state;
            && after.keyspaces == w.state.keyspaces
            && after.roles == (if user.name in w.state.roles then w.state.roles
                               else w.state.roles[user.name := Role(Password(user.password), false, true)])
            && forall g: Grant :: g in after.grants <==>
                 g in w.state.grants ||
                 (g.role == user.name && g.keyspace == Fold(keyspace) && Allowed(service, role, g.permission))
  {
    hide Fold, IsIdentifier, Grants;
    var create, permissions := CreateRole(user.name, user.password, false), PermissionsOf(service, user.role);
    var grants := Grants(permissions, keyspace, user.name);
    assert ([create] + grants)[1..] == grants;
    GrantsEffect(weather, permissions, keyspace, user.name, Next(weather, create, w));
    assert forall p :: p in permissions <==> Allowed(service, role, p);
  }

  // ---------- All users ----------

  lemma {:induction false} UsersForRoles(roles: seq<string>, req: CreateRequest, uuids: nat -> UuidText)
    ensures forall i :: 0 <= i < |roles| ==> UsersFor(roles, req, uuids)[i].role == roles[i]
  {
    hide ShortUuid;
    if roles != [] {
      UsersForRoles(roles[..|roles| - 1], req, uuids);
    }
  }

  /** Each connection is that of the user for the service role at its place; the admin's has the credentials of
      the request. */
  lemma ConnectionsServe(service: Service, req: CreateRequest, name: string, uuids: nat -> UuidText)
    ensures var users := Users(service, req, uuids);
            var connections := Connections(service, name, users);
            && |users| == |connections| == |ServiceRoles(service)|
            && forall k :: 0 <= k < |connections| ==>
                 && connections[k].username == users[k].name && connections[k].password == users[k].password
                 && connections[k].keyspace == name && connections[k].contactPoints == [service.host]
                 && connections[k].url == "cassandra://" + service.host + ":" + Decimal(service.port) + "/" + name
                 && connections[k].port == service.port && connections[k].tls == service.tls
                 && connections[k].role == (if ServiceRoles(service)[k] == Some("") then None
                                            else ServiceRoles(service)[k])
                 && (ServiceRoles(service)[k].Some? ==> users[k].role == ServiceRoles(service)[k].value)
                 && (ServiceRoles(service)[k].None? || ServiceRoles(service)[k] == Some("admin") ==>
                       connections[k].username == req.username && connections[k].password == req.password)
  {
    hide ShortUuid, Decimal;
    if service.apiVersion != "v1" {
      UsersForRoles(GetSupportedRoles(service), req, uuids);
      forall k | 0 <= k < |GetSupportedRoles(service)|
        ensures UsersFor(GetSupportedRoles(service), req, uuids)[k] ==
                UserFor(GetSupportedRoles(service)[k], req, uuids, Draws(GetSupportedRoles(service)[..k]))
      {
        UsersAt(GetSupportedRoles(service), req, uuids, k);
      }
    }
  }

  predicate FirstNamed(users: seq<User>, k: nat)
    requires k < |users|
  {
    forall j :: 0 <= j < k ==> users[j].name != users[k].name
  }

  /** The roles after some users were made. */
  ghost predicate RolesSoFar(before: map<string, Role>, after: map<string, Role>, users: seq<User>) {
    && (forall k :: 0 <= k < |users| && FirstNamed(users, k) ==>
          && users[k].name in after
          && after[users[k].name] == (if users[k].name in before then before[users[k].name]
                                      else Role(Password(users[k].password), false, true)))
    && (forall r :: r in before ==> r in after && after[r] == before[r])
    && (forall r :: r in after && r !in before ==> exists k :: 0 <= k < |users| && users[k].name == r)
  }

  /** The grants after some users were made, with their service roles. */
  ghost predicate GrantsSoFar(service: Service, before: set<Grant>, after: set<Grant>, keyspace: string,
                              users: seq<User>, roles: seq<Option<string>>)
    requires |users| == |roles|
  {
    forall g: Grant :: g in after <==>
      g in before || (g.keyspace == keyspace && GrantedAmong(service, users, roles, g.role, g.permission))
  }

  ghost predicate MadeSoFar(service: Service, before: State, after: State, keyspace: string, users: seq<User>,
                            roles: seq<Option<string>>)
    requires |users| == |roles|
  {
    && after.keyspaces == before.keyspaces && RolesSoFar(before.roles, after.roles, users)
    && GrantsSoFar(service, before.grants, after.grants, Fold(keyspace), users, roles)
  }

  ghost predicate GrantedAmong(service: Service, users: seq<User>, roles: seq<Option<string>>, name: string,
                               permission: string)
    requires |users| == |roles|
  {
    exists k :: 0 <= k < |users| && users[k].name == name && Allowed(service, roles[k], permission)
  }

  lemma {:induction false} AccountsEffect(weather: Weather, service: Service, keyspace: string, users: seq<User>,
                                          roles: seq<Option<string>>, w: World)
    requires AllWork(weather, Accounts(service, keyspace, users), w) && |users| == |roles|
    requires forall i :: 0 <= i < |users| ==>
               roles[i] == if service.apiVersion == "v1" then None else Some(users[i].role)
    ensures MadeSoFar(service, w.state, Run(weather, Accounts(service, keyspace, users), w).state, keyspace, users,
                      roles)
  {
    hide Account, Run, AllWork, Allowed, Fold, MadeSoFar;
    if users == [] {
      RunNothing(weather, w);
      NobodyMade(service, w.state, keyspace);
    } else {
      var init, last := users[..|users| - 1], users[|users| - 1];
      var before := Accounts(service, keyspace, init);
      RunAppend(weather, before, Account(service, keyspace, last), w);
      AccountsEffect(weather, service, keyspace, init, roles[..|roles| - 1], w);
      var middle := Run(weather, before, w);
      AccountEffect(weather, service, keyspace, last, roles[|roles| - 1], middle);
      var after := Run(weather, Account(service, keyspace, last), middle).state;
      OneMoreMade(service, w.state, middle.state, after, keyspace, users, roles);
    }
  }

  lemma NobodyMade(service: Service, s: State, keyspace: string)
    ensures MadeSoFar(service, s, s, keyspace, [], [])
  {
  }

  lemma OneMoreMade(service: Service, before: State, middle: State, after: State, keyspace: string, users: seq<User>,
                    roles: seq<Option<string>>)
    requires users != [] && |users| == |roles|
    requires MadeSoFar(service, before, middle, keyspace, users[..|users| - 1], roles[..|roles| - 1])
    requires var last := users[|users| - 1];
             && after.keyspaces == middle.keyspaces
             && after.roles == (if last.name in middle.roles then middle.roles
                                else middle.roles[last.name := Role(Password(last.password), false, true)])
             && forall g: Grant :: g in after.grants <==>
                  g in middle.grants || (g.role == last.name && g.keyspace == Fold(keyspace) &&
                                         Allowed(service, roles[|roles| - 1], g.permission))
    ensures MadeSoFar(service, before, after, keyspace, users, roles)
  {
    hide Allowed, Fold, GrantedAmong, RolesSoFar;
    OneMoreRole(before.roles, middle.roles, after.roles, users);
    forall name: string, permission: string
      ensures var n := |users| - 1;
              GrantedAmong(service, users, roles, name, permission) <==>
              GrantedAmong(service, users[..n], roles[..n], name, permission) ||
              (name == users[n].name && Allowed(service, roles[n], permission))
    {
      GrantedOneMore(service, users, roles, name, permission);
    }
  }

  lemma OneMoreRole(before: map<string, Role>, middle: map<string, Role>, after: map<string, Role>, users: seq<User>)
    requires users != [] && RolesSoFar(before, middle, users[..|users| - 1])
    requires var last := users[|users| - 1];
             after == if last.name in middle then middle
                      else middle[last.name := Role(Password(last.password), false, true)]
    ensures RolesSoFar(before, after, users)
  {
    hide FirstNamed;
    var n := |users| - 1;
    var init, last := users[..n], users[n];
    forall k | 0 <= k < |users| && FirstNamed(users, k)
      ensures users[k].name in after
      ensures after[users[k].name] == if users[k].name in before then before[users[k].name]
                                      else Role(Password(users[k].password), false, true)
    {
      if k < n {
        FirstInPart(users, n, k);
        assert init[k] == users[k];
      } else if last.name in middle && last.name !in before {
        var m :| 0 <= m < |init| && init[m].name == last.name;
        NotFirst(users, m, n);
      }
    }
    forall r | r in after && r !in before
      ensures exists k :: 0 <= k < |users| && users[k].name == r
    {
      if r in middle {
        var k :| 0 <= k < |init| && init[k].name == r;
        assert users[k].name == r;
      } else {
        assert users[n].name == r;
      }
    }
  }

  lemma FirstInPart(users: seq<User>, n: nat, k: nat)
    requires k < n <= |users| && FirstNamed(users, k)
    ensures FirstNamed(users[..n], k)
  {
  }

  lemma NotFirst(users: seq<User>, m: nat, k: nat)
    requires m < k < |users| && users[m].name == users[k].name
    ensures !FirstNamed(users, k)
  {
  }

  lemma GrantedOneMore(service: Service, users: seq<User>, roles: seq<Option<string>>, name: string,
                       permission: string)
    requires users != [] && |users| == |roles|
    ensures var n := |users| - 1;
            GrantedAmong(service, users, roles, name, permission) <==>
            GrantedAmong(service, users[..n], roles[..n], name, permission) ||
            (name == users[n].name && Allowed(service, roles[n], permission))
  {
    hide Allowed;
    var n := |users| - 1;
    if k :| 0 <= k < n && users[..n][k].name == name && Allowed(service, roles[..n][k], permission) {
      assert users[k].name == name && Allowed(service, roles[k], permission);
    }
  }

  // ---------- The database ----------

  /** After a completed creation: the new keyspace holds the metadata and the replication; the permissions on it are
      exactly those of the users' service roles; every new user logs in with the password that its connection
      reports, and no role that was there has changed. */
  lemma CreatedIsUsable(weather: Weather, service: Service, req: CreateRequest, name: string,
                        uuids: nat -> UuidText, w: World)
    requires WellFormed(w.state) && Completes(weather, CreateScript(service, req, name, uuids), w)
    ensures var after := AfterCreate(weather, service, req, name, uuids, w).state;
            var connections := Connections(service, name, Users(service, req, uuids));
            && req.replication.Some? && req.metadata.Some?
            && after.keyspaces ==
               w.state.keyspaces[Fold(name) := NewKeyspace(req.replication.value, req.metadata.value)]
            && RightRoles(w.state, after, connections)
            && RightGrants(service, after, Fold(name), connections)
  {
    hide Users, Run, AllWork, Accounts, Prelude, NewKeyspace, Fold, Connections, Allowed, ServiceRoles, MadeSoFar;
    var users, roles := Users(service, req, uuids), ServiceRoles(service);
    var prelude := Prelude(name, req.replication.value, req.metadata.value);
    var stmts := CreateScript(service, req, name, uuids).statements;
    assert stmts == prelude + Accounts(service, name, users) && AllWork(weather, stmts, w);
    RunAppend(weather, prelude, Accounts(service, name, users), w);
    PreludeEffect(weather, name, req.replication.value, req.metadata.value, w);
    ConnectionsServe(service, req, name, uuids);
    RolesFit(service);
    assert AfterCreate(weather, service, req, name, uuids, w) ==
           Run(weather, Accounts(service, name, users), Run(weather, prelude, w));
    var ready := Run(weather, prelude, w);
    AccountsEffect(weather, service, name, users, roles, ready);
    var after := Run(weather, Accounts(service, name, users), ready).state;
    MadeIsRight(service, w.state, ready.state, after, name, users, Connections(service, name, users));
    assert after.keyspaces == ready.state.keyspaces by {
      KeyspacesStay(service, ready.state, after, name, users, roles);
    }
  }

  lemma KeyspacesStay(service: Service, before: State, after: State, keyspace: string, users: seq<User>,
                      roles: seq<Option<string>>)
    requires |users| == |roles| && MadeSoFar(service, before, after, keyspace, users, roles)
    ensures after.keyspaces == before.keyspaces
  {
  }

  lemma RolesFit(service: Service)
    ensures forall k :: 0 <= k < |ServiceRoles(service)| ==>
              (ServiceRoles(service)[k].None? <==> service.apiVersion == "v1")
  {
  }

  lemma MadeIsRight(service: Service, before: State, ready: State, after: State, keyspace: string, users: seq<User>,
                    connections: seq<ConnectionProperties>)
    requires WellFormed(before) && Fold(keyspace) !in before.keyspaces && Fold(keyspace) != AllKeyspaces
    requires ready.roles == before.roles && ready.grants == before.grants
    requires |users| == |connections| == |ServiceRoles(service)|
    requires forall k :: 0 <= k < |connections| ==>
               connections[k].username == users[k].name && connections[k].password == users[k].password
    requires MadeSoFar(service, ready, after, keyspace, users, ServiceRoles(service))
    ensures RightRoles(before, after, connections) && RightGrants(service, after, Fold(keyspace), connections)
  {
    hide Fold, Allowed, ServiceRoles;
    forall k | 0 <= k < |connections| && FirstOfName(connections, k)
      ensures FirstNamed(users, k)
    {
    }
    forall name: string, permission: string
      ensures GrantedTo(service, connections, name, permission) <==>
              GrantedAmong(service, users, ServiceRoles(service), name, permission)
    {
    }
  }

  /** A user of a new database can log in with the reported password exactly when its role was not there before, or
      had that password already; provided no two of the users share a name. */
  lemma ReportedPasswordLogsIn(weather: Weather, service: Service, req: CreateRequest, name: string,
                               uuids: nat -> UuidText, w: World, k: nat)
    requires WellFormed(w.state) && Completes(weather, CreateScript(service, req, name, uuids), w)
    requires var connections := Connections(service, name, Users(service, req, uuids));
             k < |connections| && FirstOfName(connections, k)
    ensures var after := AfterCreate(weather, service, req, name, uuids, w).state;
            var c := Connections(service, name, Users(service, req, uuids))[k];
            CanLogIn(after.roles, c.username, c.password) <==>
            c.username !in w.state.roles || CanLogIn(w.state.roles, c.username, c.password)
  {
    hide CreateScript, Users, Connections, Completes, AfterCreate;
    CreatedIsUsable(weather, service, req, name, uuids, w);
  }

  // ---------- Names ----------

  /** A database is given a name that was checked, the requested one after the prefix of the request or the default
      one, unless its classifier was complete; then it is the prepared name without its dashes, whatever the users
      are called. */
  lemma NamesAreChecked(req: CreateRequest)
    requires LogicalName(req).Named?
    ensures var name := LogicalName(req).name;
            if req.namePrefix.None? && req.classifier.Prepared?
            then |name| == |req.classifier.name| &&
                 forall i :: 0 <= i < |name| ==>
                   name[i] == if req.classifier.name[i] == '-' then '_' else req.classifier.name[i]
            else
              && MatchesNamePattern(name) && MatchesNamePattern(req.username)
              && name + "" == (match req.namePrefix
                               case Some(prefix) => prefix
                               case None => if req.classifier.NoClassifier? then "dbaas_" else "") + req.dbName
  {
  }

  // ---------- Generated credentials ----------

  lemma {:induction false} DrawsGrow(roles: seq<string>, k: nat, m: nat)
    requires k < m <= |roles| && roles[k] != "admin"
    ensures Draws(roles[..k]) + 2 <= Draws(roles[..m])
  {
    assert roles[..m][..m - 1] == roles[..m - 1] && roles[..m][m - 1] == roles[m - 1];
    if k < m - 1 {
      DrawsGrow(roles, k, m - 1);
    }
  }

  /** The generated users of a database: the UUID of each name and of each password is drawn for it alone, so while
      their beginnings differ, no two users share a name or a password, and no name gives a password away. */
  lemma GeneratedApart(roles: seq<string>, req: CreateRequest, uuids: nat -> UuidText, k: nat, m: nat)
    requires k < m < |roles| && roles[k] != "admin" && roles[m] != "admin"
    requires forall i, j :: i != j ==> ShortUuid(uuids(i)) != ShortUuid(uuids(j))
    ensures var a, b := UsersFor(roles, req, uuids)[k], UsersFor(roles, req, uuids)[m];
            && a.name != b.name && a.password != b.password
            && a.name != "dbaas_" + b.password && b.name != "dbaas_" + a.password
            && a.name != "dbaas_" + a.password && b.name != "dbaas_" + b.password
  {
    hide ShortUuid;
    UsersAt(roles, req, uuids, k);
    UsersAt(roles, req, uuids, m);
    DrawsGrow(roles, k, m);
    var d, e := Draws(roles[..k]), Draws(roles[..m]);
    SamePrefix(ShortUuid(uuids(d)), ShortUuid(uuids(e)));
    SamePrefix(ShortUuid(uuids(d)), ShortUuid(uuids(e + 1)));
    SamePrefix(ShortUuid(uuids(e)), ShortUuid(uuids(d + 1)));
    SamePrefix(ShortUuid(uuids(d)), ShortUuid(uuids(d + 1)));
    SamePrefix(ShortUuid(uuids(e)), ShortUuid(uuids(e + 1)));
  }

  lemma SamePrefix(a: string, b: string)
    ensures "dbaas_" + a == "dbaas_" + b ==> a == b
  {
    assert ("dbaas_" + a)[6..] == a && ("dbaas_" + b)[6..] == b;
  }
}
