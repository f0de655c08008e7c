/** The DBaaS adapter's administration of logical databases: creating one with its
    users, undoing a creation that fails half-way, dropping resources in bulk, and
    adding the users a database still lacks. A failure is a panic in the service;
    here it is a result, and the deferred clean-up is an explicit step. */
module DbAdmin {
  import opened Text
  import opened Cassandra

  // ---------- Requests, configuration and answers ----------

  predicate IsHex(c: char) {
    IsDigit(c) || 'a' <= c <= 'f'
  }

  /** What the UUID library prints: lower-case hexadecimal digits up to the first dash. */
  type UuidText = s: string | |s| >= 8 && forall i :: 0 <= i < 8 ==> IsHex(s[i]) witness "00000000"

  datatype Service = Service(
    apiVersion: string,
    multiUsers: bool,
    supportedRoles: seq<string>,
    permissions: map<string, seq<string>>,
    host: string,
    port: nat,
    tls: bool)

  /** The classifier of a request, with what the name preparation made of it. */
  datatype Classifier = NoClassifier | Incomplete | Prepared(name: string) | Unpreparable

  /** metadata is None when it cannot be marshalled, replication when it is not a string. */
  datatype CreateRequest = CreateRequest(
    namePrefix: Option<string>,
    classifier: Classifier,
    dbName: string,
    username: string,
    password: string,
    replication: Option<string>,
    metadata: Option<string>)

  datatype ConnectionProperties = ConnectionProperties(
    url: string,
    port: nat,
    username: string,
    password: string,
    keyspace: string,
    contactPoints: seq<string>,
    tls: bool,
    role: Option<string>)

  datatype Kind = DatabaseKind | UserKind | OtherKind

  datatype Status = Unset | Deleted | DeleteFailed

  datatype DbResource = DbResource(kind: Kind, name: string, status: Status)

  datatype CreateOutcome =
    | Created(name: string, connectionProperties: seq<ConnectionProperties>, resources: seq<DbResource>)
    | Invalid
    | Panicked

  function GetSupportedRoles(service: Service): seq<string> {
    if service.multiUsers then service.supportedRoles else ["admin"]
  }

  function ShortUuid(uuid: UuidText): string {
    uuid[..7]
  }

  /** The pattern ^[_A-z0-9]*$ of names; its range takes in the six signs between Z and a. */
  predicate MatchesNamePattern(name: string) {
    forall i :: 0 <= i < |name| ==> 'A' <= name[i] <= 'z' || IsDigit(name[i])
  }

  lemma GeneratedNameIsPlain(prefix: string, uuid: UuidText)
    requires prefix == "dbaas_" || prefix == "role_"
    ensures MatchesNamePattern(prefix + ShortUuid(uuid))
    ensures IsIdentifier(prefix + ShortUuid(uuid))
    ensures Fold(prefix + ShortUuid(uuid)) == prefix + ShortUuid(uuid)
  {
  }

  // ---------- Sessions ----------

  /** Counts what the driver was asked to open and close; reachable is the environment's answer. */
  class Sessions {
    var opens: nat
    var closes: nat
    var attempts: nat
    const reachable: nat -> bool

    constructor (reachable: nat -> bool)
      ensures opens == 0 && closes == 0 && attempts == 0 && this.reachable == reachable
    {
      opens, closes, attempts := 0, 0, 0;
      this.reachable := reachable;
    }

    method Open() returns (ok: bool)
      modifies this
      ensures ok == reachable(old(attempts)) && attempts == old(attempts) + 1
      ensures opens == old(opens) + (if ok then 1 else 0) && closes == old(closes)
    {
      ok := reachable(attempts);
      attempts := attempts + 1;
      if ok {
        opens := opens + 1;
      }
    }

    method Close()
      modifies this
      ensures closes == old(closes) + 1 && opens == old(opens) && attempts == old(attempts)
    {
      closes := closes + 1;
    }
  }

  // ---------- What a creation is made of ----------

  datatype Naming = Named(name: string) | Refused | NamingPanic

  function ReplaceDashes(s: string): string {
    seq(|s|, i requires 0 <= i < |s| => if s[i] == '-' then '_' else s[i])
  }

  function LogicalName(req: CreateRequest): Naming {
    if req.namePrefix.Some? then
      if !MatchesNamePattern(req.namePrefix.value) then Refused
      else Validated(req, req.namePrefix.value + req.dbName)
    else
      match req.classifier
      case Prepared(name) => Named(ReplaceDashes(name))
      case Unpreparable => NamingPanic
      case Incomplete => Validated(req, req.dbName)
      case NoClassifier => Validated(req, "dbaas_" + req.dbName)
  }

  function Validated(req: CreateRequest, name: string): Naming {
    if MatchesNamePattern(req.dbName) && MatchesNamePattern(req.username) then Named(name) else Refused
  }

  datatype User = User(name: string, password: string, role: string)

  /** How many UUIDs are drawn for the users of these roles: two for each that is not the admin. */
  function Draws(roles: seq<string>): nat {
    if roles == [] then 0
    else Draws(roles[..|roles| - 1]) + (if roles[|roles| - 1] == "admin" then 0 else 2)
  }

  function UserFor(role: string, req: CreateRequest, uuids: nat -> UuidText, drawn: nat): User {
    if role == "admin" then User(req.username, req.password, role)
    else User("dbaas_" + ShortUuid(uuids(drawn)), ShortUuid(uuids(drawn + 1)), role)
  }

  function UsersFor(roles: seq<string>, req: CreateRequest, uuids: nat -> UuidText): (users: seq<User>)
    ensures |users| == |roles|
  {
    if roles == [] then []
    else
      var before := roles[..|roles| - 1];
      UsersFor(before, req, uuids) + [UserFor(roles[|roles| - 1], req, uuids, Draws(before))]
  }

  function Users(service: Service, req: CreateRequest, uuids: nat -> UuidText): seq<User> {
    if service.apiVersion == "v1" then [User(req.username, req.password, "")]
    else UsersFor(GetSupportedRoles(service), req, uuids)
  }

  function RolePermissions(service: Service, role: string): seq<string> {
    if role in service.permissions then service.permissions[role] else []
  }

  function PermissionsOf(service: Service, role: string): seq<string> {
    if service.apiVersion == "v1" then ["ALL"] else RolePermissions(service, role)
  }

  function Grants(permissions: seq<string>, keyspace: string, role: string): seq<Statement> {
    seq(|permissions|, i requires 0 <= i < |permissions| => GrantOn(permissions[i], keyspace, role))
  }

  function Account(service: Service, keyspace: string, user: User): seq<Statement> {
    [CreateRole(user.name, user.password, false)] +
    Grants(PermissionsOf(service, user.role), keyspace, user.name)
  }

  function Accounts(service: Service, keyspace: string, users: seq<User>): seq<Statement> {
    if users == [] then []
    else Accounts(service, keyspace, users[..|users| - 1]) + Account(service, keyspace, users[|users| - 1])
  }

  /** The statements a creation sends, and whether it gets as far as sending the last of them. */
  datatype Script = Script(statements: seq<Statement>, finishes: bool)

  function Prelude(name: string, replication: string, metadata: string): seq<Statement> {
    [CreateKeyspace(name, replication), CreateTable(name, "metadata"),
     Insert(name, "metadata", "metadata", metadata),
     Insert(name, "metadata", "replication", Trim(replication))]
  }

  function CreateScript(service: Service, req: CreateRequest, name: string, uuids: nat -> UuidText): Script {
    if req.replication.None? then Script([], false)
    else if req.metadata.None? then
      Script([CreateKeyspace(name, req.replication.value), CreateTable(name, "metadata")], false)
    else Script(Prelude(name, req.replication.value, req.metadata.value) +
                Accounts(service, name, Users(service, req, uuids)), true)
  }

  function KeyspaceUrl(service: Service, keyspace: string): string {
    "cassandra://" + service.host + ":" + Decimal(service.port) + "/" + keyspace
  }

  function ConnectionFor(service: Service, keyspace: string, user: User): ConnectionProperties {
    ConnectionProperties(KeyspaceUrl(service, keyspace), service.port, user.name, user.password, keyspace,
                         [service.host], service.tls,
                         if user.role != "" && service.apiVersion != "v1" then Some(user.role) else None)
  }

  function Connections(service: Service, keyspace: string, users: seq<User>): seq<ConnectionProperties> {
    seq(|users|, i requires 0 <= i < |users| => ConnectionFor(service, keyspace, users[i]))
  }

  function UserResources(users: seq<User>): seq<DbResource> {
    seq(|users|, i requires 0 <= i < |users| => DbResource(UserKind, users[i].name, Unset))
  }

  function Resources(keyspace: string, users: seq<User>): seq<DbResource> {
    [DbResource(DatabaseKind, keyspace, Unset)] + UserResources(users)
  }

  // ---------- Creating a database ----------

  method GrantPermissions(cluster: Cluster, keyspace: string, role: string, permissions: seq<string>)
    returns (ok: bool)
    modifies cluster
    ensures cluster.Now() == Run(cluster.weather, Grants(permissions, keyspace, role), old(cluster.Now()))
    ensures ok <==> AllWork(cluster.weather, Grants(permissions, keyspace, role), old(cluster.Now()))
  {
    ghost var all := Grants(permissions, keyspace, role);
    for i := 0 to |permissions|
      invariant AllWork(cluster.weather, all[..i], old(cluster.Now()))
      invariant cluster.Now() == Run(cluster.weather, all[..i], old(cluster.Now()))
    {
      RunStep(cluster.weather, all, i, old(cluster.Now()));
      ok := cluster.Execute(GrantOn(permissions[i], keyspace, role));
      if !ok {
        return;
      }
    }
    assert all[..|permissions|] == all;
    ok := true;
  }

  method CreateAccount(cluster: Cluster, service: Service, keyspace: string, user: User) returns (ok: bool)
    modifies cluster
    ensures cluster.Now() == Run(cluster.weather, Account(service, keyspace, user), old(cluster.Now()))
    ensures ok <==> AllWork(cluster.weather, Account(service, keyspace, user), old(cluster.Now()))
  {
    ghost var grants := Grants(PermissionsOf(service, user.role), keyspace, user.name);
    RunAppend(cluster.weather, [CreateRole(user.name, user.password, false)], grants, cluster.Now());
    ok := cluster.Execute(CreateRole(user.name, user.password, false));
    if ok {
      ok := GrantPermissions(cluster, keyspace, user.name, PermissionsOf(service, user.role));
    }
  }

  /** The users of a database from version v2 on, one supported role after the other. */
  method CreateRoleAccounts(cluster: Cluster, service: Service, req: CreateRequest, name: string,
                            uuids: nat -> UuidText)
    returns (ok: bool, users: seq<User>)
    modifies cluster
    ensures var all := UsersFor(GetSupportedRoles(service), req, uuids);
            && cluster.Now() == Run(cluster.weather, Accounts(service, name, all), old(cluster.Now()))
            && (ok <==> AllWork(cluster.weather, Accounts(service, name, all), old(cluster.Now())))
            && (ok ==> users == all)
  {
    hide Next, Works, Run, AllWork, Account, Accounts;
    ghost var start := cluster.Now();
    var roles := GetSupportedRoles(service);
    ghost var all := UsersFor(roles, req, uuids);
    NoAccounts(service, name, cluster.weather, start);
    var drawn := 0;
    users := [];
    for i := 0 to |roles|
      invariant users == all[..i] && drawn == Draws(roles[..i])
      invariant AllWork(cluster.weather, Accounts(service, name, all[..i]), start)
      invariant cluster.Now() == Run(cluster.weather, Accounts(service, name, all[..i]), start)
    {
      UsersAt(roles, req, uuids, i);
      AccountsStep(service, name, all, i, cluster.weather, start);
      assert roles[..i + 1][..i] == roles[..i];
      var user: User;
      if roles[i] == "admin" {
        user := User(req.username, req.password, roles[i]);
      } else {
        user := User("dbaas_" + ShortUuid(uuids(drawn)), ShortUuid(uuids(drawn + 1)), roles[i]);
        drawn := drawn + 2;
      }
      ok := CreateAccount(cluster, service, name, user);
      if !ok {
        return;
      }
      users := users + [user];
    }
    assert all[..|roles|] == all;
    ok := true;
  }

  method CreateAccounts(cluster: Cluster, service: Service, req: CreateRequest, name: string,
                        uuids: nat -> UuidText)
    returns (ok: bool, users: seq<User>)
    modifies cluster
    ensures var all := Users(service, req, uuids);
            && cluster.Now() == Run(cluster.weather, Accounts(service, name, all), old(cluster.Now()))
            && (ok <==> AllWork(cluster.weather, Accounts(service, name, all), old(cluster.Now())))
            && (ok ==> users == all)
  {
    hide Next, Works, Run, AllWork, Account, Accounts;
    if service.apiVersion == "v1" {
      var user := User(req.username, req.password, "");
      NoAccounts(service, name, cluster.weather, cluster.Now());
      AccountsStep(service, name, [user], 0, cluster.weather, cluster.Now());
      assert [user][..1] == [user];
      users := [user];
      ok := CreateAccount(cluster, service, name, user);
    } else {
      ok, users := CreateRoleAccounts(cluster, service, req, name, uuids);
    }
  }

  lemma NoAccounts(service: Service, keyspace: string, weather: Weather, w: World)
    ensures AllWork(weather, Accounts(service, keyspace, []), w)
    ensures Run(weather, Accounts(service, keyspace, []), w) == w
  {
  }

  lemma {:induction false} UsersAt(roles: seq<string>, req: CreateRequest, uuids: nat -> UuidText, k: nat)
    requires k < |roles|
    ensures UsersFor(roles, req, uuids)[k] == UserFor(roles[k], req, uuids, Draws(roles[..k]))
  {
    var before := roles[..|roles| - 1];
    if k < |before| {
      UsersAt(before, req, uuids, k);
      assert before[..k] == roles[..k];
    }
  }

  /** The accounts of the first i + 1 users are those of the first i and one more; the users after
      an account that fails make no difference. */
  lemma AccountsStep(service: Service, keyspace: string, users: seq<User>, i: nat, weather: Weather, w: World)
    requires i < |users| && AllWork(weather, Accounts(service, keyspace, users[..i]), w)
    ensures var here := Run(weather, Accounts(service, keyspace, users[..i]), w);
            var account := Account(service, keyspace, users[i]);
            && (AllWork(weather, Accounts(service, keyspace, users[..i + 1]), w) <==> AllWork(weather, account, here))
            && Run(weather, Accounts(service, keyspace, users[..i + 1]), w) == Run(weather, account, here)
            && (!AllWork(weather, account, here) ==>
                  && !AllWork(weather, Accounts(service, keyspace, users), w)
                  && Run(weather, Accounts(service, keyspace, users), w) == Run(weather, account, here))
  {
    assert users[..i + 1][..i] == users[..i];
    RunAppend(weather, Accounts(service, keyspace, users[..i]), Account(service, keyspace, users[i]), w);
    if !AllWork(weather, Accounts(service, keyspace, users[..i + 1]), w) {
      AccountsCut(service, keyspace, users, i + 1, weather, w);
    }
  }

  lemma {:induction false} AccountsCut(service: Service, keyspace: string, users: seq<User>, k: nat,
                                       weather: Weather, w: World)
    requires k <= |users|
    requires !AllWork(weather, Accounts(service, keyspace, users[..k]), w)
    ensures !AllWork(weather, Accounts(service, keyspace, users), w)
    ensures Run(weather, Accounts(service, keyspace, users), w) ==
            Run(weather, Accounts(service, keyspace, users[..k]), w)
  {
    if k < |users| {
      var before := users[..|users| - 1];
      assert before[..k] == users[..k];
      AccountsCut(service, keyspace, before, k, weather, w);
      RunAppend(weather, Accounts(service, keyspace, before), Account(service, keyspace, users[|users| - 1]), w);
    } else {
      assert users[..k] == users;
    }
  }

  /** The body that runs inside the session, up to its first panic. */
  method CreateInSession(cluster: Cluster, service: Service, req: CreateRequest, name: string,
                         uuids: nat -> UuidText)
    returns (ok: bool, users: seq<User>)
    modifies cluster
    ensures var script := CreateScript(service, req, name, uuids);
            && cluster.Now() == Run(cluster.weather, script.statements, old(cluster.Now()))
            && (ok <==> script.finishes && AllWork(cluster.weather, script.statements, old(cluster.Now())))
    ensures ok ==> users == Users(service, req, uuids)
  {
    hide Next, Works, Run, AllWork, Accounts, Users, Trim;
    ghost var start := cluster.Now();
    RunNothing(cluster.weather, start);
    users := [];
    if req.replication.None? {
      return false, users;
    }
    ghost var stmts := CreateScript(service, req, name, uuids).statements;
    RunStep(cluster.weather, stmts, 0, start);
    ok := cluster.Execute(CreateKeyspace(name, req.replication.value));
    if !ok {
      return;
    }
    RunStep(cluster.weather, stmts, 1, start);
    ok := cluster.Execute(CreateTable(name, "metadata"));
    if !ok {
      return;
    }
    if req.metadata.None? {
      assert stmts[..2] == stmts;
      return false, users;
    }
    RunStep(cluster.weather, stmts, 2, start);
    ok := cluster.Execute(Insert(name, "metadata", "metadata", req.metadata.value));
    if !ok {
      return;
    }
    RunStep(cluster.weather, stmts, 3, start);
    ok := cluster.Execute(Insert(name, "metadata", "replication", Trim(req.replication.value)));
    if !ok {
      return;
    }
    RunAppend(cluster.weather, stmts[..4], stmts[4..], start);
    assert stmts[..4] + stmts[4..] == stmts;
    ok, users := CreateAccounts(cluster, service, req, name, uuids);
  }

  /** Both drops are sent whether or not the first one works. */
  function Rollback(weather: Weather, name: string, username: string, w: World): World {
    Next(weather, DropRole(username), Next(weather, DropKeyspace(name), w))
  }

  function AfterCreate(weather: Weather, service: Service, req: CreateRequest, name: string,
                       uuids: nat -> UuidText, w: World): World {
    var script := CreateScript(service, req, name, uuids);
    var reached := Run(weather, script.statements, w);
    if script.finishes && AllWork(weather, script.statements, w) then reached
    else Rollback(weather, name, req.username, reached)
  }

  method CreateDatabase(cluster: Cluster, sessions: Sessions, service: Service, req: CreateRequest,
                        uuids: nat -> UuidText)
    returns (outcome: CreateOutcome)
    requires cluster as object != sessions
    modifies cluster, sessions
    ensures sessions.opens - sessions.closes == old(sessions.opens) - old(sessions.closes)
    ensures sessions.opens == old(sessions.opens) +
              (if LogicalName(req).Named? && sessions.reachable(old(sessions.attempts)) then 1 else 0)
    ensures sessions.opens == old(sessions.opens) ==> cluster.Now() == old(cluster.Now())
    ensures sessions.opens > old(sessions.opens) ==>
              cluster.Now() ==
              AfterCreate(cluster.weather, service, req, LogicalName(req).name, uuids, old(cluster.Now()))
    ensures outcome.Invalid? <==> LogicalName(req).Refused?
    ensures outcome.Created? <==>
            && sessions.opens > old(sessions.opens)
            && var script := CreateScript(service, req, LogicalName(req).name, uuids);
               script.finishes && AllWork(cluster.weather, script.statements, old(cluster.Now()))
    ensures outcome.Created? ==>
              var name, users := LogicalName(req).name, Users(service, req, uuids);
              outcome == Created(name, Connections(service, name, users), Resources(name, users))
  {
    var naming := LogicalName(req);
    if naming.Refused? {
      return Invalid;
    }
    if naming.NamingPanic? {
      return Panicked;
    }
    var open := sessions.Open();
    if !open {
      return Panicked;
    }
    var ok, users := CreateInSession(cluster, service, req, naming.name, uuids);
    if ok {
      outcome := Created(naming.name, Connections(service, naming.name, users), Resources(naming.name, users));
    } else {
      var _ := cluster.Execute(DropKeyspace(naming.name));
      var _ := cluster.Execute(DropRole(req.username));
      outcome := Panicked;
    }
    sessions.Close();
  }

  // ---------- Dropping resources in bulk ----------

  function DropStatement(resource: DbResource): Statement {
    match resource.kind
    case DatabaseKind => DropKeyspace(resource.name)
    case UserKind => DropRole(resource.name)
    case OtherKind => Malformed
  }

  /** The world after the first n drops; a failed one does not stop the rest. */
  function AfterDrops(weather: Weather, resources: seq<DbResource>, n: nat, w: World): World
    requires n <= |resources|
  {
    if n == 0 then w else Next(weather, DropStatement(resources[n - 1]), AfterDrops(weather, resources, n - 1, w))
  }

  ghost predicate DropWorked(weather: Weather, resources: seq<DbResource>, i: nat, w: World)
    requires i < |resources|
  {
    Works(weather, DropStatement(resources[i]), AfterDrops(weather, resources, i, w))
  }

  method DropResources(cluster: Cluster, sessions: Sessions, resources: seq<DbResource>)
    returns (panicked: bool, statuses: seq<DbResource>)
    requires cluster as object != sessions
    modifies cluster, sessions
    ensures sessions.opens - sessions.closes == old(sessions.opens) - old(sessions.closes)
    ensures panicked <==> !sessions.reachable(old(sessions.attempts))
    ensures sessions.opens == old(sessions.opens) + (if panicked then 0 else 1)
    ensures panicked ==> cluster.Now() == old(cluster.Now())
    ensures !panicked ==>
              && cluster.Now() == AfterDrops(cluster.weather, resources, |resources|, old(cluster.Now()))
              && |statuses| == |resources|
              && forall i :: 0 <= i < |resources| ==>
                   && statuses[i].kind == resources[i].kind && statuses[i].name == resources[i].name
                   && statuses[i].status ==
                        if DropWorked(cluster.weather, resources, i, old(cluster.Now())) then Deleted else DeleteFailed
  {
    hide Next, Works;
    statuses := [];
    var open := sessions.Open();
    if !open {
      return true, [];
    }
    ghost var start := cluster.Now();
    for k := 0 to |resources|
      invariant |statuses| == k
      invariant sessions.opens == old(sessions.opens) + 1 && sessions.closes == old(sessions.closes)
      invariant cluster.Now() == AfterDrops(cluster.weather, resources, k, start)
      invariant forall i :: 0 <= i < k ==>
        && statuses[i].kind == resources[i].kind && statuses[i].name == resources[i].name
        && statuses[i].status ==
             if DropWorked(cluster.weather, resources, i, start) then Deleted else DeleteFailed
    {
      var ok := cluster.Execute(DropStatement(resources[k]));
      statuses := statuses + [resources[k].(status := if ok then Deleted else DeleteFailed)];
    }
    sessions.Close();
    panicked := false;
  }
}
