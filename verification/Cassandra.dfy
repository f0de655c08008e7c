/** The Cassandra cluster as the services see it through CQL: what each statement
    they issue does to keyspaces, roles and grants, and how a statement can fail. */
module Cassandra {
  import opened Text

  /** A role's secret is either a password given in a statement or a hash copied into the role table. */
  datatype Secret = Password(text: string) | SaltedHash(hash: string)

  datatype Role = Role(secret: Secret, superuser: bool, login: bool)

  datatype Keyspace = Keyspace(replication: string, tables: map<string, map<string, string>>)

  /** A permission on one keyspace, or on all of them. */
  datatype Grant = Grant(role: string, keyspace: string, permission: string)

  /** Stands for all keyspaces in a grant; no keyspace has this name. */
  const AllKeyspaces := ""

  datatype State = State(keyspaces: map<string, Keyspace>, roles: map<string, Role>, grants: set<Grant>)

  datatype Statement =
    | CreateKeyspace(keyspace: string, replication: string)
    | EnsureKeyspace(keyspace: string, replication: string)
    | AlterKeyspace(keyspace: string, replication: string)
    | CreateTable(keyspace: string, table: string)
    | Insert(keyspace: string, table: string, id: string, value: string)
    | CreateRole(role: string, password: string, superuser: bool)
    | AlterRole(role: string, password: string, login: bool)
    | SetHash(role: string, hash: string)
    | GrantOn(permission: string, keyspace: string, role: string)
    | DropKeyspace(keyspace: string)
    | DropRole(role: string)
    | ListRoles
    | ListPermissions(keyspace: string)
    | Select(keyspace: string, table: string, id: string)
    | Malformed

  /** No grant outlives its role or its keyspace. */
  ghost predicate WellFormed(s: State) {
    forall g :: g in s.grants ==> g.role in s.roles && (g.keyspace in s.keyspaces || g.keyspace == AllKeyspaces)
  }

  predicate CanLogIn(roles: map<string, Role>, user: string, password: string) {
    user in roles && roles[user].login && roles[user].secret == Password(password)
  }

  // ---------- Names ----------

  function FoldChar(c: char): char {
    if 'A' <= c <= 'Z' then c - 'A' + 'a' else c
  }

  /** An unquoted identifier is folded to lower case; a quoted role name is not. */
  function Fold(name: string): (folded: string)
    ensures |folded| == |name|
    ensures forall i :: 0 <= i < |name| ==> folded[i] == FoldChar(name[i])
  {
    seq(|name|, i requires 0 <= i < |name| => FoldChar(name[i]))
  }

  /** What CQL accepts without quotes. */
  predicate IsIdentifier(name: string) {
    name != "" && IsLetter(name[0]) &&
    forall i :: 0 <= i < |name| ==> IsLetter(name[i]) || IsDigit(name[i]) || name[i] == '_'
  }

  /** What may stand between single quotes in a statement. */
  predicate FitsQuotes(text: string) {
    Free(text, '\'')
  }

  // ---------- Statements ----------

  /** The state after a statement the cluster accepts, None when it is in error by itself. */
  function Apply(stmt: Statement, s: State): Option<State> {
    match stmt
    case CreateKeyspace(k, r) =>
      if IsIdentifier(k) && Fold(k) !in s.keyspaces
      then Some(s.(keyspaces := s.keyspaces[Fold(k) := Keyspace(r, map[])])) else None
    case EnsureKeyspace(k, r) =>
      if !IsIdentifier(k) then None
      else if Fold(k) in s.keyspaces then Some(s)
      else Some(s.(keyspaces := s.keyspaces[Fold(k) := Keyspace(r, map[])]))
    case AlterKeyspace(k, r) =>
      if IsIdentifier(k) && Fold(k) in s.keyspaces
      then Some(s.(keyspaces := s.keyspaces[Fold(k) := s.keyspaces[Fold(k)].(replication := r)])) else None
    case CreateTable(k, t) =>
      if !IsIdentifier(k) || Fold(k) !in s.keyspaces then None
      else if t in s.keyspaces[Fold(k)].tables then Some(s)
      else Some(s.(keyspaces := s.keyspaces[Fold(k) := WithTable(s.keyspaces[Fold(k)], t, map[])]))
    case Insert(k, t, id, v) =>
      if !IsIdentifier(k) || Fold(k) !in s.keyspaces || t !in s.keyspaces[Fold(k)].tables then None
      else Some(s.(keyspaces := s.keyspaces[Fold(k) :=
        WithTable(s.keyspaces[Fold(k)], t, s.keyspaces[Fold(k)].tables[t][id := v])]))
    case CreateRole(r, p, super) =>
      if r == "" || !FitsQuotes(r) || !FitsQuotes(p) then None
      else if r in s.roles then Some(s)
      else Some(s.(roles := s.roles[r := Role(Password(p), super, true)]))
    case AlterRole(r, p, login) =>
      if r !in s.roles || !FitsQuotes(r) || !FitsQuotes(p) then None
      else Some(s.(roles := s.roles[r := Role(Password(p), s.roles[r].superuser, s.roles[r].login || login)]))
    case SetHash(r, h) =>
      if !FitsQuotes(r) || !FitsQuotes(h) then None
      else if r !in s.roles then Some(s)
      else Some(s.(roles := s.roles[r := s.roles[r].(secret := SaltedHash(h))]))
    case GrantOn(p, k, r) =>
      if IsIdentifier(k) && FitsQuotes(r) && Fold(k) in s.keyspaces && r in s.roles
      then Some(s.(grants := s.grants + {Grant(r, Fold(k), p)})) else None
    case DropKeyspace(k) =>
      if IsIdentifier(k) then Some(Without(s, {Fold(k)}, {})) else None
    case DropRole(r) =>
      if IsIdentifier(r) then Some(Without(s, {}, {Fold(r)})) else None
    case ListRoles => Some(s)
    case ListPermissions(k) =>
      if IsIdentifier(k) && Fold(k) in s.keyspaces then Some(s) else None
    case Select(k, t, _) =>
      if IsIdentifier(k) && Fold(k) in s.keyspaces && t in s.keyspaces[Fold(k)].tables then Some(s) else None
    case Malformed => None
  }

  function WithTable(k: Keyspace, table: string, rows: map<string, string>): Keyspace {
    k.(tables := k.tables[table := rows])
  }

  /** The state with some keyspaces and roles gone, and every grant that named one of them. */
  function Without(s: State, keyspaces: set<string>, roles: set<string>): State {
    State(s.keyspaces - keyspaces, s.roles - roles,
          set g | g in s.grants && g.keyspace !in keyspaces && g.role !in roles)
  }

  lemma ApplyKeepsWellFormed(stmt: Statement, s: State)
    requires WellFormed(s) && Apply(stmt, s).Some?
    ensures WellFormed(Apply(stmt, s).value)
  {
  }

  lemma WithoutCompose(s: State, k1: set<string>, r1: set<string>, k2: set<string>, r2: set<string>)
    ensures Without(Without(s, k1, r1), k2, r2) == Without(s, k1 + k2, r1 + r2)
  {
  }

  /** A statement that writes at most the given keyspaces and roles. */
  predicate Confined(stmt: Statement, keyspaces: set<string>, roles: set<string>) {
    match stmt
    case CreateKeyspace(k, _) => Fold(k) in keyspaces
    case EnsureKeyspace(k, _) => Fold(k) in keyspaces
    case AlterKeyspace(k, _) => Fold(k) in keyspaces
    case CreateTable(k, _) => Fold(k) in keyspaces
    case Insert(k, _, _, _) => Fold(k) in keyspaces
    case CreateRole(r, _, _) => r in roles
    case AlterRole(r, _, _) => r in roles
    case SetHash(r, _) => r in roles
    case GrantOn(_, k, r) => Fold(k) in keyspaces || r in roles
    case DropKeyspace(k) => Fold(k) in keyspaces
    case DropRole(r) => Fold(r) in roles
    case ListRoles => true
    case ListPermissions(_) => true
    case Select(_, _, _) => true
    case Malformed => true
  }

  lemma ConfinedInvisible(stmt: Statement, s: State, keyspaces: set<string>, roles: set<string>)
    requires Apply(stmt, s).Some? && Confined(stmt, keyspaces, roles)
    ensures Without(Apply(stmt, s).value, keyspaces, roles) == Without(s, keyspaces, roles)
  {
    if stmt.DropKeyspace? {
      WithoutCompose(s, {Fold(stmt.keyspace)}, {}, keyspaces, roles);
      assert {Fold(stmt.keyspace)} + keyspaces == keyspaces;
    } else if stmt.DropRole? {
      WithoutCompose(s, {}, {Fold(stmt.role)}, keyspaces, roles);
      assert {Fold(stmt.role)} + roles == roles;
    }
  }

  // ---------- Failures the environment chooses ----------

  /** Calm: the answer is the cluster's own. Rejected: an error, nothing applied.
      Lost: the statement was applied but the client sees an error. */
  datatype Fault = Calm | Rejected | Lost

  type Weather = nat -> Fault

  /** The cluster and how many statements it has been sent. */
  datatype World = World(state: State, clock: nat)

  function After(fault: Fault, stmt: Statement, s: State): State {
    if fault.Rejected? || Apply(stmt, s).None? then s else Apply(stmt, s).value
  }

  predicate Succeeds(fault: Fault, stmt: Statement, s: State) {
    fault.Calm? && Apply(stmt, s).Some?
  }

  function Next(weather: Weather, stmt: Statement, w: World): World {
    World(After(weather(w.clock), stmt, w.state), w.clock + 1)
  }

  predicate Works(weather: Weather, stmt: Statement, w: World) {
    Succeeds(weather(w.clock), stmt, w.state)
  }

  /** Statements sent one after the other up to and including the first that fails. */
  function Run(weather: Weather, stmts: seq<Statement>, w: World): World {
    if stmts == [] then w
    else if Works(weather, stmts[0], w) then Run(weather, stmts[1..], Next(weather, stmts[0], w))
    else Next(weather, stmts[0], w)
  }

  predicate AllWork(weather: Weather, stmts: seq<Statement>, w: World) {
    stmts == [] ||
    (Works(weather, stmts[0], w) && AllWork(weather, stmts[1..], Next(weather, stmts[0], w)))
  }

  lemma RunNothing(weather: Weather, w: World)
    ensures Run(weather, [], w) == w && AllWork(weather, [], w)
  {
  }

  lemma {:induction false} RunAppend(weather: Weather, a: seq<Statement>, b: seq<Statement>, w: World)
    ensures AllWork(weather, a, w) ==> Run(weather, a + b, w) == Run(weather, b, Run(weather, a, w))
    ensures !AllWork(weather, a, w) ==> Run(weather, a + b, w) == Run(weather, a, w)
    ensures AllWork(weather, a + b, w) <==> AllWork(weather, a, w) && AllWork(weather, b, Run(weather, a, w))
  {
    if a == [] {
      assert a + b == b;
    } else {
      assert (a + b)[0] == a[0] && (a + b)[1..] == a[1..] + b;
      RunAppend(weather, a[1..], b, Next(weather, a[0], w));
    }
  }

  /** One more statement of a run whose first i have worked. */
  lemma RunStep(weather: Weather, stmts: seq<Statement>, i: nat, w: World)
    requires i < |stmts| && AllWork(weather, stmts[..i], w)
    ensures var here := Run(weather, stmts[..i], w);
            && (AllWork(weather, stmts[..i + 1], w) <==> Works(weather, stmts[i], here))
            && Run(weather, stmts[..i + 1], w) == Next(weather, stmts[i], here)
            && (!Works(weather, stmts[i], here) ==>
                  !AllWork(weather, stmts, w) && Run(weather, stmts, w) == Next(weather, stmts[i], here))
  {
    RunAppend(weather, stmts[..i], [stmts[i]], w);
    RunAppend(weather, stmts[..i + 1], stmts[i + 1..], w);
    assert stmts[..i] + [stmts[i]] == stmts[..i + 1] && stmts[..i + 1] + stmts[i + 1..] == stmts;
    var here := Run(weather, stmts[..i], w);
    assert Run(weather, [stmts[i]], here) == Next(weather, stmts[i], here);
  }

  lemma {:induction false} RunKeepsWellFormed(weather: Weather, stmts: seq<Statement>, w: World)
    requires WellFormed(w.state)
    ensures WellFormed(Run(weather, stmts, w).state)
  {
    if stmts != [] {
      if Apply(stmts[0], w.state).Some? {
        ApplyKeepsWellFormed(stmts[0], w.state);
      }
      RunKeepsWellFormed(weather, stmts[1..], Next(weather, stmts[0], w));
    }
  }

  /** Whatever fails, a run of confined statements is invisible outside its keyspaces and roles. */
  lemma {:induction false} RunConfined(weather: Weather, stmts: seq<Statement>, w: World,
                                       keyspaces: set<string>, roles: set<string>)
    requires forall i :: 0 <= i < |stmts| ==> Confined(stmts[i], keyspaces, roles)
    ensures Without(Run(weather, stmts, w).state, keyspaces, roles) == Without(w.state, keyspaces, roles)
  {
    if stmts != [] {
      if Apply(stmts[0], w.state).Some? {
        ConfinedInvisible(stmts[0], w.state, keyspaces, roles);
      }
      RunConfined(weather, stmts[1..], Next(weather, stmts[0], w), keyspaces, roles);
    }
  }

  // ---------- The cluster itself ----------

  class Cluster {
    var keyspaces: map<string, Keyspace>
    var roles: map<string, Role>
    var grants: set<Grant>
    var clock: nat
    const weather: Weather

    constructor (start: State, weather: Weather)
      ensures Now() == World(start, 0) && this.weather == weather
    {
      keyspaces, roles, grants := start.keyspaces, start.roles, start.grants;
      clock := 0;
      this.weather := weather;
    }

    function Now(): World
      reads this
    {
      World(State(keyspaces, roles, grants), clock)
    }

    /** One statement through a session. */
    method Execute(stmt: Statement) returns (ok: bool)
      modifies this
      ensures Now() == Next(weather, stmt, old(Now()))
      ensures ok <==> Works(weather, stmt, old(Now()))
    {
      var fault := weather(clock);
      var applied := Apply(stmt, State(keyspaces, roles, grants));
      ok := fault.Calm? && applied.Some?;
      if !fault.Rejected? && applied.Some? {
        keyspaces, roles, grants := applied.value.keyspaces, applied.value.roles, applied.value.grants;
      }
      clock := clock + 1;
    }
  }
}
