/** The operator's handling of Cassandra's superusers: create its own, rotate its password, drop the
    default one. Whatever stops a run half-way, somebody with known credentials can still log in. */
module SuperUsers {
  import opened Text
  import opened Cassandra

  const DefaultUser := "cassandra"

  // ---------- Logging in, and what a session may do ----------

  predicate IsSuperuser(roles: map<string, Role>, user: string) {
    user in roles && roles[user].superuser
  }

  /** Only a superuser may make or drop a superuser, nobody may drop the role it is logged in as,
      and a role may always change its own password. */
  predicate Authorized(roles: map<string, Role>, user: string, stmt: Statement) {
    match stmt
    case CreateRole(_, _, super) => IsSuperuser(roles, user)
    case AlterRole(r, _, _) => IsSuperuser(roles, user) || r == user
    case DropRole(r) => IsSuperuser(roles, user) && Fold(r) != user
    case _ => true
  }

  // ---------- The operator's three statements ----------

  /** A session under a name and password, and the one statement sent in it. */
  datatype Action = Action(user: string, password: string, stmt: Statement)

  function CreateUserAction(username: string, password: string): Action {
    Action(DefaultUser, DefaultUser,
           if username != DefaultUser then CreateRole(username, password, true)
           else AlterRole(username, password, false))
  }

  function UpdatePasswordAction(username: string, oldPassword: string, newPassword: string): Action {
    Action(username, oldPassword, AlterRole(username, newPassword, false))
  }

  function DropDefaultAction(username: string, password: string): Action {
    Action(username, password, DropRole(DefaultUser))
  }

  /** The step drops the default user only when the operator's own user is another one. */
  ghost predicate OperatorAction(a: Action) {
    || (exists u, p :: a == CreateUserAction(u, p))
    || (exists u, o, n :: a == UpdatePasswordAction(u, o, n))
    || (exists u, p :: u != DefaultUser && a == DropDefaultAction(u, p))
  }

  /** connected: the session could be opened at all; fault: what became of the statement. */
  function Perform(a: Action, connected: bool, fault: Fault, s: State): State {
    if connected && CanLogIn(s.roles, a.user, a.password) && Authorized(s.roles, a.user, a.stmt)
    then After(fault, a.stmt, s) else s
  }

  predicate Performed(a: Action, connected: bool, fault: Fault, s: State) {
    connected && CanLogIn(s.roles, a.user, a.password) && Authorized(s.roles, a.user, a.stmt) &&
    Succeeds(fault, a.stmt, s)
  }

  /** Credentials the operator has used: the default ones and every pair it has tried to set. */
  type Credentials = set<(string, string)>

  function Learned(a: Action, known: Credentials): Credentials {
    match a.stmt
    case CreateRole(r, p, _) => known + {(r, p)}
    case AlterRole(r, p, _) => known + {(r, p)}
    case _ => known
  }

  // ---------- The invariant ----------

  /** There is a superuser, and every superuser can log in with credentials the operator knows. */
  ghost predicate Accessible(roles: map<string, Role>, known: Credentials) {
    && (exists r :: IsSuperuser(roles, r))
    && forall r :: IsSuperuser(roles, r) ==> exists p :: (r, p) in known && CanLogIn(roles, r, p)
  }

  const Fresh: State :=
    State(map[], map[DefaultUser := Role(Password(DefaultUser), true, true)], {})

  const DefaultCredentials: Credentials := {(DefaultUser, DefaultUser)}

  lemma FreshIsAccessible()
    ensures Accessible(Fresh.roles, DefaultCredentials)
  {
    assert IsSuperuser(Fresh.roles, DefaultUser);
    assert (DefaultUser, DefaultUser) in DefaultCredentials && CanLogIn(Fresh.roles, DefaultUser, DefaultUser);
  }

  lemma PerformKeepsAccess(a: Action, connected: bool, fault: Fault, s: State, known: Credentials)
    requires OperatorAction(a) && Accessible(s.roles, known)
    ensures Accessible(Perform(a, connected, fault, s).roles, Learned(a, known))
  {
    var after := Perform(a, connected, fault, s);
    var more := Learned(a, known);
    DefaultFolds();
    var witnessed :| IsSuperuser(s.roles, witnessed);
    if a.stmt.DropRole? && after != s {
      assert IsSuperuser(after.roles, a.user);
    } else {
      assert IsSuperuser(after.roles, witnessed);
    }
    forall r | IsSuperuser(after.roles, r)
      ensures exists p :: (r, p) in more && CanLogIn(after.roles, r, p)
    {
      if r in s.roles && after.roles[r] == s.roles[r] {
        assert IsSuperuser(s.roles, r);
        var p :| (r, p) in known && CanLogIn(s.roles, r, p);
        assert (r, p) in more && CanLogIn(after.roles, r, p);
      } else {
        assert r == a.stmt.role;
        if r in s.roles {
          assert IsSuperuser(s.roles, r);
        }
        assert (r, a.stmt.password) in more && CanLogIn(after.roles, r, a.stmt.password);
      }
    }
  }

  lemma DefaultFolds()
    ensures Fold(DefaultUser) == DefaultUser && IsIdentifier(DefaultUser)
  {
  }

  // ---------- Every history ----------

  /** One event of a history: an action of the operator, or somebody else's work on ordinary roles. */
  datatype Event = Operator(action: Action, connected: bool, fault: Fault) | Others(roles: map<string, Role>)

  ghost predicate LeavesSuperusers(before: map<string, Role>, after: map<string, Role>) {
    forall r :: IsSuperuser(before, r) || IsSuperuser(after, r) ==>
      r in before && r in after && before[r] == after[r]
  }

  function AfterEvents(events: seq<Event>, n: nat): (State, Credentials)
    requires n <= |events|
  {
    if n == 0 then (Fresh, DefaultCredentials)
    else
      var (s, known) := AfterEvents(events, n - 1);
      match events[n - 1]
      case Operator(a, c, f) => (Perform(a, c, f, s), Learned(a, known))
      case Others(roles) => (s.(roles := roles), known)
  }

  /** What may happen: only the operator's own three actions, and others stay off superusers. */
  ghost predicate Possible(events: seq<Event>) {
    forall i :: 0 <= i < |events| ==>
      match events[i]
      case Operator(a, _, _) => OperatorAction(a)
      case Others(roles) => LeavesSuperusers(AfterEvents(events, i).0.roles, roles)
  }

  /** No lock-out: after any number of events of any history that starts from the default superuser. */
  lemma {:induction false} NeverLockedOut(events: seq<Event>, n: nat)
    requires Possible(events) && n <= |events|
    ensures var (s, known) := AfterEvents(events, n); Accessible(s.roles, known)
  {
    hide Perform, Accessible, LeavesSuperusers, OperatorAction, Learned;
    if n == 0 {
      FreshIsAccessible();
    } else {
      NeverLockedOut(events, n - 1);
      var (s, known) := AfterEvents(events, n - 1);
      match events[n - 1]
      case Operator(a, c, f) => PerformKeepsAccess(a, c, f, s, known);
      case Others(roles) => OthersKeepAccess(s.roles, roles, known);
    }
  }

  lemma OthersKeepAccess(before: map<string, Role>, after: map<string, Role>, known: Credentials)
    requires Accessible(before, known) && LeavesSuperusers(before, after)
    ensures Accessible(after, known)
  {
    var r :| IsSuperuser(before, r);
    assert IsSuperuser(after, r);
    forall q | IsSuperuser(after, q)
      ensures exists p :: (q, p) in known && CanLogIn(after, q, p)
    {
      assert IsSuperuser(before, q);
      var p :| (q, p) in known && CanLogIn(before, q, p);
      assert CanLogIn(after, q, p);
    }
  }

  /** The default superuser goes only in the session of another superuser, which stays as it was. */
  lemma DefaultDroppedByAnother(a: Action, connected: bool, fault: Fault, s: State)
    requires OperatorAction(a)
    requires DefaultUser in s.roles && DefaultUser !in Perform(a, connected, fault, s).roles
    ensures a.user != DefaultUser && IsSuperuser(s.roles, a.user) && CanLogIn(s.roles, a.user, a.password)
    ensures Perform(a, connected, fault, s).roles == s.roles - {DefaultUser}
    ensures CanLogIn(Perform(a, connected, fault, s).roles, a.user, a.password)
  {
  }

  lemma DroppedDefault(user: string, password: string, connected: bool, fault: Fault, s: State)
    ensures Performed(DropDefaultAction(user, password), connected, fault, s) ==>
              var after := Perform(DropDefaultAction(user, password), connected, fault, s).roles;
              DefaultUser !in after && CanLogIn(after, user, password) && IsSuperuser(after, user)
  {
    DefaultFolds();
  }

  // ---------- The steps of a run ----------

  /** Where the operator stands: the cluster, the credentials used so far, and how many sessions it asked for. */
  datatype Point = Point(state: State, known: Credentials, sent: nat)

  /** The environment: whether a session can be opened, and what becomes of its statement. */
  datatype Luck = Luck(connected: nat -> bool, fault: nat -> Fault)

  function Attempted(luck: Luck, a: Action, p: Point): Point {
    Point(Perform(a, luck.connected(p.sent), luck.fault(p.sent), p.state), Learned(a, p.known), p.sent + 1)
  }

  predicate Achieved(luck: Luck, a: Action, p: Point) {
    Performed(a, luck.connected(p.sent), luck.fault(p.sent), p.state)
  }

  /** Actions one after the other up to and including the first that fails. */
  function Taken(luck: Luck, actions: seq<Action>, p: Point): Point {
    if actions == [] then p
    else if Achieved(luck, actions[0], p) then Taken(luck, actions[1..], Attempted(luck, actions[0], p))
    else Attempted(luck, actions[0], p)
  }

  predicate AllAchieved(luck: Luck, actions: seq<Action>, p: Point) {
    actions == [] ||
    (Achieved(luck, actions[0], p) && AllAchieved(luck, actions[1..], Attempted(luck, actions[0], p)))
  }

  lemma TakeFirst(luck: Luck, a: Action, rest: seq<Action>, p: Point)
    ensures Taken(luck, [a] + rest, p) ==
              if Achieved(luck, a, p) then Taken(luck, rest, Attempted(luck, a, p)) else Attempted(luck, a, p)
    ensures AllAchieved(luck, [a] + rest, p) <==> Achieved(luck, a, p) && AllAchieved(luck, rest, Attempted(luck, a, p))
  {
    hide Achieved, Attempted;
    assert ([a] + rest)[1..] == rest;
  }

  /** What one reconciliation is asked to do. The password is None when there is no secret; rotation is the
      pair of an old and a new secret when they differ; steps is how many of its three steps it gets to. */
  datatype Order = Order(user: string, password: Option<string>, rotation: Option<(string, string)>,
                         clean: bool, steps: nat)

  predicate LoginWorks(luck: Luck, order: Order, p: Point) {
    order.password.Some? && luck.connected(p.sent) && CanLogIn(p.state.roles, order.user, order.password.value)
  }

  /** After the check whether the user is there already, which takes a session of its own. */
  function Checked(order: Order, p: Point): Point {
    if order.steps > 0 && order.password.Some? then p.(sent := p.sent + 1) else p
  }

  function DropStep(order: Order): seq<Action> {
    if order.steps > 2 && order.clean && order.user != DefaultUser && order.password.Some?
    then [DropDefaultAction(order.user, order.password.value)] else []
  }

  function LaterSteps(order: Order): seq<Action> {
    (if order.steps > 1 && order.rotation.Some?
     then [UpdatePasswordAction(order.user, order.rotation.value.0, order.rotation.value.1)] else []) +
    DropStep(order)
  }

  /** The actions an order comes to; none at all without a password, where the first step panics. */
  function Actions(luck: Luck, order: Order, p: Point): seq<Action> {
    if order.steps == 0 || order.password.None? then []
    else
      (if LoginWorks(luck, order, p) then [] else [CreateUserAction(order.user, order.password.value)]) +
      LaterSteps(order)
  }

  function Reconciled(luck: Luck, order: Order, p: Point): Point {
    Taken(luck, Actions(luck, order, p), Checked(order, p))
  }

  class Access {
    var state: State
    ghost var known: Credentials
    var sent: nat
    const luck: Luck

    constructor (luck: Luck)
      ensures Now() == Point(Fresh, DefaultCredentials, 0) && this.luck == luck
    {
      state, known, sent := Fresh, DefaultCredentials, 0;
      this.luck := luck;
    }

    ghost function Now(): Point
      reads this
    {
      Point(state, known, sent)
    }

    method Send(a: Action) returns (ok: bool)
      modifies this
      ensures Now() == Attempted(luck, a, old(Now()))
      ensures ok <==> Achieved(luck, a, old(Now()))
    {
      ok := Performed(a, luck.connected(sent), luck.fault(sent), state);
      state := Perform(a, luck.connected(sent), luck.fault(sent), state);
      known := Learned(a, known);
      sent := sent + 1;
    }

    method CheckLogin(username: string, password: string) returns (ok: bool)
      modifies this`sent
      ensures ok <==> luck.connected(old(sent)) && CanLogIn(state.roles, username, password)
      ensures sent == old(sent) + 1
    {
      ok := luck.connected(sent) && CanLogIn(state.roles, username, password);
      sent := sent + 1;
    }

    /** One reconciliation, abandoned after some of its steps or at the first one that fails. */
    method Reconcile(order: Order) returns (completed: bool)
      modifies this
      ensures Now() == Reconciled(luck, order, old(Now()))
      ensures completed <==>
              order.steps > 2 && order.password.Some? &&
              AllAchieved(luck, Actions(luck, order, old(Now())), Checked(order, old(Now())))
    {
      hide Attempted, Achieved;
      completed := false;
      if order.steps == 0 || order.password.None? {
        return;
      }
      var password := order.password.value;
      ghost var later, drop := LaterSteps(order), DropStep(order);
      assert [] + later == later && [] + drop == drop && drop + [] == drop;
      var loggedIn := CheckLogin(order.user, password);
      if !loggedIn {
        TakeFirst(luck, CreateUserAction(order.user, password), later, Now());
        var ok := Send(CreateUserAction(order.user, password));
        if !ok {
          return;
        }
      }
      if order.steps == 1 {
        return;
      }
      if order.rotation.Some? {
        var a := UpdatePasswordAction(order.user, order.rotation.value.0, order.rotation.value.1);
        TakeFirst(luck, a, drop, Now());
        var ok := Send(a);
        if !ok {
          return;
        }
      }
      if order.steps == 2 {
        return;
      }
      if order.clean && order.user != DefaultUser {
        TakeFirst(luck, DropDefaultAction(order.user, password), [], Now());
        var ok := Send(DropDefaultAction(order.user, password));
        if !ok {
          return;
        }
      }
      completed := true;
    }
  }

  // ---------- Every reconciliation ----------

  lemma {:induction false} TakenKeepsAccess(luck: Luck, actions: seq<Action>, p: Point)
    requires Accessible(p.state.roles, p.known)
    requires forall i :: 0 <= i < |actions| ==> OperatorAction(actions[i])
    ensures var after := Taken(luck, actions, p); Accessible(after.state.roles, after.known)
  {
    hide Accessible, OperatorAction, Perform, Performed, Learned;
    if actions != [] {
      assert OperatorAction(actions[0]);
      PerformKeepsAccess(actions[0], luck.connected(p.sent), luck.fault(p.sent), p.state, p.known);
      TakenKeepsAccess(luck, actions[1..], Attempted(luck, actions[0], p));
    }
  }

  /** A reconciliation sends nothing but the operator's three statements, so it keeps access wherever it stops. */
  lemma ReconciledKeepsAccess(luck: Luck, order: Order, p: Point)
    requires Accessible(p.state.roles, p.known)
    ensures var after := Reconciled(luck, order, p); Accessible(after.state.roles, after.known)
  {
    hide Accessible, Taken, CreateUserAction, UpdatePasswordAction, DropDefaultAction;
    TakenKeepsAccess(luck, Actions(luck, order, p), Checked(order, p));
  }

  /** Reconciliations one after the other, each stopped wherever its order says. */
  function AfterOrders(luck: Luck, orders: seq<Order>, p: Point): Point {
    if orders == [] then p
    else Reconciled(luck, orders[|orders| - 1], AfterOrders(luck, orders[..|orders| - 1], p))
  }

  /** From the default superuser, no sequence of reconciliations locks the operator out. */
  lemma {:induction false} OrdersKeepAccess(luck: Luck, orders: seq<Order>)
    ensures var after := AfterOrders(luck, orders, Point(Fresh, DefaultCredentials, 0));
            Accessible(after.state.roles, after.known)
  {
    hide Accessible, Reconciled, Fresh;
    FreshIsAccessible();
    if orders != [] {
      OrdersKeepAccess(luck, orders[..|orders| - 1]);
      ReconciledKeepsAccess(luck, orders[|orders| - 1],
                            AfterOrders(luck, orders[..|orders| - 1], Point(Fresh, DefaultCredentials, 0)));
    }
  }

  /** A completed clean deployment has dropped the default user, and the operator's own is a superuser that
      can log in. */
  lemma CleanRunReplacesDefault(luck: Luck, order: Order, p: Point)
    requires order.steps > 2 && order.password.Some? && order.clean && order.user != DefaultUser
    requires AllAchieved(luck, Actions(luck, order, p), Checked(order, p))
    ensures var roles := Reconciled(luck, order, p).state.roles;
            DefaultUser !in roles && CanLogIn(roles, order.user, order.password.value) && IsSuperuser(roles, order.user)
  {
    hide Perform, Performed, CanLogIn, IsSuperuser, Learned, CreateUserAction, UpdatePasswordAction, DropDefaultAction;
    var actions, drop := Actions(luck, order, p), DropDefaultAction(order.user, order.password.value);
    assert actions == actions[..|actions| - 1] + [drop];
    LastTaken(luck, actions[..|actions| - 1], drop, Checked(order, p));
    var before := Taken(luck, actions[..|actions| - 1], Checked(order, p));
    DroppedDefault(order.user, order.password.value, luck.connected(before.sent), luck.fault(before.sent),
                   before.state);
  }

  lemma {:induction false} LastTaken(luck: Luck, actions: seq<Action>, last: Action, p: Point)
    requires AllAchieved(luck, actions + [last], p)
    ensures var before := Taken(luck, actions, p);
            Achieved(luck, last, before) && Taken(luck, actions + [last], p) == Attempted(luck, last, before)
  {
    hide Attempted, Achieved;
    if actions == [] {
      TakeFirst(luck, last, [], p);
      assert [last] + [] == [last] && actions + [last] == [last];
    } else {
      assert (actions + [last])[0] == actions[0] && (actions + [last])[1..] == actions[1..] + [last];
      LastTaken(luck, actions[1..], last, Attempted(luck, actions[0], p));
    }
  }

  // ---------- What a reconciliation is for ----------

  /** The password that is to hold after the run: the new one of a rotation it got to, otherwise that of the order. */
  function WantedPassword(order: Order): string
    requires order.password.Some?
  {
    if order.steps > 1 && order.rotation.Some? then order.rotation.value.1 else order.password.value
  }

  lemma CreatedLogsIn(luck: Luck, username: string, password: string, p: Point)
    requires Achieved(luck, CreateUserAction(username, password), p)
    ensures var after := Attempted(luck, CreateUserAction(username, password), p).state.roles;
            && (CanLogIn(after, username, password) <==>
                username == DefaultUser || username !in p.state.roles || CanLogIn(p.state.roles, username, password))
            && (username != DefaultUser && username !in p.state.roles ==> IsSuperuser(after, username))
            && (forall r :: IsSuperuser(p.state.roles, r) ==> IsSuperuser(after, r))
            && username in after
  {
  }

  lemma RotatedLogsIn(luck: Luck, username: string, before: string, password: string, p: Point)
    requires Achieved(luck, UpdatePasswordAction(username, before, password), p)
    ensures var after := Attempted(luck, UpdatePasswordAction(username, before, password), p).state.roles;
            && CanLogIn(after, username, password)
            && forall r :: IsSuperuser(p.state.roles, r) ==> IsSuperuser(after, r)
  {
  }

  lemma DroppingKeepsOthers(luck: Luck, username: string, password: string, other: string, p: Point)
    requires Achieved(luck, DropDefaultAction(username, password), p) && username != DefaultUser
    ensures var after := Attempted(luck, DropDefaultAction(username, password), p).state.roles;
            && (CanLogIn(after, username, other) <==> CanLogIn(p.state.roles, username, other))
            && (IsSuperuser(after, username) <==> IsSuperuser(p.state.roles, username))
  {
    DefaultFolds();
  }

  /** After its first step the user logs in with the order's password exactly when it could already, or was not there,
      or is the default one; a role of that name with another password is left alone. */
  lemma FirstStepLogsIn(luck: Luck, order: Order, p: Point)
    requires order.steps > 0 && order.password.Some?
    requires !LoginWorks(luck, order, p) ==>
               Achieved(luck, CreateUserAction(order.user, order.password.value), Checked(order, p))
    ensures var first := if LoginWorks(luck, order, p) then Checked(order, p)
                         else Attempted(luck, CreateUserAction(order.user, order.password.value), Checked(order, p));
            && (CanLogIn(first.state.roles, order.user, order.password.value) <==>
                order.user == DefaultUser || order.user !in p.state.roles ||
                CanLogIn(p.state.roles, order.user, order.password.value))
            && (order.user != DefaultUser && order.user !in p.state.roles ==>
                  IsSuperuser(first.state.roles, order.user))
  {
    if !LoginWorks(luck, order, p) {
      CreatedLogsIn(luck, order.user, order.password.value, Checked(order, p));
    }
  }

  /** The steps after the first keep what it has made, and a rotation among them sets the new password. */
  lemma LaterStepsLogIn(luck: Luck, order: Order, p: Point)
    requires order.password.Some? && AllAchieved(luck, LaterSteps(order), p)
    ensures var after := Taken(luck, LaterSteps(order), p).state.roles;
            && (CanLogIn(after, order.user, WantedPassword(order)) <==>
                (order.steps > 1 && order.rotation.Some?) ||
                CanLogIn(p.state.roles, order.user, order.password.value))
            && (IsSuperuser(p.state.roles, order.user) ==> IsSuperuser(after, order.user))
  {
    hide Achieved, Attempted, CanLogIn, IsSuperuser, UpdatePasswordAction, DropDefaultAction;
    var drop := DropStep(order);
    var middle := p;
    if order.steps > 1 && order.rotation.Some? {
      var update := UpdatePasswordAction(order.user, order.rotation.value.0, order.rotation.value.1);
      TakeFirst(luck, update, drop, p);
      assert [update] + drop == LaterSteps(order);
      RotatedLogsIn(luck, order.user, order.rotation.value.0, order.rotation.value.1, p);
      middle := Attempted(luck, update, p);
    } else {
      assert [] + drop == drop;
    }
    assert AllAchieved(luck, drop, middle) && Taken(luck, drop, middle) == Taken(luck, LaterSteps(order), p);
    if drop != [] {
      TakeFirst(luck, drop[0], [], middle);
      assert drop == [drop[0]] + [];
      DroppingKeepsOthers(luck, order.user, order.password.value, WantedPassword(order), middle);
    }
  }

  /** After a completed reconciliation the operator's user logs in with the wanted password, and is a superuser if it
      had to be made, exactly when the password was rotated, or the user is the default one, was not there, or had
      the order's password already. */
  lemma ReconciledLogsIn(luck: Luck, order: Order, p: Point)
    requires order.steps > 0 && order.password.Some?
    requires AllAchieved(luck, Actions(luck, order, p), Checked(order, p))
    ensures var after := Reconciled(luck, order, p).state.roles;
            && (CanLogIn(after, order.user, WantedPassword(order)) <==>
                || (order.steps > 1 && order.rotation.Some?)
                || order.user == DefaultUser || order.user !in p.state.roles
                || CanLogIn(p.state.roles, order.user, order.password.value))
            && (order.user != DefaultUser && order.user !in p.state.roles ==> IsSuperuser(after, order.user))
  {
    hide Achieved, Attempted, CanLogIn, IsSuperuser, CreateUserAction, LaterSteps, WantedPassword, LoginWorks;
    var later := LaterSteps(order);
    var first := Checked(order, p);
    if LoginWorks(luck, order, p) {
      assert Actions(luck, order, p) == later by {
        assert [] + later == later;
      }
    } else {
      var create := CreateUserAction(order.user, order.password.value);
      TakeFirst(luck, create, later, first);
      first := Attempted(luck, create, first);
    }
    FirstStepLogsIn(luck, order, p);
    LaterStepsLogIn(luck, order, first);
  }

  /** Where nothing outside fails, an order without a rotation completes, and does so every time again, when its user
      is a superuser that logs in with the password, or is not there yet and the default one still is as it was made;
      CQL must accept the name and the password. */
  lemma CalmReconciliationCompletes(luck: Luck, order: Order, p: Point)
    requires forall n :: luck.connected(n) && luck.fault(n).Calm?
    requires order.steps > 0 && order.password.Some? && order.rotation.None? && order.user != DefaultUser
    requires order.user != "" && FitsQuotes(order.user) && FitsQuotes(order.password.value)
    requires || (CanLogIn(p.state.roles, order.user, order.password.value) && IsSuperuser(p.state.roles, order.user))
             || (order.user !in p.state.roles &&
                 CanLogIn(p.state.roles, DefaultUser, DefaultUser) && IsSuperuser(p.state.roles, DefaultUser))
    ensures AllAchieved(luck, Actions(luck, order, p), Checked(order, p))
  {
    var later, first := LaterSteps(order), Checked(order, p);
    assert later == DropStep(order);
    if LoginWorks(luck, order, p) {
      assert Actions(luck, order, p) == later;
    } else {
      var create := CreateUserAction(order.user, order.password.value);
      TakeFirst(luck, create, later, first);
      CreatedLogsIn(luck, order.user, order.password.value, first);
      first := Attempted(luck, create, first);
    }
    if later != [] {
      TakeFirst(luck, later[0], [], first);
      assert later == [later[0]] + [];
      DefaultFolds();
    }
  }
}
