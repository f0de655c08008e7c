/** The operator's plan of volume claims: one per deployed data center, storage and active replica,
    gathered in context variables that the rollout later indexes by replica position. */
module Claims {
  import opened Text
  import opened Topology
  import opened Validation

  // ---------- Names ----------

  const Root := "cassandra-data-dc"

  function DcPrefix(d: nat): string {
    Root + Decimal(d)
  }

  function ContextKey(d: nat, storage: nat): string {
    DcPrefix(d) + "-" + Decimal(storage)
  }

  function Suffix(storage: nat): string {
    if storage == 0 then "" else "-" + Decimal(storage)
  }

  function ClaimName(d: nat, replica: nat, storage: nat): string {
    DcPrefix(d) + "-" + Decimal(replica) + Suffix(storage)
  }

  lemma DecimalHasNoDash(n: nat)
    ensures Free(Decimal(n), '-')
  {
  }

  /** Data center, replica and storage can be read off a claim name. */
  lemma ClaimNameParts(d: nat, replica: nat, storage: nat)
    ensures "cassandra-data-dc" <= ClaimName(d, replica, storage)
    ensures Split(ClaimName(d, replica, storage)[|"cassandra-data-dc"|..], '-') ==
            [Decimal(d), Decimal(replica)] + if storage == 0 then [] else [Decimal(storage)]
  {
    hide Decimal, Split, Suffix;
    var tail := Decimal(replica) + Suffix(storage);
    assert ClaimName(d, replica, storage) == Root + (Decimal(d) + ['-'] + tail);
    assert ClaimName(d, replica, storage)[|Root|..] == Decimal(d) + ['-'] + tail;
    DecimalHasNoDash(d);
    SplitFirst(Decimal(d), '-', tail);
    TailParts(replica, storage);
  }

  lemma TailParts(replica: nat, storage: nat)
    ensures Split(Decimal(replica) + Suffix(storage), '-') ==
            [Decimal(replica)] + if storage == 0 then [] else [Decimal(storage)]
  {
    hide Decimal, Split;
    DecimalHasNoDash(replica);
    DecimalHasNoDash(storage);
    SplitFirst(Decimal(storage), '-', "");
    SplitFirst(Decimal(replica), '-', Decimal(storage));
    assert Decimal(replica) + Suffix(storage) ==
           if storage == 0 then Decimal(replica) else Decimal(replica) + ['-'] + Decimal(storage);
  }

  lemma ClaimNameInjective(d: nat, r: nat, s: nat, e: nat, q: nat, t: nat)
    ensures ClaimName(d, r, s) == ClaimName(e, q, t) ==> d == e && r == q && s == t
  {
    hide ClaimName, Split, Decimal;
    if ClaimName(d, r, s) == ClaimName(e, q, t) {
      ClaimNameParts(d, r, s);
      ClaimNameParts(e, q, t);
      var a := [Decimal(d), Decimal(r)] + if s == 0 then [] else [Decimal(s)];
      var b := [Decimal(e), Decimal(q)] + if t == 0 then [] else [Decimal(t)];
      assert a == b && a[0] == b[0] && a[1] == b[1];
      DecimalInjective(d, e);
      DecimalInjective(r, q);
      if s != 0 {
        assert a[2] == b[2];
        DecimalInjective(s, t);
      }
    }
  }

  /** A context variable is spelled like a claim of the main storage, and is as distinct. */
  lemma ContextKeyInjective(d: nat, s: nat, e: nat, t: nat)
    ensures ContextKey(d, s) == ContextKey(e, t) ==> d == e && s == t
  {
    assert ContextKey(d, s) == ClaimName(d, s, 0) && ContextKey(e, t) == ClaimName(e, t, 0);
    ClaimNameInjective(d, s, 0, e, t, 0);
  }

  // ---------- The steps of the service ----------

  /** A claim's name format is before, then the printed start index, then after. */
  datatype Step =
    | CreatePvc(contextVar: string, before: string, after: string, startIndex: nat)
    | StoreNodes(contextVar: string)
    | Recycle(claimsVar: string, nodesVar: string)
    | Services | LoadBalancer | StatefulSets | CreateSuperUser | UpdateCredentials | RemoveNodes
    | CleanupNodes | UpdateSystemKeyspaces | InstallReaper | NodetoolRebuild | DropDefaultUser

  const ClusterSteps: seq<Step> :=
    [Services, LoadBalancer, StatefulSets, CreateSuperUser, UpdateCredentials, RemoveNodes,
     CleanupNodes, UpdateSystemKeyspaces, InstallReaper, NodetoolRebuild, DropDefaultUser]

  class Compound {
    var steps: seq<Step>

    constructor ()
      ensures steps == []
    {
      steps := [];
    }

    method AddStep(step: Step)
      modifies this
      ensures steps == old(steps) + [step]
    {
      steps := steps + [step];
    }
  }

  function NodesVar(d: nat): string {
    "pvNodeNames" + Decimal(d)
  }

  function ClaimSteps(d: nat, storage: nat, replicas: seq<nat>): seq<Step> {
    seq(|replicas|, i requires 0 <= i < |replicas| =>
      CreatePvc(ContextKey(d, storage), DcPrefix(d) + "-", Suffix(storage), replicas[i]))
  }

  function StorageSteps(d: nat, storage: nat, replicas: seq<nat>, recycler: bool): seq<Step> {
    ClaimSteps(d, storage, replicas) +
    (if storage == 0 then [StoreNodes(NodesVar(d))] else []) +
    (if recycler then [Recycle(ContextKey(d, storage), NodesVar(d))] else [])
  }

  function DcSteps(dc: DataCenter, d: nat, n: nat, recycler: bool): seq<Step> {
    if n == 0 then [] else DcSteps(dc, d, n - 1, recycler) + StorageSteps(d, n - 1, Active(dc), recycler)
  }

  function PlanSteps(dcs: seq<DataCenter>, n: nat, recycler: bool): seq<Step>
    requires n <= |dcs|
  {
    if n == 0 then []
    else PlanSteps(dcs, n - 1, recycler) + DcSteps(dcs[n - 1], n - 1, |dcs[n - 1].storage|, recycler)
  }

  /** One claim step for each replica of a storage; only additional storages are numbered in the name. */
  method AddClaimSteps(compound: Compound, d: nat, storageIndex: nat, replicas: seq<nat>)
    modifies compound
    ensures compound.steps == old(compound.steps) + ClaimSteps(d, storageIndex, replicas)
  {
    hide Decimal, DcPrefix, ContextKey;
    var pvcContext := ContextKey(d, storageIndex);
    ghost var all := ClaimSteps(d, storageIndex, replicas);
    for i := 0 to |replicas|
      invariant compound.steps == old(compound.steps) + all[..i]
    {
      var after := "";
      if storageIndex != 0 {
        after := "-" + Decimal(storageIndex);
      }
      assert after == Suffix(storageIndex);
      compound.AddStep(CreatePvc(pvcContext, DcPrefix(d) + "-", after, replicas[i]));
      assert old(compound.steps) + all[..i] + [all[i]] == old(compound.steps) + all[..i + 1];
    }
    assert all[..|replicas|] == all;
  }

  method AddDcSteps(compound: Compound, dc: DataCenter, d: nat, recycler: bool)
    modifies compound
    ensures compound.steps == old(compound.steps) + DcSteps(dc, d, |dc.storage|, recycler)
  {
    hide ClaimSteps, NodesVar, ContextKey, Active, DcSteps;
    DcStepsUnfold(dc, d, 0, recycler);
    var replicas := GetActiveReplicas(dc);
    for storageIndex := 0 to |dc.storage|
      invariant compound.steps == old(compound.steps) + DcSteps(dc, d, storageIndex, recycler)
    {
      ghost var before := compound.steps;
      AddClaimSteps(compound, d, storageIndex, replicas);
      if storageIndex == 0 {
        compound.AddStep(StoreNodes(NodesVar(d)));
      }
      if recycler {
        compound.AddStep(Recycle(ContextKey(d, storageIndex), NodesVar(d)));
      }
      assert compound.steps == before + StorageSteps(d, storageIndex, replicas, recycler);
      DcStepsUnfold(dc, d, storageIndex, recycler);
    }
  }

  lemma DcStepsUnfold(dc: DataCenter, d: nat, n: nat, recycler: bool)
    ensures DcSteps(dc, d, 0, recycler) == []
    ensures DcSteps(dc, d, n + 1, recycler) == DcSteps(dc, d, n, recycler) + StorageSteps(d, n, Active(dc), recycler)
  {
  }

  method AddClusterSteps(compound: Compound)
    modifies compound
    ensures compound.steps == old(compound.steps) + ClusterSteps
  {
    compound.AddStep(Services);
    compound.AddStep(LoadBalancer);
    compound.AddStep(StatefulSets);
    compound.AddStep(CreateSuperUser);
    compound.AddStep(UpdateCredentials);
    compound.AddStep(RemoveNodes);
    compound.AddStep(CleanupNodes);
    compound.AddStep(UpdateSystemKeyspaces);
    compound.AddStep(InstallReaper);
    compound.AddStep(NodetoolRebuild);
    compound.AddStep(DropDefaultUser);
  }

  /** Building reads every storage that gets a step, and panics on one that is nil. */
  ghost predicate ReadsNil(dc: DataCenter, recycler: bool) {
    exists s :: 0 <= s < |dc.storage| && dc.storage[s].Nil? && (Active(dc) != [] || recycler)
  }

  method HasNil(dc: DataCenter, recycler: bool) returns (found: bool)
    ensures found <==> ReadsNil(dc, recycler)
  {
    hide Active;
    var replicas := GetActiveReplicas(dc);
    for s := 0 to |dc.storage|
      invariant forall r :: 0 <= r < s ==> !(dc.storage[r].Nil? && (|replicas| > 0 || recycler))
    {
      if dc.storage[s].Nil? && (|replicas| > 0 || recycler) {
        return true;
      }
    }
    found := false;
  }

  /** None when building panics. */
  method Build(dataCenters: seq<DataCenter>, recycler: bool) returns (built: Option<Compound>)
    ensures built.None? <==>
            exists d :: 0 <= d < |Deployed(dataCenters)| && ReadsNil(Deployed(dataCenters)[d], recycler)
    ensures built.Some? ==> fresh(built.value)
    ensures built.Some? ==>
              built.value.steps == PlanSteps(Deployed(dataCenters), |Deployed(dataCenters)|, recycler) + ClusterSteps
  {
    hide DcSteps, ReadsNil;
    var compound: Compound;
    compound := new Compound();
    var dcs := FilterDC(dataCenters, IsDeployed);
    for index := 0 to |dcs|
      invariant fresh(compound)
      invariant compound.steps == PlanSteps(dcs, index, recycler)
      invariant forall d :: 0 <= d < index ==> !ReadsNil(dcs[d], recycler)
    {
      var nil := HasNil(dcs[index], recycler);
      if nil {
        assert ReadsNil(Deployed(dataCenters)[index], recycler);
        return None;
      }
      AddDcSteps(compound, dcs[index], index, recycler);
    }
    AddClusterSteps(compound);
    built := Some(compound);
  }

  // ---------- The context after the claims are made ----------

  /** The context variables that the rollout reads: the claims of each storage, the data centers whose nodes
      are stored, and the seed list, None before it is made. */
  datatype Context = Context(claims: map<string, seq<string>>, nodes: set<string>, seeds: Option<string>)

  function Stored(context: Context, key: string): seq<string> {
    if key in context.claims then context.claims[key] else []
  }

  /** A claim step appends its name to its variable, a node step sets its own; the others leave both alone. */
  function AfterStep(step: Step, context: Context): Context {
    match step
    case CreatePvc(key, before, after, index) =>
      context.(claims := context.claims[key := Stored(context, key) + [before + Decimal(index) + after]])
    case StoreNodes(key) => context.(nodes := context.nodes + {key})
    case _ => context
  }

  function AfterSteps(steps: seq<Step>, context: Context): Context {
    if steps == [] then context else AfterStep(steps[|steps| - 1], AfterSteps(steps[..|steps| - 1], context))
  }

  /** The names some steps append to one variable. */
  function Gathered(steps: seq<Step>, key: string): seq<string> {
    if steps == [] then []
    else
      var last := steps[|steps| - 1];
      Gathered(steps[..|steps| - 1], key) +
      (if last.CreatePvc? && last.contextVar == key then [last.before + Decimal(last.startIndex) + last.after] else [])
  }

  lemma {:induction false} AfterStepsGathers(steps: seq<Step>, context: Context, key: string)
    ensures Stored(AfterSteps(steps, context), key) == Stored(context, key) + Gathered(steps, key)
    ensures Gathered(steps, key) != [] ==> key in AfterSteps(steps, context).claims
  {
    hide AfterStep, Decimal;
    if steps != [] {
      AfterStepsGathers(steps[..|steps| - 1], context, key);
      StepGathers(steps[|steps| - 1], AfterSteps(steps[..|steps| - 1], context), key);
    }
  }

  lemma StepGathers(step: Step, context: Context, key: string)
    ensures var after := AfterStep(step, context);
            && (key in context.claims ==> key in after.claims)
            && if step.CreatePvc? && step.contextVar == key then
                 key in after.claims &&
                 Stored(after, key) == Stored(context, key) + [step.before + Decimal(step.startIndex) + step.after]
               else Stored(after, key) == Stored(context, key)
  {
    hide Decimal;
  }

  /** A node variable is set exactly when a step sets it, and the seeds stay as they were. */
  lemma {:induction false} AfterStepsStores(steps: seq<Step>, context: Context, key: string)
    ensures key in AfterSteps(steps, context).nodes <==> key in context.nodes || StoreNodes(key) in steps
    ensures AfterSteps(steps, context).seeds == context.seeds
  {
    if steps != [] {
      AfterStepsStores(steps[..|steps| - 1], context, key);
      assert steps == steps[..|steps| - 1] + [steps[|steps| - 1]];
    }
  }

  lemma GatheredNothing(key: string)
    ensures Gathered([], key) == []
  {
  }

  lemma {:induction false} GatheredAppend(a: seq<Step>, b: seq<Step>, key: string)
    ensures Gathered(a + b, key) == Gathered(a, key) + Gathered(b, key)
  {
    if b == [] {
      assert a + b == a;
    } else {
      assert (a + b)[..|a + b| - 1] == a + b[..|b| - 1];
      GatheredAppend(a, b[..|b| - 1], key);
    }
  }

  function ClaimNames(d: nat, storage: nat, replicas: seq<nat>): seq<string> {
    seq(|replicas|, i requires 0 <= i < |replicas| => ClaimName(d, replicas[i], storage))
  }

  lemma {:induction false} ClaimStepsGather(d: nat, storage: nat, replicas: seq<nat>, key: string)
    ensures Gathered(ClaimSteps(d, storage, replicas), key) ==
            if key == ContextKey(d, storage) then ClaimNames(d, storage, replicas) else []
  {
    hide Decimal, DcPrefix, Suffix, ContextKey;
    if replicas != [] {
      var init, last := replicas[..|replicas| - 1], replicas[|replicas| - 1];
      ClaimStepsGather(d, storage, init, key);
      var steps := ClaimSteps(d, storage, replicas);
      assert steps[..|steps| - 1] == ClaimSteps(d, storage, init);
      assert ClaimNames(d, storage, replicas) == ClaimNames(d, storage, init) + [ClaimName(d, last, storage)];
    }
  }

  lemma StorageStepsGather(d: nat, storage: nat, replicas: seq<nat>, recycler: bool, key: string)
    ensures Gathered(StorageSteps(d, storage, replicas, recycler), key) ==
            if key == ContextKey(d, storage) then ClaimNames(d, storage, replicas) else []
  {
    var nodes := if storage == 0 then [StoreNodes(NodesVar(d))] else [];
    var recycle := if recycler then [Recycle(ContextKey(d, storage), NodesVar(d))] else [];
    GatheredAppend(ClaimSteps(d, storage, replicas) + nodes, recycle, key);
    GatheredAppend(ClaimSteps(d, storage, replicas), nodes, key);
    ClaimStepsGather(d, storage, replicas, key);
  }

  lemma {:induction false} DcStepsGather(dc: DataCenter, d: nat, n: nat, recycler: bool, e: nat, storage: nat)
    ensures Gathered(DcSteps(dc, d, n, recycler), ContextKey(e, storage)) ==
            if d == e && storage < n then ClaimNames(d, storage, Active(dc)) else []
  {
    hide Gathered, ContextKey, StorageSteps, ClaimNames, Active;
    GatheredNothing(ContextKey(e, storage));
    if n > 0 {
      DcStepsGather(dc, d, n - 1, recycler, e, storage);
      GatheredAppend(DcSteps(dc, d, n - 1, recycler), StorageSteps(d, n - 1, Active(dc), recycler),
                     ContextKey(e, storage));
      StorageStepsGather(d, n - 1, Active(dc), recycler, ContextKey(e, storage));
      ContextKeyInjective(d, n - 1, e, storage);
    }
  }

  lemma {:induction false} PlanGathers(dcs: seq<DataCenter>, n: nat, recycler: bool, e: nat, storage: nat)
    requires n <= |dcs|
    ensures Gathered(PlanSteps(dcs, n, recycler), ContextKey(e, storage)) ==
            if e < n && storage < |dcs[e].storage| then ClaimNames(e, storage, Active(dcs[e])) else []
  {
    hide Gathered, ContextKey, DcSteps, ClaimNames, Active;
    GatheredNothing(ContextKey(e, storage));
    if n > 0 {
      PlanGathers(dcs, n - 1, recycler, e, storage);
      GatheredAppend(PlanSteps(dcs, n - 1, recycler), DcSteps(dcs[n - 1], n - 1, |dcs[n - 1].storage|, recycler),
                     ContextKey(e, storage));
      DcStepsGather(dcs[n - 1], n - 1, |dcs[n - 1].storage|, recycler, e, storage);
    }
  }

  lemma NodesVarInjective(d: nat, e: nat)
    ensures NodesVar(d) == NodesVar(e) ==> d == e
  {
    hide Decimal;
    if NodesVar(d) == NodesVar(e) {
      assert NodesVar(d)[|"pvNodeNames"|..] == Decimal(d) && NodesVar(e)[|"pvNodeNames"|..] == Decimal(e);
      DecimalInjective(d, e);
    }
  }

  lemma {:induction false} DcStepsStore(dc: DataCenter, d: nat, n: nat, recycler: bool, key: string)
    ensures StoreNodes(key) in DcSteps(dc, d, n, recycler) <==> n > 0 && key == NodesVar(d)
  {
    hide NodesVar, ContextKey, Active, DcPrefix, Suffix;
    if n > 0 {
      DcStepsStore(dc, d, n - 1, recycler, key);
      var last := StorageSteps(d, n - 1, Active(dc), recycler);
      assert n == 1 ==> last[|Active(dc)|] == StoreNodes(NodesVar(d));
    }
  }

  /** The plan stores the nodes of a data center exactly when it has a storage. */
  lemma {:induction false} PlanStores(dcs: seq<DataCenter>, n: nat, recycler: bool, e: nat)
    requires n <= |dcs|
    ensures StoreNodes(NodesVar(e)) in PlanSteps(dcs, n, recycler) <==> e < n && dcs[e].storage != []
  {
    hide NodesVar, DcSteps;
    if n > 0 {
      PlanStores(dcs, n - 1, recycler, e);
      DcStepsStore(dcs[n - 1], n - 1, |dcs[n - 1].storage|, recycler, NodesVar(e));
      NodesVarInjective(n - 1, e);
    }
  }

  /** What the plan leaves in an empty context: for each storage of each deployed data center the claims of
      its active replicas, in replica order, and a node variable for each data center with a storage. */
  ghost predicate Planned(context: Context, dcs: seq<DataCenter>) {
    && (forall d, s :: 0 <= d < |dcs| && 0 <= s < |dcs[d].storage| && Active(dcs[d]) != [] ==>
          ContextKey(d, s) in context.claims && context.claims[ContextKey(d, s)] == ClaimNames(d, s, Active(dcs[d])))
    && (forall d :: 0 <= d < |dcs| ==> (NodesVar(d) in context.nodes <==> dcs[d].storage != []))
  }

  lemma PlanFillsContext(dcs: seq<DataCenter>, recycler: bool, seeds: Option<string>)
    ensures var context := AfterSteps(PlanSteps(dcs, |dcs|, recycler), Context(map[], {}, seeds));
            Planned(context, dcs) && context.seeds == seeds
  {
    hide NodesVar, ContextKey, ClaimNames, PlanSteps, AfterSteps, Gathered, Active;
    var steps, empty := PlanSteps(dcs, |dcs|, recycler), Context(map[], {}, seeds);
    AfterStepsStores(steps, empty, "");
    forall d | 0 <= d < |dcs|
      ensures NodesVar(d) in AfterSteps(steps, empty).nodes <==> dcs[d].storage != []
    {
      PlanStores(dcs, |dcs|, recycler, d);
      AfterStepsStores(steps, empty, NodesVar(d));
    }
    forall d, s | 0 <= d < |dcs| && 0 <= s < |dcs[d].storage| && Active(dcs[d]) != []
      ensures var claims := AfterSteps(steps, empty).claims;
              ContextKey(d, s) in claims && claims[ContextKey(d, s)] == ClaimNames(d, s, Active(dcs[d]))
    {
      PlanGathers(dcs, |dcs|, recycler, d, s);
      AfterStepsGathers(steps, empty, ContextKey(d, s));
      assert |ClaimNames(d, s, Active(dcs[d]))| > 0 by {
        ClaimNamesLength(d, s, Active(dcs[d]));
      }
    }
  }

  lemma ClaimNamesLength(d: nat, storage: nat, replicas: seq<nat>)
    ensures |ClaimNames(d, storage, replicas)| == |replicas|
  {
  }

  // ---------- What one StatefulSet mounts ----------

  /** The map from claim to mount settings that the rollout builds for the replica at position i of data
      center d; None where the source panics: an unknown or empty variable, or no mount settings. */
  function Mounts(context: Context, dcs: seq<DataCenter>, d: nat, i: nat, n: nat): Option<map<string, MountSettings>>
    requires d < |dcs| && n <= |dcs[d].storage|
  {
    if n == 0 then Some(map[])
    else
      var before := Mounts(context, dcs, d, i, n - 1);
      var names := Stored(context, ContextKey(d, n - 1));
      if before.None? || names == [] || MountOf(dcs[d].storage[n - 1]).None? then None
      else Some(before.value[names[i % |names|] := MountOf(dcs[d].storage[n - 1]).value])
  }

  method SelectMounts(context: Context, dcs: seq<DataCenter>, d: nat, i: nat)
    returns (mounts: Option<map<string, MountSettings>>)
    requires d < |dcs|
    ensures mounts == Mounts(context, dcs, d, i, |dcs[d].storage|)
  {
    mounts := Some(map[]);
    for storageIndex := 0 to |dcs[d].storage|
      invariant mounts == Mounts(context, dcs, d, i, storageIndex)
    {
      var names := Stored(context, ContextKey(d, storageIndex));
      if mounts.None? || names == [] || MountOf(dcs[d].storage[storageIndex]).None? {
        mounts := None;
      } else {
        mounts := Some(mounts.value[names[i % |names|] := MountOf(dcs[d].storage[storageIndex]).value]);
      }
    }
  }

  /** The claims of one StatefulSet: its own data center and replica, one for every storage, each with the
      mount settings of that storage. */
  ghost predicate OwnClaims(mounts: map<string, MountSettings>, dc: DataCenter, d: nat, replica: nat, n: nat)
    requires n <= |dc.storage|
  {
    && (forall c :: c in mounts ==> exists s :: 0 <= s < n && c == ClaimName(d, replica, s))
    && (forall s :: 0 <= s < n ==>
          ClaimName(d, replica, s) in mounts && MountOf(dc.storage[s]) == Some(mounts[ClaimName(d, replica, s)]))
    && |mounts| == n
  }

  lemma {:induction false} MountsAreOwnClaims(context: Context, dcs: seq<DataCenter>, d: nat, i: nat, n: nat)
    requires Planned(context, dcs) && d < |dcs| && i < |Active(dcs[d])| && n <= |dcs[d].storage|
    requires forall s :: 0 <= s < n ==> MountOf(dcs[d].storage[s]).Some?
    ensures var mounts := Mounts(context, dcs, d, i, n);
            mounts.Some? && OwnClaims(mounts.value, dcs[d], d, Active(dcs[d])[i], n)
  {
    hide ClaimName, Active, ContextKey, Planned, Stored, OwnClaims;
    if n == 0 {
      NoClaims(dcs[d], d, Active(dcs[d])[i]);
    } else {
      MountsAreOwnClaims(context, dcs, d, i, n - 1);
      var r := Active(dcs[d])[i];
      var before := Mounts(context, dcs, d, i, n - 1).value;
      PlannedNames(context, dcs, d, n - 1, i);
      OneMoreClaim(before, dcs[d], d, r, n);
    }
  }

  lemma NoClaims(dc: DataCenter, d: nat, r: nat)
    ensures OwnClaims(map[], dc, d, r, 0)
  {
  }

  lemma PlannedNames(context: Context, dcs: seq<DataCenter>, d: nat, s: nat, i: nat)
    requires Planned(context, dcs) && d < |dcs| && s < |dcs[d].storage| && i < |Active(dcs[d])|
    ensures var names := Stored(context, ContextKey(d, s));
            names != [] && names[i % |names|] == ClaimName(d, Active(dcs[d])[i], s)
  {
    hide ClaimName, Active, ContextKey;
    assert Stored(context, ContextKey(d, s)) == ClaimNames(d, s, Active(dcs[d]));
  }

  lemma OneMoreClaim(before: map<string, MountSettings>, dc: DataCenter, d: nat, r: nat, n: nat)
    requires 0 < n <= |dc.storage| && MountOf(dc.storage[n - 1]).Some?
    requires OwnClaims(before, dc, d, r, n - 1)
    ensures OwnClaims(before[ClaimName(d, r, n - 1) := MountOf(dc.storage[n - 1]).value], dc, d, r, n)
  {
    hide ClaimName;
    forall s | 0 <= s < n - 1
      ensures ClaimName(d, r, s) != ClaimName(d, r, n - 1)
    {
      ClaimNameInjective(d, r, s, d, r, n - 1);
    }
    assert ClaimName(d, r, n - 1) !in before;
  }

  /** No two StatefulSets of different replicas share a claim. */
  lemma OwnClaimsApart(a: map<string, MountSettings>, x: DataCenter, d: nat, r: nat,
                       b: map<string, MountSettings>, y: DataCenter, e: nat, q: nat)
    requires d != e || r != q
    ensures OwnClaims(a, x, d, r, |x.storage|) && OwnClaims(b, y, e, q, |y.storage|) ==> a.Keys !! b.Keys
  {
    hide ClaimName;
    if OwnClaims(a, x, d, r, |x.storage|) && OwnClaims(b, y, e, q, |y.storage|) {
      forall c | c in a && c in b
        ensures false
      {
        var s :| 0 <= s < |x.storage| && c == ClaimName(d, r, s);
        var t :| 0 <= t < |y.storage| && c == ClaimName(e, q, t);
        ClaimNameInjective(d, r, s, e, q, t);
      }
    }
  }

  /** In one StatefulSet of a valid schema the volumes have different names. */
  lemma VolumesApart(a: map<string, MountSettings>, dc: DataCenter, d: nat, r: nat)
    requires OwnClaims(a, dc, d, r, |dc.storage|) && Acceptable(dc)
    ensures forall c, k :: c in a && k in a && c != k ==> a[c].name != a[k].name
  {
    hide ClaimName;
    forall c, k | c in a && k in a && c != k
      ensures a[c].name != a[k].name
    {
      var s :| 0 <= s < |dc.storage| && c == ClaimName(d, r, s);
      var t :| 0 <= t < |dc.storage| && k == ClaimName(d, r, t);
      assert Apart(dc.storage[if s < t then s else t], dc.storage[if s < t then t else s]);
    }
  }

  /** PVC alignment over a valid schema: each planned StatefulSet mounts for every storage the claim of its
      own data center, replica and storage, under different volume names, and no claim is mounted twice. */
  lemma ClaimsAligned(context: Context, dcs: seq<DataCenter>, d: nat, i: nat, e: nat, j: nat)
    requires Planned(context, dcs) && (forall k :: 0 <= k < |dcs| ==> Acceptable(dcs[k]))
    requires d < |dcs| && i < |Active(dcs[d])| && e < |dcs| && j < |Active(dcs[e])|
    ensures var a := Mounts(context, dcs, d, i, |dcs[d].storage|);
            var b := Mounts(context, dcs, e, j, |dcs[e].storage|);
            && a.Some? && b.Some?
            && OwnClaims(a.value, dcs[d], d, Active(dcs[d])[i], |dcs[d].storage|)
            && ((d, i) != (e, j) ==> a.value.Keys !! b.value.Keys)
            && (forall c, k :: c in a.value && k in a.value && c != k ==> a.value[c].name != a.value[k].name)
  {
    hide Planned, Mounts, OwnClaims, Active;
    assert forall s :: 0 <= s < |dcs[d].storage| ==> Mounted(dcs[d].storage[s]);
    assert forall s :: 0 <= s < |dcs[e].storage| ==> Mounted(dcs[e].storage[s]);
    MountsAreOwnClaims(context, dcs, d, i, |dcs[d].storage|);
    MountsAreOwnClaims(context, dcs, e, j, |dcs[e].storage|);
    var a := Mounts(context, dcs, d, i, |dcs[d].storage|).value;
    var b := Mounts(context, dcs, e, j, |dcs[e].storage|).value;
    VolumesApart(a, dcs[d], d, Active(dcs[d])[i]);
    ActiveIncreases(dcs[d]);
    if (d, i) != (e, j) {
      OwnClaimsApart(a, dcs[d], d, Active(dcs[d])[i], b, dcs[e], e, Active(dcs[e])[j]);
    }
  }

  lemma ActiveIncreases(dc: DataCenter)
    ensures forall i, j :: 0 <= i < j < |Active(dc)| ==> Active(dc)[i] < Active(dc)[j]
  {
    ActiveBelowExact(dc, dc.replicas);
  }
}
