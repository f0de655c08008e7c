/** In which order the operator's plan does things: claims before pods, pods before removals, the new superuser
    before the default one goes. */
module BuildOrder {
  import opened Text
  import opened Topology
  import opened Claims

  // ---------- Order among steps ----------

  /** The step is there once. */
  ghost predicate Once(steps: seq<Step>, step: Step) {
    step in steps && forall i, j :: 0 <= i < |steps| && 0 <= j < |steps| && steps[i] == step == steps[j] ==> i == j
  }

  /** Both steps are there once, and the first comes before the second. */
  ghost predicate Before(steps: seq<Step>, first: Step, second: Step) {
    && Once(steps, first) && Once(steps, second)
    && forall i, j :: 0 <= i < |steps| && 0 <= j < |steps| && steps[i] == first && steps[j] == second ==> i < j
  }

  predicate AboutVolumes(step: Step) {
    step.CreatePvc? || step.StoreNodes? || step.Recycle?
  }

  lemma {:induction false} DcAboutVolumes(dc: DataCenter, d: nat, n: nat, recycler: bool)
    ensures forall step :: step in DcSteps(dc, d, n, recycler) ==> AboutVolumes(step)
  {
    hide ContextKey, NodesVar, DcPrefix, Suffix, Active;
    if n > 0 {
      DcAboutVolumes(dc, d, n - 1, recycler);
    }
  }

  lemma {:induction false} PlanAboutVolumes(dcs: seq<DataCenter>, n: nat, recycler: bool)
    requires n <= |dcs|
    ensures forall step :: step in PlanSteps(dcs, n, recycler) ==> AboutVolumes(step)
  {
    hide DcSteps;
    if n > 0 {
      PlanAboutVolumes(dcs, n - 1, recycler);
      DcAboutVolumes(dcs[n - 1], n - 1, |dcs[n - 1].storage|, recycler);
    }
  }

  /** Everything about volumes comes before everything else. */
  ghost predicate VolumesFirst(steps: seq<Step>) {
    forall i, j :: 0 <= i < |steps| && 0 <= j < |steps| && AboutVolumes(steps[i]) && !AboutVolumes(steps[j]) ==> i < j
  }

  lemma LaterSteps(plan: seq<Step>, k: nat, m: nat)
    requires (forall i :: 0 <= i < |plan| ==> AboutVolumes(plan[i])) && k < m < 11
    ensures |ClusterSteps| == 11
    ensures Before(plan + ClusterSteps, ClusterSteps[k], ClusterSteps[m])
  {
    hide AboutVolumes, ClusterSteps;
    ClusterStepsDiffer();
    OnlyPlace(plan, k);
    OnlyPlace(plan, m);
  }

  lemma OnlyPlace(plan: seq<Step>, k: nat)
    requires (forall i :: 0 <= i < |plan| ==> AboutVolumes(plan[i])) && k < 11
    ensures |ClusterSteps| == 11
    ensures var steps := plan + ClusterSteps;
            steps[|plan| + k] == ClusterSteps[k] &&
            forall i :: 0 <= i < |steps| && steps[i] == ClusterSteps[k] ==> i == |plan| + k
  {
    hide AboutVolumes, ClusterSteps;
    ClusterStepsDiffer();
    var steps := plan + ClusterSteps;
    assert forall i :: 0 <= i < |plan| ==> steps[i] == plan[i] && AboutVolumes(steps[i]);
    assert forall i :: |plan| <= i < |steps| ==> steps[i] == ClusterSteps[i - |plan|];
  }

  /** The plan of a deployment: everything about volumes comes first, and of the other steps each is there once, the
      pods before the superuser and before removals, and the drop of the default user after both changes to the
      operator's own. */
  lemma PlanInOrder(dcs: seq<DataCenter>, recycler: bool)
    ensures var steps := PlanSteps(dcs, |dcs|, recycler) + ClusterSteps;
            && VolumesFirst(steps)
            && Before(steps, Services, StatefulSets) && Before(steps, StatefulSets, CreateSuperUser)
            && Before(steps, CreateSuperUser, UpdateCredentials) && Before(steps, UpdateCredentials, DropDefaultUser)
            && Before(steps, StatefulSets, RemoveNodes) && Before(steps, RemoveNodes, CleanupNodes)
            && Before(steps, CreateSuperUser, UpdateSystemKeyspaces)
            && Before(steps, UpdateSystemKeyspaces, NodetoolRebuild) && Before(steps, InstallReaper, NodetoolRebuild)
  {
    hide PlanSteps, Before, AboutVolumes;
    PlanAboutVolumes(dcs, |dcs|, recycler);
    var plan := PlanSteps(dcs, |dcs|, recycler);
    assert forall i :: 0 <= i < |plan| ==> plan[i] in plan;
    VolumesComeFirst(plan);
    LaterSteps(plan, 0, 2);
    LaterSteps(plan, 2, 3);
    LaterSteps(plan, 3, 4);
    LaterSteps(plan, 4, 10);
    LaterSteps(plan, 2, 5);
    LaterSteps(plan, 5, 6);
    LaterSteps(plan, 3, 7);
    LaterSteps(plan, 7, 9);
    LaterSteps(plan, 8, 9);
  }

  lemma VolumesComeFirst(plan: seq<Step>)
    requires forall i :: 0 <= i < |plan| ==> AboutVolumes(plan[i])
    ensures VolumesFirst(plan + ClusterSteps)
  {
    hide AboutVolumes, ClusterSteps;
    ClusterStepsDiffer();
    var steps := plan + ClusterSteps;
    assert forall i :: 0 <= i < |plan| ==> steps[i] == plan[i];
    assert forall i :: |plan| <= i < |steps| ==> steps[i] == ClusterSteps[i - |plan|];
  }

  lemma ClusterStepsDiffer()
    ensures |ClusterSteps| == 11
    ensures forall i, j :: 0 <= i < j < 11 ==> ClusterSteps[i] != ClusterSteps[j]
    ensures forall i :: 0 <= i < 11 ==> !AboutVolumes(ClusterSteps[i])
  {
  }

  // ---------- The recycler ----------

  /** What a recycling step reads: its data center's node variable and all claims of its storage. */
  ghost predicate Provided(before: seq<Step>, dc: DataCenter, d: nat, storage: nat) {
    StoreNodes(NodesVar(d)) in before && Gathered(before, ContextKey(d, storage)) == ClaimNames(d, storage, Active(dc))
  }

  /** A step is no recycling step, or it is one for a storage of the data center and comes when this is provided. */
  ghost predicate InTime(before: seq<Step>, step: Step, dc: DataCenter, d: nat) {
    step.Recycle? ==>
      exists s: nat :: s < |dc.storage| && step == Recycle(ContextKey(d, s), NodesVar(d)) && Provided(before, dc, d, s)
  }

  ghost predicate AllInTime(before: seq<Step>, steps: seq<Step>, dc: DataCenter, d: nat) {
    forall i :: 0 <= i < |steps| ==> InTime(before + steps[..i], steps[i], dc, d)
  }

  lemma AllInTimeAppend(before: seq<Step>, a: seq<Step>, b: seq<Step>, dc: DataCenter, d: nat)
    requires AllInTime(before, a, dc, d) && AllInTime(before + a, b, dc, d)
    ensures AllInTime(before, a + b, dc, d)
  {
    hide InTime;
    var all := a + b;
    forall i | 0 <= i < |all|
      ensures InTime(before + all[..i], all[i], dc, d)
    {
      if i < |a| {
        assert all[..i] == a[..i];
      } else {
        assert before + all[..i] == before + a + b[..i - |a|];
      }
    }
  }

  lemma StorageInTime(before: seq<Step>, dc: DataCenter, d: nat, s: nat, recycler: bool)
    requires s < |dc.storage| && Gathered(before, ContextKey(d, s)) == []
    requires s > 0 ==> StoreNodes(NodesVar(d)) in before
    ensures AllInTime(before, StorageSteps(d, s, Active(dc), recycler), dc, d)
    ensures StoreNodes(NodesVar(d)) in before + StorageSteps(d, s, Active(dc), recycler)
  {
    hide Active, ContextKey, NodesVar, Gathered, ClaimNames, DcPrefix, Suffix;
    var claims := ClaimSteps(d, s, Active(dc));
    var nodes := if s == 0 then [StoreNodes(NodesVar(d))] else [];
    var steps := StorageSteps(d, s, Active(dc), recycler);
    ClaimStepsGather(d, s, Active(dc), ContextKey(d, s));
    NodesGatherNothing(d, s, ContextKey(d, s));
    GatheredAppend(before, claims + nodes, ContextKey(d, s));
    GatheredAppend(claims, nodes, ContextKey(d, s));
    assert [] + ClaimNames(d, s, Active(dc)) + [] == ClaimNames(d, s, Active(dc));
    assert s == 0 ==> nodes[0] == StoreNodes(NodesVar(d));
    assert StoreNodes(NodesVar(d)) in before + (claims + nodes);
    var n := |claims + nodes|;
    assert forall i :: 0 <= i < n ==> steps[i] == (claims + nodes)[i] && !steps[i].Recycle?;
    if recycler {
      assert steps[n] == Recycle(ContextKey(d, s), NodesVar(d)) && steps[..n] == claims + nodes;
      assert Provided(before + steps[..n], dc, d, s);
    }
  }

  lemma NodesGatherNothing(d: nat, s: nat, key: string)
    ensures Gathered(if s == 0 then [StoreNodes(NodesVar(d))] else [], key) == []
  {
    hide NodesVar;
  }

  lemma {:induction false} DcInTime(before: seq<Step>, dc: DataCenter, d: nat, n: nat, recycler: bool)
    requires n <= |dc.storage| && forall s: nat :: Gathered(before, ContextKey(d, s)) == []
    ensures AllInTime(before, DcSteps(dc, d, n, recycler), dc, d)
    ensures n > 0 ==> StoreNodes(NodesVar(d)) in before + DcSteps(dc, d, n, recycler)
  {
    hide Active, ContextKey, NodesVar, Gathered, ClaimNames, StorageSteps, InTime;
    if n > 0 {
      var earlier := DcSteps(dc, d, n - 1, recycler);
      var steps := StorageSteps(d, n - 1, Active(dc), recycler);
      DcInTime(before, dc, d, n - 1, recycler);
      DcStepsGather(dc, d, n - 1, recycler, d, n - 1);
      GatheredAppend(before, earlier, ContextKey(d, n - 1));
      StorageInTime(before + earlier, dc, d, n - 1, recycler);
      AllInTimeAppend(before, earlier, steps, dc, d);
      assert before + earlier + steps == before + (earlier + steps);
    }
  }

  /** Each recycling step of the plan is for some storage of some data center and comes after this data center's nodes
      are stored and after all claims of the storage. */
  lemma {:induction false} RecyclingInTime(dcs: seq<DataCenter>, n: nat, recycler: bool, i: nat)
    requires n <= |dcs| && i < |PlanSteps(dcs, n, recycler)|
    ensures var steps := PlanSteps(dcs, n, recycler);
            steps[i].Recycle? ==> exists d: nat :: d < n && InTime(steps[..i], steps[i], dcs[d], d)
  {
    hide InTime, DcSteps, Gathered, ContextKey;
    var d: nat := n - 1;
    var before, dc := PlanSteps(dcs, d, recycler), dcs[d];
    var steps := PlanSteps(dcs, n, recycler);
    if i < |before| {
      RecyclingInTime(dcs, d, recycler, i);
      assert steps[..i] == before[..i];
    } else {
      forall s: nat
        ensures Gathered(before, ContextKey(d, s)) == []
      {
        PlanGathers(dcs, d, recycler, d, s);
      }
      DcInTime(before, dc, d, |dc.storage|, recycler);
      var last := DcSteps(dc, d, |dc.storage|, recycler);
      assert steps[..i] == before + last[..i - |before|] && steps[i] == last[i - |before|];
      assert InTime(steps[..i], steps[i], dcs[d], d);
    }
  }

  lemma {:induction false} DcRecycles(dc: DataCenter, d: nat, n: nat, recycler: bool, e: nat, s: nat)
    ensures Recycle(ContextKey(e, s), NodesVar(e)) in DcSteps(dc, d, n, recycler) <==> recycler && d == e && s < n
  {
    hide NodesVar, ContextKey, Active, DcPrefix, Suffix;
    if n > 0 {
      DcRecycles(dc, d, n - 1, recycler, e, s);
      ContextKeyInjective(d, n - 1, e, s);
      var last := StorageSteps(d, n - 1, Active(dc), recycler);
      assert recycler ==> last[|last| - 1] == Recycle(ContextKey(d, n - 1), NodesVar(d));
    }
  }

  /** With a recycler every storage of every data center is recycled, without one none is. */
  lemma {:induction false} RecycledExactly(dcs: seq<DataCenter>, n: nat, recycler: bool, e: nat, s: nat)
    requires n <= |dcs|
    ensures Recycle(ContextKey(e, s), NodesVar(e)) in PlanSteps(dcs, n, recycler) <==>
            recycler && e < n && s < |dcs[e].storage|
  {
    hide NodesVar, ContextKey, DcSteps;
    if n > 0 {
      RecycledExactly(dcs, n - 1, recycler, e, s);
      DcRecycles(dcs[n - 1], n - 1, |dcs[n - 1].storage|, recycler, e, s);
    }
  }
}
