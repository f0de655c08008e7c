/** The StatefulSet step: every planned StatefulSet is deleted, created anew and awaited, one at a time. */
module Rollout {
  import opened Text
  import opened Topology
  import opened Claims

  datatype PodSpec = PodSpec(replicaNumber: int, dcName: string, rack: string, seeds: string,
                             claims: map<string, MountSettings>)

  datatype StatefulSet = StatefulSet(spec: PodSpec, ready: bool)

  type Objects = map<string, StatefulSet>

  /** What becomes of one Kubernetes operation. All but Fine are errors to the caller: nothing happened,
      the pods were stopped, or everything happened but the answer was lost. */
  datatype Mishap = Fine | Untouched | Stopped | Lost

  // ---------- The namespace ----------

  /** What is asked of Kubernetes. */
  datatype Call = Deletion(name: string) | Creation(name: string, spec: PodSpec) | Waiting(name: string) | Listing

  class Kube {
    var objects: Objects
    /** Every call so far, the failed ones included. */
    var log: seq<Call>
    /** The objects after every call so far. */
    ghost var history: seq<Objects>
    const mishap: nat -> Mishap

    constructor (objects: Objects, mishap: nat -> Mishap)
      ensures this.objects == objects && this.mishap == mishap
      ensures log == [] && history == []
    {
      this.objects, this.mishap := objects, mishap;
      log, history := [], [];
    }

    method DeleteStatefulsetAndPods(name: string) returns (ok: bool)
      modifies this
      ensures ok <==> mishap(|old(log)|).Fine?
      ensures objects == match mishap(|old(log)|)
                         case Untouched => old(objects)
                         case Stopped => NotReady(old(objects), name)
                         case _ => old(objects) - {name}
      ensures log == old(log) + [Deletion(name)] && history == old(history) + [objects]
    {
      ok := mishap(|log|).Fine?;
      match mishap(|log|) {
        case Untouched =>
        case Stopped => objects := NotReady(objects, name);
        case _ => objects := objects - {name};
      }
      log := log + [Deletion(name)];
      history := history + [objects];
    }

    /** A StatefulSet starts without a ready pod. */
    method Create(name: string, spec: PodSpec) returns (ok: bool)
      modifies this
      ensures ok <==> mishap(|old(log)|).Fine?
      ensures objects == if mishap(|old(log)|).Fine? || mishap(|old(log)|).Lost?
                         then old(objects)[name := StatefulSet(spec, false)] else old(objects)
      ensures log == old(log) + [Creation(name, spec)] && history == old(history) + [objects]
    {
      ok := mishap(|log|).Fine?;
      if mishap(|log|).Fine? || mishap(|log|).Lost? {
        objects := objects[name := StatefulSet(spec, false)];
      }
      log := log + [Creation(name, spec)];
      history := history + [objects];
    }

    /** Returns without an error only when the pod is ready. */
    method WaitForPodsReady(name: string) returns (ok: bool)
      modifies this
      ensures ok <==> mishap(|old(log)|).Fine? && name in old(objects)
      ensures objects == if ok then old(objects)[name := old(objects)[name].(ready := true)] else old(objects)
      ensures log == old(log) + [Waiting(name)] && history == old(history) + [objects]
    {
      ok := mishap(|log|).Fine? && name in objects;
      if ok {
        objects := objects[name := objects[name].(ready := true)];
      }
      log := log + [Waiting(name)];
      history := history + [objects];
    }

    /** Finds the pods to run a command on; an error when there is none. */
    method ListPods() returns (ok: bool)
      modifies this
      ensures ok <==> mishap(|old(log)|).Fine?
      ensures objects == old(objects)
      ensures log == old(log) + [Listing] && history == old(history) + [objects]
    {
      ok := mishap(|log|).Fine?;
      log := log + [Listing];
      history := history + [objects];
    }
  }

  function NotReady(objects: Objects, name: string): Objects {
    if name in objects then objects[name := objects[name].(ready := false)] else objects
  }

  // ---------- The plan ----------

  /** A StatefulSet to roll: its data center and its position among the active replicas there. */
  datatype Slot = Slot(dc: nat, position: nat)

  function DcSlots(dcs: seq<DataCenter>, d: nat): seq<Slot>
    requires d < |dcs|
  {
    seq(|Active(dcs[d])|, i requires 0 <= i < |Active(dcs[d])| => Slot(d, i))
  }

  /** Data center order, then replica order. */
  function Slots(dcs: seq<DataCenter>, n: nat): seq<Slot>
    requires n <= |dcs|
  {
    if n == 0 then [] else Slots(dcs, n - 1) + DcSlots(dcs, n - 1)
  }

  predicate SlotOf(dcs: seq<DataCenter>, slot: Slot) {
    slot.dc < |dcs| && slot.position < |Active(dcs[slot.dc])|
  }

  function ReplicaOf(dcs: seq<DataCenter>, slot: Slot): nat
    requires SlotOf(dcs, slot)
  {
    Active(dcs[slot.dc])[slot.position]
  }

  function NameOf(dcs: seq<DataCenter>, slot: Slot): string
    requires SlotOf(dcs, slot)
  {
    StatefulSetName(ReplicaIndex(dcs, slot.dc, ReplicaOf(dcs, slot)))
  }

  function RackOf(dc: DataCenter, replica: nat): string {
    if dc.racks == [] then "rack1" else dc.racks[replica % |dc.racks|]
  }

  /** Every address list that is used has an entry for the replica; the source panics without it. */
  predicate Addressed(dc: DataCenter, replica: nat) {
    forall i :: 0 <= i < |dc.addresses| ==> dc.addresses[i] == [] || replica < |dc.addresses[i]|
  }

  /** The StatefulSet a slot gets, None when preparing it panics. */
  function SpecFor(context: Context, dcs: seq<DataCenter>, slot: Slot): Option<PodSpec>
    requires SlotOf(dcs, slot)
  {
    var dc, replica := dcs[slot.dc], ReplicaOf(dcs, slot);
    var mounts := Mounts(context, dcs, slot.dc, slot.position, |dc.storage|);
    if context.seeds.None? || !Addressed(dc, replica) || mounts.None? then None
    else Some(PodSpec(ReplicaIndex(dcs, slot.dc, replica), dc.name, RackOf(dc, replica), context.seeds.value,
                      mounts.value))
  }

  lemma {:induction false} SlotsInPlan(dcs: seq<DataCenter>, n: nat)
    requires n <= |dcs|
    ensures forall k :: 0 <= k < |Slots(dcs, n)| ==> SlotOf(dcs, Slots(dcs, n)[k]) && Slots(dcs, n)[k].dc < n
    ensures forall j, k :: 0 <= j < k < |Slots(dcs, n)| ==> Slots(dcs, n)[j] != Slots(dcs, n)[k]
    ensures forall slot :: SlotOf(dcs, slot) && slot.dc < n ==> slot in Slots(dcs, n)
  {
    if n > 0 {
      SlotsInPlan(dcs, n - 1);
      var before, last := Slots(dcs, n - 1), DcSlots(dcs, n - 1);
      var all := before + last;
      assert forall k :: 0 <= k < |all| ==> all[k] == if k < |before| then before[k] else last[k - |before|];
      forall slot | SlotOf(dcs, slot) && slot.dc < n
        ensures slot in all
      {
        if slot.dc == n - 1 {
          assert last[slot.position] == slot;
        }
      }
    }
  }

  /** Different slots have different StatefulSet names. */
  lemma NamesApart(dcs: seq<DataCenter>, a: Slot, b: Slot)
    requires AllDeployed(dcs) && SlotOf(dcs, a) && SlotOf(dcs, b) && NameOf(dcs, a) == NameOf(dcs, b)
    ensures a == b
  {
    var r, q := ReplicaOf(dcs, a), ReplicaOf(dcs, b);
    StatefulSetNameInjective(ReplicaIndex(dcs, a.dc, r), ReplicaIndex(dcs, b.dc, q));
    ActiveBelowExact(dcs[a.dc], dcs[a.dc].replicas);
    ActiveBelowExact(dcs[b.dc], dcs[b.dc].replicas);
    assert r in Active(dcs[a.dc]) && q in Active(dcs[b.dc]);
    NumberingInjective(dcs, a.dc, r, b.dc, q);
  }

  // ---------- Where a rollout can be ----------

  ghost predicate ValidPlan(dcs: seq<DataCenter>, plan: seq<Slot>) {
    && (forall k :: 0 <= k < |plan| ==> SlotOf(dcs, plan[k]))
    && (forall j, k :: 0 <= j < k < |plan| ==> NameOf(dcs, plan[j]) != NameOf(dcs, plan[k]))
  }

  /** The first k slots are recreated and ready, the k-th is in any state, everything else is as it was. */
  ghost predicate Stage(context: Context, dcs: seq<DataCenter>, plan: seq<Slot>, start: Objects, now: Objects, k: nat)
    requires ValidPlan(dcs, plan)
  {
    && k <= |plan|
    && (forall j :: 0 <= j < k ==>
          && SpecFor(context, dcs, plan[j]).Some?
          && NameOf(dcs, plan[j]) in now
          && now[NameOf(dcs, plan[j])] == StatefulSet(SpecFor(context, dcs, plan[j]).value, true))
    && (forall name: string | forall j :: 0 <= j <= k && j < |plan| ==> name != NameOf(dcs, plan[j]) ::
          (name in now <==> name in start) && (name in now ==> now[name] == start[name]))
  }

  /** The rollout stands exactly between two slots: even the k-th is as it was. */
  ghost predicate Between(context: Context, dcs: seq<DataCenter>, plan: seq<Slot>, start: Objects, now: Objects, k: nat)
    requires ValidPlan(dcs, plan)
  {
    && Stage(context, dcs, plan, start, now, k)
    && (k < |plan| ==> (NameOf(dcs, plan[k]) in now <==> NameOf(dcs, plan[k]) in start) &&
                       (NameOf(dcs, plan[k]) in now ==> now[NameOf(dcs, plan[k])] == start[NameOf(dcs, plan[k])]))
  }

  function PlannedNames(dcs: seq<DataCenter>, plan: seq<Slot>): seq<string>
    requires forall k :: 0 <= k < |plan| ==> SlotOf(dcs, plan[k])
  {
    seq(|plan|, k requires 0 <= k < |plan| => NameOf(dcs, plan[k]))
  }

  /** The planned StatefulSets without a ready pod. */
  function Down(dcs: seq<DataCenter>, plan: seq<Slot>, now: Objects): set<string>
    requires forall k :: 0 <= k < |plan| ==> SlotOf(dcs, plan[k])
  {
    set name | name in PlannedNames(dcs, plan) && (name !in now || !now[name].ready)
  }

  /** Rolling: with all planned StatefulSets ready at the start, no stage has more than one of them down. */
  lemma AtMostOneDown(context: Context, dcs: seq<DataCenter>, plan: seq<Slot>, start: Objects, now: Objects, k: nat)
    requires ValidPlan(dcs, plan) && Stage(context, dcs, plan, start, now, k)
    requires Down(dcs, plan, start) == {}
    ensures |Down(dcs, plan, now)| <= 1
    ensures k == |plan| ==> Down(dcs, plan, now) == {}
  {
    hide NameOf, SlotOf, SpecFor;
    var names := PlannedNames(dcs, plan);
    forall name | name in Down(dcs, plan, now)
      ensures k < |plan| && name == NameOf(dcs, plan[k])
    {
      var j :| 0 <= j < |plan| && names[j] == name;
      assert name == NameOf(dcs, plan[j]);
      assert name !in Down(dcs, plan, start);
    }
    if k < |plan| {
      var one := {NameOf(dcs, plan[k])};
      assert Down(dcs, plan, now) <= one && |one| == 1;
      SubsetSize(Down(dcs, plan, now), one);
    } else {
      assert Down(dcs, plan, now) == {};
    }
  }

  lemma {:induction false} SubsetSize<T>(a: set<T>, b: set<T>)
    requires a <= b
    ensures |a| <= |b|
  {
    if a != {} {
      var x :| x in a;
      SubsetSize(a - {x}, b - {x});
    }
  }

  // ---------- The step ----------

  ghost predicate Staged(context: Context, dcs: seq<DataCenter>, plan: seq<Slot>, start: Objects, now: Objects)
    requires ValidPlan(dcs, plan)
  {
    exists k :: 0 <= k <= |plan| && Stage(context, dcs, plan, start, now, k)
  }

  ghost predicate HistoryStaged(context: Context, dcs: seq<DataCenter>, plan: seq<Slot>, start: Objects,
                                history: seq<Objects>, from: nat)
    requires ValidPlan(dcs, plan)
  {
    forall h :: from <= h < |history| ==> Staged(context, dcs, plan, start, history[h])
  }

  /** Rolling, for a whole run: after every call, completed or not, at most one planned StatefulSet is down. */
  lemma HistoryRolls(context: Context, dcs: seq<DataCenter>, plan: seq<Slot>, start: Objects,
                     history: seq<Objects>, from: nat)
    requires ValidPlan(dcs, plan) && HistoryStaged(context, dcs, plan, start, history, from)
    requires Down(dcs, plan, start) == {}
    ensures forall h :: from <= h < |history| ==> |Down(dcs, plan, history[h])| <= 1
  {
    hide SlotOf, NameOf, Stage, Down;
    forall h | from <= h < |history|
      ensures |Down(dcs, plan, history[h])| <= 1
    {
      assert Staged(context, dcs, plan, start, history[h]);
      var k :| 0 <= k <= |plan| && Stage(context, dcs, plan, start, history[h], k);
      AtMostOneDown(context, dcs, plan, start, history[h], k);
    }
  }

  lemma SlotChangesStage(context: Context, dcs: seq<DataCenter>, plan: seq<Slot>, start: Objects, before: Objects,
                         now: Objects, k: nat)
    requires ValidPlan(dcs, plan) && k < |plan| && Stage(context, dcs, plan, start, before, k)
    requires OnlyDiffers(before, now, NameOf(dcs, plan[k]))
    ensures Stage(context, dcs, plan, start, now, k)
    ensures Staged(context, dcs, plan, start, now)
  {
  }

  lemma SlotDone(context: Context, dcs: seq<DataCenter>, plan: seq<Slot>, start: Objects, now: Objects, k: nat)
    requires ValidPlan(dcs, plan) && k < |plan|
    ensures Stage(context, dcs, plan, start, now, k) &&
            SpecFor(context, dcs, plan[k]).Some? && NameOf(dcs, plan[k]) in now &&
            now[NameOf(dcs, plan[k])] == StatefulSet(SpecFor(context, dcs, plan[k]).value, true) ==>
              Between(context, dcs, plan, start, now, k + 1)
  {
    hide NameOf, SpecFor, SlotOf;
  }

  /** The StatefulSet of one slot, or None where preparing it panics. */
  method Prepare(context: Context, dcs: seq<DataCenter>, slot: Slot) returns (name: string, spec: Option<PodSpec>)
    requires SlotOf(dcs, slot)
    ensures name == NameOf(dcs, slot) && spec == SpecFor(context, dcs, slot)
  {
    hide Mounts, Addressed, RackOf;
    var dc, replicaIndex := dcs[slot.dc], Active(dcs[slot.dc])[slot.position];
    var number := CalcReplicaIndex(dcs, slot.dc, replicaIndex);
    name := StatefulSetName(number);
    var mounts := SelectMounts(context, dcs, slot.dc, slot.position);
    spec := if context.seeds.None? || !Addressed(dc, replicaIndex) || mounts.None? then None
            else Some(PodSpec(number, dc.name, RackOf(dc, replicaIndex), context.seeds.value, mounts.value));
  }

  ghost predicate OnlyDiffers(before: Objects, now: Objects, name: string) {
    forall other: string | other != name ::
      (other in now <==> other in before) && (other in now ==> now[other] == before[other])
  }

  function Recreation(name: string, spec: PodSpec): seq<Call> {
    [Deletion(name), Creation(name, spec), Waiting(name)]
  }

  /** Some calls, cut off at one that failed. */
  ghost predicate CutOff(mishap: nat -> Mishap, before: seq<Call>, calls: seq<Call>, log: seq<Call>) {
    before < log <= before + calls && !mishap(|log| - 1).Fine?
  }

  /** Deletes, creates and awaits one StatefulSet. */
  method Recreate(kube: Kube, name: string, spec: PodSpec) returns (ok: bool)
    modifies kube
    ensures ok ==> kube.objects == old(kube.objects)[name := StatefulSet(spec, true)]
    ensures ok ==> kube.log == old(kube.log) + Recreation(name, spec)
    ensures !ok ==> CutOff(kube.mishap, old(kube.log), Recreation(name, spec), kube.log)
    ensures OnlyDiffers(old(kube.objects), kube.objects, name)
    ensures old(kube.history) <= kube.history
    ensures forall h :: |old(kube.history)| <= h < |kube.history| ==>
              OnlyDiffers(old(kube.objects), kube.history[h], name)
  {
    ok := kube.DeleteStatefulsetAndPods(name);
    if !ok {
      return;
    }
    ok := kube.Create(name, spec);
    if !ok {
      return;
    }
    ok := kube.WaitForPodsReady(name);
  }

  /** What a slot takes, nothing when preparing it panics. */
  function SlotCalls(context: Context, dcs: seq<DataCenter>, slot: Slot): seq<Call> {
    if !SlotOf(dcs, slot) || SpecFor(context, dcs, slot).None? then []
    else Recreation(NameOf(dcs, slot), SpecFor(context, dcs, slot).value)
  }

  /** What the first n slots of a plan take. */
  function PlanCalls(context: Context, dcs: seq<DataCenter>, plan: seq<Slot>, n: nat): seq<Call>
    requires n <= |plan|
  {
    if n == 0 then [] else PlanCalls(context, dcs, plan, n - 1) + SlotCalls(context, dcs, plan[n - 1])
  }

  /** A panic has a cause: the slot at hand could not be prepared, or the last of its calls failed. */
  ghost predicate Excused(mishap: nat -> Mishap, context: Context, dcs: seq<DataCenter>, slot: Slot,
                          before: seq<Call>, log: seq<Call>)
  {
    if !SlotOf(dcs, slot) || SpecFor(context, dcs, slot).None? then log == before
    else CutOff(mishap, before, SlotCalls(context, dcs, slot), log)
  }

  /** One turn of the inner loop. */
  method RollSlot(kube: Kube, context: Context, dcs: seq<DataCenter>, slot: Slot,
                  ghost plan: seq<Slot>, ghost start: Objects, ghost k: nat) returns (ok: bool)
    requires SlotOf(dcs, slot) && ValidPlan(dcs, plan) && k < |plan| && plan[k] == slot
    requires Between(context, dcs, plan, start, kube.objects, k)
    modifies kube
    ensures ok ==> Between(context, dcs, plan, start, kube.objects, k + 1)
    ensures !ok ==> Stage(context, dcs, plan, start, kube.objects, k)
    ensures ok ==> kube.log == old(kube.log) + SlotCalls(context, dcs, slot)
    ensures !ok ==> Excused(kube.mishap, context, dcs, slot, old(kube.log), kube.log)
    ensures old(kube.history) <= kube.history
    ensures HistoryStaged(context, dcs, plan, start, kube.history, |old(kube.history)|)
  {
    hide SlotOf, NameOf, SpecFor, Stage, Staged, Between, ValidPlan, OnlyDiffers, CutOff, Recreation;
    ghost var before := kube.objects;
    BetweenIsStage(context, dcs, plan, start, before, k);
    ok := false;
    var name, spec := Prepare(context, dcs, slot);
    if spec.None? {
      return;
    }
    ok := Recreate(kube, name, spec.value);
    SlotChangesStage(context, dcs, plan, start, before, kube.objects, k);
    forall h | |old(kube.history)| <= h < |kube.history|
      ensures Staged(context, dcs, plan, start, kube.history[h])
    {
      SlotChangesStage(context, dcs, plan, start, before, kube.history[h], k);
    }
    SlotDone(context, dcs, plan, start, kube.objects, k);
  }

  /** What the step reads before the replicas of a data center; it panics where it is missing. */
  predicate Readable(context: Context, d: nat) {
    context.seeds.Some? && NodesVar(d) in context.nodes
  }

  /** An abort has a cause: a data center that cannot be read, or the slot at hand. before is the log of the
      slots that were done. */
  ghost predicate Explained(mishap: nat -> Mishap, context: Context, dcs: seq<DataCenter>, plan: seq<Slot>,
                            done: nat, before: seq<Call>, log: seq<Call>) {
    || (done < |plan| && Excused(mishap, context, dcs, plan[done], before, log))
    || (log == before && exists d :: 0 <= d < |dcs| && !Readable(context, d) && done == |Slots(dcs, d)|)
  }

  /** The inner loop, which has done before it already. */
  method RollDataCenter(kube: Kube, context: Context, dcs: seq<DataCenter>, d: nat, before: nat,
                        ghost plan: seq<Slot>, ghost start: Objects, ghost log: seq<Call>)
    returns (ok: bool, done: nat)
    requires AllDeployed(dcs) && d < |dcs| && before == |Slots(dcs, d)|
    requires plan == Slots(dcs, |dcs|) && ValidPlan(dcs, plan)
    requires Between(context, dcs, plan, start, kube.objects, before)
    requires before <= |plan| && kube.log == log + PlanCalls(context, dcs, plan, before)
    modifies kube
    ensures before <= done <= |plan| && (ok ==> done == |Slots(dcs, d + 1)|)
    ensures ok ==> Between(context, dcs, plan, start, kube.objects, done)
    ensures Stage(context, dcs, plan, start, kube.objects, done)
    ensures ok ==> kube.log == log + PlanCalls(context, dcs, plan, done)
    ensures !ok ==>
              Explained(kube.mishap, context, dcs, plan, done, log + PlanCalls(context, dcs, plan, done), kube.log)
    ensures ok ==> Readable(context, d)
    ensures old(kube.history) <= kube.history
    ensures HistoryStaged(context, dcs, plan, start, kube.history, |old(kube.history)|)
  {
    hide Stage, Between, HistoryStaged, NameOf, SlotOf, SpecFor, Active, Excused, SlotCalls, ValidPlan, Slots;
    hide PlanCalls;
    hide Readable;
    ghost var already := kube.history;
    HistoryGrows(context, dcs, plan, start, already, already, |already|);
    BetweenIsStage(context, dcs, plan, start, kube.objects, before);
    SlotCount(dcs, d);
    done := before;
    if !Readable(context, d) {
      return false, done;
    }
    var active := GetActiveReplicas(dcs[d]);
    for i := 0 to |active|
      invariant done == before + i <= |plan|
      invariant Between(context, dcs, plan, start, kube.objects, done)
      invariant Stage(context, dcs, plan, start, kube.objects, done)
      invariant kube.log == log + PlanCalls(context, dcs, plan, done)
      invariant already <= kube.history
      invariant HistoryStaged(context, dcs, plan, start, kube.history, |already|)
    {
      PlanAt(dcs, d, i);
      PlanCallsStep(context, dcs, plan, done);
      ghost var earlier := kube.history;
      ok := RollSlot(kube, context, dcs, Slot(d, i), plan, start, done);
      HistoryGrows(context, dcs, plan, start, earlier, kube.history, |already|);
      if !ok {
        return;
      }
      done := done + 1;
      BetweenIsStage(context, dcs, plan, start, kube.objects, done);
    }
    ok := true;
  }

  /** The whole step. done is how many StatefulSets were rolled before it ended or panicked. */
  method Execute(kube: Kube, context: Context, dataCenters: seq<DataCenter>) returns (ok: bool, done: nat)
    modifies kube
    ensures var dcs := Deployed(dataCenters);
            var plan := Slots(dcs, |dcs|);
            && ValidPlan(dcs, plan)
            && done <= |plan|
            && (ok ==> done == |plan| && kube.log == old(kube.log) + PlanCalls(context, dcs, plan, done))
            && (ok ==> forall d :: 0 <= d < |dcs| ==> Readable(context, d))
            && (!ok ==> Explained(kube.mishap, context, dcs, plan, done,
                                  old(kube.log) + PlanCalls(context, dcs, plan, done), kube.log))
            && Stage(context, dcs, plan, old(kube.objects), kube.objects, done)
            && old(kube.history) <= kube.history
            && HistoryStaged(context, dcs, plan, old(kube.objects), kube.history, |old(kube.history)|)
  {
    hide Stage, Between, HistoryStaged, NameOf, SlotOf, SpecFor, Active, Explained, PlanCalls, Readable, Slots;
    hide ValidPlan;
    var dcs := FilterDC(dataCenters, IsDeployed);
    ghost var plan := Slots(dcs, |dcs|);
    PlanIsValid(dcs);
    ghost var start, already, log := kube.objects, kube.history, kube.log;
    StartsBetween(context, dcs, plan, start);
    PlanStart(context, dcs, plan);
    HistoryGrows(context, dcs, plan, start, already, already, |already|);
    BetweenIsStage(context, dcs, plan, start, start, 0);
    done := 0;
    for d := 0 to |dcs|
      invariant done == |Slots(dcs, d)| && done <= |plan|
      invariant Between(context, dcs, plan, start, kube.objects, done)
      invariant Stage(context, dcs, plan, start, kube.objects, done)
      invariant kube.log == log + PlanCalls(context, dcs, plan, done)
      invariant already <= kube.history
      invariant HistoryStaged(context, dcs, plan, start, kube.history, |already|)
      invariant forall e :: 0 <= e < d ==> Readable(context, e)
    {
      ghost var earlier := kube.history;
      ok, done := RollDataCenter(kube, context, dcs, d, done, plan, start, log);
      HistoryGrows(context, dcs, plan, start, earlier, kube.history, |already|);
      if !ok {
        return;
      }
    }
    ok := true;
  }

  lemma PlanStart(context: Context, dcs: seq<DataCenter>, plan: seq<Slot>)
    ensures Slots(dcs, 0) == [] && PlanCalls(context, dcs, plan, 0) == []
  {
  }

  lemma PlanCallsStep(context: Context, dcs: seq<DataCenter>, plan: seq<Slot>, n: nat)
    requires n < |plan|
    ensures PlanCalls(context, dcs, plan, n + 1) == PlanCalls(context, dcs, plan, n) + SlotCalls(context, dcs, plan[n])
  {
  }

  lemma SlotCount(dcs: seq<DataCenter>, d: nat)
    requires d < |dcs|
    ensures |Slots(dcs, d + 1)| == |Slots(dcs, d)| + |Active(dcs[d])| <= |Slots(dcs, |dcs|)|
  {
    hide Active;
    PlanPrefix(dcs, d + 1, |dcs|);
  }

  lemma BetweenIsStage(context: Context, dcs: seq<DataCenter>, plan: seq<Slot>, start: Objects, now: Objects, k: nat)
    requires ValidPlan(dcs, plan) && Between(context, dcs, plan, start, now, k)
    ensures Stage(context, dcs, plan, start, now, k)
  {
  }

  lemma HistoryGrows(context: Context, dcs: seq<DataCenter>, plan: seq<Slot>, start: Objects,
                     before: seq<Objects>, after: seq<Objects>, from: nat)
    requires ValidPlan(dcs, plan) && from <= |before| && before <= after
    requires from < |before| ==> HistoryStaged(context, dcs, plan, start, before, from)
    requires |before| < |after| ==> HistoryStaged(context, dcs, plan, start, after, |before|)
    ensures HistoryStaged(context, dcs, plan, start, after, from)
  {
  }

  lemma PlanIsValid(dcs: seq<DataCenter>)
    requires AllDeployed(dcs)
    ensures ValidPlan(dcs, Slots(dcs, |dcs|))
  {
    var plan := Slots(dcs, |dcs|);
    SlotsInPlan(dcs, |dcs|);
    forall j, k | 0 <= j < k < |plan|
      ensures NameOf(dcs, plan[j]) != NameOf(dcs, plan[k])
    {
      if NameOf(dcs, plan[j]) == NameOf(dcs, plan[k]) {
        NamesApart(dcs, plan[j], plan[k]);
      }
    }
  }

  lemma StartsBetween(context: Context, dcs: seq<DataCenter>, plan: seq<Slot>, start: Objects)
    requires ValidPlan(dcs, plan)
    ensures Between(context, dcs, plan, start, start, 0)
  {
  }

  /** The slot at position i of data center d comes after those of the data centers before it. */
  lemma {:induction false} PlanPrefix(dcs: seq<DataCenter>, d: nat, n: nat)
    requires d <= n <= |dcs|
    ensures Slots(dcs, d) <= Slots(dcs, n)
  {
    if d < n {
      PlanPrefix(dcs, d, n - 1);
    }
  }

  lemma PlanAt(dcs: seq<DataCenter>, d: nat, i: nat)
    requires d < |dcs| && i < |Active(dcs[d])|
    ensures SlotOf(dcs, Slot(d, i))
    ensures |Slots(dcs, d)| + i < |Slots(dcs, |dcs|)|
    ensures Slots(dcs, |dcs|)[|Slots(dcs, d)| + i] == Slot(d, i)
  {
    PlanPrefix(dcs, d + 1, |dcs|);
    assert Slots(dcs, d + 1)[|Slots(dcs, d)| + i] == DcSlots(dcs, d)[i];
  }
}
