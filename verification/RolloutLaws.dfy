/** What a rollout leaves behind: which rack, data center, number, seeds and claims each StatefulSet has, and when a
    rollout comes to its end. */
module RolloutLaws {
  import opened Text
  import opened Topology
  import opened Validation
  import opened Claims
  import opened Rollout

  // ---------- What each StatefulSet is ----------

  /** replica is the i-th of its turn, the turn after m whole ones of n. */
  predicate IsInTurn(replica: nat, i: nat, m: nat, n: nat) {
    replica == i + m * n
  }

  /** The racks of a data center are given out in turn, by replica number; without racks all are in one. */
  ghost predicate RackInTurn(racks: seq<string>, replica: nat, rack: string) {
    && (racks == [] ==> rack == "rack1")
    && forall i: nat, m: nat :: i < |racks| && IsInTurn(replica, i, m, |racks|) ==> rack == racks[i]
  }

  /** The object of an active replica: ready, with its number, its own data center, its rack in turn, and the seeds
      of the whole cluster. */
  ghost predicate RolledOut(context: Context, dcs: seq<DataCenter>, now: Objects, d: nat, replica: nat)
    requires d < |dcs|
  {
    var name := StatefulSetName(Base(dcs, d) + replica);
    && name in now && now[name].ready
    && now[name].spec.replicaNumber == Base(dcs, d) + replica
    && now[name].spec.dcName == dcs[d].name
    && Some(now[name].spec.seeds) == context.seeds
    && RackInTurn(dcs[d].racks, replica, now[name].spec.rack)
  }

  lemma {:induction false} TurnOf(i: nat, m: nat, n: nat)
    requires i < n
    ensures (i + m * n) % n == i
  {
    if m > 0 {
      TurnOf(i, m - 1, n);
      assert i + m * n == (i + (m - 1) * n) + n;
      OneTurnMore(i + (m - 1) * n, n);
    }
  }

  lemma OneTurnMore(x: nat, n: nat)
    requires n > 0
    ensures (x + n) % n == x % n
  {
    var q := x / n;
    assert x == q * n + x % n;
    assert x + n == (q + 1) * n + x % n;
    Quotient(x + n, n, q + 1, x % n);
  }

  lemma {:induction false} Larger(p: nat, q: nat, n: nat)
    requires p < q
    ensures q * n >= p * n + n
  {
    if p < q - 1 {
      Larger(p, q - 1, n);
    }
    assert q * n == (q - 1) * n + n;
  }

  lemma Quotient(x: nat, n: nat, q: nat, r: nat)
    requires n > 0 && x == q * n + r && r < n
    ensures x % n == r
  {
    var p := x / n;
    if p < q {
      Larger(p, q, n);
    } else if q < p {
      Larger(q, p, n);
    }
  }

  /** After a completed rollout every active replica of every data center has its object. */
  lemma CompletedObjects(context: Context, dcs: seq<DataCenter>, start: Objects, now: Objects, d: nat, replica: nat)
    requires AllDeployed(dcs) && d < |dcs| && replica in Active(dcs[d])
    requires ValidPlan(dcs, Slots(dcs, |dcs|))
    requires Stage(context, dcs, Slots(dcs, |dcs|), start, now, |Slots(dcs, |dcs|)|)
    ensures RolledOut(context, dcs, now, d, replica)
  {
    hide Active, Base, Mounts, Decimal, Addressed, StatefulSetName, Slots, ValidPlan, RackInTurn;
    var plan := Slots(dcs, |dcs|);
    var i :| 0 <= i < |Active(dcs[d])| && Active(dcs[d])[i] == replica;
    PlanAt(dcs, d, i);
    var k := |Slots(dcs, d)| + i;
    assert plan[k] == Slot(d, i) && ReplicaOf(dcs, plan[k]) == replica;
    assert now[NameOf(dcs, plan[k])] == StatefulSet(SpecFor(context, dcs, plan[k]).value, true);
    RackIsInTurn(dcs[d], replica);
  }

  lemma RackIsInTurn(dc: DataCenter, replica: nat)
    ensures RackInTurn(dc.racks, replica, RackOf(dc, replica))
  {
    forall i: nat, m: nat | i < |dc.racks| && IsInTurn(replica, i, m, |dc.racks|)
      ensures RackOf(dc, replica) == dc.racks[i]
    {
      TurnOf(i, m, |dc.racks|);
    }
  }

  /** Two replicas of a data center whose racks have different names share a rack exactly when their numbers agree
      modulo the number of racks. */
  lemma SharedRackExactly(context: Context, dcs: seq<DataCenter>, now: Objects, d: nat, r: nat, q: nat)
    requires d < |dcs| && dcs[d].racks != []
    requires forall i, j :: 0 <= i < j < |dcs[d].racks| ==> dcs[d].racks[i] != dcs[d].racks[j]
    requires RolledOut(context, dcs, now, d, r) && RolledOut(context, dcs, now, d, q)
    ensures now[StatefulSetName(Base(dcs, d) + r)].spec.rack == now[StatefulSetName(Base(dcs, d) + q)].spec.rack <==>
            r % |dcs[d].racks| == q % |dcs[d].racks|
  {
    hide StatefulSetName, Base;
    var n := |dcs[d].racks|;
    assert IsInTurn(r, r % n, r / n, n) && IsInTurn(q, q % n, q / n, n);
    assert now[StatefulSetName(Base(dcs, d) + r)].spec.rack == dcs[d].racks[r % n];
    assert now[StatefulSetName(Base(dcs, d) + q)].spec.rack == dcs[d].racks[q % n];
  }

  /** What the claims of the plan make of it: each object mounts its own claims, one for each storage. */
  lemma CompletedMounts(context: Context, dcs: seq<DataCenter>, start: Objects, now: Objects, d: nat, replica: nat)
    requires AllDeployed(dcs) && d < |dcs| && replica in Active(dcs[d]) && Planned(context, dcs)
    requires forall e :: 0 <= e < |dcs| ==> Acceptable(dcs[e])
    requires ValidPlan(dcs, Slots(dcs, |dcs|))
    requires Stage(context, dcs, Slots(dcs, |dcs|), start, now, |Slots(dcs, |dcs|)|)
    ensures var name := StatefulSetName(Base(dcs, d) + replica);
            name in now && OwnClaims(now[name].spec.claims, dcs[d], d, replica, |dcs[d].storage|)
  {
    hide Active, Base, Mounts, Decimal, Addressed, StatefulSetName, Slots, ValidPlan, RackOf, OwnClaims, Planned;
    hide Acceptable;
    var plan := Slots(dcs, |dcs|);
    var i :| 0 <= i < |Active(dcs[d])| && Active(dcs[d])[i] == replica;
    PlanAt(dcs, d, i);
    var k := |Slots(dcs, d)| + i;
    assert plan[k] == Slot(d, i) && ReplicaOf(dcs, plan[k]) == replica;
    assert now[NameOf(dcs, plan[k])] == StatefulSet(SpecFor(context, dcs, plan[k]).value, true);
    ClaimsAligned(context, dcs, d, i, d, i);
  }

  // ---------- When a rollout completes ----------

  /** What the rollout reads of a data center is there: the seeds, its node variable, and for its active replicas
      every address of a list that is given, and claims and mount settings for every storage. */
  ghost predicate Preparable(context: Context, dcs: seq<DataCenter>, d: nat)
    requires d < |dcs|
  {
    && context.seeds.Some? && NodesVar(d) in context.nodes
    && (Active(dcs[d]) != [] ==>
          forall s :: 0 <= s < |dcs[d].storage| ==>
            Stored(context, ContextKey(d, s)) != [] && MountOf(dcs[d].storage[s]).Some?)
    && forall i, replica :: 0 <= i < |dcs[d].addresses| && dcs[d].addresses[i] != [] && replica in Active(dcs[d]) ==>
         replica < |dcs[d].addresses[i]|
  }

  lemma {:induction false} MountsExactly(context: Context, dcs: seq<DataCenter>, d: nat, i: nat, n: nat)
    requires d < |dcs| && n <= |dcs[d].storage|
    ensures Mounts(context, dcs, d, i, n).Some? <==>
            forall s :: 0 <= s < n ==> Stored(context, ContextKey(d, s)) != [] && MountOf(dcs[d].storage[s]).Some?
  {
    hide ContextKey, Stored;
    if n > 0 {
      MountsExactly(context, dcs, d, i, n - 1);
    }
  }

  lemma SlotPreparable(context: Context, dcs: seq<DataCenter>, slot: Slot)
    requires SlotOf(dcs, slot)
    ensures SpecFor(context, dcs, slot).Some? <==>
            && context.seeds.Some?
            && (forall s :: 0 <= s < |dcs[slot.dc].storage| ==>
                  Stored(context, ContextKey(slot.dc, s)) != [] && MountOf(dcs[slot.dc].storage[s]).Some?)
            && forall i :: 0 <= i < |dcs[slot.dc].addresses| && dcs[slot.dc].addresses[i] != [] ==>
                 ReplicaOf(dcs, slot) < |dcs[slot.dc].addresses[i]|
  {
    hide Active, Mounts, RackOf, ContextKey, Stored;
    MountsExactly(context, dcs, slot.dc, slot.position, |dcs[slot.dc].storage|);
  }

  /** When every Kubernetes call succeeds, a rollout completes exactly when all that it reads is there. */
  lemma CalmRolloutCompletes(mishap: nat -> Mishap, context: Context, dcs: seq<DataCenter>, ok: bool, done: nat,
                             before: seq<Call>, log: seq<Call>, start: Objects, now: Objects)
    requires (forall n :: mishap(n).Fine?) && ValidPlan(dcs, Slots(dcs, |dcs|)) && done <= |Slots(dcs, |dcs|)|
    requires Stage(context, dcs, Slots(dcs, |dcs|), start, now, done)
    requires ok ==> done == |Slots(dcs, |dcs|)| && forall d :: 0 <= d < |dcs| ==> Readable(context, d)
    requires !ok ==> Explained(mishap, context, dcs, Slots(dcs, |dcs|), done,
                               before + PlanCalls(context, dcs, Slots(dcs, |dcs|), done), log)
    ensures ok <==> forall d :: 0 <= d < |dcs| ==> Preparable(context, dcs, d)
  {
    hide Active, Readable, Preparable, SpecFor, Slots, ValidPlan, PlanCalls, NameOf, SlotCalls;
    var plan := Slots(dcs, |dcs|);
    if ok {
      forall d | 0 <= d < |dcs|
        ensures Preparable(context, dcs, d)
      {
        DataCenterPrepared(context, dcs, d, start, now);
      }
    } else if done < |plan| && Excused(mishap, context, dcs, plan[done],
                                       before + PlanCalls(context, dcs, plan, done), log) {
      SlotsInPlan(dcs, |dcs|);
      SlotUnprepared(context, dcs, plan[done]);
    } else {
      var d :| 0 <= d < |dcs| && !Readable(context, d);
      UnreadableUnprepared(context, dcs, d);
    }
  }

  lemma DataCenterPrepared(context: Context, dcs: seq<DataCenter>, d: nat, start: Objects, now: Objects)
    requires d < |dcs| && Readable(context, d) && ValidPlan(dcs, Slots(dcs, |dcs|))
    requires Stage(context, dcs, Slots(dcs, |dcs|), start, now, |Slots(dcs, |dcs|)|)
    ensures Preparable(context, dcs, d)
  {
    hide Active, SpecFor, Slots, ValidPlan, NameOf, ContextKey, Stored;
    var plan := Slots(dcs, |dcs|);
    forall p | 0 <= p < |Active(dcs[d])|
      ensures SpecFor(context, dcs, Slot(d, p)).Some?
    {
      PlanAt(dcs, d, p);
      assert SpecFor(context, dcs, plan[|Slots(dcs, d)| + p]).Some?;
    }
    if Active(dcs[d]) != [] {
      SlotPreparable(context, dcs, Slot(d, 0));
    }
    forall i, replica | 0 <= i < |dcs[d].addresses| && dcs[d].addresses[i] != [] && replica in Active(dcs[d])
      ensures replica < |dcs[d].addresses[i]|
    {
      var p :| 0 <= p < |Active(dcs[d])| && Active(dcs[d])[p] == replica;
      SlotPreparable(context, dcs, Slot(d, p));
    }
  }

  lemma SlotUnprepared(context: Context, dcs: seq<DataCenter>, slot: Slot)
    requires SlotOf(dcs, slot) && SpecFor(context, dcs, slot).None?
    ensures !Preparable(context, dcs, slot.dc)
  {
    hide Active, SpecFor, ContextKey, Stored;
    SlotPreparable(context, dcs, slot);
    assert ReplicaOf(dcs, slot) in Active(dcs[slot.dc]);
  }

  lemma UnreadableUnprepared(context: Context, dcs: seq<DataCenter>, d: nat)
    requires d < |dcs| && !Readable(context, d)
    ensures !Preparable(context, dcs, d)
  {
  }

  /** Over the planned claims of an acceptable schema that comes down to the seeds and the address lists. */
  lemma PlannedIsPreparable(context: Context, dcs: seq<DataCenter>, d: nat)
    requires Planned(context, dcs) && d < |dcs| && Acceptable(dcs[d])
    ensures Preparable(context, dcs, d) <==>
            context.seeds.Some? &&
            forall i, replica ::
              0 <= i < |dcs[d].addresses| && dcs[d].addresses[i] != [] && replica in Active(dcs[d]) ==>
                replica < |dcs[d].addresses[i]|
  {
    hide Active, ContextKey, ClaimNames, NodesVar;
    forall s | 0 <= s < |dcs[d].storage| && Active(dcs[d]) != []
      ensures Stored(context, ContextKey(d, s)) != [] && MountOf(dcs[d].storage[s]).Some?
    {
      ClaimNamesLength(d, s, Active(dcs[d]));
      assert Mounted(dcs[d].storage[s]);
    }
  }
}
