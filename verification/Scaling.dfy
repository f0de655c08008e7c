/** Removing nodes: the numbers the removal step deletes against the numbers the rollout creates.
    One side compares printed numbers with the removal keys, the other parses the keys. */
module Scaling {
  import opened Text
  import opened Topology
  import opened Claims
  import opened Rollout

  // ---------- strconv.Atoi ----------

  const MaxInt := 0x7fff_ffff_ffff_ffff

  function Unsigned(s: string): Option<nat> {
    if s == "" || !AllDigits(s) then None else Some(DecimalValue(s))
  }

  /** An optional sign, digits, and a value that fits 64 bits. */
  function Atoi(s: string): Option<int> {
    if s != "" && s[0] == '-' then
      var n := Unsigned(s[1..]);
      if n.None? || n.value > MaxInt + 1 then None else Some(0 - n.value)
    else
      var n := Unsigned(if s != "" && s[0] == '+' then s[1..] else s);
      if n.None? || n.value > MaxInt then None else Some(n.value)
  }

  lemma AtoiReadsDecimal(n: nat)
    requires n <= MaxInt
    ensures Atoi(Decimal(n)) == Some(n)
  {
    DecimalRoundTrip(n);
    assert IsDigit(Decimal(n)[0]);
  }

  // ---------- Numbers created and deleted ----------

  /** The numbers of the StatefulSets the rollout creates. */
  function CreatedNumbers(dcs: seq<DataCenter>): set<int> {
    set d, r | 0 <= d < |dcs| && 0 <= r < dcs[d].replicas && !Removed(dcs[d], r) :: Base(dcs, d) + r
  }

  /** The numbers the removal step deletes. */
  function DeletedNumbers(dcs: seq<DataCenter>): set<int> {
    set d, k | 0 <= d < |dcs| && k in RemovalKeys(dcs[d]) && Atoi(k).Some? :: Base(dcs, d) + Atoi(k).value
  }

  /** The number a key stands for, in the count over all data centers. */
  predicate KeyIs(dcs: seq<DataCenter>, d: nat, key: string, number: int) {
    d < |dcs| && key in RemovalKeys(dcs[d]) && Atoi(key).Some? && Base(dcs, d) + Atoi(key).value == number
  }

  /** Some removed replica, of whatever data center, has this number. */
  ghost predicate IsRemovedReplica(dcs: seq<DataCenter>, number: int) {
    exists e, r :: 0 <= e < |dcs| && 0 <= r < dcs[e].replicas && Removed(dcs[e], r) && Base(dcs, e) + r == number
  }

  ghost predicate KeysMeanRemoved(dcs: seq<DataCenter>) {
    forall d, k :: 0 <= d < |dcs| && k in RemovalKeys(dcs[d]) && Atoi(k).Some? ==>
      IsRemovedReplica(dcs, Base(dcs, d) + Atoi(k).value)
  }

  /** No key has the number of an active replica. */
  ghost predicate KeysSpareActive(dcs: seq<DataCenter>) {
    forall d, k :: 0 <= d < |dcs| && k in RemovalKeys(dcs[d]) && Atoi(k).Some? ==>
      Base(dcs, d) + Atoi(k).value !in CreatedNumbers(dcs)
  }

  lemma ActiveExactly(dc: DataCenter)
    ensures forall r: nat :: r in Active(dc) <==> r < dc.replicas && !Removed(dc, r)
  {
    ActiveBelowExact(dc, dc.replicas);
  }

  lemma CreatedAreSlots(dcs: seq<DataCenter>, number: int)
    requires AllDeployed(dcs)
    ensures number in CreatedNumbers(dcs) <==>
            exists slot :: SlotOf(dcs, slot) && ReplicaIndex(dcs, slot.dc, ReplicaOf(dcs, slot)) == number
  {
    hide Active, Removed, Base;
    if number in CreatedNumbers(dcs) {
      var d, r :| 0 <= d < |dcs| && 0 <= r < dcs[d].replicas && !Removed(dcs[d], r) && number == Base(dcs, d) + r;
      ActiveExactly(dcs[d]);
      assert r in Active(dcs[d]);
      var i :| 0 <= i < |Active(dcs[d])| && Active(dcs[d])[i] == r;
      assert ReplicaOf(dcs, Slot(d, i)) == r;
    }
    if slot :| SlotOf(dcs, slot) && ReplicaIndex(dcs, slot.dc, ReplicaOf(dcs, slot)) == number {
      ActiveExactly(dcs[slot.dc]);
      assert ReplicaOf(dcs, slot) in Active(dcs[slot.dc]);
      assert number == Base(dcs, slot.dc) + ReplicaOf(dcs, slot);
    }
  }

  /** Every number of a replica is created or deleted, whatever the keys are, and what is created is one. */
  lemma EveryNumberHandled(dcs: seq<DataCenter>)
    ensures forall n :: 0 <= n < Base(dcs, |dcs|) ==> n in CreatedNumbers(dcs) || n in DeletedNumbers(dcs)
    ensures forall n :: n in CreatedNumbers(dcs) ==> 0 <= n < Base(dcs, |dcs|)
  {
    hide Atoi, Decimal, RemovalKeys, Base;
    forall n | 0 <= n < Base(dcs, |dcs|)
      ensures n in CreatedNumbers(dcs) || n in DeletedNumbers(dcs)
    {
      var d, r := NumberingOnto(dcs, |dcs|, n);
      if Removed(dcs[d], r) {
        AtoiReadsDecimal(r);
        assert Decimal(r) in RemovalKeys(dcs[d]) && Atoi(Decimal(r)).value == r;
      }
    }
    forall n | n in CreatedNumbers(dcs)
      ensures 0 <= n < Base(dcs, |dcs|)
    {
      var d, r :| 0 <= d < |dcs| && 0 <= r < dcs[d].replicas && !Removed(dcs[d], r) && n == Base(dcs, d) + r;
      BaseMonotone(dcs, d, |dcs|);
    }
  }

  /** A number is a removed replica's exactly when it is in range and not created. */
  lemma RemovedExactly(dcs: seq<DataCenter>, number: int)
    ensures IsRemovedReplica(dcs, number) <==> 0 <= number < Base(dcs, |dcs|) && number !in CreatedNumbers(dcs)
  {
    hide Atoi, Decimal, RemovalKeys, Base;
    if IsRemovedReplica(dcs, number) {
      var e, r :| 0 <= e < |dcs| && 0 <= r < dcs[e].replicas && Removed(dcs[e], r) && Base(dcs, e) + r == number;
      BaseMonotone(dcs, e, |dcs|);
      if number in CreatedNumbers(dcs) {
        var d, q :| 0 <= d < |dcs| && 0 <= q < dcs[d].replicas && !Removed(dcs[d], q) && number == Base(dcs, d) + q;
        NumberingInjective(dcs, d, q, e, r);
      }
    }
    if 0 <= number < Base(dcs, |dcs|) && number !in CreatedNumbers(dcs) {
      var d, r := NumberingOnto(dcs, |dcs|, number);
      assert Removed(dcs[d], r);
    }
  }

  /** Created and deleted numbers are apart exactly when no key has the number of an active replica. */
  lemma ApartExactly(dcs: seq<DataCenter>)
    ensures CreatedNumbers(dcs) !! DeletedNumbers(dcs) <==> KeysSpareActive(dcs)
  {
    hide Atoi, RemovalKeys, Base, CreatedNumbers;
    if CreatedNumbers(dcs) !! DeletedNumbers(dcs) {
      forall d, k | 0 <= d < |dcs| && k in RemovalKeys(dcs[d]) && Atoi(k).Some?
        ensures Base(dcs, d) + Atoi(k).value !in CreatedNumbers(dcs)
      {
        assert Base(dcs, d) + Atoi(k).value in DeletedNumbers(dcs);
      }
    }
  }

  /** For any schema and any keys, created and removed numbers split the range of all replicas, each number
      in exactly one part and none outside, if and only if every key that is a number means a removed replica. */
  lemma CreatedAndRemovedPartition(dcs: seq<DataCenter>)
    ensures (forall n :: n in CreatedNumbers(dcs) || n in DeletedNumbers(dcs) <==> 0 <= n < Base(dcs, |dcs|)) &&
            CreatedNumbers(dcs) !! DeletedNumbers(dcs) <==>
            KeysMeanRemoved(dcs)
  {
    hide Atoi, RemovalKeys, Base, CreatedNumbers, IsRemovedReplica;
    EveryNumberHandled(dcs);
    ApartExactly(dcs);
    forall d, k | 0 <= d < |dcs| && k in RemovalKeys(dcs[d]) && Atoi(k).Some?
      ensures var number := Base(dcs, d) + Atoi(k).value;
              && number in DeletedNumbers(dcs)
              && (IsRemovedReplica(dcs, number) <==>
                  0 <= number < Base(dcs, |dcs|) && number !in CreatedNumbers(dcs))
    {
      RemovedExactly(dcs, Base(dcs, d) + Atoi(k).value);
    }
  }

  // ---------- Keys in the range of their own data center ----------

  /** Every key is the number of a replica of its own data center, in whatever notation. */
  predicate KeysInRange(dcs: seq<DataCenter>) {
    forall d, k :: 0 <= d < |dcs| && k in RemovalKeys(dcs[d]) ==>
      Atoi(k).Some? && 0 <= Atoi(k).value < dcs[d].replicas
  }

  /** A key in another notation, such as a leading zero or plus sign, comes with the plain one. */
  predicate KeysCanonical(dcs: seq<DataCenter>)
    requires KeysInRange(dcs)
  {
    forall d, k :: 0 <= d < |dcs| && k in RemovalKeys(dcs[d]) ==> Decimal(Atoi(k).value) in RemovalKeys(dcs[d])
  }

  /** Among keys in range, exactly the canonical ones mean removed replicas. */
  lemma InRangeMeansCanonical(dcs: seq<DataCenter>)
    requires KeysInRange(dcs)
    ensures KeysMeanRemoved(dcs) <==> KeysCanonical(dcs)
  {
    hide Atoi, Decimal, RemovalKeys, Base;
    forall d, k | 0 <= d < |dcs| && k in RemovalKeys(dcs[d])
      ensures IsRemovedReplica(dcs, Base(dcs, d) + Atoi(k).value) <==> Decimal(Atoi(k).value) in RemovalKeys(dcs[d])
    {
      var q: nat := Atoi(k).value;
      if Removed(dcs[d], q) {
        assert IsRemovedReplica(dcs, Base(dcs, d) + q);
      }
      if IsRemovedReplica(dcs, Base(dcs, d) + q) {
        var e, r :| 0 <= e < |dcs| && 0 <= r < dcs[e].replicas && Removed(dcs[e], r) &&
                    Base(dcs, e) + r == Base(dcs, d) + q;
        NumberingInjective(dcs, d, q, e, r);
      }
    }
  }

  // ---------- Keys out of it ----------

  /** A key whose number is in the range of all replicas deletes a replica: of an earlier data center when
      the key is negative, of a later one when it is not below its own replica count. Unless that replica is
      removed itself, it is one the rollout creates. */
  lemma KeyHits(dcs: seq<DataCenter>, d: nat, key: string) returns (e: nat, r: nat)
    requires d < |dcs| && key in RemovalKeys(dcs[d]) && Atoi(key).Some?
    requires 0 <= Base(dcs, d) + Atoi(key).value < Base(dcs, |dcs|)
    ensures e < |dcs| && r < dcs[e].replicas && KeyIs(dcs, d, key, Base(dcs, e) + r)
    ensures e < d <==> Atoi(key).value < 0
    ensures d < e <==> dcs[d].replicas <= Atoi(key).value
    ensures Base(dcs, e) + r in CreatedNumbers(dcs) <==> !Removed(dcs[e], r)
    ensures Base(dcs, e) + r in DeletedNumbers(dcs)
  {
    hide Atoi, Decimal, RemovalKeys, Base;
    e, r := NumberingOnto(dcs, |dcs|, Base(dcs, d) + Atoi(key).value);
    if e < d {
      BaseMonotone(dcs, e, d);
    } else if d < e {
      BaseMonotone(dcs, d, e);
    }
    if Removed(dcs[e], r) {
      assert IsRemovedReplica(dcs, Base(dcs, e) + r);
    }
    RemovedExactly(dcs, Base(dcs, e) + r);
  }

  function PlainDc(replicas: Count, removed: set<string>): DataCenter {
    DataCenter(true, "dc", "", replicas, 1, None, Some([map k | k in removed :: "host-id"]), [], [], [])
  }

  /** The key 3 of a data center with three replicas deletes the first replica of the next one. */
  lemma KeyOutOfRangeHitsNeighbour()
    ensures var dcs := [PlainDc(3, {"3"}), PlainDc(1, {})];
            3 in CreatedNumbers(dcs) && 3 in DeletedNumbers(dcs)
  {
    var dcs := [PlainDc(3, {"3"}), PlainDc(1, {})];
    assert "3" in dcs[0].removeNodes.value[0];
    assert "3" in RemovalKeys(dcs[0]);
    assert Decimal(3) == "3";
    AtoiReadsDecimal(3);
    assert Base(dcs, 0) == 0 && Base(dcs, 1) == Base(dcs, 0) + 3 && Base(dcs, 2) == Base(dcs, 1) + 1;
    assert RemovalKeys(dcs[1]) == {};
    var e, r := KeyHits(dcs, 0, "3");
    assert !Removed(dcs[1], r);
  }

  // ---------- The step ----------

  function KeyName(dcs: seq<DataCenter>, d: nat, key: string): string
    requires d < |dcs| && Atoi(key).Some?
  {
    StatefulSetName(ReplicaIndex(dcs, d, Atoi(key).value))
  }

  function Doomed(dcs: seq<DataCenter>): set<string> {
    set d, k | 0 <= d < |dcs| && k in RemovalKeys(dcs[d]) && Atoi(k).Some? :: KeyName(dcs, d, k)
  }

  /** Objects of other names are as they were. */
  ghost predicate Spares(before: Objects, after: Objects, names: set<string>) {
    before - names == after - names
  }

  /** One entry of a removal map, by its data center and key. */
  datatype Removal = Removal(dc: nat, key: string)

  predicate RemovalOf(dcs: seq<DataCenter>, r: Removal) {
    r.dc < |dcs| && r.key in RemovalKeys(dcs[r.dc])
  }

  /** What an entry takes; nothing when its key is not a number. */
  function NodeCalls(dcs: seq<DataCenter>, r: Removal): seq<Call> {
    if r.dc < |dcs| && Atoi(r.key).Some? then [Deletion(KeyName(dcs, r.dc, r.key)), Listing] else []
  }

  function RemovalCalls(dcs: seq<DataCenter>, order: seq<Removal>): seq<Call> {
    if order == [] then []
    else RemovalCalls(dcs, order[..|order| - 1]) + NodeCalls(dcs, order[|order| - 1])
  }

  lemma RemovalCallsStep(dcs: seq<DataCenter>, order: seq<Removal>, r: Removal)
    ensures RemovalCalls(dcs, order + [r]) == RemovalCalls(dcs, order) + NodeCalls(dcs, r)
  {
    hide NodeCalls;
    assert (order + [r])[..|order|] == order;
  }

  /** A panic has a cause: an entry whose key is not a number, or whose last call failed. */
  ghost predicate Blocked(mishap: nat -> Mishap, dcs: seq<DataCenter>, r: Removal, before: seq<Call>, log: seq<Call>) {
    RemovalOf(dcs, r) &&
    if Atoi(r.key).None? then log == before else CutOff(mishap, before, NodeCalls(dcs, r), log)
  }

  /** One entry. The removal of the node from the ring may fail; the source goes on all the same. */
  method RemoveNode(kube: Kube, dcs: seq<DataCenter>, r: Removal) returns (ok: bool)
    requires RemovalOf(dcs, r)
    modifies kube
    ensures ok ==> Atoi(r.key).Some? && KeyName(dcs, r.dc, r.key) !in kube.objects
    ensures ok ==> kube.log == old(kube.log) + NodeCalls(dcs, r)
    ensures !ok ==> Blocked(kube.mishap, dcs, r, old(kube.log), kube.log)
    ensures Spares(old(kube.objects), kube.objects, Doomed(dcs))
    ensures kube.objects.Keys <= old(kube.objects).Keys
  {
    hide Atoi, RemovalKeys, KeyName;
    var nodeIndexInt := Atoi(r.key);
    if nodeIndexInt.None? {
      return false;
    }
    var ssIndex := CalcReplicaIndex(dcs, r.dc, nodeIndexInt.value);
    var name := StatefulSetName(ssIndex);
    KeyNamed(dcs, r.dc, r.key);
    assert name == KeyName(dcs, r.dc, r.key) && name in Doomed(dcs);
    ok := kube.DeleteStatefulsetAndPods(name);
    assert Spares(old(kube.objects), kube.objects, {name});
    if !ok {
      return;
    }
    ok := kube.ListPods();
  }

  /** One removal map, its keys in any order. order is what has been removed since the step began at log. */
  method RemoveMapped(kube: Kube, dcs: seq<DataCenter>, d: nat, nodes: map<string, string>,
                      ghost log: seq<Call>, ghost earlier: seq<Removal>)
    returns (ok: bool, ghost order: seq<Removal>)
    requires d < |dcs| && nodes.Keys <= RemovalKeys(dcs[d])
    requires kube.log == log + RemovalCalls(dcs, earlier)
    modifies kube
    ensures ok ==> (forall k :: k in nodes ==> Removal(d, k) in order) && |order| == |earlier| + |nodes|
    ensures ok ==> forall k :: k in nodes ==> Atoi(k).Some? && KeyName(dcs, d, k) !in kube.objects
    ensures ok ==> kube.log == log + RemovalCalls(dcs, order)
    ensures !ok ==> exists r :: Blocked(kube.mishap, dcs, r, log + RemovalCalls(dcs, order), kube.log)
    ensures earlier <= order && forall i :: |earlier| <= i < |order| ==> RemovalOf(dcs, order[i])
    ensures Spares(old(kube.objects), kube.objects, Doomed(dcs))
    ensures kube.objects.Keys <= old(kube.objects).Keys
  {
    hide KeyName, Atoi, RemovalKeys, Doomed, NodeCalls, RemovalCalls, Blocked;
    var keys := nodes.Keys;
    order := earlier;
    while keys != {}
      invariant keys <= nodes.Keys
      invariant earlier <= order && forall i :: |earlier| <= i < |order| ==> RemovalOf(dcs, order[i])
      invariant |order| == |earlier| + |nodes| - |keys|
      invariant kube.log == log + RemovalCalls(dcs, order)
      invariant Spares(old(kube.objects), kube.objects, Doomed(dcs))
      invariant kube.objects.Keys <= old(kube.objects).Keys
      invariant forall k :: k in nodes && k !in keys ==>
        Removal(d, k) in order && Atoi(k).Some? && KeyName(dcs, d, k) !in kube.objects
      decreases |keys|
    {
      var nodeIndex :| nodeIndex in keys;
      keys := keys - {nodeIndex};
      ok := RemoveNode(kube, dcs, Removal(d, nodeIndex));
      if !ok {
        return;
      }
      RemovalCallsStep(dcs, order, Removal(d, nodeIndex));
      order := order + [Removal(d, nodeIndex)];
    }
    ok := true;
  }

  lemma KeyNamed(dcs: seq<DataCenter>, d: nat, key: string)
    requires d < |dcs| && Atoi(key).Some?
    ensures KeyName(dcs, d, key) == StatefulSetName(ReplicaIndex(dcs, d, Atoi(key).value))
  {
  }

  /** What the entries of the first n data centers ask for has happened. */
  ghost predicate RemovedBelow(dcs: seq<DataCenter>, n: nat, order: seq<Removal>, objects: Objects) {
    forall r :: RemovalOf(dcs, r) && r.dc < n ==>
      r in order && Atoi(r.key).Some? && KeyName(dcs, r.dc, r.key) !in objects
  }

  /** The removal maps of one data center. */
  method RemoveInDataCenter(kube: Kube, dcs: seq<DataCenter>, d: nat, ghost log: seq<Call>,
                            ghost earlier: seq<Removal>)
    returns (ok: bool, ghost order: seq<Removal>)
    requires d < |dcs| && kube.log == log + RemovalCalls(dcs, earlier)
    requires RemovedBelow(dcs, d, earlier, kube.objects)
    modifies kube
    ensures ok ==> RemovedBelow(dcs, d + 1, order, kube.objects)
    ensures ok ==> kube.log == log + RemovalCalls(dcs, order)
    ensures !ok ==> exists r :: Blocked(kube.mishap, dcs, r, log + RemovalCalls(dcs, order), kube.log)
    ensures earlier <= order && forall i :: |earlier| <= i < |order| ==> RemovalOf(dcs, order[i])
    ensures Spares(old(kube.objects), kube.objects, Doomed(dcs))
    ensures kube.objects.Keys <= old(kube.objects).Keys
  {
    hide KeyName, Atoi, NodeCalls, Blocked, RemovalCalls, Doomed;
    order := earlier;
    if dcs[d].removeNodes.None? {
      return true, order;
    }
    var maps := dcs[d].removeNodes.value;
    for i := 0 to |maps|
      invariant Spares(old(kube.objects), kube.objects, Doomed(dcs))
      invariant kube.objects.Keys <= old(kube.objects).Keys
      invariant kube.log == log + RemovalCalls(dcs, order)
      invariant earlier <= order && forall k :: |earlier| <= k < |order| ==> RemovalOf(dcs, order[k])
      invariant forall j, k :: 0 <= j < i && k in maps[j] ==>
        Removal(d, k) in order && Atoi(k).Some? && KeyName(dcs, d, k) !in kube.objects
    {
      ok, order := RemoveMapped(kube, dcs, d, maps[i], log, order);
      if !ok {
        return;
      }
    }
    ok := true;
  }

  /** A completed step has deleted exactly the doomed StatefulSets, whatever the order of the map entries;
      one that panicked has deleted some of them, and panicked at an entry for a reason. */
  method RemoveNodes(kube: Kube, dataCenters: seq<DataCenter>) returns (ok: bool, ghost order: seq<Removal>)
    modifies kube
    ensures Spares(old(kube.objects), kube.objects, Doomed(Deployed(dataCenters)))
    ensures kube.objects.Keys <= old(kube.objects).Keys
    ensures ok ==> kube.objects == old(kube.objects) - Doomed(Deployed(dataCenters))
    ensures ok ==> forall r :: RemovalOf(Deployed(dataCenters), r) ==> r in order && Atoi(r.key).Some?
    ensures forall i :: 0 <= i < |order| ==> RemovalOf(Deployed(dataCenters), order[i])
    ensures ok ==> kube.log == old(kube.log) + RemovalCalls(Deployed(dataCenters), order)
    ensures !ok ==> exists r :: Blocked(kube.mishap, Deployed(dataCenters), r,
                                        old(kube.log) + RemovalCalls(Deployed(dataCenters), order), kube.log)
  {
    hide KeyName, Atoi, NodeCalls, Blocked, RemovalKeys, RemovalOf, Doomed;
    var dcs := FilterDC(dataCenters, IsDeployed);
    ghost var log := kube.log;
    order := [];
    for index := 0 to |dcs|
      invariant Spares(old(kube.objects), kube.objects, Doomed(dcs))
      invariant kube.objects.Keys <= old(kube.objects).Keys
      invariant kube.log == log + RemovalCalls(dcs, order)
      invariant forall i :: 0 <= i < |order| ==> RemovalOf(dcs, order[i])
      invariant RemovedBelow(dcs, index, order, kube.objects)
    {
      ok, order := RemoveInDataCenter(kube, dcs, index, log, order);
      if !ok {
        return;
      }
    }
    ok := true;
    DoomedAreGone(dcs, order, old(kube.objects), kube.objects);
  }

  lemma DoomedAreGone(dcs: seq<DataCenter>, order: seq<Removal>, before: Objects, after: Objects)
    requires RemovedBelow(dcs, |dcs|, order, after)
    requires Spares(before, after, Doomed(dcs)) && after.Keys <= before.Keys
    ensures after == before - Doomed(dcs)
    ensures forall r :: RemovalOf(dcs, r) ==> r in order && Atoi(r.key).Some?
  {
    hide KeyName, Atoi, RemovalKeys;
    forall name | name in Doomed(dcs)
      ensures name !in after
    {
      var d, k :| 0 <= d < |dcs| && k in RemovalKeys(dcs[d]) && Atoi(k).Some? && name == KeyName(dcs, d, k);
      assert RemovalOf(dcs, Removal(d, k));
    }
    assert after == after - Doomed(dcs);
  }

  /** The removal deletes the StatefulSet of an active replica exactly when some key has its number. */
  lemma DoomedExactly(dcs: seq<DataCenter>, slot: Slot)
    requires AllDeployed(dcs) && SlotOf(dcs, slot)
    ensures NameOf(dcs, slot) in Doomed(dcs) <==>
            Base(dcs, slot.dc) + ReplicaOf(dcs, slot) in DeletedNumbers(dcs)
  {
    hide StatefulSetName, Atoi, Active, RemovalKeys, Base;
    var number := Base(dcs, slot.dc) + ReplicaOf(dcs, slot);
    if number in DeletedNumbers(dcs) {
      var d, k :| 0 <= d < |dcs| && k in RemovalKeys(dcs[d]) && Atoi(k).Some? && Base(dcs, d) + Atoi(k).value == number;
      assert KeyName(dcs, d, k) == NameOf(dcs, slot);
    }
    if NameOf(dcs, slot) in Doomed(dcs) {
      var d, k :| 0 <= d < |dcs| && k in RemovalKeys(dcs[d]) && Atoi(k).Some? &&
                  KeyName(dcs, d, k) == NameOf(dcs, slot);
      StatefulSetNameInjective(number, ReplicaIndex(dcs, d, Atoi(k).value));
    }
  }

  /** The removal leaves every planned StatefulSet alone if and only if no key has the number of an active
      replica. */
  lemma RemovalSparesActive(dcs: seq<DataCenter>)
    requires AllDeployed(dcs)
    ensures (forall slot :: SlotOf(dcs, slot) ==> NameOf(dcs, slot) !in Doomed(dcs)) <==> KeysSpareActive(dcs)
  {
    hide CreatedNumbers, NameOf, Active, Doomed, Atoi, RemovalKeys, Base;
    forall slot | SlotOf(dcs, slot)
      ensures NameOf(dcs, slot) in Doomed(dcs) <==>
              Base(dcs, slot.dc) + ReplicaOf(dcs, slot) in DeletedNumbers(dcs)
      ensures Base(dcs, slot.dc) + ReplicaOf(dcs, slot) in CreatedNumbers(dcs)
    {
      DoomedExactly(dcs, slot);
      SlotNumber(dcs, slot);
      CreatedAreSlots(dcs, Base(dcs, slot.dc) + ReplicaOf(dcs, slot));
    }
    if !KeysSpareActive(dcs) {
      var d, k :| 0 <= d < |dcs| && k in RemovalKeys(dcs[d]) && Atoi(k).Some? &&
                  Base(dcs, d) + Atoi(k).value in CreatedNumbers(dcs);
      CreatedAreSlots(dcs, Base(dcs, d) + Atoi(k).value);
      var slot :| SlotOf(dcs, slot) &&
                  ReplicaIndex(dcs, slot.dc, ReplicaOf(dcs, slot)) == Base(dcs, d) + Atoi(k).value;
      SlotNumber(dcs, slot);
    }
  }

  lemma SlotNumber(dcs: seq<DataCenter>, slot: Slot)
    requires AllDeployed(dcs) && SlotOf(dcs, slot)
    ensures ReplicaIndex(dcs, slot.dc, ReplicaOf(dcs, slot)) == Base(dcs, slot.dc) + ReplicaOf(dcs, slot)
  {
  }

  /** After a completed rollout and a completed removal, an active replica's StatefulSet is there exactly when
      no key has its number, and then as planned and ready; nothing is there under a removed number. */
  lemma RolloutThenRemoval(context: Context, dcs: seq<DataCenter>, start: Objects, now: Objects, slot: Slot)
    requires AllDeployed(dcs) && SlotOf(dcs, slot)
    requires ValidPlan(dcs, Slots(dcs, |dcs|))
    requires Stage(context, dcs, Slots(dcs, |dcs|), start, now, |Slots(dcs, |dcs|)|)
    ensures var after := now - Doomed(dcs);
            && SpecFor(context, dcs, slot).Some?
            && (NameOf(dcs, slot) in after <==>
                Base(dcs, slot.dc) + ReplicaOf(dcs, slot) !in DeletedNumbers(dcs))
            && (NameOf(dcs, slot) in after ==>
                  after[NameOf(dcs, slot)] == StatefulSet(SpecFor(context, dcs, slot).value, true))
            && after.Keys !! Doomed(dcs)
  {
    hide SpecFor, NameOf, Doomed, DeletedNumbers;
    SlotsInPlan(dcs, |dcs|);
    var k :| 0 <= k < |Slots(dcs, |dcs|)| && Slots(dcs, |dcs|)[k] == slot;
    DoomedExactly(dcs, slot);
  }
}
