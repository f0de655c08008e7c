/** The deployment schema of the operator and the numbering of its Cassandra nodes: which replicas
    of a data center are active, and which number a replica has over all data centers. */
module Topology {
  import opened Text

  datatype MountSettings = MountSettings(name: string, mountPath: string)

  /** An entry of a storage list, which may be nil. A storage without mount settings has None. */
  datatype Storage = Nil | Storage(mount: Option<MountSettings>)

  function MountOf(s: Storage): Option<MountSettings> {
    match s
    case Nil => None
    case Storage(mount) => mount
  }

  /** A count held in a signed 64-bit integer. */
  type Count = n: nat | n < 0x8000_0000_0000_0000

  /** seedList and removeNodes are None when the list is absent. addresses holds the four optional
      address lists, each indexed by replica when it is not empty. */
  datatype DataCenter = DataCenter(
    deploy: bool,
    name: string,
    clusterDomain: string,
    replicas: Count,
    seeds: int,
    seedList: Option<seq<string>>,
    removeNodes: Option<seq<map<string, string>>>,
    storage: seq<Storage>,
    racks: seq<string>,
    addresses: seq<seq<string>>)

  // ---------- Active replicas ----------

  /** The keys of all removal maps of a data center. */
  function RemovalKeys(dc: DataCenter): set<string> {
    if dc.removeNodes.None? then {}
    else set i, k | 0 <= i < |dc.removeNodes.value| && k in dc.removeNodes.value[i] :: k
  }

  predicate Removed(dc: DataCenter, replica: nat) {
    Decimal(replica) in RemovalKeys(dc)
  }

  function ActiveBelow(dc: DataCenter, n: nat): seq<nat> {
    if n == 0 then []
    else ActiveBelow(dc, n - 1) + (if Removed(dc, n - 1) then [] else [n - 1])
  }

  function Active(dc: DataCenter): seq<nat> {
    ActiveBelow(dc, dc.replicas)
  }

  /** The active replicas are, in increasing order, those below the replica count not printed in a removal map. */
  lemma {:induction false} ActiveBelowExact(dc: DataCenter, n: nat)
    ensures var a := ActiveBelow(dc, n);
            && (forall r: nat :: r in a <==> r < n && !Removed(dc, r))
            && (forall i, j :: 0 <= i < j < |a| ==> a[i] < a[j])
            && |a| <= n
  {
    if n > 0 {
      ActiveBelowExact(dc, n - 1);
      var before := ActiveBelow(dc, n - 1);
      assert forall i :: 0 <= i < |before| ==> before[i] in before;
    }
  }

  lemma {:induction false} ActiveWithoutRemovals(dc: DataCenter, n: nat)
    requires dc.removeNodes.None?
    ensures |ActiveBelow(dc, n)| == n && forall i :: 0 <= i < n ==> ActiveBelow(dc, n)[i] == i
  {
    if n > 0 {
      ActiveWithoutRemovals(dc, n - 1);
    }
  }

  method IsListed(replica: nat, removeNodes: seq<map<string, string>>) returns (exists_: bool)
    ensures exists_ <==> exists i :: 0 <= i < |removeNodes| && Decimal(replica) in removeNodes[i]
  {
    exists_ := false;
    for i := 0 to |removeNodes|
      invariant exists_ <==> exists j :: 0 <= j < i && Decimal(replica) in removeNodes[j]
    {
      var keys := removeNodes[i].Keys;
      while keys != {}
        invariant keys <= removeNodes[i].Keys
        invariant exists_ <==> (exists j :: 0 <= j < i && Decimal(replica) in removeNodes[j]) ||
                               Decimal(replica) in removeNodes[i].Keys - keys
        decreases |keys|
      {
        var nodeIndex :| nodeIndex in keys;
        if Decimal(replica) == nodeIndex {
          exists_ := true;
        }
        keys := keys - {nodeIndex};
      }
    }
  }

  /** The active replicas for any count a schema may hold. Without removal maps a negative count is a panic. */
  method CountedReplicas(dc: DataCenter, replicas: int) returns (active: Option<seq<nat>>)
    ensures active.None? <==> dc.removeNodes.None? && replicas < 0
    ensures active.Some? ==> active.value == ActiveBelow(dc, if replicas < 0 then 0 else replicas)
  {
    if dc.removeNodes.Some? {
      var activeReplicas := [];
      var replica := 0;
      while replica < replicas
        invariant 0 <= replica && (replica <= replicas || replica == 0)
        invariant activeReplicas == ActiveBelow(dc, replica)
      {
        var listed := IsListed(replica, dc.removeNodes.value);
        if !listed {
          activeReplicas := activeReplicas + [replica];
        }
        replica := replica + 1;
      }
      active := Some(activeReplicas);
    } else if replicas < 0 {
      active := None;
    } else {
      var all := new nat[replicas];
      for replica := 0 to replicas
        invariant forall i :: 0 <= i < replica ==> all[i] == i
      {
        all[replica] := replica;
      }
      ActiveWithoutRemovals(dc, replicas);
      active := Some(all[..]);
    }
  }

  method GetActiveReplicas(dc: DataCenter) returns (activeReplicas: seq<nat>)
    ensures activeReplicas == Active(dc)
  {
    var active := CountedReplicas(dc, dc.replicas);
    activeReplicas := active.value;
  }

  // ---------- Choosing data centers ----------

  predicate IsDeployed(dc: DataCenter) {
    dc.deploy
  }

  function Kept(dcs: seq<DataCenter>, filter: DataCenter -> bool): (kept: seq<DataCenter>)
    ensures forall i :: 0 <= i < |kept| ==> filter(kept[i])
    ensures |kept| <= |dcs|
  {
    if dcs == [] then []
    else Kept(dcs[..|dcs| - 1], filter) + (if filter(dcs[|dcs| - 1]) then [dcs[|dcs| - 1]] else [])
  }

  method FilterDC(input: seq<DataCenter>, filter: DataCenter -> bool) returns (output: seq<DataCenter>)
    ensures output == Kept(input, filter)
  {
    output := [];
    for i := 0 to |input|
      invariant output == Kept(input[..i], filter)
    {
      assert input[..i + 1][..i] == input[..i];
      if filter(input[i]) {
        output := output + [input[i]];
      }
    }
    assert input[..|input|] == input;
  }

  function Deployed(dcs: seq<DataCenter>): seq<DataCenter> {
    Kept(dcs, IsDeployed)
  }

  predicate AllDeployed(dcs: seq<DataCenter>) {
    forall i :: 0 <= i < |dcs| ==> dcs[i].deploy
  }

  /** The position of a deployed data center among the deployed ones. */
  function Rank(dcs: seq<DataCenter>, d: nat): nat
    requires d <= |dcs|
  {
    |Deployed(dcs[..d])|
  }

  lemma {:induction false} RankFinds(dcs: seq<DataCenter>, d: nat)
    requires d < |dcs| && dcs[d].deploy
    ensures Rank(dcs, d) < |Deployed(dcs)| && Deployed(dcs)[Rank(dcs, d)] == dcs[d]
  {
    var init := dcs[..|dcs| - 1];
    if d < |init| {
      RankFinds(init, d);
      assert init[..d] == dcs[..d];
    } else {
      assert dcs[..d] == init;
    }
  }

  lemma {:induction false} RankFound(dcs: seq<DataCenter>, p: nat) returns (d: nat)
    requires p < |Deployed(dcs)|
    ensures d < |dcs| && dcs[d].deploy && Rank(dcs, d) == p
  {
    var init := dcs[..|dcs| - 1];
    if p < |Deployed(init)| {
      d := RankFound(init, p);
      assert init[..d] == dcs[..d];
    } else {
      d := |init|;
    }
  }

  lemma {:induction false} AllDeployedKept(dcs: seq<DataCenter>)
    ensures AllDeployed(dcs) <==> Deployed(dcs) == dcs
    ensures AllDeployed(dcs) <==> |Deployed(dcs)| == |dcs|
  {
    if dcs != [] {
      AllDeployedKept(dcs[..|dcs| - 1]);
    }
  }

  // ---------- The number of a replica ----------

  /** The sum of the replica counts of the first n data centers. */
  function Base(dcs: seq<DataCenter>, n: nat): nat
    requires n <= |dcs|
  {
    if n == 0 then 0 else Base(dcs, n - 1) + dcs[n - 1].replicas
  }

  function ReplicaIndex(dcs: seq<DataCenter>, currentDc: nat, replica: int): int {
    if dcs == [] then 0
    else if !AllDeployed(dcs) then replica
    else if currentDc < |dcs| then Base(dcs, currentDc) + replica
    else Base(dcs, |dcs|)
  }

  method CalcReplicaIndex(dcs: seq<DataCenter>, currentDc: nat, replica: int) returns (sum: int)
    ensures sum == ReplicaIndex(dcs, currentDc, replica)
  {
    sum := 0;
    var separateDC := false;
    for i := 0 to |dcs|
      invariant separateDC <==> !AllDeployed(dcs[..i])
    {
      assert forall j :: 0 <= j < i ==> dcs[..i + 1][j] == dcs[..i][j];
      if !dcs[i].deploy {
        separateDC := true;
        assert !dcs[..i + 1][i].deploy;
        break;
      }
    }
    assert dcs[..|dcs|] == dcs;
    assert separateDC <==> !AllDeployed(dcs);
    for dcIndex := 0 to |dcs|
      invariant dcIndex > 0 ==> !separateDC && dcIndex <= currentDc
      invariant sum == Base(dcs, dcIndex)
    {
      if dcIndex < currentDc && !separateDC {
        sum := sum + dcs[dcIndex].replicas;
      } else {
        sum := sum + replica;
        return;
      }
    }
  }

  lemma {:induction false} BaseMonotone(dcs: seq<DataCenter>, m: nat, n: nat)
    requires m <= n <= |dcs|
    ensures Base(dcs, m) <= Base(dcs, n)
    ensures m < n ==> Base(dcs, m) + dcs[m].replicas <= Base(dcs, n)
  {
    if m < n {
      BaseMonotone(dcs, m, n - 1);
    }
  }

  /** No two replicas of deployed data centers share a number. */
  lemma NumberingInjective(dcs: seq<DataCenter>, d: nat, r: nat, e: nat, q: nat)
    requires d < |dcs| && r < dcs[d].replicas && e < |dcs| && q < dcs[e].replicas
    requires Base(dcs, d) + r == Base(dcs, e) + q
    ensures d == e && r == q
  {
    if d < e {
      BaseMonotone(dcs, d, e);
    } else if e < d {
      BaseMonotone(dcs, e, d);
    }
  }

  /** Every number below the total belongs to a replica. */
  lemma {:induction false} NumberingOnto(dcs: seq<DataCenter>, n: nat, k: nat) returns (d: nat, r: nat)
    requires n <= |dcs| && k < Base(dcs, n)
    ensures d < n && r < dcs[d].replicas && k == Base(dcs, d) + r
  {
    if k < Base(dcs, n - 1) {
      d, r := NumberingOnto(dcs, n - 1, k);
    } else {
      d, r := n - 1, k - Base(dcs, n - 1);
    }
  }

  // ---------- Names ----------

  function StatefulSetName(number: int): string {
    "cassandra" + Integer(number)
  }

  lemma StatefulSetNameInjective(m: int, n: int)
    requires StatefulSetName(m) == StatefulSetName(n)
    ensures m == n
  {
    assert StatefulSetName(m)[|"cassandra"|..] == Integer(m);
    assert StatefulSetName(n)[|"cassandra"|..] == Integer(n);
    IntegerInjective(m, n);
  }
}
