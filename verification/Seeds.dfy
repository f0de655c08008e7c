/** The seed list handed to every Cassandra node, and when its entries name the pods the rollout makes. */
module Seeds {
  import opened Text
  import opened Topology
  import opened Validation

  const DefaultClusterDomain := "cluster.local"

  function ClusterDomain(dc: DataCenter): string {
    if dc.deploy then DefaultClusterDomain else dc.clusterDomain
  }

  function ServiceHostName(isCommonService: bool, dc: DataCenter, namespace: string): string {
    (if isCommonService then "cassandra" else "cassandra-dc-" + dc.name) + "." + namespace + ".svc." + ClusterDomain(dc)
  }

  /** The host of the pod of a StatefulSet. */
  function PodHost(number: int, dc: DataCenter, namespace: string): string {
    StatefulSetName(number) + "-0" + "." + ServiceHostName(true, dc, namespace)
  }

  function ReplicaHostName(dcs: seq<DataCenter>, d: nat, replica: int, namespace: string): string
    requires d < |dcs|
  {
    PodHost(ReplicaIndex(dcs, d, replica), dcs[d], namespace)
  }

  lemma PodHostInjective(m: int, n: int, dc: DataCenter, namespace: string)
    requires PodHost(m, dc, namespace) == PodHost(n, dc, namespace)
    ensures m == n
  {
    hide StatefulSetName, ServiceHostName;
    var tail := "-0" + "." + ServiceHostName(true, dc, namespace);
    var a, b := PodHost(m, dc, namespace), PodHost(n, dc, namespace);
    assert a == StatefulSetName(m) + tail && b == StatefulSetName(n) + tail;
    assert StatefulSetName(m) == a[..|a| - |tail|] && StatefulSetName(n) == b[..|b| - |tail|];
    StatefulSetNameInjective(m, n);
  }

  /** The parts of a host name, between its dots: the pod of the StatefulSet, the service, the namespace, "svc" and
      the domain. */
  lemma PodHostParts(number: int, dc: DataCenter, namespace: string)
    requires Free(namespace, '.')
    ensures Split(PodHost(number, dc, namespace), '.') ==
            ["cassandra" + Integer(number) + "-0", "cassandra", namespace, "svc"] + Split(ClusterDomain(dc), '.')
  {
    hide Integer, ClusterDomain, Split;
    var pod, domain := "cassandra" + Integer(number) + "-0", ClusterDomain(dc);
    var tail := "svc" + ['.'] + domain;
    var middle := namespace + ['.'] + tail;
    assert PodHost(number, dc, namespace) == pod + ['.'] + ("cassandra" + ['.'] + middle);
    IntegerHasNoDot(number);
    SplitFirst(pod, '.', "cassandra" + ['.'] + middle);
    SplitFirst("cassandra", '.', middle);
    SplitFirst(namespace, '.', tail);
    SplitFirst("svc", '.', domain);
  }

  lemma IntegerHasNoDot(number: int)
    ensures Free("cassandra" + Integer(number) + "-0", '.')
  {
    hide Decimal;
    DecimalRoundTrip(if number < 0 then -number else number);
  }

  const Namespace := "$(NAMESPACE)"

  function Min(a: int, b: int): int {
    if a < b then a else b
  }

  function SeedCount(dc: DataCenter): nat {
    if dc.seeds < 0 then 0 else Min(dc.seeds, |Active(dc)|)
  }

  function SeedsOf(dcs: seq<DataCenter>, d: nat): seq<string>
    requires d < |dcs|
  {
    if dcs[d].seedList.Some? then (if dcs[d].deploy then dcs[d].seedList.value else [])
    else seq(SeedCount(dcs[d]), i requires 0 <= i < SeedCount(dcs[d]) =>
               ReplicaHostName(dcs, d, Active(dcs[d])[i], Namespace))
  }

  function AllSeeds(dcs: seq<DataCenter>, n: nat): seq<string>
    requires n <= |dcs|
  {
    if n == 0 then [] else AllSeeds(dcs, n - 1) + SeedsOf(dcs, n - 1)
  }

  method DataCenterSeeds(dcs: seq<DataCenter>, d: nat) returns (dcSeed: seq<string>)
    requires d < |dcs|
    ensures dcSeed == SeedsOf(dcs, d)
  {
    hide PodHost, ReplicaIndex;
    dcSeed := [];
    if dcs[d].seedList.None? {
      var active := GetActiveReplicas(dcs[d]);
      for ind := 0 to |active|
        invariant ind <= SeedCount(dcs[d])
        invariant dcSeed == SeedsOf(dcs, d)[..ind]
      {
        if ind >= dcs[d].seeds {
          return;
        }
        var number := CalcReplicaIndex(dcs, d, active[ind]);
        dcSeed := dcSeed + [PodHost(number, dcs[d], Namespace)];
      }
    } else if dcs[d].deploy {
      dcSeed := dcs[d].seedList.value;
    }
  }

  function ContextKey(d: nat): string {
    "cassandraSeeds" + Decimal(d)
  }

  /** The step's two kinds of context variable: the seeds of each data center by position, and all of them. */
  method SeedsStep(dcs: seq<DataCenter>) returns (perDc: map<string, string>, seeds: string)
    ensures seeds == Join(AllSeeds(dcs, |dcs|), ", ")
    ensures forall d :: 0 <= d < |dcs| ==>
              ContextKey(d) in perDc && perDc[ContextKey(d)] == Join(SeedsOf(dcs, d), ", ")
  {
    hide SeedsOf, Join, ContextKey;
    perDc := map[];
    var result := [];
    for d := 0 to |dcs|
      invariant result == AllSeeds(dcs, d)
      invariant forall e :: 0 <= e < d ==>
        ContextKey(e) in perDc && perDc[ContextKey(e)] == Join(SeedsOf(dcs, e), ", ")
    {
      var dcSeed := DataCenterSeeds(dcs, d);
      forall e | 0 <= e < d
        ensures ContextKey(e) != ContextKey(d)
      {
        ContextKeyInjective(e, d);
      }
      perDc := perDc[ContextKey(d) := Join(dcSeed, ", ")];
      result := result + dcSeed;
    }
    seeds := Join(result, ", ");
  }

  lemma ContextKeyInjective(d: nat, e: nat)
    ensures ContextKey(d) == ContextKey(e) ==> d == e
  {
    assert Decimal(d) == ContextKey(d)[|"cassandraSeeds"|..];
    assert Decimal(e) == ContextKey(e)[|"cassandraSeeds"|..];
    if Decimal(d) == Decimal(e) {
      DecimalInjective(d, e);
    }
  }

  // ---------- Seeds and pods ----------

  /** The host of the pod that the rollout makes for a replica: it numbers the deployed data centers alone. */
  function RolloutHost(dcs: seq<DataCenter>, d: nat, replica: int): string
    requires d < |dcs|
  {
    PodHost(ReplicaIndex(Deployed(dcs), Rank(dcs, d), replica), dcs[d], Namespace)
  }

  /** The seeds of a data center are the pods of its own first active replicas. */
  ghost predicate SeedsAreOwnPods(dcs: seq<DataCenter>, d: nat)
    requires d < |dcs|
  {
    && |SeedsOf(dcs, d)| == SeedCount(dcs[d])
    && forall i :: 0 <= i < SeedCount(dcs[d]) ==> SeedsOf(dcs, d)[i] == RolloutHost(dcs, d, Active(dcs[d])[i])
  }

  /** Generated seeds of a deployed data center in a valid schema name its own pods exactly when all data centers are
      deployed here or it is the first that is. */
  lemma SeedsNamePods(dcs: seq<DataCenter>, d: nat)
    requires Valid(dcs) && d < |dcs| && dcs[d].deploy && dcs[d].seedList.None?
    ensures SeedsAreOwnPods(dcs, d) <==> AllDeployed(dcs) || Rank(dcs, d) == 0
  {
    RankFinds(dcs, d);
    AllDeployedKept(dcs);
    AllDeployedKept(Deployed(dcs));
    AllDeployedKept(dcs[..d]);
    if !AllDeployed(dcs) && Rank(dcs, d) > 0 {
      LaterDataCenterMissed(dcs, d);
    }
  }

  /** What such a data center's first seed names instead: a pod of another number. */
  lemma LaterDataCenterMissed(dcs: seq<DataCenter>, d: nat)
    requires Valid(dcs) && d < |dcs| && dcs[d].deploy && dcs[d].seedList.None?
    requires !AllDeployed(dcs) && Rank(dcs, d) > 0
    ensures SeedsOf(dcs, d) != [] && SeedsOf(dcs, d)[0] != RolloutHost(dcs, d, Active(dcs[d])[0])
  {
    RankFinds(dcs, d);
    AllDeployedKept(Deployed(dcs));
    var first := Deployed(dcs)[0];
    assert Acceptable(first) && Acceptable(dcs[d]);
    ActiveBelowExact(first, first.replicas);
    assert Base(Deployed(dcs), 1) == first.replicas >= 1;
    BaseMonotone(Deployed(dcs), 1, Rank(dcs, d));
    var r := Active(dcs[d])[0];
    if SeedsOf(dcs, d)[0] == RolloutHost(dcs, d, r) {
      PodHostInjective(ReplicaIndex(dcs, d, r), ReplicaIndex(Deployed(dcs), Rank(dcs, d), r), dcs[d], Namespace);
    }
  }

  /** A valid schema has a seed for every deployed data center. */
  lemma EveryDeployedDataCenterHasSeed(dcs: seq<DataCenter>, d: nat)
    requires Valid(dcs) && d < |dcs| && dcs[d].deploy
    ensures |SeedsOf(dcs, d)| >= 1
    ensures dcs[d].seedList.None? ==> |SeedsOf(dcs, d)| == Min(dcs[d].seeds, |Active(dcs[d])|)
  {
    RankFinds(dcs, d);
    assert Acceptable(Deployed(dcs)[Rank(dcs, d)]);
  }

  /** A host among the seeds of one data center: given for a deployed one, or that of one of its first replicas. */
  ghost predicate IsSeedOf(dcs: seq<DataCenter>, d: nat, host: string)
    requires d < |dcs|
  {
    match dcs[d].seedList
    case Some(list) => dcs[d].deploy && host in list
    case None =>
      exists i :: 0 <= i < |Active(dcs[d])| && i < dcs[d].seeds &&
                  host == ReplicaHostName(dcs, d, Active(dcs[d])[i], Namespace)
  }

  /** The seed list of the cluster holds exactly the given lists of deployed data centers, and of every other data
      center the hosts of as many of its first active replicas as it has seeds. */
  lemma {:induction false} AllSeedsExactly(dcs: seq<DataCenter>, n: nat, host: string)
    requires n <= |dcs|
    ensures host in AllSeeds(dcs, n) <==> exists d: nat :: d < n && IsSeedOf(dcs, d, host)
  {
    hide ReplicaHostName, Active, SeedsOf, IsSeedOf;
    if n > 0 {
      AllSeedsExactly(dcs, n - 1, host);
      SeedsExactly(dcs, n - 1, host);
    }
  }

  lemma SeedsExactly(dcs: seq<DataCenter>, d: nat, host: string)
    requires d < |dcs|
    ensures host in SeedsOf(dcs, d) <==> IsSeedOf(dcs, d, host)
  {
    hide ReplicaHostName, Active;
    if dcs[d].seedList.None? {
      if host in SeedsOf(dcs, d) {
        var i :| 0 <= i < |SeedsOf(dcs, d)| && SeedsOf(dcs, d)[i] == host;
      }
      if i :| 0 <= i < |Active(dcs[d])| && i < dcs[d].seeds &&
              host == ReplicaHostName(dcs, d, Active(dcs[d])[i], Namespace) {
        assert SeedsOf(dcs, d)[i] == host;
      }
    }
  }

  /** The joined text splits back into the seeds when none of them holds a comma. */
  lemma {:induction false} JoinedSeedsRead(parts: seq<string>)
    requires parts != [] && forall i :: 0 <= i < |parts| ==> Free(parts[i], ',')
    ensures Split(Join(parts, ", "), ',') ==
            [parts[0]] + seq(|parts| - 1, i requires 0 <= i < |parts| - 1 => " " + parts[i + 1])
  {
    if |parts| == 1 {
      SplitFirst(parts[0], ',', "");
    } else {
      var init, last := parts[..|parts| - 1], parts[|parts| - 1];
      JoinedSeedsRead(init);
      SplitLast(Join(init, ", "), ',', " " + last);
      assert Join(parts, ", ") == Join(init, ", ") + [','] + (" " + last);
    }
  }
}
