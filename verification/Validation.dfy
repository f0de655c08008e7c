/** The operator's validation of a deployment schema before it does anything. */
module Validation {
  import opened Text
  import opened Topology

  /** Crashed stands for the panic on a missing or nil storage. */
  datatype Verdict = Accepted | Rejected | Crashed

  const DataMount := MountSettings("data", "/var/lib/cassandra/data")

  function SeedNumber(dc: DataCenter): int {
    if dc.seedList.Some? then |dc.seedList.value| else dc.seeds
  }

  predicate Mounted(storage: Storage) {
    MountOf(storage).Some? && MountOf(storage).value.name != "" && MountOf(storage).value.mountPath != ""
  }

  predicate Apart(a: Storage, b: Storage)
    requires MountOf(a).Some? && MountOf(b).Some?
  {
    MountOf(a).value.name != MountOf(b).value.name && MountOf(a).value.mountPath != MountOf(b).value.mountPath
  }

  predicate Populated(dc: DataCenter) {
    |Active(dc)| >= 1 && SeedNumber(dc) >= 1
  }

  predicate Acceptable(dc: DataCenter) {
    && Populated(dc)
    && dc.storage != [] && MountOf(dc.storage[0]) == Some(DataMount)
    && (forall i :: 0 <= i < |dc.storage| ==> Mounted(dc.storage[i]))
    && forall i, j :: 0 <= i < j < |dc.storage| ==> Apart(dc.storage[i], dc.storage[j])
  }

  ghost predicate Valid(dcs: seq<DataCenter>) {
    |Deployed(dcs)| >= 1 && forall d :: 0 <= d < |Deployed(dcs)| ==> Acceptable(Deployed(dcs)[d])
  }

  predicate Overlap(a: Storage, b: Storage) {
    MountOf(a).Some? && MountOf(b).Some? && !Apart(a, b)
  }

  /** The first storage is compared with all others first, so a nil one is met then or not at all. */
  predicate MeetsNil(storage: seq<Storage>) {
    storage != [] &&
    (storage[0].Nil? ||
     (Mounted(storage[0]) &&
      exists j :: 0 < j < |storage| && storage[j].Nil? &&
        forall k :: 0 < k < j ==> !storage[k].Nil? && !Overlap(storage[0], storage[k])))
  }

  /** The two nested loops over the storages of one data center. */
  method CheckStorage(storage: seq<Storage>) returns (verdict: Verdict)
    ensures verdict.Accepted? <==>
            (forall i :: 0 <= i < |storage| ==> Mounted(storage[i])) &&
            forall i, j :: 0 <= i < j < |storage| ==> Apart(storage[i], storage[j])
    ensures verdict.Crashed? <==> MeetsNil(storage)
  {
    for ifirst := 0 to |storage|
      invariant forall i :: 0 <= i < ifirst ==> Mounted(storage[i])
      invariant ifirst > 0 ==> forall j :: 0 <= j < |storage| ==> !storage[j].Nil?
      invariant forall i, j :: 0 <= i < ifirst && 0 <= j < |storage| && i != j ==> !Overlap(storage[i], storage[j])
    {
      var first := storage[ifirst];
      if first.Nil? {
        return Crashed;
      }
      if MountOf(first).None? || MountOf(first).value.mountPath == "" || MountOf(first).value.name == "" {
        assert !Mounted(storage[ifirst]);
        return Rejected;
      }
      for isecond := 0 to |storage|
        invariant forall j :: 0 <= j < isecond && j != ifirst ==> !storage[j].Nil? && !Overlap(first, storage[j])
      {
        var second := storage[isecond];
        if ifirst != isecond {
          if second.Nil? {
            assert !Mounted(storage[isecond]);
            return Crashed;
          }
          if MountOf(second).Some? {
            if MountOf(first).value.mountPath == MountOf(second).value.mountPath ||
               MountOf(first).value.name == MountOf(second).value.name {
              assert !Apart(storage[ifirst], storage[isecond]) && !Apart(storage[isecond], storage[ifirst]);
              assert Overlap(first, storage[isecond]);
              return Rejected;
            }
          }
        }
      }
    }
    verdict := Accepted;
  }

  /** What makes the validation of one data center panic: no storage, or a nil one that is met. */
  predicate Crashes(dc: DataCenter) {
    Populated(dc) &&
    (dc.storage == [] || dc.storage[0].Nil? || (MountOf(dc.storage[0]) == Some(DataMount) && MeetsNil(dc.storage)))
  }

  /** Accepted exactly for the valid schemas; the one that crashes has a data center that panics and before it
      only acceptable ones. */
  method Validate(dataCenters: seq<DataCenter>) returns (verdict: Verdict)
    ensures verdict.Accepted? <==> Valid(dataCenters)
    ensures verdict.Crashed? <==>
            exists d :: 0 <= d < |Deployed(dataCenters)| && Crashes(Deployed(dataCenters)[d]) &&
              forall e :: 0 <= e < d ==> Acceptable(Deployed(dataCenters)[e])
  {
    var dcs := FilterDC(dataCenters, IsDeployed);
    if |dcs| < 1 {
      return Rejected;
    }
    for d := 0 to |dcs|
      invariant forall e :: 0 <= e < d ==> Acceptable(dcs[e])
    {
      var dc := dcs[d];
      var seedNumber := dc.seeds;
      if dc.seedList.Some? {
        seedNumber := |dc.seedList.value|;
      }
      var active := GetActiveReplicas(dc);
      if |active| < 1 || seedNumber < 1 {
        assert !Populated(dcs[d]) && !Acceptable(dcs[d]);
        return Rejected;
      }
      if |dc.storage| == 0 || dc.storage[0].Nil? {
        assert Crashes(dcs[d]) && !Acceptable(dcs[d]);
        return Crashed;
      }
      if MountOf(dc.storage[0]) != Some(DataMount) {
        assert !Crashes(dcs[d]) && !Acceptable(dcs[d]);
        return Rejected;
      }
      var checked := CheckStorage(dc.storage);
      if !checked.Accepted? {
        assert !Acceptable(dcs[d]) && (checked.Crashed? <==> Crashes(dcs[d]));
        return checked;
      }
      assert Acceptable(dcs[d]);
    }
    verdict := Accepted;
  }
}
