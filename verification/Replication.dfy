/** The replication map the operator gives to the system keyspaces: which data centers it lists. */
module Replication {
  import opened Text
  import opened Topology

  datatype Entry = Entry(dc: string, replicas: nat)

  function EntryOf(dc: DataCenter): Entry {
    Entry(dc.name, |Active(dc)|)
  }

  function Entries(dcs: seq<DataCenter>): seq<Entry> {
    seq(|dcs|, i requires 0 <= i < |dcs| => EntryOf(dcs[i]))
  }

  function PrintEntry(e: Entry): string {
    "'" + e.dc + "': '" + Decimal(e.replicas) + "'"
  }

  function PrintEntries(entries: seq<Entry>): string {
    Join(seq(|entries|, i requires 0 <= i < |entries| => PrintEntry(entries[i])), ",")
  }

  // ---------- Reading the text back ----------

  /** A quoted word and what follows it. */
  function Quoted(s: string): Option<(string, string)> {
    if s == "" || s[0] != '\'' then None
    else
      var n := UpTo(s[1..], '\'');
      if n == |s| - 1 then None else Some((s[1..][..n], s[1..][n + 1..]))
  }

  function ReadEntry(s: string): Option<(Entry, string)> {
    var name := Quoted(s);
    if name.None? || !(": " <= name.value.1) then None
    else
      var count := Quoted(name.value.1[2..]);
      if count.None? || count.value.0 == "" || !AllDigits(count.value.0) then None
      else Some((Entry(name.value.0, DecimalValue(count.value.0)), count.value.1))
  }

  lemma QuotedLength(s: string)
    ensures Quoted(s).Some? ==> |Quoted(s).value.1| < |s|
  {
  }

  function ReadEntries(s: string): Option<seq<Entry>>
    decreases |s|
  {
    QuotedLength(s);
    var first := ReadEntry(s);
    if first.None? then None
    else
      var (entry, rest) := first.value;
      QuotedLength(Quoted(s).value.1[2..]);
      if rest == "" then Some([entry])
      else if rest[0] != ',' then None
      else
        var more := ReadEntries(rest[1..]);
        if more.None? then None else Some([entry] + more.value)
  }

  lemma QuotedReads(word: string, rest: string)
    requires Free(word, '\'')
    ensures Quoted("'" + word + "'" + rest) == Some((word, rest))
  {
    var s := "'" + word + "'" + rest;
    UpToDelimiter(word, '\'', rest);
    assert s[1..] == word + ['\''] + rest;
    assert s[1..][..|word|] == word && s[1..][|word| + 1..] == rest;
  }

  lemma EntryReads(e: Entry, rest: string)
    requires Free(e.dc, '\'')
    ensures ReadEntry(PrintEntry(e) + rest) == Some((e, rest))
  {
    var digits := Decimal(e.replicas);
    DecimalRoundTrip(e.replicas);
    var tail := ": '" + digits + "'" + rest;
    assert PrintEntry(e) + rest == "'" + e.dc + "'" + tail;
    QuotedReads(e.dc, tail);
    assert tail[2..] == "'" + digits + "'" + rest;
    QuotedReads(digits, rest);
  }

  lemma EntriesRead(e: Entry, more: string)
    requires Free(e.dc, '\'')
    ensures ReadEntries(PrintEntry(e)) == Some([e])
    ensures ReadEntries(more).Some? ==> ReadEntries(PrintEntry(e) + "," + more) == Some([e] + ReadEntries(more).value)
  {
    hide PrintEntry, ReadEntry;
    EntryReads(e, "");
    assert PrintEntry(e) + "" == PrintEntry(e);
    EntryReads(e, "," + more);
    assert PrintEntry(e) + ("," + more) == PrintEntry(e) + "," + more;
    assert ("," + more)[1..] == more;
  }

  lemma PrintFront(entries: seq<Entry>)
    requires |entries| > 1
    ensures PrintEntries(entries) == PrintEntry(entries[0]) + "," + PrintEntries(entries[1..])
  {
    hide PrintEntry;
    var rest := entries[1..];
    var parts := seq(|entries|, i requires 0 <= i < |entries| => PrintEntry(entries[i]));
    assert parts[1..] == seq(|rest|, i requires 0 <= i < |rest| => PrintEntry(rest[i]));
    assert parts == [parts[0]] + parts[1..];
    JoinFront(parts[0], parts[1..], ",");
  }

  /** Whatever the other characters of the names, commas included, the printed map reads back. */
  lemma {:induction false} ReplicationRoundTrip(entries: seq<Entry>)
    requires entries != [] && forall i :: 0 <= i < |entries| ==> Free(entries[i].dc, '\'')
    ensures ReadEntries(PrintEntries(entries)) == Some(entries)
  {
    hide PrintEntry, ReadEntries, Free;
    if |entries| == 1 {
      EntriesRead(entries[0], "");
      assert [entries[0]] == entries;
    } else {
      PrintFront(entries);
      ReplicationRoundTrip(entries[1..]);
      EntriesRead(entries[0], PrintEntries(entries[1..]));
      assert [entries[0]] + entries[1..] == entries;
    }
  }

  // ---------- Which data centers are listed ----------

  /** What the count of system.peers came to. NoSession stands for the panic without a session. */
  datatype Peers = NoSession | NoRow | Counted(count: int)

  function TotalActive(dcs: seq<DataCenter>): nat {
    if dcs == [] then 0 else TotalActive(dcs[..|dcs| - 1]) + |Active(dcs[|dcs| - 1])|
  }

  function PeersOr(peers: Peers): int {
    if peers.Counted? then peers.count else -1
  }

  /** True only when some data center is not deployed here and yet all replicas answer. */
  method IsAllDCsDeployed(dcs: seq<DataCenter>, peers: Peers) returns (panicked: bool, all: bool)
    ensures panicked <==> !AllDeployed(dcs) && peers.NoSession?
    ensures all <==> !AllDeployed(dcs) && !peers.NoSession? && TotalActive(dcs) == PeersOr(peers) + 1
  {
    var undeployed := false;
    for i := 0 to |dcs|
      invariant undeployed <==> exists j :: 0 <= j < i && !dcs[j].deploy
    {
      if !dcs[i].deploy {
        undeployed := true;
        break;
      }
    }
    if !undeployed {
      return false, false;
    }
    if peers.NoSession? {
      return true, false;
    }
    var totalReplicas := 0;
    for i := 0 to |dcs|
      invariant totalReplicas == TotalActive(dcs[..i])
    {
      assert dcs[..i + 1][..i] == dcs[..i];
      var active := GetActiveReplicas(dcs[i]);
      totalReplicas := totalReplicas + |active|;
    }
    assert dcs[..|dcs|] == dcs;
    panicked, all := false, totalReplicas == PeersOr(peers) + 1;
  }

  /** The data centers the map lists, in the order of the schema. */
  function Listed(dcs: seq<DataCenter>, peers: Peers): seq<DataCenter> {
    if !AllDeployed(dcs) && TotalActive(dcs) == PeersOr(peers) + 1 then dcs else Deployed(dcs)
  }

  method GetReplicationFactor(dcs: seq<DataCenter>, peers: Peers) returns (panicked: bool, replication: string)
    ensures panicked <==> !AllDeployed(dcs) && peers.NoSession?
    ensures !panicked ==> replication == PrintEntries(Entries(Listed(dcs, peers)))
  {
    replication := "";
    var all;
    panicked, all := IsAllDCsDeployed(dcs, peers);
    if panicked {
      return;
    }
    var chosen := dcs;
    if !all {
      chosen := FilterDC(dcs, IsDeployed);
    }
    var parts := [];
    for i := 0 to |chosen|
      invariant parts == seq(i, k requires 0 <= k < i => PrintEntry(EntryOf(chosen[k])))
    {
      var active := GetActiveReplicas(chosen[i]);
      parts := parts + [PrintEntry(Entry(chosen[i].name, |active|))];
    }
    ghost var entries := Entries(chosen);
    assert parts == seq(|entries|, k requires 0 <= k < |entries| => PrintEntry(entries[k]));
    replication := Join(parts, ",");
  }

  ghost predicate Distinct(dcs: seq<DataCenter>) {
    forall i, j :: 0 <= i < j < |dcs| ==> dcs[i].name != dcs[j].name
  }

  /** With distinct names a data center is missing from the map exactly when it is not deployed here and
      the peers plus this node are not as many as all active replicas; each one listed has its own count.
      That the function above is false when every data center is deployed makes no difference. */
  lemma OmittedExactly(dcs: seq<DataCenter>, peers: Peers, d: nat)
    requires d < |dcs| && Distinct(dcs)
    ensures (forall e :: e in Entries(Listed(dcs, peers)) ==> e.dc != dcs[d].name) <==>
            !dcs[d].deploy && TotalActive(dcs) != PeersOr(peers) + 1
    ensures forall e :: e in Entries(Listed(dcs, peers)) && e.dc == dcs[d].name ==> e == EntryOf(dcs[d])
  {
    hide Listed, Active, TotalActive;
    forall e | e in Entries(Listed(dcs, peers)) && e.dc == dcs[d].name
      ensures e == EntryOf(dcs[d]) && (dcs[d].deploy || TotalActive(dcs) == PeersOr(peers) + 1)
    {
      var k := ListedOrigin(dcs, peers, e);
    }
    ListedAt(dcs, peers, d);
  }

  lemma ListedOrigin(dcs: seq<DataCenter>, peers: Peers, e: Entry) returns (k: nat)
    requires e in Entries(Listed(dcs, peers))
    ensures k < |dcs| && e == EntryOf(dcs[k])
    ensures dcs[k].deploy || TotalActive(dcs) == PeersOr(peers) + 1
  {
    hide Active, TotalActive;
    var listed := Listed(dcs, peers);
    k :| 0 <= k < |listed| && Entries(listed)[k] == e;
    if listed != dcs {
      k := RankFound(dcs, k);
      RankFinds(dcs, k);
    } else {
      AllDeployedKept(dcs);
    }
  }

  lemma ListedAt(dcs: seq<DataCenter>, peers: Peers, d: nat)
    requires d < |dcs|
    ensures dcs[d].deploy || TotalActive(dcs) == PeersOr(peers) + 1 ==> EntryOf(dcs[d]) in Entries(Listed(dcs, peers))
  {
    hide Active, TotalActive;
    var listed := Listed(dcs, peers);
    if listed == dcs {
      assert Entries(listed)[d] == EntryOf(dcs[d]);
    } else if dcs[d].deploy {
      RankFinds(dcs, d);
      assert Entries(listed)[Rank(dcs, d)] == EntryOf(dcs[d]);
    }
  }
}
