/** What the control plane records of the replicas' stores, and that the metrics of recorded
    snapshots do not depend on map iteration. */
module Sampling {
  import opened Options
  import opened GossipValues
  import opened GossipCluster
  import opened MostCommon
  import opened Metrics
  import opened MapOrder
  import ComputeMetrics

  /** The state recorded for a node: metadata counts as present if there is a version or an
      origin, and a key that is not found leaves the zero state. */
  function Observed(entry: Option<Value>): NodeState {
    if entry.None? then ZERO_STATE
    else
      var v := entry.value;
      if v.version > 0 || v.origin != "" then NodeState(true, v.data, v.version, v.origin, true)
      else NodeState(true, v.data, 0, "", false)
  }

  /******* Versions *******/

  ghost predicate VersionsPositive(h: History) {
    forall n, k, i {:trigger Writes(h, n, k)[i]} :: 0 <= i < |Writes(h, n, k)| ==> Writes(h, n, k)[i].version > 0
  }

  lemma GenuineVersion(h: History, k: string, v: Value)
    requires VersionsPositive(h) && Genuine(h, k, v)
    ensures v.version > 0
  {
    var i :| 0 <= i < At(v.clock, v.origin) <= |Writes(h, v.origin, k)| && SameWrite(Writes(h, v.origin, k)[i], v);
    assert Writes(h, v.origin, k)[i].version > 0;
  }

  lemma AppendVersion(h: History, n: string, k: string, v: Value)
    requires VersionsPositive(h) && v.version > 0
    ensures VersionsPositive(Append(h, n, k, v))
  {
  }

  lemma StepKeepsVersions(c: Cluster, s: Step)
    requires Inv(c) && Enabled(c, s) && VersionsPositive(c.puts)
    ensures VersionsPositive(Apply(c, s).puts)
  {
    if s.Put? {
      var local := Find(c.stores[s.node], s.key);
      assert GenuineStore(c.puts, c.stores[s.node]);
      if local.Some? {
        GenuineVersion(c.puts, s.key, local.value);
      }
      PutHistory(c, s);
      AppendVersion(c.puts, s.node, s.key, Latest(c, s));
    }
  }

  lemma {:induction false} RunKeepsVersions(c: Cluster, steps: seq<Step>)
    requires Inv(c) && ValidRun(c, steps) && VersionsPositive(c.puts)
    ensures Inv(After(c, steps)) && VersionsPositive(After(c, steps).puts)
    decreases |steps|
  {
    if steps != [] {
      StepKeepsInv(c, steps[0]);
      StepKeepsVersions(c, steps[0]);
      RunKeepsVersions(Apply(c, steps[0]), steps[1..]);
    }
  }

  /** In every reachable state every stored value has a positive version, so the state recorded
      for it carries metadata. */
  lemma ReachableHasMetadata(c: Cluster, steps: seq<Step>, n: string, k: string)
    requires Init(c) && ValidRun(c, steps) && n in After(c, steps).stores
    ensures var s := Observed(Find(After(c, steps).stores[n], k)); s.exists_ == s.hasMetadata
    ensures
      var store := After(c, steps).stores[n];
      Observed(Find(store, k)) ==
        if k in store then NodeState(true, store[k].data, store[k].version, store[k].origin, true)
        else NodeState(false, "", 0, "", false)
  {
    InitInv(c);
    RunKeepsVersions(c, steps);
    var f := After(c, steps);
    if k in f.stores[n] {
      assert GenuineStore(f.puts, f.stores[n]);
      GenuineVersion(f.puts, k, f.stores[n][k]);
    }
  }

  /******* Snapshots *******/

  /** Each node of the snapshot was read in some reachable state; they need not be the same one. */
  ghost predicate Sampled(c: Cluster, k: string, nodes: Nodes) {
    forall n :: n in nodes ==> exists steps :: ReadAt(c, steps, n, k, nodes[n])
  }

  ghost predicate ReadAt(c: Cluster, steps: seq<Step>, n: string, k: string, state: NodeState) {
    ValidRun(c, steps) && n in After(c, steps).stores && state == Observed(Find(After(c, steps).stores[n], k))
  }

  lemma SampledUnambiguous(c: Cluster, k: string, nodes: Nodes)
    requires Init(c) && Sampled(c, k, nodes)
    ensures Unambiguous(nodes)
  {
    forall n | n in nodes ensures nodes[n].exists_ == nodes[n].hasMetadata {
      var steps :| ReadAt(c, steps, n, k, nodes[n]);
      ReachableHasMetadata(c, steps, n, k);
    }
    forall order | IsOrder(nodes, order) ensures !Ambiguous(StatesIn(nodes, order)) {
      ExistenceDetermined(StatesIn(nodes, order));
    }
  }

  /** Compute gives one result for snapshots recorded from a gossip cluster at distinct times,
      whatever their permutation and whatever order the node maps are visited in. */
  lemma SampledDetermined(c: Cluster, k: string, s: seq<Snapshot>)
    requires Init(c) && OnePerTime(s) && forall x :: x in s ==> Sampled(c, k, x.nodes)
    ensures Determined(s)
  {
    ComputeMetrics.SortKeepsElements(s);
    forall i | 0 <= i < |StableSort(s)| - 1 ensures Unambiguous(StableSort(s)[i].nodes) {
      assert StableSort(s)[i] in s;
      SampledUnambiguous(c, k, StableSort(s)[i].nodes);
    }
    DeterminedExactly(s);
  }
}
