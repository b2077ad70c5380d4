/** From the experiment language to the replicas: the texts of a partition step, once executed,
    isolate the groups of a gossip cluster. */
module PartitionedRuns {
  import opened Options
  import opened Text
  import opened Commands
  import opened Experiment
  import opened ExperimentRoundTrip
  import opened PartitionControl
  import opened GossipValues
  import opened FaultGates
  import GossipCluster
  import opened Isolation
  import opened ExchangeRuns

  /** Every node is named in the group it is assigned to. */
  ghost predicate Covers(groups: seq<seq<string>>, grouping: Groups) {
    forall n :: n in grouping ==> grouping[n] < |groups| && Listed(groups[grouping[n]], n)
  }

  ghost predicate Listed(group: seq<string>, n: string) {
    exists i :: 0 <= i < |group| && TrimSpace(group[i]) == n
  }

  /** The replicas' fault engines are the ones the control plane has set. */
  ghost predicate Installed(c: Control, cluster: GossipCluster.Cluster) {
    && c.recorded.Keys == c.engines.Keys == cluster.faults.Keys == cluster.stores.Keys
    && forall n :: n in cluster.faults ==> cluster.faults[n].partitions == c.engines[n]
  }

  /** A clean experiment's partition step compiles, its nodes are registered and know each
      other, and engines agree with the records. */
  ghost predicate Ready(c: Control, e: Setting, groups: seq<seq<string>>) {
    && CleanSetting(e) && |groups| <= MAX_INT && PartitionCommands(e, groups, true).Some?
    && Agreeing(c) && AllRegistered(c, CrossPairs(groups)) && AllPeers(c, CrossPairs(groups))
  }

  /** The state after executing the texts of the partition step. */
  ghost function Partitioned(c: Control, e: Setting, groups: seq<seq<string>>): Control
    requires Ready(c, e, groups)
  {
    ExecuteAll(c, PrintAll(PartitionCommands(e, groups, true).value))
  }

  /** The engine of `b` refuses `a`. */
  predicate Refuses(c: Control, a: string, b: string) {
    b in c.engines && a in c.engines[b]
  }

  lemma GroupedApart(groups: seq<seq<string>>, grouping: Groups, a: string, b: string)
    requires Covers(groups, grouping) && a in grouping && b in grouping && grouping[a] != grouping[b]
    ensures Apart(groups, a, b)
  {
    var i, j := grouping[a], grouping[b];
    var x :| 0 <= x < |groups[i]| && TrimSpace(groups[i][x]) == a;
    var y :| 0 <= y < |groups[j]| && TrimSpace(groups[j][y]) == b;
    var l, r := groups[i][x], groups[j][y];
    assert l in groups[i] && r in groups[j];
  }

  /** What is recorded as cut is refused by the engine. */
  lemma CutIsRefused(c: Control, a: string, b: string)
    requires Agreeing(c) && Cut(c, b, a) && a != b && a != ""
    ensures Refuses(c, a, b)
  {
    assert a in Desired(b, c.recorded[b]);
  }

  /** The engine of every node refuses the nodes of other groups once the step is executed. */
  lemma StepRefuses(c: Control, e: Setting, groups: seq<seq<string>>, a: string, b: string)
    requires Ready(c, e, groups)
    requires Apart(groups, b, a) && a != b && a != ""
    ensures Refuses(Partitioned(c, e, groups), a, b)
  {
    PartitionStepCorrect(c, e, groups, true, b, a);
    CutIsRefused(Partitioned(c, e, groups), a, b);
  }

  ghost predicate AcrossRefused(c: Control, grouping: Groups) {
    forall a, b :: a in grouping && b in grouping && grouping[a] != grouping[b] ==> Refuses(c, a, b)
  }

  lemma RefusalSplits(c: Control, cluster: GossipCluster.Cluster, grouping: Groups)
    requires Installed(c, cluster) && grouping.Keys == cluster.stores.Keys && AcrossRefused(c, grouping)
    ensures Split(cluster, grouping)
  {
  }

  lemma PairRefused(c: Control, e: Setting, groups: seq<seq<string>>, grouping: Groups, a: string, b: string)
    requires Ready(c, e, groups) && Covers(groups, grouping) && "" !in grouping
    ensures a in grouping && b in grouping && grouping[a] != grouping[b] ==> Refuses(Partitioned(c, e, groups), a, b)
  {
    if a in grouping && b in grouping && grouping[a] != grouping[b] {
      GroupedApart(groups, grouping, b, a);
      StepRefuses(c, e, groups, a, b);
    }
  }

  lemma AllRefused(c: Control, e: Setting, groups: seq<seq<string>>, grouping: Groups)
    requires Ready(c, e, groups) && Covers(groups, grouping) && "" !in grouping
    ensures AcrossRefused(Partitioned(c, e, groups), grouping)
  {
    forall a, b
      ensures a in grouping && b in grouping && grouping[a] != grouping[b] ==>
                Refuses(Partitioned(c, e, groups), a, b)
    {
      PairRefused(c, e, groups, grouping, a, b);
    }
  }

  /** Executing a compiled partition step whose groups cover the cluster splits it. */
  lemma StepSplits(c: Control, e: Setting, groups: seq<seq<string>>, cluster: GossipCluster.Cluster, grouping: Groups)
    requires Ready(c, e, groups) && Covers(groups, grouping) && "" !in grouping
    requires grouping.Keys == cluster.stores.Keys && Installed(Partitioned(c, e, groups), cluster)
    ensures Split(cluster, grouping)
  {
    AllRefused(c, e, groups, grouping);
    RefusalSplits(Partitioned(c, e, groups), cluster, grouping);
  }

  /******* Pushing while the replicas gossip *******/

  /** One half of a fault-partition command: the list of one node is updated and pushed. */
  datatype Half = Half(target: string, other: string, enabled: bool)

  /** The halves a text makes the control plane perform, given the registered nodes. */
  function Halves(nodes: set<string>, text: string): seq<Half> {
    match Decoded(text)
    case Some(SetPartition(_, node, peer, enabled)) =>
      if node in nodes then [Half(node, peer, enabled), Half(peer, node, enabled)] else []
    case _ => []
  }

  function AllHalves(nodes: set<string>, texts: seq<string>): seq<Half>
    decreases |texts|
  {
    if texts == [] then [] else Halves(nodes, texts[0]) + AllHalves(nodes, texts[1..])
  }

  function RunHalf(c: Control, h: Half): Control {
    var r := UpdateNode(c, h.target, h.other, h.enabled);
    if r.Some? then r.value else c
  }

  function RunHalves(c: Control, halves: seq<Half>): Control
    decreases |halves|
  {
    if halves == [] then c else RunHalves(RunHalf(c, halves[0]), halves[1..])
  }

  lemma {:induction false} RunHalvesParts(c: Control, p: seq<Half>, q: seq<Half>)
    ensures RunHalves(c, p + q) == RunHalves(RunHalves(c, p), q)
    decreases |p|
  {
    if p == [] {
      assert p + q == q;
    } else {
      assert (p + q)[0] == p[0] && (p + q)[1..] == p[1..] + q;
      RunHalvesParts(RunHalf(c, p[0]), p[1..], q);
    }
  }

  lemma HalfKeepsNodes(c: Control, h: Half)
    requires Registered(c, {})
    ensures var c' := RunHalf(c, h); Registered(c', {}) && c'.recorded.Keys == c.recorded.Keys
  {
  }

  /** A command is its two halves, the second of which may fail on its own. */
  lemma PairIsHalves(c: Control, node: string, peer: string, enabled: bool)
    requires Registered(c, {}) && node in c.recorded
    ensures RunHalves(c, [Half(node, peer, enabled), Half(peer, node, enabled)]) == SetPair(c, node, peer, enabled)
  {
    var h1, h2 := Half(node, peer, enabled), Half(peer, node, enabled);
    assert [h1, h2][1..] == [h2] && [h2][1..] == [];
    assert RunHalves(RunHalf(c, h1), [h2]) == RunHalf(RunHalf(c, h1), h2);
  }

  lemma TextIsHalves(c: Control, text: string)
    requires Registered(c, {})
    ensures RunHalves(c, Halves(c.recorded.Keys, text)) == Execute(c, text)
    ensures Registered(Execute(c, text), {}) && Execute(c, text).recorded.Keys == c.recorded.Keys
  {
    match Decoded(text)
    case Some(SetPartition(_, node, peer, enabled)) =>
      if node in c.recorded {
        PairIsHalves(c, node, peer, enabled);
        HalfKeepsNodes(c, Half(node, peer, enabled));
        HalfKeepsNodes(RunHalf(c, Half(node, peer, enabled)), Half(peer, node, enabled));
      }
    case _ =>
  }

  lemma {:induction false} TextsAreHalves(c: Control, texts: seq<string>)
    requires Registered(c, {})
    ensures RunHalves(c, AllHalves(c.recorded.Keys, texts)) == ExecuteAll(c, texts)
    decreases |texts|
  {
    if texts != [] {
      var nodes := c.recorded.Keys;
      TextIsHalves(c, texts[0]);
      TextsAreHalves(Execute(c, texts[0]), texts[1..]);
      RunHalvesParts(c, Halves(nodes, texts[0]), AllHalves(nodes, texts[1..]));
    }
  }

  /** The control plane and the replicas together. */
  datatype Joint = Joint(control: Control, cluster: GossipCluster.Cluster)

  /** Either one half of a command reaches its node, or the replicas take a step of their own. */
  datatype JointStep = Push(half: Half) | Gossip(step: GossipCluster.Step)

  predicate JointEnabled(j: Joint, s: JointStep) {
    match s
    case Push(h) => true
    case Gossip(step) => GossipCluster.Enabled(j.cluster, step) && !step.SetFaults?
  }

  /** The cluster step a pushed half amounts to. */
  function Installing(j: Joint, h: Half): seq<GossipCluster.Step> {
    var c := RunHalf(j.control, h);
    if j.cluster.faults.Keys == j.cluster.stores.Keys && h.target in j.cluster.faults && h.target in c.engines
    then [GossipCluster.SetFaults(h.target, j.cluster.faults[h.target].(partitions := c.engines[h.target]))]
    else []
  }

  ghost function JointApply(j: Joint, s: JointStep): Joint
    requires JointEnabled(j, s)
  {
    match s
    case Push(h) =>
      var steps := Installing(j, h);
      Joint(RunHalf(j.control, h), if steps == [] then j.cluster else GossipCluster.Apply(j.cluster, steps[0]))
    case Gossip(step) => Joint(j.control, GossipCluster.Apply(j.cluster, step))
  }

  lemma HalfInstalls(j: Joint, h: Half)
    requires Installed(j.control, j.cluster) && Registered(j.control, {})
    ensures var j' := JointApply(j, Push(h)); Installed(j'.control, j'.cluster)
  {
    var j' := JointApply(j, Push(h));
    HalfKeepsNodes(j.control, h);
    forall n | n in j'.cluster.faults ensures j'.cluster.faults[n].partitions == j'.control.engines[n] {
      assert j.cluster.faults[n].partitions == j.control.engines[n];
    }
  }

  /** A pushed half leaves the engines of all replicas as the control plane has set them, and
      so does every step of the replicas. */
  lemma JointKeepsInstalled(j: Joint, s: JointStep)
    requires JointEnabled(j, s) && Installed(j.control, j.cluster) && Registered(j.control, {})
    ensures var j' := JointApply(j, s); Installed(j'.control, j'.cluster) && Registered(j'.control, {})
  {
    if s.Push? {
      HalfInstalls(j, s.half);
      HalfKeepsNodes(j.control, s.half);
    }
  }

  ghost predicate ValidJoint(j: Joint, steps: seq<JointStep>)
    decreases |steps|
  {
    steps == [] || (JointEnabled(j, steps[0]) && ValidJoint(JointApply(j, steps[0]), steps[1..]))
  }

  ghost function JointAfter(j: Joint, steps: seq<JointStep>): Joint
    requires ValidJoint(j, steps)
    decreases |steps|
  {
    if steps == [] then j else JointAfter(JointApply(j, steps[0]), steps[1..])
  }

  function Pushes(steps: seq<JointStep>): seq<Half>
    decreases |steps|
  {
    if steps == [] then []
    else (if steps[0].Push? then [steps[0].half] else []) + Pushes(steps[1..])
  }

  /** Along every joint run the control plane ends where its pushes alone would take it, and
      engines stay installed. */
  lemma {:induction false} JointControl(j: Joint, steps: seq<JointStep>)
    requires ValidJoint(j, steps) && Installed(j.control, j.cluster) && Registered(j.control, {})
    ensures
      var f := JointAfter(j, steps);
      f.control == RunHalves(j.control, Pushes(steps)) && Installed(f.control, f.cluster)
    decreases |steps|
  {
    if steps != [] {
      JointKeepsInstalled(j, steps[0]);
      JointControl(JointApply(j, steps[0]), steps[1..]);
      if steps[0].Push? {
        assert Pushes(steps)[0] == steps[0].half && Pushes(steps)[1..] == Pushes(steps[1..]);
      } else {
        assert Pushes(steps) == Pushes(steps[1..]);
      }
    }
  }

  /** A joint run is a run of the cluster in which pushes change faults. */
  lemma {:induction false} JointIsRun(j: Joint, steps: seq<JointStep>) returns (gossip: seq<GossipCluster.Step>)
    requires ValidJoint(j, steps)
    ensures Runs(j.cluster, gossip, JointAfter(j, steps).cluster)
    decreases |steps|
  {
    if steps == [] {
      gossip := [];
    } else {
      var j1 := JointApply(j, steps[0]);
      var first := if steps[0].Push? then Installing(j, steps[0].half) else [steps[0].step];
      FirstRuns(j, steps[0], first);
      var rest := JointIsRun(j1, steps[1..]);
      JoinRuns(j.cluster, first, j1.cluster, rest, JointAfter(j, steps).cluster);
      gossip := first + rest;
    }
  }

  lemma FirstRuns(j: Joint, s: JointStep, first: seq<GossipCluster.Step>)
    requires JointEnabled(j, s)
    requires first == if s.Push? then Installing(j, s.half) else [s.step]
    ensures Runs(j.cluster, first, JointApply(j, s).cluster)
  {
    if first != [] {
      OneStep(j.cluster, first[0]);
      assert first == [first[0]];
    }
  }

  /** End to end: the texts of a partition step are executed half by half, in order, while the
      replicas go on gossiping in between; once the last half has reached its node and nothing
      from another group is queued, no replica ever learns of a Put made in another group from
      then on, until faults change again. */
  lemma CompiledPartitionIsolates(
    c: Control, e: Setting, groups: seq<seq<string>>, grouping: Groups,
    start: GossipCluster.Cluster, before: seq<GossipCluster.Step>, joint: seq<JointStep>,
    steps: seq<GossipCluster.Step>, n: string, k: string)
    requires Ready(c, e, groups) && Covers(groups, grouping) && "" !in grouping
    requires GossipCluster.Init(start) && GossipCluster.ValidRun(start, before)
    requires Installed(c, GossipCluster.After(start, before))
    requires ValidJoint(Joint(c, GossipCluster.After(start, before)), joint)
    requires Pushes(joint) == AllHalves(c.recorded.Keys, PrintAll(PartitionCommands(e, groups, true).value))
    requires var cut := JointAfter(Joint(c, GossipCluster.After(start, before)), joint).cluster;
      && grouping.Keys == cut.stores.Keys && NoCrossPending(cut.inbox, grouping) && n in cut.stores
      && GossipCluster.ValidRun(cut, steps) && (forall s :: s in steps ==> !s.SetFaults?)
    ensures
      var cut := JointAfter(Joint(c, GossipCluster.After(start, before)), joint).cluster;
      var end := GossipCluster.After(cut, steps);
      n in end.stores && NoForeignNews(cut.puts, grouping, grouping[n], k, Find(end.stores[n], k))
  {
    var j := Joint(c, GossipCluster.After(start, before));
    var cut := JointAfter(j, joint).cluster;
    JointControl(j, joint);
    TextsAreHalves(c, PrintAll(PartitionCommands(e, groups, true).value));
    StepSplits(c, e, groups, cut, grouping);
    var gossip := JointIsRun(j, joint);
    JoinRuns(start, before, j.cluster, gossip, cut);
    PartitionIsolates(start, before + gossip, grouping, steps, n, k);
  }
}
