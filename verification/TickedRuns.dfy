/** The cluster with every node's tick counter, peer list and forced-sync marks: a DIGEST leaves
    a node only at a gossip tick, and only towards a peer the node may pick then.  Every run of
    this finer system is a run of the cluster, and its nodes can always bring it to agreement. */
module TickedRuns {
  import opened Options
  import opened GossipValues
  import opened GossipCluster
  import opened GossipProtocol
  import opened LastWriterWins
  import opened ViewGossip
  import opened Convergence
  import opened ExchangeRuns

  datatype Node = Node(beat: Beat, peers: seq<string>)

  datatype Ticked = Ticked(cluster: Cluster, nodes: map<string, Node>)

  datatype TickedStep =
    | TickAt(node: string, target: Option<string>)
    | SetPeersAt(node: string, peers: seq<string>)
    | Other(step: Step)

  predicate TickedEnabled(t: Ticked, s: TickedStep) {
    t.nodes.Keys == t.cluster.stores.Keys == t.cluster.faults.Keys &&
    match s
    case TickAt(n, target) => n in t.nodes && Allowed(t.nodes[n].beat, t.nodes[n].peers, target)
    case SetPeersAt(n, _) => n in t.nodes
    case Other(step) => !step.SendDigest? && Enabled(t.cluster, step)
  }

  /** The step the cluster takes, if any. */
  function Projected(s: TickedStep): seq<Step> {
    match s
    case TickAt(n, target) => if target.Some? then [SendDigest(n, target.value)] else []
    case SetPeersAt(_, _) => []
    case Other(step) => [step]
  }

  function NewPeers(old_: seq<string>, ps: seq<string>, self: string): (r: set<string>)
    ensures forall p :: p in r <==> p in Kept(ps, self) && p !in old_
  {
    KeptMeans(ps, self);
    set p | p in ps && p != "" && p != self && p !in old_
  }

  /** A node that handles a message lists its sender. */
  function Discover(node: Node, self: string, from: string): (r: Node)
    ensures r.beat == node.beat && node.peers <= r.peers && |r.peers| <= |node.peers| + 1
    ensures forall p :: p in r.peers <==> p in node.peers || (p == from && from != "" && from != self)
  {
    if from != "" && from != self && from !in node.peers then node.(peers := node.peers + [from]) else node
  }

  function NodesAfter(t: Ticked, s: TickedStep): map<string, Node>
    requires TickedEnabled(t, s)
  {
    match s
    case TickAt(n, target) => t.nodes[n := t.nodes[n].(beat := StepBeat(t.nodes[n].beat, target))]
    case SetPeersAt(n, ps) =>
      var node := t.nodes[n];
      t.nodes[n := Node(node.beat.(forced := node.beat.forced + NewPeers(node.peers, ps, n)), Kept(ps, n))]
    case Other(step) =>
      if step.Handle? then
        var to := step.envelope.to;
        t.nodes[to := Discover(t.nodes[to], to, step.envelope.from)]
      else t.nodes
  }

  /** What the steps do to the nodes: a tick moves the ticking node's beat; SetPeers keeps the usable
      entries of the list and marks the new ones; a message handled makes its sender a peer. */
  lemma NodesMean(t: Ticked, s: TickedStep, n: string)
    requires TickedEnabled(t, s) && n in t.nodes
    ensures n in NodesAfter(t, s)
    ensures
      var node, after := t.nodes[n], NodesAfter(t, s)[n];
      && (s.TickAt? && s.node == n ==> after == Node(StepBeat(node.beat, s.target), node.peers))
      && (s.SetPeersAt? && s.node == n ==>
            && after.peers == Kept(s.peers, n) && after.beat.tick == node.beat.tick
            && forall p :: p in after.beat.forced <==>
                 p in node.beat.forced || (p in s.peers && p != "" && p != n && p !in node.peers))
      && (s.Other? && s.step.Handle? && s.step.envelope.to == n ==>
            var from := s.step.envelope.from;
            after.beat == node.beat &&
            after.peers == if from != "" && from != n && from !in node.peers then node.peers + [from] else node.peers)
      && (s.Other? && !s.step.Handle? ==> after == node)
      && ((s.TickAt? || s.SetPeersAt?) && s.node != n ==> after == node)
      && (s.Other? && s.step.Handle? && s.step.envelope.to != n ==> after == node)
  {
    if s.SetPeersAt? {
      KeptMeans(s.peers, n);
    }
  }

  function TickedApply(t: Ticked, s: TickedStep): Ticked
    requires TickedEnabled(t, s)
  {
    var cluster :=
      match s
      case TickAt(n, target) => if target.Some? then Apply(t.cluster, SendDigest(n, target.value)) else t.cluster
      case SetPeersAt(_, _) => t.cluster
      case Other(step) => Apply(t.cluster, step);
    Ticked(cluster, NodesAfter(t, s))
  }

  ghost predicate ValidTicked(t: Ticked, steps: seq<TickedStep>)
    decreases |steps|
  {
    steps == [] || (TickedEnabled(t, steps[0]) && ValidTicked(TickedApply(t, steps[0]), steps[1..]))
  }

  ghost function TickedAfter(t: Ticked, steps: seq<TickedStep>): Ticked
    requires ValidTicked(t, steps)
    decreases |steps|
  {
    if steps == [] then t else TickedAfter(TickedApply(t, steps[0]), steps[1..])
  }

  function ProjectedRun(steps: seq<TickedStep>): seq<Step>
    decreases |steps|
  {
    if steps == [] then [] else Projected(steps[0]) + ProjectedRun(steps[1..])
  }

  lemma StepProjects(t: Ticked, s: TickedStep)
    requires TickedEnabled(t, s)
    ensures Runs(t.cluster, Projected(s), TickedApply(t, s).cluster)
  {
    if Projected(s) != [] {
      OneStep(t.cluster, Projected(s)[0]);
      assert Projected(s) == [Projected(s)[0]];
    }
  }

  /** Every run of the nodes with their ticks and peers is a run of the cluster, so everything
      proved of all runs of the cluster holds of it. */
  lemma {:induction false} RunsProject(t: Ticked, steps: seq<TickedStep>)
    requires ValidTicked(t, steps)
    ensures Runs(t.cluster, ProjectedRun(steps), TickedAfter(t, steps).cluster)
    decreases |steps|
  {
    if steps != [] {
      var t1 := TickedApply(t, steps[0]);
      StepProjects(t, steps[0]);
      RunsProject(t1, steps[1..]);
      JoinRuns(t.cluster, Projected(steps[0]), t1.cluster, ProjectedRun(steps[1..]), TickedAfter(t, steps).cluster);
    }
  }

  /******* Reaching a peer *******/

  ghost predicate TickedRun(t: Ticked, steps: seq<TickedStep>, t': Ticked) {
    ValidTicked(t, steps) && TickedAfter(t, steps) == t'
  }

  lemma {:induction false} JoinTicked(t: Ticked, p: seq<TickedStep>, t1: Ticked, q: seq<TickedStep>, t2: Ticked)
    requires TickedRun(t, p, t1) && TickedRun(t1, q, t2)
    ensures TickedRun(t, p + q, t2)
    decreases |p|
  {
    if p == [] {
      assert p + q == q;
    } else {
      assert (p + q)[0] == p[0] && (p + q)[1..] == p[1..] + q;
      JoinTicked(TickedApply(t, p[0]), p[1..], t1, q, t2);
    }
  }

  lemma OneTicked(t: Ticked, s: TickedStep)
    requires TickedEnabled(t, s)
    ensures TickedRun(t, [s], TickedApply(t, s))
  {
    assert [s][1..] == [];
    assert ValidTicked(TickedApply(t, s), []);
  }

  /** Only the wire, beats and peer lists have moved, and no peer was dropped. */
  ghost predicate Keeps(t: Ticked, t': Ticked) {
    && t'.cluster.stores == t.cluster.stores && t'.cluster.faults == t.cluster.faults
    && t'.cluster.puts == t.cluster.puts && PeersGrow(t, t')
  }

  ghost predicate PeersGrow(t: Ticked, t': Ticked) {
    && t'.nodes.Keys == t.nodes.Keys == t.cluster.stores.Keys == t.cluster.faults.Keys
    && forall n, p :: n in t.nodes && p in t.nodes[n].peers ==> p in t'.nodes[n].peers
  }

  /** No Put among the steps. */
  ghost predicate NoPuts(steps: seq<TickedStep>) {
    forall s :: s in steps ==> !(s.Other? && s.step.Put?)
  }

  lemma TickKeeps(t: Ticked, n: string, target: Option<string>)
    requires TickedEnabled(t, TickAt(n, target))
    ensures Keeps(t, TickedApply(t, TickAt(n, target)))
  {
  }

  /** Ticks left until the next gossip tick. */
  function Wait(b: Beat): nat {
    2 - b.tick % 3
  }

  ghost predicate DigestOut(t: Ticked, t': Ticked, n: string, m: string)
    requires n in t.cluster.stores
  {
    Envelope(n, m, Digest(DigestOf(t.cluster.stores[n]))) in t'.cluster.sent
  }

  /** A node that goes on ticking reaches every peer it lists: first the marked ones go, in
      whatever order, then any peer may be drawn. */
  lemma {:induction false} CanReach(t: Ticked, n: string, m: string) returns (steps: seq<TickedStep>, t': Ticked)
    requires t.nodes.Keys == t.cluster.stores.Keys == t.cluster.faults.Keys && n in t.nodes && m in t.nodes[n].peers
    requires FaultGates.MaySend(t.cluster.faults[n], m)
    ensures TickedRun(t, steps, t') && NoPuts(steps) && Keeps(t, t') && DigestOut(t, t', n, m)
    decreases |t.nodes[n].beat.forced|, Wait(t.nodes[n].beat)
  {
    var target := NextTarget(t.nodes[n], m);
    var s := TickAt(n, target);
    OneTicked(t, s);
    TickKeeps(t, n, target);
    var t1 := TickedApply(t, s);
    if target == Some(m) {
      steps, t' := [s], t1;
      Sent(t, n, m);
    } else {
      var rest;
      rest, t' := CanReach(t1, n, m);
      JoinTicked(t, [s], t1, rest, t');
      steps := [s] + rest;
    }
  }

  /** Where the next tick goes on the way to `m`. */
  lemma NextTarget(node: Node, m: string) returns (target: Option<string>)
    requires m in node.peers
    ensures Allowed(node.beat, node.peers, target)
    ensures target == Some(m) || |StepBeat(node.beat, target).forced| < |node.beat.forced| ||
            (&& StepBeat(node.beat, target).forced == node.beat.forced
             && Wait(StepBeat(node.beat, target)) < Wait(node.beat))
  {
    var b := node.beat;
    if (b.tick + 1) % GOSSIP_INTERVAL != 0 {
      target := None;
    } else if b.forced == {} || m in b.forced {
      target := Some(m);
    } else {
      var p :| p in b.forced;
      target := Some(p);
      assert |b.forced - {p}| < |b.forced|;
    }
  }

  lemma Sent(t: Ticked, n: string, m: string)
    requires TickedEnabled(t, TickAt(n, Some(m))) && FaultGates.MaySend(t.cluster.faults[n], m)
    ensures DigestOut(t, TickedApply(t, TickAt(n, Some(m))), n, m)
  {
    var d := Digest(DigestOf(t.cluster.stores[n]));
    assert d in [d];
    assert Envelope(n, m, d) in Outgoing(t.cluster, n, m, [d]);
  }

  /******* Exchanges and agreement *******/

  ghost function Lifted(steps: seq<Step>): (r: seq<TickedStep>)
    ensures |r| == |steps| && forall i :: 0 <= i < |r| ==> r[i] == Other(steps[i])
  {
    seq(|steps|, i requires 0 <= i < |steps| => Other(steps[i]))
  }

  lemma DeliveryKeepsPeers(t: Ticked, s: Step)
    requires TickedEnabled(t, Other(s)) && (s.Arrive? || s.Handle?)
    ensures PeersGrow(t, TickedApply(t, Other(s)))
    ensures TickedApply(t, Other(s)).cluster.stores.Keys == t.nodes.Keys == TickedApply(t, Other(s)).cluster.faults.Keys
  {
  }

  /** Deliveries are steps of the nodes whatever their ticks and peers. */
  lemma {:induction false} Lift(t: Ticked, steps: seq<Step>, c': Cluster) returns (t': Ticked)
    requires t.nodes.Keys == t.cluster.stores.Keys == t.cluster.faults.Keys
    requires Runs(t.cluster, steps, c') && Deliveries(steps)
    ensures TickedRun(t, Lifted(steps), t') && t'.cluster == c' && PeersGrow(t, t')
    decreases |steps|
  {
    if steps == [] {
      t' := t;
    } else {
      var s := steps[0];
      assert s in steps;
      var t1 := TickedApply(t, Other(s));
      DeliveryKeepsPeers(t, s);
      assert Deliveries(steps[1..]);
      t' := Lift(t1, steps[1..], c');
      assert Lifted(steps)[1..] == Lifted(steps[1..]);
    }
  }

  ghost predicate Exchanged(t: Ticked, t': Ticked, stores: map<string, Store>) {
    && t'.cluster.stores == stores && t'.cluster.faults == t.cluster.faults && t'.cluster.puts == t.cluster.puts
    && PeersGrow(t, t')
  }

  /** Two nodes with open gates, one of which lists the other, can perform an exchange. */
  lemma TickedExchange(t: Ticked, a: string, b: string) returns (steps: seq<TickedStep>, t': Ticked)
    requires t.nodes.Keys == t.cluster.stores.Keys && Open(t.cluster, a, b) && a != b && b in t.nodes[a].peers
    ensures TickedRun(t, steps, t') && NoPuts(steps) && Exchanged(t, t', Exchange(t.cluster.stores, a, b))
  {
    var p, t1 := CanReach(t, a, b);
    var q, c', _ := RestOfExchange(t1.cluster, a, b);
    t' := Lift(t1, q, c');
    JoinTicked(t, p, t1, Lifted(q), t');
    steps := p + Lifted(q);
    NoPutsIn(p, q);
  }

  lemma NoPutsIn(p: seq<TickedStep>, q: seq<Step>)
    requires NoPuts(p) && Deliveries(q)
    ensures NoPuts(p + Lifted(q))
  {
    forall s | s in p + Lifted(q) ensures !(s.Other? && s.step.Put?) {
      if s !in p {
        var i :| 0 <= i < |q| && Lifted(q)[i] == s;
        assert q[i] in q;
      }
    }
  }

  /** All gates are open between all nodes. */
  ghost predicate AllOpen(c: Cluster) {
    forall a, b :: a in c.stores && b in c.stores ==> Open(c, a, b)
  }

  /** Every exchange of the schedule starts at a node that lists its partner. */
  ghost predicate Listed(t: Ticked, schedule: Schedule) {
    forall p :: p in schedule ==> p.0 in t.nodes && p.1 in t.nodes[p.0].peers
  }

  lemma StaysListed(t: Ticked, t': Ticked, schedule: Schedule)
    requires PeersGrow(t, t') && Listed(t, schedule)
    ensures Listed(t', schedule) && (schedule != [] ==> Listed(t', schedule[1..]))
  {
  }

  lemma StaysOpen(c: Cluster, c': Cluster)
    requires AllOpen(c) && c'.stores.Keys == c.stores.Keys && c'.faults == c.faults
    ensures AllOpen(c')
  {
    forall a, b | a in c'.stores && b in c'.stores ensures Open(c', a, b) {
      assert Open(c, a, b);
    }
  }

  lemma {:induction false} TickedSchedule(t: Ticked, schedule: Schedule) returns (steps: seq<TickedStep>, t': Ticked)
    requires t.nodes.Keys == t.cluster.stores.Keys == t.cluster.faults.Keys
    requires AllOpen(t.cluster) && ValidSchedule(t.cluster.stores.Keys, schedule) && Listed(t, schedule)
    ensures TickedRun(t, steps, t') && NoPuts(steps) && Exchanged(t, t', ExchangeAll(t.cluster.stores, schedule))
    decreases |schedule|
  {
    if schedule == [] {
      steps, t' := [], t;
    } else {
      var p := schedule[0];
      assert p in schedule && Open(t.cluster, p.0, p.1);
      var first, t1 := TickedExchange(t, p.0, p.1);
      StaysOpen(t.cluster, t1.cluster);
      StaysListed(t, t1, schedule);
      var rest;
      rest, t' := TickedSchedule(t1, schedule[1..]);
      JoinTicked(t, first, t1, rest, t');
      steps := first + rest;
    }
  }

  lemma SweepListed(t: Ticked, hub: string, others: seq<string>)
    requires hub in t.nodes && forall m :: m in others ==> m in t.nodes[hub].peers
    ensures Listed(t, Sweep(hub, others))
  {
  }

  /** From every state reached with monotone Puts, with all gates open and some node listing all
      others as peers, the nodes can go on ticking and delivering, without further Puts, until
      all replicas agree on every key. */
  lemma ClusterCanConverge(c: Cluster, before: seq<Step>, t: Ticked, hub: string, others: seq<string>)
    returns (steps: seq<TickedStep>, t': Ticked)
    requires Init(c) && ValidRun(c, before) && MonotonePuts(c, before) && t.cluster == After(c, before)
    requires t.nodes.Keys == t.cluster.stores.Keys && AllOpen(t.cluster) && hub in t.nodes
    requires forall m :: m in others ==> m in t.nodes && m != hub && m in t.nodes[hub].peers
    requires forall n :: n in t.nodes ==> n == hub || n in others
    ensures TickedRun(t, steps, t') && NoPuts(steps)
    ensures forall k :: AllAgree(t'.cluster.stores, k)
  {
    ReachableIsSound(c, before);
    var sweep := Sweep(hub, others);
    SweepValid(t.cluster.stores.Keys, hub, others);
    SweepListed(t, hub, others);
    assert Open(t.cluster, hub, hub);
    var p, t1 := TickedSchedule(t, sweep);
    StaysOpen(t.cluster, t1.cluster);
    StaysListed(t, t1, sweep);
    var q, t2 := TickedSchedule(t1, sweep);
    JoinTicked(t, p, t1, q, t2);
    steps, t' := p + q, t2;
    forall k ensures AllAgree(t'.cluster.stores, k) {
      TwoSweepsConverge(t.cluster.puts, t.cluster.stores, hub, others, sweep, k);
    }
  }
}
