/** The control plane's symmetric partition command, over the recorded fault parameters and
    the runtimes they are pushed to. */
module ControlPlane {
  import opened Options
  import opened PartitionControl
  import opened FaultEngine

  /** Parameters recorded for a node. */
  datatype FaultState = FaultState(crashed: bool, dropRate: real, delayMs: int, partition: seq<string>)

  /** The runtime of node `n`, with an engine made for it. */
  ghost predicate Serves(r: Runtime, n: string) {
    r.id == n && r.fault != null && r.fault.owner == n
  }

  datatype NodeStatus = Active | Crashed

  function StatusFor(params: FaultState): NodeStatus {
    if params.crashed then NodeStatus.Crashed else Active
  }

  class Manager {
    var faults: map<string, FaultState>
    var status: map<string, NodeStatus>
    /** Whether a node session is set: without one, parameters are only recorded. */
    const connected: bool
    /** The runtimes the registered nodes are reached at. */
    const runtimes: map<string, Runtime>

    constructor (faults: map<string, FaultState>, runtimes: map<string, Runtime>, connected: bool)
      requires faults.Keys == runtimes.Keys
      requires forall n :: n in runtimes ==> Serves(runtimes[n], n)
      ensures Valid() && this.faults == faults && this.runtimes == runtimes && this.connected == connected
      ensures status == map[]
    {
      this.faults, this.runtimes, this.connected, this.status := faults, runtimes, connected, map[];
    }

    /** Each node has a runtime of its own. */
    ghost predicate Wired() {
      forall n :: n in runtimes ==> Serves(runtimes[n], n)
    }

    ghost predicate Valid()
      reads this
    {
      faults.Keys == runtimes.Keys && Wired()
    }

    ghost function Engines(): set<Engine>
      requires Wired()
    {
      set n | n in runtimes :: runtimes[n].fault
    }

    ghost function Recorded(): map<string, seq<string>>
      reads this
    {
      Lists(faults)
    }

    ghost function EngineSets(): map<string, set<string>>
      requires Wired()
      reads Engines()
    {
      map n | n in runtimes :: runtimes[n].fault.View().partitions
    }

    ghost function PeerSets(): map<string, set<string>>
      reads runtimes.Values
    {
      map n | n in runtimes :: runtimes[n].PeerSet()
    }

    ghost function View(): Control
      requires Valid()
      reads this, Engines(), runtimes.Values
    {
      Control(Recorded(), EngineSets(), PeerSets())
    }

    /** Pushing the recorded parameters of a known node installs them in its engine. */
    ghost predicate Installs(n: string)
      reads this
    {
      n in faults && connected && Acceptable(faults[n].dropRate, faults[n].delayMs)
    }

    /** Setting them succeeds also where there is nothing to push to. */
    ghost predicate Succeeds(n: string)
      reads this
    {
      n in faults && (connected ==> Installs(n))
    }

    /** The recorded list is rebuilt in one pass. */
    method NextList(list: seq<string>, other: string, enabled: bool) returns (next: seq<string>)
      ensures next == UpdatedList(list, other, enabled)
      ensures enabled ==> next == if other in list then list else list + [other]
    {
      next := [];
      var seen := false;
      for i := 0 to |list|
        invariant seen <==> other in list[..i]
        invariant next == if enabled then list[..i] else Without(list[..i], other)
      {
        NextListStep(list, other, i);
        if list[i] == other {
          seen := true;
          if enabled {
            next := next + [list[i]];
          }
        } else {
          next := next + [list[i]];
        }
      }
      assert list[..|list|] == list;
      if enabled && !seen {
        next := next + [other];
      }
    }

    static lemma NextListStep(list: seq<string>, other: string, i: nat)
      requires i < |list|
      ensures list[..i+1] == list[..i] + [list[i]]
      ensures Without(list[..i+1], other) == Without(list[..i], other) + if list[i] == other then [] else [list[i]]
    {
      assert list[..i+1][..i] == list[..i];
    }

    /** Records parameters and the status they mean, and pushes them to the node.  An unknown
        node changes nothing; a refused push leaves them recorded and the engine as it was. */
    method SetFaultParams(node: string, params: FaultState) returns (ok: bool)
      requires Valid()
      modifies this`faults, this`status, Engines()
      ensures Valid()
      ensures ok <==> node in old(faults) && (connected ==> Acceptable(params.dropRate, params.delayMs))
      ensures faults == if node in old(faults) then old(faults)[node := params] else old(faults)
      ensures status == if node in old(faults) then old(status)[node := StatusFor(params)]
                        else old(status)
      ensures node in old(faults) ==> (status[node] == NodeStatus.Crashed <==> params.crashed)
      ensures View() == Pushed(old(View()), node, params.partition, ok && connected)
    {
      if node !in faults {
        return false;
      }
      ghost var before := View();
      Record(node, params);
      ok := true;
      if connected {
        ok := Push(node, params);
      }
      PushedIs(before, View(), node, params.partition, ok && connected);
    }

    method Record(node: string, params: FaultState)
      requires Valid() && node in faults
      modifies this`faults, this`status
      ensures Valid() && EngineSets() == old(EngineSets()) && PeerSets() == old(PeerSets())
      ensures faults == old(faults)[node := params] && status == old(status)[node := StatusFor(params)]
      ensures Recorded() == old(Recorded())[node := params.partition]
    {
      ListsNext(faults, node, params);
      faults := faults[node := params];
      status := status[node := StatusFor(params)];
      EnginesStay();
      PeersStay();
    }

    twostate lemma EnginesStay()
      requires Wired() && forall e :: e in Engines() ==> unchanged(e)
      ensures EngineSets() == old(EngineSets())
    {
    }

    twostate lemma PeersStay()
      requires forall r :: r in runtimes.Values ==> unchanged(r)
      ensures PeerSets() == old(PeerSets())
    {
    }

    method Push(node: string, params: FaultState) returns (ok: bool)
      requires Wired() && node in runtimes
      modifies Engines()
      ensures unchanged(this) && PeerSets() == old(PeerSets())
      ensures ok <==> Acceptable(params.dropRate, params.delayMs)
      ensures EngineSets() == PushedEngines(old(EngineSets()), node, PeerSets()[node], params.partition, ok)
    {
      var runtime := runtimes[node];
      var request := FaultRequest(node, params.crashed, params.dropRate, params.delayMs, params.partition);
      var error := runtime.SetFaultParams(Some(request));
      ok := error.None?;
    }

    /** Updates one node's list and pushes it. */
    method UpdateNodePartition(target: string, other: string, enabled: bool) returns (ok: bool)
      requires Valid()
      modifies this`faults, this`status, Engines()
      ensures Valid()
      ensures ok <==> old(Succeeds(target))
      ensures View() == Tried(old(View()), target, other, enabled, old(Installs(target)))
      ensures SameParameters(old(faults), faults)
    {
      if target !in faults {
        return false;
      }
      var fault := faults[target];
      var next := NextList(fault.partition, other, enabled);
      ghost var before := View();
      SameAfter(faults, target, next);
      ok := SetFaultParams(target, fault.(partition := next));
      assert View() == Pushed(before, target, next, ok && connected);
    }

    /** The fault-partition command.  It reports success exactly when the first half succeeds;
        when every known one of the two nodes takes its parameters, it is the symmetric update. */
    method SetPartition(node: string, peer: string, enabled: bool) returns (ok: bool)
      requires Valid()
      modifies this`faults, this`status, Engines()
      ensures Valid()
      ensures ok <==> old(Succeeds(node))
      ensures View() == Attempted(old(View()), node, peer, enabled,
                                  old(Succeeds(node)), old(Installs(node)), old(Installs(peer)))
      ensures old((node in faults ==> Installs(node)) && (peer in faults ==> Installs(peer))) ==>
                View() == SetPair(old(View()), node, peer, enabled)
    {
      ghost var before, installsNode, installsPeer := View(), Installs(node), Installs(peer);
      ok := UpdateNodePartition(node, peer, enabled);
      assert View() == Tried(before, node, peer, enabled, installsNode);
      if ok {
        ghost var between := View();
        assert Installs(peer) == installsPeer;
        var _ := UpdateNodePartition(peer, node, enabled);
        assert View() == Tried(between, peer, node, enabled, installsPeer);
      }
      AttemptedIsSetPair(before, node, peer, enabled);
    }
  }

  /** One half of the command: unknown nodes change nothing. */
  function Tried(c: Control, target: string, other: string, enabled: bool, accepts: bool): Control {
    if target !in c.recorded then c else Pushed(c, target, UpdatedList(c.recorded[target], other, enabled), accepts)
  }

  /** Both halves, the second only after a successful first. */
  function Attempted(
    c: Control, node: string, peer: string, enabled: bool,
    succeeds: bool, installsNode: bool, installsPeer: bool): Control
  {
    var c1 := Tried(c, node, peer, enabled, installsNode);
    if succeeds then Tried(c1, peer, node, enabled, installsPeer) else c1
  }

  function Lists(faults: map<string, FaultState>): map<string, seq<string>> {
    map n | n in faults :: faults[n].partition
  }

  lemma SameAfter(faults: map<string, FaultState>, target: string, list: seq<string>)
    requires target in faults
    ensures SameParameters(faults, faults[target := faults[target].(partition := list)])
  {
  }

  lemma ListsNext(faults: map<string, FaultState>, node: string, params: FaultState)
    ensures Lists(faults[node := params]) == Lists(faults)[node := params.partition]
  {
  }

  /** The two maps differ at most in their partition lists. */
  ghost predicate SameParameters(a: map<string, FaultState>, b: map<string, FaultState>) {
    a.Keys == b.Keys && forall n :: n in a ==> a[n].(partition := []) == b[n].(partition := [])
  }

  function PushedEngines(
    engines: map<string, set<string>>, node: string, peers: set<string>, list: seq<string>, ok: bool)
    : map<string, set<string>>
  {
    if ok && node in engines then engines[node := Reconciled(engines[node], peers, Desired(node, list))] else engines
  }

  /** A list recorded for a known node and, if accepted, installed in its engine. */
  function Pushed(c: Control, node: string, list: seq<string>, ok: bool): Control {
    if node !in c.recorded || node !in c.peers then c
    else c.(recorded := c.recorded[node := list], engines := PushedEngines(c.engines, node, c.peers[node], list, ok))
  }

  lemma PushedIs(c: Control, c': Control, node: string, list: seq<string>, ok: bool)
    requires node in c.recorded && node in c.peers && c'.recorded == c.recorded[node := list] && c'.peers == c.peers
    requires c'.engines == PushedEngines(c.engines, node, c.peers[node], list, ok)
    ensures c' == Pushed(c, node, list, ok)
  {
  }

  lemma AttemptedIsSetPair(c: Control, node: string, peer: string, enabled: bool)
    requires Registered(c, {})
    ensures SetPair(c, node, peer, enabled) ==
            Attempted(c, node, peer, enabled, node in c.recorded, node in c.recorded, peer in c.recorded)
  {
    if node in c.recorded {
      PushedIsUpdate(c, node, peer, enabled);
      var c1 := Tried(c, node, peer, enabled, true);
      assert c1.recorded.Keys == c.recorded.Keys;
      if peer in c.recorded {
        PushedIsUpdate(c1, peer, node, enabled);
      }
    }
  }

  lemma PushedIsUpdate(c: Control, target: string, other: string, enabled: bool)
    requires target in c.recorded && target in c.engines && target in c.peers
    ensures UpdateNode(c, target, other, enabled) ==
              Some(Pushed(c, target, UpdatedList(c.recorded[target], other, enabled), true))
  {
  }
}
