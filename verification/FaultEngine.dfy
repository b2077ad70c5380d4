/** The fault engine of one node, its decisions, and the runtime call that reconciles it
    with a fault request. */
module FaultEngine {
  import opened Options
  import opened FaultGates
  import opened PartitionControl

  datatype Reason = NoFaultEngine | Crashed | Partitioned | Dropped | Allowed
  datatype Decision = Decision(allow: bool, delayMs: int, reason: Reason)

  class Engine {
    var crashed: bool
    var dropRate: real
    var delayMs: int
    var partitions: map<string, bool>
    /** The node the engine was made for. */
    ghost const owner: string

    constructor (ghost owner: string)
      ensures View() == Faults(false, {}) && dropRate == 0.0 && delayMs == 0 && this.owner == owner
    {
      this.owner := owner;
      crashed, dropRate, delayMs, partitions := false, 0.0, 0, map[];
    }

    /** The fault state the gates read. */
    function View(): Faults
      reads this
    {
      Faults(crashed, set p | p in partitions && partitions[p])
    }

    method Crash()
      modifies this`crashed
      ensures View() == old(View()).(crashed := true)
    {
      crashed := true;
    }

    method Recover()
      modifies this`crashed
      ensures View() == old(View()).(crashed := false)
    {
      crashed := false;
    }

    method SetDropRate(p: real)
      modifies this`dropRate
      ensures dropRate == p
    {
      dropRate := p;
    }

    method SetDelay(ms: int)
      modifies this`delayMs
      ensures delayMs == ms
    {
      delayMs := ms;
    }

    method Partition(peer: string)
      modifies this`partitions
      ensures View().partitions == old(View()).partitions + {peer}
    {
      partitions := partitions[peer := true];
    }

    method Heal(peer: string)
      modifies this`partitions
      ensures View().partitions == old(View()).partitions - {peer}
    {
      partitions := partitions - {peer};
    }

    predicate IsPartitioned(peer: string)
      reads this
    {
      peer in partitions && partitions[peer]
    }

    /** `roll` is the random number drawn, in [0, 1). */
    predicate ShouldDrop(roll: real)
      reads this
    {
      roll < dropRate
    }
  }

  /** An absent engine allows everything; otherwise crash, partition and drop refuse, in
      this order, and only an allowed envelope is delayed. */
  function BeforeSend(e: Engine?, peer: string, roll: real): (r: Decision)
    reads e
    ensures r.allow <==> e == null || (MaySend(e.View(), peer) && e.dropRate <= roll)
    ensures r.allow <==> e == null || (!e.View().crashed && peer !in e.View().partitions && e.dropRate <= roll)
    ensures r.reason == NoFaultEngine <==> e == null
    ensures r.reason == Crashed <==> e != null && e.View().crashed
    ensures r.reason == Partitioned <==> e != null && !e.View().crashed && peer in e.View().partitions
    ensures r.reason == Dropped <==> e != null && MaySend(e.View(), peer) && roll < e.dropRate
    ensures r.delayMs == if e != null && r.allow then e.delayMs else 0
  {
    if e == null then Decision(true, 0, NoFaultEngine)
    else if e.crashed then Decision(false, 0, Crashed)
    else if e.IsPartitioned(peer) then Decision(false, 0, Partitioned)
    else if e.ShouldDrop(roll) then Decision(false, 0, Dropped)
    else Decision(true, e.delayMs, Allowed)
  }

  function BeforeReceive(e: Engine?, peer: string): (r: Decision)
    reads e
    ensures r.allow <==> e == null || MayReceive(e.View(), peer)
    ensures r.allow <==> e == null || (!e.View().crashed && peer !in e.View().partitions)
    ensures r.reason == NoFaultEngine <==> e == null
    ensures r.reason == Crashed <==> e != null && e.View().crashed
    ensures r.reason == Partitioned <==> e != null && !e.View().crashed && peer in e.View().partitions
    ensures r.reason != Dropped && r.delayMs == 0
  {
    if e == null then Decision(true, 0, NoFaultEngine)
    else if e.crashed then Decision(false, 0, Crashed)
    else if e.IsPartitioned(peer) then Decision(false, 0, Partitioned)
    else Decision(true, 0, Allowed)
  }

  function BeforeTick(e: Engine?): (r: Decision)
    reads e
    ensures r.allow <==> e == null || MayTick(e.View())
    ensures r.allow <==> e == null || !e.View().crashed
    ensures r.reason == if e == null then NoFaultEngine else if r.allow then Allowed else Crashed
    ensures r.delayMs == if e != null && r.allow then e.delayMs else 0
  {
    if e == null then Decision(true, 0, NoFaultEngine)
    else if e.crashed then Decision(false, 0, Crashed)
    else Decision(true, e.delayMs, Allowed)
  }

  /******* The runtime *******/

  datatype FaultRequest = FaultRequest(
    node: string, crashed: bool, dropRate: real, delayMs: int, partition: seq<string>)

  datatype FaultError = NilRequest | NoEngine | NodeMismatch | BadDropRate | BadDelay

  /** Parameters every node accepts. */
  predicate Acceptable(dropRate: real, delayMs: int) {
    0.0 <= dropRate <= 1.0 && delayMs >= 0
  }

  class Runtime {
    const id: string
    const fault: Engine?
    var peers: seq<string>

    constructor (id: string, fault: Engine?, peers: seq<string>)
      ensures this.id == id && this.fault == fault && this.peers == peers
    {
      this.id, this.fault, this.peers := id, fault, peers;
    }

    ghost function PeerSet(): set<string>
      reads this
    {
      set p | p in peers
    }

    /** An unacceptable request changes nothing; an accepted one installs its parameters and
        reconciles the partitions with the requested ones. */
    method SetFaultParams(request: Option<FaultRequest>) returns (error: Option<FaultError>)
      modifies fault
      ensures error.None? <==>
        && request.Some? && fault != null && (request.value.node == "" || request.value.node == id)
        && Acceptable(request.value.dropRate, request.value.delayMs)
      ensures error.Some? && fault != null ==> unchanged(fault)
      ensures error.None? ==>
        && fault.View().crashed == request.value.crashed
        && fault.View().partitions ==
             Reconciled(old(fault.View()).partitions, PeerSet(), Desired(id, request.value.partition))
        && fault.dropRate == request.value.dropRate && fault.delayMs == request.value.delayMs
    {
      if request.None? {
        return Some(NilRequest);
      }
      if fault == null {
        return Some(NoEngine);
      }
      var r := request.value;
      if r.node != "" && r.node != id {
        return Some(NodeMismatch);
      }
      if r.dropRate < 0.0 || r.dropRate > 1.0 {
        return Some(BadDropRate);
      }
      if r.delayMs < 0 {
        return Some(BadDelay);
      }
      if r.crashed {
        fault.Crash();
      } else {
        fault.Recover();
      }
      fault.SetDropRate(r.dropRate);
      fault.SetDelay(r.delayMs);
      var desired := CollectDesired(r.partition);
      Reconcile(desired);
      return None;
    }

    method CollectDesired(list: seq<string>) returns (desired: set<string>)
      ensures desired == Desired(id, list)
    {
      desired := {};
      for i := 0 to |list|
        invariant desired == Desired(id, list[..i])
      {
        DesiredNext(id, list, i);
        if list[i] != "" && list[i] != id {
          desired := desired + {list[i]};
        }
      }
      assert list[..|list|] == list;
    }

    method Reconcile(desired: set<string>)
      requires fault != null
      modifies fault`partitions
      ensures fault.View().partitions == Reconciled(old(fault.View()).partitions, PeerSet(), desired)
    {
      ghost var before := fault.View().partitions;
      VisitPeers(desired);
      PartitionAll(desired);
      VisitedThenDesired(before, peers, desired);
    }

    /** Known peers are partitioned if desired and healed otherwise. */
    method VisitPeers(desired: set<string>)
      requires fault != null
      modifies fault`partitions
      ensures fault.View().partitions == Visited(old(fault.View()).partitions, peers, desired)
    {
      ghost var before := fault.View().partitions;
      assert peers[..0] == [];
      for i := 0 to |peers|
        invariant fault.View().partitions == Visited(before, peers[..i], desired)
      {
        VisitedNext(before, peers, i, desired);
        if peers[i] in desired {
          fault.Partition(peers[i]);
        } else {
          fault.Heal(peers[i]);
        }
      }
      assert peers[..|peers|] == peers;
    }

    /** Desired ids are partitioned even where they are not known peers yet. */
    method PartitionAll(desired: set<string>)
      requires fault != null
      modifies fault`partitions
      ensures fault.View().partitions == old(fault.View()).partitions + desired
    {
      ghost var before := fault.View().partitions;
      var rest := desired;
      DoneEnds(before, desired);
      while rest != {}
        invariant rest <= desired
        invariant fault.View().partitions == Done(before, desired, rest)
        decreases |rest|
      {
        var p :| p in rest;
        DoneNext(before, desired, rest, p);
        fault.Partition(p);
        rest := rest - {p};
      }
    }
  }

  lemma DesiredNext(id: string, list: seq<string>, i: nat)
    requires i < |list|
    ensures Desired(id, list[..i+1]) ==
            Desired(id, list[..i]) + if list[i] != "" && list[i] != id then {list[i]} else {}
  {
    assert list[..i+1] == list[..i] + [list[i]];
  }

  /** The engine's set once the given peers were partitioned or healed. */
  ghost function Visited(engine: set<string>, peers: seq<string>, desired: set<string>): set<string> {
    (set p | p in engine && (p !in peers || p in desired)) + (set p | p in peers && p in desired)
  }

  lemma VisitedNext(engine: set<string>, peers: seq<string>, i: nat, desired: set<string>)
    requires i < |peers|
    ensures Visited(engine, peers[..i+1], desired) ==
            if peers[i] in desired then Visited(engine, peers[..i], desired) + {peers[i]}
            else Visited(engine, peers[..i], desired) - {peers[i]}
  {
    assert peers[..i+1] == peers[..i] + [peers[i]];
  }

  /** The engine's set when all desired ids but the rest were added. */
  ghost function Done(engine: set<string>, desired: set<string>, rest: set<string>): set<string> {
    engine + (desired - rest)
  }

  lemma DoneNext(engine: set<string>, desired: set<string>, rest: set<string>, p: string)
    requires p in rest && rest <= desired
    ensures Done(engine, desired, rest - {p}) == Done(engine, desired, rest) + {p}
  {
  }

  lemma DoneEnds(engine: set<string>, desired: set<string>)
    ensures Done(engine, desired, desired) == engine && Done(engine, desired, {}) == engine + desired
  {
  }

  lemma VisitedThenDesired(engine: set<string>, peers: seq<string>, desired: set<string>)
    ensures Visited(engine, peers, desired) + desired == Reconciled(engine, (set p | p in peers), desired)
  {
  }
}
