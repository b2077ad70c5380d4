/** Groups partitioned from each other at the receiving side stay isolated: nothing
    written after the split reaches another group. */
module Isolation {
  import opened Options
  import opened GossipValues
  import opened FaultGates
  import opened GossipCluster

  type Groups = map<string, nat>

  /** Every node is in a group, and each node's engine refuses all nodes of other groups. */
  ghost predicate Split(c: Cluster, groups: Groups) {
    && groups.Keys == c.stores.Keys == c.faults.Keys
    && forall a, b :: a in groups && b in groups && groups[a] != groups[b] ==> a in c.faults[b].partitions
  }

  /** Nothing from another group is waiting in a node's event queue. */
  ghost predicate NoCrossPending(inbox: set<Envelope>, groups: Groups) {
    forall e :: e in inbox && e.from in groups && e.to in groups ==> groups[e.from] == groups[e.to]
  }

  /** Seen from group `g`, the value reflects no Put of another group beyond history `h`. */
  ghost predicate Confined(h: History, groups: Groups, g: nat, k: string, v: Value) {
    forall m :: m in groups && groups[m] != g ==> At(v.clock, m) <= |Writes(h, m, k)|
  }

  ghost predicate ConfinedStore(h: History, groups: Groups, g: nat, store: Store) {
    forall k :: k in store ==> Confined(h, groups, g, k, store[k])
  }

  ghost predicate IsolationInv(h: History, groups: Groups, c: Cluster) {
    && Inv(c) && Split(c, groups) && NoCrossPending(c.inbox, groups)
    && (forall n :: n in c.stores ==> ConfinedStore(h, groups, groups[n], c.stores[n]))
    && (forall e :: e in c.sent && e.message.State? ==>
          e.from in groups && ConfinedStore(h, groups, groups[e.from], e.message.state))
  }

  lemma ResolveConfined(h: History, groups: Groups, g: nat, k: string, local: Option<Value>, v: Value)
    requires Confined(h, groups, g, k, v) && (local.Some? ==> Confined(h, groups, g, k, local.value))
    ensures Confined(h, groups, g, k, Resolve(local, v))
  {
  }

  lemma WrittenConfined(
    h: History, groups: Groups, n: string, k: string, local: Option<Value>, data: string, timestamp: int)
    requires n in groups && (local.Some? ==> Confined(h, groups, groups[n], k, local.value))
    ensures Confined(h, groups, groups[n], k, Written(local, n, data, timestamp))
  {
  }

  lemma PutConfined(h: History, groups: Groups, n: string, store: Store, k: string, data: string, timestamp: int)
    requires n in groups && ConfinedStore(h, groups, groups[n], store)
    ensures ConfinedStore(h, groups, groups[n], store[k := Written(Find(store, k), n, data, timestamp)])
  {
    WrittenConfined(h, groups, n, k, Find(store, k), data, timestamp);
  }

  lemma PutKeepsIsolation(h: History, groups: Groups, c: Cluster, s: Step)
    requires IsolationInv(h, groups, c) && Enabled(c, s) && s.Put?
    ensures IsolationInv(h, groups, Apply(c, s))
  {
    StepKeepsInv(c, s);
    var c' := Apply(c, s);
    forall n | n in c'.stores ensures ConfinedStore(h, groups, groups[n], c'.stores[n]) {
      assert ConfinedStore(h, groups, groups[n], c.stores[n]);
      if n == s.node {
        PutConfined(h, groups, n, c.stores[n], s.key, s.data, s.timestamp);
      }
    }
  }

  lemma ApplyStateConfined(h: History, groups: Groups, g: nat, store: Store, st: Store)
    requires ConfinedStore(h, groups, g, store) && ConfinedStore(h, groups, g, st)
    ensures ConfinedStore(h, groups, g, ApplyState(store, st))
  {
    forall k | k in ApplyState(store, st) ensures Confined(h, groups, g, k, ApplyState(store, st)[k]) {
      if k in st {
        ResolveConfined(h, groups, g, k, Find(store, k), st[k]);
      }
    }
  }

  lemma StateKeepsIsolation(h: History, groups: Groups, c: Cluster, e: Envelope)
    requires IsolationInv(h, groups, c) && Enabled(c, Handle(e)) && e.message.State?
    ensures IsolationInv(h, groups, Apply(c, Handle(e)))
  {
    StepKeepsInv(c, Handle(e));
    assert e in c.sent && groups[e.from] == groups[e.to];
    ApplyStateConfined(h, groups, groups[e.to], c.stores[e.to], e.message.state);
    var c' := Apply(c, Handle(e));
    forall n | n in c'.stores ensures ConfinedStore(h, groups, groups[n], c'.stores[n]) {
      assert ConfinedStore(h, groups, groups[n], c.stores[n]);
    }
  }

  lemma DigestKeepsIsolation(h: History, groups: Groups, c: Cluster, e: Envelope)
    requires IsolationInv(h, groups, c) && Enabled(c, Handle(e)) && e.message.Digest?
    ensures IsolationInv(h, groups, Apply(c, Handle(e)))
  {
    StepKeepsInv(c, Handle(e));
    var c', store, d := Apply(c, Handle(e)), c.stores[e.to], e.message.digest;
    assert ConfinedStore(h, groups, groups[e.to], store);
    StateForConfined(h, groups, groups[e.to], store, d);
    forall x | x in c'.sent && x.message.State?
      ensures x.from in groups && ConfinedStore(h, groups, groups[x.from], x.message.state)
    {
      if x !in c.sent {
        assert x.message in DigestReplies(store, d) && x.from == e.to;
      }
    }
    assert c'.stores == c.stores && c'.faults == c.faults && c'.inbox <= c.inbox;
  }

  lemma StateForConfined(h: History, groups: Groups, g: nat, store: Store, d: DigestMap)
    requires ConfinedStore(h, groups, g, store)
    ensures forall m :: m in DigestReplies(store, d) && m.State? ==> ConfinedStore(h, groups, g, m.state)
  {
    assert ConfinedStore(h, groups, g, StateFor(store, d));
  }

  lemma StepKeepsIsolation(h: History, groups: Groups, c: Cluster, s: Step)
    requires IsolationInv(h, groups, c) && Enabled(c, s) && !s.SetFaults?
    ensures IsolationInv(h, groups, Apply(c, s))
  {
    match s
    case Put(_, _, _, _) => PutKeepsIsolation(h, groups, c, s);
    case Handle(e) =>
      if e.message.State? {
        StateKeepsIsolation(h, groups, c, e);
      } else {
        DigestKeepsIsolation(h, groups, c, e);
      }
    case _ => StepKeepsInv(c, s);
  }

  lemma {:induction false} RunKeepsIsolation(h: History, groups: Groups, c: Cluster, steps: seq<Step>)
    requires IsolationInv(h, groups, c) && ValidRun(c, steps) && forall s :: s in steps ==> !s.SetFaults?
    ensures IsolationInv(h, groups, After(c, steps))
    decreases |steps|
  {
    if steps != [] {
      StepKeepsIsolation(h, groups, c, steps[0]);
      RunKeepsIsolation(h, groups, Apply(c, steps[0]), steps[1..]);
    }
  }

  lemma IsolationStarts(c: Cluster, groups: Groups)
    requires Inv(c) && Split(c, groups) && NoCrossPending(c.inbox, groups)
    ensures IsolationInv(c.puts, groups, c)
  {
    forall n, k | n in c.stores && k in c.stores[n] ensures Confined(c.puts, groups, groups[n], k, c.stores[n][k]) {
      assert GenuineStore(c.puts, c.stores[n]);
      assert Genuine(c.puts, k, c.stores[n][k]);
    }
    forall e, k | e in c.sent && e.message.State? && k in e.message.state
      ensures Confined(c.puts, groups, groups[e.from], k, e.message.state[k])
    {
      assert GenuineMessage(c.puts, e.message);
      assert Genuine(c.puts, k, e.message.state[k]);
    }
  }

  /** Nothing of the entry stems from a write another group made after history `h`. */
  ghost predicate NoForeignNews(h: History, groups: Groups, g: nat, k: string, entry: Option<Value>) {
    forall m :: m in groups && groups[m] != g ==>
      && At(ClockOf(entry), m) <= |Writes(h, m, k)|
      && (entry.Some? && entry.value.origin == m ==>
            exists i :: 0 <= i < |Writes(h, m, k)| && SameWrite(Writes(h, m, k)[i], entry.value))
  }

  lemma ConfinedMeans(h: History, h': History, groups: Groups, g: nat, k: string, v: Value)
    requires Genuine(h', k, v) && Confined(h, groups, g, k, v) && Extends(h, h')
    ensures NoForeignNews(h, groups, g, k, Some(v))
  {
    var i :| 0 <= i < At(v.clock, v.origin) <= |Writes(h', v.origin, k)| && SameWrite(Writes(h', v.origin, k)[i], v);
    assert Writes(h, v.origin, k) <= Writes(h', v.origin, k);
    if v.origin in groups && groups[v.origin] != g {
      assert Writes(h, v.origin, k)[i] == Writes(h', v.origin, k)[i];
    }
  }

  /** From any reachable cluster whose groups refuse each other, with no cross-group envelope
      pending and no later fault change: no replica ever shows a clock entry for a Put made
      after the split in another group, nor holds such a Put's value. */
  lemma PartitionIsolates(
    c0: Cluster, before: seq<Step>, groups: Groups, steps: seq<Step>, n: string, k: string)
    requires Init(c0) && ValidRun(c0, before)
    requires Split(After(c0, before), groups) && NoCrossPending(After(c0, before).inbox, groups)
    requires ValidRun(After(c0, before), steps) && forall s :: s in steps ==> !s.SetFaults?
    requires n in After(c0, before).stores
    ensures
      var c := After(c0, before);
      var f := After(c, steps);
      n in f.stores && NoForeignNews(c.puts, groups, groups[n], k, Find(f.stores[n], k))
  {
    InitInv(c0);
    RunKeepsInv(c0, before);
    IsolatedFrom(After(c0, before), groups, steps, n, k);
  }

  lemma IsolatedFrom(c: Cluster, groups: Groups, steps: seq<Step>, n: string, k: string)
    requires Inv(c) && Split(c, groups) && NoCrossPending(c.inbox, groups) && n in c.stores
    requires ValidRun(c, steps) && forall s :: s in steps ==> !s.SetFaults?
    ensures
      var f := After(c, steps);
      n in f.stores && NoForeignNews(c.puts, groups, groups[n], k, Find(f.stores[n], k))
  {
    IsolationStarts(c, groups);
    RunKeepsIsolation(c.puts, groups, c, steps);
    RunKeepsInv(c, steps);
    var f := After(c, steps);
    if k in f.stores[n] {
      assert ConfinedStore(c.puts, groups, groups[n], f.stores[n]);
      assert GenuineStore(f.puts, f.stores[n]);
      ConfinedMeans(c.puts, f.puts, groups, groups[n], k, f.stores[n][k]);
    }
  }
}
