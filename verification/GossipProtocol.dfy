/** The gossip protocol object of one node, as the reactor drives it: one event at a time.
    Go map iteration becomes a choice of some remaining key. */
module GossipProtocol {
  import opened Options
  import opened Addresses
  import opened GossipValues
  import opened GossipCluster

  /** What an inbound payload decodes to. */
  datatype Payload = Readable(message: Message) | Undecodable | OtherType(name: string)

  /** The node id in a `From` field; gossip falls back to the whole field. */
  function SenderId(from: string): string {
    var id := BeforeAt(from);
    if id == "" then from else id
  }

  /** The id a session puts in front of the address is the id the message is ascribed to. */
  lemma SenderIdRoundTrip(id: string, address: string)
    ensures SenderId(id + "@" + address) == id <==> id != "" && '@' !in id
    ensures '@' !in id ==> SenderId(id) == id
  {
    SenderRoundTrip(id, address);
    NoAtBefore(id);
    if '@' !in id {
      WholeWithoutAt(id);
    }
  }

  /** `c` exceeds `d` at one of the nodes. */
  ghost predicate LeadsAmong(c: Clock, d: Clock, nodes: set<string>) {
    exists n :: n in nodes && At(c, n) > At(d, n)
  }

  lemma LeadsNext(c: Clock, d: Clock, nodes: set<string>, node: string)
    ensures LeadsAmong(c, d, nodes + {node}) <==> LeadsAmong(c, d, nodes) || At(c, node) > At(d, node)
  {
    if LeadsAmong(c, d, nodes) {
      var n :| n in nodes && At(c, n) > At(d, n);
      assert n in nodes + {node};
    }
    assert node in nodes + {node};
  }

  /** A clock can exceed another only at one of its own keys. */
  lemma LeadsAnywhere(c: Clock, d: Clock, nodes: set<string>)
    requires c.Keys <= nodes
    ensures LeadsAmong(c, d, nodes) <==> !Dominates(d, c)
  {
  }

  method VectorClockCompare(vc1: Clock, vc2: Clock) returns (r: int)
    ensures r == CompareClocks(vc1, vc2)
  {
    var vc1Greater, vc2Greater := false, false;
    var allNodes := vc1.Keys + vc2.Keys;
    var rest := allNodes;
    ghost var seen: set<string> := {};
    while rest != {}
      invariant seen + rest == allNodes
      invariant vc1Greater <==> LeadsAmong(vc1, vc2, seen)
      invariant vc2Greater <==> LeadsAmong(vc2, vc1, seen)
      decreases |rest|
    {
      var node :| node in rest;
      LeadsNext(vc1, vc2, seen, node);
      LeadsNext(vc2, vc1, seen, node);
      seen := seen + {node};
      rest := rest - {node};
      if At(vc1, node) > At(vc2, node) {
        vc1Greater := true;
      } else if At(vc1, node) < At(vc2, node) {
        vc2Greater := true;
      }
    }
    assert seen == allNodes;
    LeadsAnywhere(vc1, vc2, seen);
    LeadsAnywhere(vc2, vc1, seen);
    if vc1Greater && !vc2Greater {
      return 1;
    }
    if vc2Greater && !vc1Greater {
      return -1;
    }
    return 0;
  }

  /** The part of a map whose keys have already been visited. */
  function Visited<V>(m: map<string, V>, rest: set<string>): map<string, V> {
    map k | k in m && k !in rest :: m[k]
  }

  lemma VisitOne<V>(m: map<string, V>, rest: set<string>, k: string)
    requires k in rest && k in m
    ensures Visited(m, rest - {k}) == Visited(m, rest)[k := m[k]] && k !in Visited(m, rest)
  {
  }

  lemma StateForOne(store: Store, digest: DigestMap, k: string, v: Value)
    requires k !in store
    ensures StateFor(store[k := v], digest) ==
              if k !in digest || CompareToDigest(v, digest[k]) > 0 then StateFor(store, digest)[k := v]
              else StateFor(store, digest)
  {
  }

  lemma MergeRaises(local: Clock, d: Clock, node: string, c: nat)
    requires node !in d && c > At(local, node)
    ensures Merge(local, d[node := c]) == Merge(local, d)[node := c]
  {
  }

  lemma MergeKeeps(local: Clock, d: Clock, node: string, c: nat)
    requires node !in d && c <= At(local, node)
    ensures Merge(local, d[node := c]) == Merge(local, d)
  {
  }

  lemma MergeOne(local: Clock, d: Clock, node: string, c: nat)
    requires node !in d
    ensures Merge(local, d[node := c]) ==
              if c > At(Merge(local, d), node) then Merge(local, d)[node := c] else Merge(local, d)
  {
    assert At(Merge(local, d), node) == At(local, node);
    if c > At(local, node) {
      MergeRaises(local, d, node, c);
    } else {
      MergeKeeps(local, d, node, c);
    }
  }

  /** Visiting one more entry of the incoming clock. */
  lemma MergeVisit(local: Clock, incoming: Clock, rest: set<string>, node: string)
    requires node in rest && node in incoming
    ensures
      var merged := Merge(local, Visited(incoming, rest));
      Merge(local, Visited(incoming, rest - {node})) ==
        if incoming[node] > At(merged, node) then merged[node := incoming[node]] else merged
  {
    VisitOne(incoming, rest, node);
    MergeOne(local, Visited(incoming, rest), node, incoming[node]);
  }

  lemma MergeEnds(local: Clock, incoming: Clock)
    ensures Merge(local, Visited(incoming, incoming.Keys)) == local
    ensures Visited(incoming, {}) == incoming
  {
    assert Visited(incoming, incoming.Keys) == map[];
  }

  method MergeClocks(local: Clock, incoming: Clock) returns (merged: Clock)
    ensures merged == Merge(local, incoming)
  {
    merged := local;
    var rest := incoming.Keys;
    MergeEnds(local, incoming);
    while rest != {}
      invariant rest <= incoming.Keys
      invariant merged == Merge(local, Visited(incoming, rest))
      decreases |rest|
    {
      var node :| node in rest;
      MergeVisit(local, incoming, rest, node);
      rest := rest - {node};
      if incoming[node] > At(merged, node) {
        merged := merged[node := incoming[node]];
      }
    }
  }

  lemma ApplyAt(store: Store, state: Store, k: string)
    ensures Find(ApplyState(store, state), k) ==
              if k in state then Some(Resolve(Find(store, k), state[k])) else Find(store, k)
  {
  }

  /** Stores that agree at every key are equal. */
  lemma SameStore(a: Store, b: Store)
    requires forall k :: Find(a, k) == Find(b, k)
    ensures a == b
  {
    assert forall k :: k in a <==> Find(a, k).Some?;
    assert forall k :: k in b <==> Find(b, k).Some?;
    forall k | k in a ensures a[k] == b[k] {
      assert Find(a, k) == Some(a[k]);
    }
  }

  lemma ApplyOne(store: Store, state: Store, k: string, v: Value)
    requires k !in state
    ensures Find(ApplyState(store, state), k) == Find(store, k)
    ensures ApplyState(store, state[k := v]) == ApplyState(store, state)[k := Resolve(Find(store, k), v)]
  {
    var a, b := ApplyState(store, state[k := v]), ApplyState(store, state)[k := Resolve(Find(store, k), v)];
    ApplyAt(store, state, k);
    forall x ensures Find(a, x) == Find(b, x) {
      ApplyAt(store, state, x);
      ApplyAt(store, state[k := v], x);
    }
    SameStore(a, b);
  }

  /** The peers SetPeers keeps of a list. */
  function Kept(ps: seq<string>, self: string): seq<string> {
    if ps == [] then []
    else
      var p := ps[|ps|-1];
      Kept(ps[..|ps|-1], self) + if p != "" && p != self then [p] else []
  }

  /** Keeping peers treats each entry on its own and preserves their order. */
  lemma {:induction false} KeptParts(a: seq<string>, b: seq<string>, self: string)
    ensures Kept(a + b, self) == Kept(a, self) + Kept(b, self)
    ensures b == [] || |b| > 1 || Kept(b, self) == if b[0] == "" || b[0] == self then [] else b
    decreases |b|
  {
    if b == [] {
      assert a + b == a;
    } else {
      var front := b[..|b|-1];
      assert (a + b)[..|a + b|-1] == a + front;
      KeptParts(a, front, self);
    }
  }

  lemma {:induction false} KeptMeans(ps: seq<string>, self: string)
    ensures forall p :: p in Kept(ps, self) <==> p in ps && p != "" && p != self
    decreases |ps|
  {
    if ps != [] {
      KeptMeans(ps[..|ps|-1], self);
      assert ps == ps[..|ps|-1] + [ps[|ps|-1]];
    }
  }

  /** Where the digest of a tick may go, given the tick counter and the peers to sync. */
  datatype Beat = Beat(tick: nat, forced: set<string>)

  const GOSSIP_INTERVAL: nat := 3

  predicate Allowed(b: Beat, peers: seq<string>, target: Option<string>) {
    if (b.tick + 1) % GOSSIP_INTERVAL != 0 then target.None?
    else if b.forced != {} then target.Some? && target.value in b.forced
    else if peers == [] then target.None?
    else target.Some? && target.value in peers
  }

  /** A forced target is unmarked; a random one was not marked. */
  function StepBeat(b: Beat, target: Option<string>): Beat {
    Beat(b.tick + 1, if target.Some? then b.forced - {target.value} else b.forced)
  }

  /** Exactly every third tick with somebody to send to sends a digest: to a marked peer, which is
      then unmarked, if there is one, else to a listed one. */
  lemma BeatMeans(b: Beat, peers: seq<string>, target: Option<string>)
    ensures Allowed(b, peers, target) <==>
              && (target.Some? <==> (b.tick + 1) % 3 == 0 && (b.forced != {} || peers != []))
              && (target.Some? ==> target.value in b.forced || (b.forced == {} && target.value in peers))
    ensures StepBeat(b, target).tick == b.tick + 1
    ensures forall p :: p in StepBeat(b, target).forced <==> p in b.forced && target != Some(p)
  {
  }

  class Protocol {
    var nodeID: string
    var tick: nat
    var peers: seq<string>
    var store: Store
    var forceSyncPeers: set<string>

    constructor ()
      ensures nodeID == "" && tick == 0 && peers == [] && store == map[] && forceSyncPeers == {}
    {
      nodeID, tick, peers, store, forceSyncPeers := "", 0, [], map[], {};
    }

    method Start(id: string)
      modifies this`nodeID, this`tick
      ensures nodeID == id && tick == 0
    {
      nodeID, tick := id, 0;
    }

    /** The kept peers are the non-empty, non-self ones, in order and with repetitions; exactly
        the ones among them that are new are marked for a forced sync. */
    method SetPeers(newPeers: seq<string>)
      modifies this`peers, this`forceSyncPeers
      ensures peers == Kept(newPeers, nodeID)
      ensures forceSyncPeers ==
                old(forceSyncPeers) + set p | p in newPeers && p != "" && p != nodeID && p !in old(peers)
    {
      var filtered: seq<string> := [];
      for i := 0 to |newPeers|
        invariant filtered == Kept(newPeers[..i], nodeID)
      {
        assert newPeers[..i+1][..i] == newPeers[..i];
        if newPeers[i] != "" && newPeers[i] != nodeID {
          filtered := filtered + [newPeers[i]];
        }
      }
      assert newPeers[..|newPeers|] == newPeers;
      KeptMeans(newPeers, nodeID);
      var rest := set p | p in filtered;
      var marked: set<string> := {};
      while rest != {}
        invariant forall p :: p in rest ==> p in filtered
        invariant forall p :: p in marked <==> p in filtered && p !in rest && p !in peers
        decreases |rest|
      {
        var p :| p in rest;
        rest := rest - {p};
        if p !in peers {
          marked := marked + {p};
        }
      }
      forceSyncPeers := forceSyncPeers + marked;
      peers := filtered;
    }

    method Put(key: string, data: string, now: int)
      modifies this`store
      ensures store == old(store)[key := Written(Find(old(store), key), nodeID, data, now)]
      ensures store.Keys == old(store).Keys + {key}
      ensures forall k :: k in old(store) && k != key ==> store[k] == old(store)[k]
      ensures store[key].data == data && store[key].origin == nodeID && store[key].timestamp == now
      ensures store[key].version == if key in old(store) then old(store)[key].version + 1 else 1
      ensures forall n :: At(store[key].clock, n) ==
                At(ClockOf(Find(old(store), key)), n) + if n == nodeID then 1 else 0
    {
      var clock: Clock := map[];
      var version := 1;
      if key in store {
        clock := store[key].clock;
        version := store[key].version + 1;
      }
      clock := clock[nodeID := At(clock, nodeID) + 1];
      store := store[key := Value(data, version, nodeID, now, clock)];
    }

    method Get(key: string) returns (data: string, found: bool)
      ensures found <==> key in store
      ensures data == if found then store[key].data else ""
    {
      if key in store {
        return store[key].data, true;
      }
      return "", false;
    }

    method GetWithMetadata(key: string) returns (data: string, version: int, origin: string, found: bool)
      ensures found <==> key in store
      ensures found ==> data == store[key].data && version == store[key].version && origin == store[key].origin
      ensures !found ==> data == "" && version == 0 && origin == ""
    {
      if key in store {
        return store[key].data, store[key].version, store[key].origin, true;
      }
      return "", 0, "", false;
    }

    method HandleState(state: Store)
      modifies this`store
      ensures store == ApplyState(old(store), state)
    {
      ghost var was := store;
      var rest := state.Keys;
      assert Visited(state, rest) == map[] && ApplyState(was, map[]) == was;
      while rest != {}
        invariant rest <= state.Keys
        invariant store == ApplyState(was, Visited(state, rest))
        decreases |rest|
      {
        var k :| k in rest;
        VisitOne(state, rest, k);
        ApplyOne(was, Visited(state, rest), k, state[k]);
        rest := rest - {k};
        if k !in store || IsIncomingNewer(store[k], state[k]) {
          var merged := MergeClocks(ClockOf(Find(store, k)), state[k].clock);
          store := store[k := state[k].(clock := merged)];
        }
      }
      assert Visited(state, rest) == state;
    }

    method HandleDigest(from: string, digest: DigestMap) returns (out: seq<Envelope>)
      ensures |out| == |DigestReplies(store, digest)|
      ensures forall i :: 0 <= i < |out| ==> out[i] == Envelope(nodeID, from, DigestReplies(store, digest)[i])
    {
      out := [];
      var state := CollectState(digest);
      if state != map[] {
        out := out + [Envelope(nodeID, from, State(state))];
      }

      var behind := IsBehind(digest);
      if behind {
        out := out + [Envelope(nodeID, from, Digest(DigestOf(store)))];
      }
    }

    /** First loop of handleDigest: what the sender lacks. */
    method CollectState(digest: DigestMap) returns (state: Store)
      ensures state == StateFor(store, digest)
    {
      state := map[];
      var rest := store.Keys;
      while rest != {}
        invariant rest <= store.Keys
        invariant state == StateFor(Visited(store, rest), digest)
        decreases |rest|
      {
        var key :| key in rest;
        VisitOne(store, rest, key);
        StateForOne(Visited(store, rest), digest, key, store[key]);
        rest := rest - {key};
        if key !in digest || CompareToDigest(store[key], digest[key]) > 0 {
          state := state[key := store[key]];
        }
      }
      assert Visited(store, rest) == store;
    }

    /** Second loop of handleDigest: whether this node lacks something. */
    method IsBehind(digest: DigestMap) returns (behind: bool)
      ensures behind <==> Behind(store, digest)
    {
      behind := false;
      var rest := digest.Keys;
      while rest != {} && !behind
        invariant rest <= digest.Keys
        invariant behind ==> Behind(store, digest)
        invariant !behind ==> forall k :: k in digest && k !in rest ==>
                    k in store && CompareToDigest(store[k], digest[k]) >= 0
        decreases |rest|
      {
        var key :| key in rest;
        rest := rest - {key};
        if key !in store || CompareToDigest(store[key], digest[key]) < 0 {
          behind := true;
        }
      }
    }

    /** The loop of Tick that turns the store into a digest. */
    method CollectDigest() returns (digest: DigestMap)
      ensures digest == DigestOf(store)
    {
      digest := map[];
      var rest := store.Keys;
      while rest != {}
        invariant rest <= store.Keys && digest.Keys == store.Keys - rest
        invariant forall k :: k in digest ==> digest[k] == ToDigest(store[k])
        decreases |rest|
      {
        var k :| k in rest;
        rest := rest - {k};
        digest := digest[k := ToDigest(store[k])];
      }
    }

    /** `roll` is the random draw among the peers.  Which forced peer goes first is left open. */
    method Tick(roll: nat) returns (out: seq<Envelope>, target: Option<string>)
      modifies this`tick, this`forceSyncPeers
      ensures Allowed(Beat(old(tick), old(forceSyncPeers)), peers, target)
      ensures Beat(tick, forceSyncPeers) == StepBeat(Beat(old(tick), old(forceSyncPeers)), target)
      ensures tick == old(tick) + 1
      ensures target.Some? <==> tick % 3 == 0 && (old(forceSyncPeers) != {} || peers != [])
      ensures target.Some? ==>
                if old(forceSyncPeers) != {} then target.value in old(forceSyncPeers) else target.value in peers
      ensures forceSyncPeers == if target.Some? then old(forceSyncPeers) - {target.value} else old(forceSyncPeers)
      ensures out == if target.Some? then [Envelope(nodeID, target.value, Digest(DigestOf(store)))] else []
    {
      tick := tick + 1;
      if tick % GOSSIP_INTERVAL != 0 {
        return [], None;
      }
      var digest := CollectDigest();
      if forceSyncPeers != {} {
        var p :| p in forceSyncPeers;
        forceSyncPeers := forceSyncPeers - {p};
        target := Some(p);
      } else if peers != [] {
        target := Some(peers[roll % |peers|]);
      } else {
        return [], None;
      }
      out := [Envelope(nodeID, target.value, Digest(digest))];
    }

    /** The sender becomes a peer; then the message is handled like a cluster step. */
    method OnMessage(from: string, payload: Payload) returns (out: seq<Envelope>)
      modifies this`peers, this`store
      ensures peers == if SenderId(from) != "" && SenderId(from) != nodeID && SenderId(from) !in old(peers)
                       then old(peers) + [SenderId(from)] else old(peers)
      ensures store == if payload.Readable? && payload.message.State?
                       then ApplyState(old(store), payload.message.state) else old(store)
      ensures out == if payload.Readable? && payload.message.Digest?
                     then Replies(nodeID, SenderId(from), DigestReplies(old(store), payload.message.digest)) else []
    {
      var sender := SenderId(from);
      if sender != "" && sender != nodeID && sender !in peers {
        peers := peers + [sender];
      }
      out := [];
      match payload {
        case Undecodable =>
        case OtherType(_) =>
        case Readable(message) =>
          match message {
            case Digest(d) => out := HandleDigest(sender, d);
            case State(st) => HandleState(st);
          }
      }
    }
  }

  function Replies(from: string, to: string, messages: seq<Message>): (r: seq<Envelope>)
    ensures |r| == |messages| && forall i :: 0 <= i < |r| ==> r[i] == Envelope(from, to, messages[i])
  {
    if messages == [] then [] else [Envelope(from, to, messages[0])] + Replies(from, to, messages[1..])
  }

  /******* Forced-sync draining *******/

  /** One tick: the peer list it saw (messages may have added peers) and where it sent. */
  datatype TickEvent = TickEvent(peers: seq<string>, target: Option<string>)

  ghost predicate ValidTicks(b: Beat, events: seq<TickEvent>)
    decreases |events|
  {
    events == [] ||
    (Allowed(b, events[0].peers, events[0].target) && ValidTicks(StepBeat(b, events[0].target), events[1..]))
  }

  function Targets(events: seq<TickEvent>): seq<string> {
    if events == [] then []
    else (if events[0].target.Some? then [events[0].target.value] else []) + Targets(events[1..])
  }

  /** How many of the next `n` ticks are due to send. */
  function Due(tick: nat, n: nat): nat
    decreases n
  {
    if n == 0 then 0 else (if (tick + 1) % GOSSIP_INTERVAL == 0 then 1 else 0) + Due(tick + 1, n - 1)
  }

  lemma {:induction false} DueEveryThird(tick: nat, m: nat)
    ensures Due(tick, 3 * m) == m
    decreases m
  {
    if m > 0 {
      DueEveryThird(tick + 3, m - 1);
      assert Due(tick, 3 * m) == Due(tick, 3) + Due(tick + 3, 3 * (m - 1)) by {
        assert Due(tick + 2, 3 * m - 2) == (if (tick + 3) % 3 == 0 then 1 else 0) + Due(tick + 3, 3 * m - 3);
      }
    }
  }

  /** With enough peers marked for the ticks ahead, every target is a distinct marked peer:
      what was sent and what is still marked together make up what was marked. */
  lemma {:induction false} ForcedTargets(b: Beat, events: seq<TickEvent>) returns (left: set<string>)
    requires ValidTicks(b, events) && Due(b.tick, |events|) <= |b.forced|
    ensures multiset(Targets(events)) + multiset(left) == multiset(b.forced)
    ensures |left| + Due(b.tick, |events|) == |b.forced|
    decreases |events|
  {
    if events == [] {
      left := b.forced;
    } else {
      var e, b1 := events[0], StepBeat(b, events[0].target);
      assert b1.tick == b.tick + 1;
      if (b.tick + 1) % GOSSIP_INTERVAL == 0 {
        TakeOne(b.forced, e.target.value);
        left := ForcedTargets(b1, events[1..]);
        assert Targets(events) == [e.target.value] + Targets(events[1..]);
      } else {
        assert b1.forced == b.forced;
        left := ForcedTargets(b1, events[1..]);
      }
    }
  }

  lemma TakeOne(s: set<string>, p: string)
    requires p in s
    ensures multiset(s) == multiset(s - {p}) + multiset{p} && |s - {p}| == |s| - 1
  {
  }

  /** Any 3·|forced| consecutive ticks without a further SetPeers send exactly one digest to
      each marked peer and to nobody else, whichever order the ticks pick. */
  lemma ForcedSyncDrains(b: Beat, events: seq<TickEvent>)
    requires ValidTicks(b, events) && |events| == GOSSIP_INTERVAL * |b.forced|
    ensures multiset(Targets(events)) == multiset(b.forced)
  {
    DueEveryThird(b.tick, |b.forced|);
    var left := ForcedTargets(b, events);
    assert left == {};
  }
}
