/** A cluster of gossip replicas as a transition system.

    `sent` only grows and an envelope in it may arrive any number of times, in any
    order, or never: loss, duplication, delay and reordering need no steps of their
    own.  An envelope passes the receiver's gate when it arrives and then waits in the
    receiver's event queue (`inbox`) until the reactor handles it.  `puts` is ghost
    history: the values written by each node under each key, in order. */
module GossipCluster {
  import opened Options
  import opened GossipValues
  import opened FaultGates

  datatype Envelope = Envelope(from: string, to: string, message: Message)

  type History = map<(string, string), seq<Value>>

  datatype Cluster = Cluster(
    stores: map<string, Store>,
    faults: map<string, Faults>,
    sent: set<Envelope>,
    inbox: set<Envelope>,
    puts: History
  )

  datatype Step =
    | Put(node: string, key: string, data: string, timestamp: int)
    | SendDigest(node: string, peer: string)
    | Arrive(envelope: Envelope)
    | Handle(envelope: Envelope)
    | SetFaults(node: string, faults: Faults)

  /** All values `node` has written under `key`; the (i+1)-th write is at index i. */
  function Writes(h: History, node: string, key: string): seq<Value> {
    if (node, key) in h then h[(node, key)] else []
  }

  ghost predicate Init(c: Cluster) {
    && c.faults.Keys == c.stores.Keys
    && c.sent == {} && c.inbox == {} && c.puts == map[]
    && forall n :: n in c.stores ==> c.stores[n] == map[]
  }

  predicate Enabled(c: Cluster, s: Step) {
    c.faults.Keys == c.stores.Keys &&
    match s
    case Put(n, _, _, _) => n in c.stores
    case SendDigest(n, _) => n in c.stores
    case Arrive(e) =>
      && e in c.sent && e.to in c.stores
      && MayTick(c.faults[e.to]) && MayReceive(c.faults[e.to], e.from)
    case Handle(e) => e in c.inbox && e.to in c.stores
    case SetFaults(n, _) => n in c.stores
  }

  /** The value a Put stores: own clock entry bumped, version one above the current one. */
  function Written(local: Option<Value>, node: string, data: string, timestamp: int): Value {
    Value(data, if local.Some? then local.value.version + 1 else 1, node, timestamp,
          Bump(ClockOf(local), node))
  }

  function Outgoing(c: Cluster, from: string, to: string, messages: seq<Message>): set<Envelope>
    requires from in c.faults
  {
    if MaySend(c.faults[from], to)
    then set m | m in messages :: Envelope(from, to, m)
    else {}
  }

  function Apply(c: Cluster, s: Step): Cluster
    requires Enabled(c, s)
  {
    match s
    case Put(n, k, data, ts) =>
      var v := Written(Find(c.stores[n], k), n, data, ts);
      c.(stores := c.stores[n := c.stores[n][k := v]],
         puts := c.puts[(n, k) := Writes(c.puts, n, k) + [v]])
    case SendDigest(n, peer) =>
      c.(sent := c.sent + Outgoing(c, n, peer, [Digest(DigestOf(c.stores[n]))]))
    case Arrive(e) =>
      c.(inbox := c.inbox + {e})
    case Handle(e) =>
      (match e.message
       case Digest(d) =>
         c.(inbox := c.inbox - {e},
            sent := c.sent + Outgoing(c, e.to, e.from, DigestReplies(c.stores[e.to], d)))
       case State(st) =>
         c.(inbox := c.inbox - {e},
            stores := c.stores[e.to := ApplyState(c.stores[e.to], st)]))
    case SetFaults(n, f) =>
      c.(faults := c.faults[n := f])
  }

  /******* Runs *******/

  ghost predicate ValidRun(c: Cluster, steps: seq<Step>)
    decreases |steps|
  {
    steps == [] || (Enabled(c, steps[0]) && ValidRun(Apply(c, steps[0]), steps[1..]))
  }

  ghost function After(c: Cluster, steps: seq<Step>): Cluster
    requires ValidRun(c, steps)
    decreases |steps|
  {
    if steps == [] then c else After(Apply(c, steps[0]), steps[1..])
  }

  /******* Clock authority and provenance *******/

  /** The metadata belongs to an actual Put by its origin that its clock covers, and no
      clock entry exceeds the number of Puts made. */
  ghost predicate GenuineDigest(h: History, key: string, d: DigestEntry) {
    && (forall n :: At(d.clock, n) <= |Writes(h, n, key)|)
    && exists i :: 0 <= i < At(d.clock, d.origin) <= |Writes(h, d.origin, key)| &&
         ToStamp(d) == StampOf(Writes(h, d.origin, key)[i])
  }

  function ToStamp(d: DigestEntry): Stamp {
    Stamp(d.timestamp, d.origin, d.version)
  }

  /** The value, data included, is an actual Put by its origin that its clock covers. */
  ghost predicate Genuine(h: History, key: string, v: Value) {
    && (forall n :: At(v.clock, n) <= |Writes(h, n, key)|)
    && exists i :: 0 <= i < At(v.clock, v.origin) <= |Writes(h, v.origin, key)| &&
         SameWrite(Writes(h, v.origin, key)[i], v)
  }

  ghost predicate GenuineMessage(h: History, m: Message) {
    match m
    case Digest(d) => forall k :: k in d ==> GenuineDigest(h, k, d[k])
    case State(st) => GenuineStore(h, st)
  }

  ghost predicate GenuineStore(h: History, store: Store) {
    forall k :: k in store ==> Genuine(h, k, store[k])
  }

  /** A node's own clock entry counts its Puts of the key exactly. */
  ghost predicate OwnEntriesExact(h: History, node: string, store: Store) {
    forall k :: |Writes(h, node, k)| == At(ClockOf(Find(store, k)), node)
  }

  ghost predicate HistoryWellFormed(h: History) {
    forall n, k, i {:trigger Writes(h, n, k)[i]} :: 0 <= i < |Writes(h, n, k)| ==>
      Writes(h, n, k)[i].origin == n && At(Writes(h, n, k)[i].clock, n) == i + 1
  }

  ghost predicate Inv(c: Cluster) {
    && c.faults.Keys == c.stores.Keys
    && c.inbox <= c.sent
    && HistoryWellFormed(c.puts)
    && (forall n :: n in c.stores ==> GenuineStore(c.puts, c.stores[n]) && OwnEntriesExact(c.puts, n, c.stores[n]))
    && (forall n, k :: n !in c.stores ==> Writes(c.puts, n, k) == [])
    && (forall e :: e in c.sent ==> GenuineMessage(c.puts, e.message) && e.from in c.stores)
  }

  /** History only grows, one write at the end of one list. */
  ghost predicate Extends(h: History, h': History) {
    forall n, k :: Writes(h, n, k) <= Writes(h', n, k)
  }

  lemma GenuineStable(h: History, h': History, k: string, v: Value)
    requires Genuine(h, k, v) && Extends(h, h')
    ensures Genuine(h', k, v)
  {
    assert Writes(h, v.origin, k) <= Writes(h', v.origin, k);
    forall n ensures At(v.clock, n) <= |Writes(h', n, k)| {
      assert Writes(h, n, k) <= Writes(h', n, k);
    }
    var i :| 0 <= i < At(v.clock, v.origin) <= |Writes(h, v.origin, k)| && SameWrite(Writes(h, v.origin, k)[i], v);
    assert Writes(h', v.origin, k)[i] == Writes(h, v.origin, k)[i];
  }

  lemma GenuineDigestStable(h: History, h': History, k: string, d: DigestEntry)
    requires GenuineDigest(h, k, d) && Extends(h, h')
    ensures GenuineDigest(h', k, d)
  {
    assert Writes(h, d.origin, k) <= Writes(h', d.origin, k);
    forall n ensures At(d.clock, n) <= |Writes(h', n, k)| {
      assert Writes(h, n, k) <= Writes(h', n, k);
    }
    var i :| 0 <= i < At(d.clock, d.origin) <= |Writes(h, d.origin, k)| &&
      ToStamp(d) == StampOf(Writes(h, d.origin, k)[i]);
    assert Writes(h', d.origin, k)[i] == Writes(h, d.origin, k)[i];
  }

  lemma GenuineMessageStable(h: History, h': History, m: Message)
    requires GenuineMessage(h, m) && Extends(h, h')
    ensures GenuineMessage(h', m)
  {
    match m
    case Digest(d) =>
      forall k | k in d ensures GenuineDigest(h', k, d[k]) { GenuineDigestStable(h, h', k, d[k]); }
    case State(st) =>
      forall k | k in st ensures Genuine(h', k, st[k]) { GenuineStable(h, h', k, st[k]); }
  }

  /** Resolving two genuine values gives a genuine value. */
  lemma ResolveGenuine(h: History, k: string, local: Option<Value>, v: Value)
    requires Genuine(h, k, v) && (local.Some? ==> Genuine(h, k, local.value))
    ensures Genuine(h, k, Resolve(local, v))
  {
    if Accepts(local, v) {
      var r := Resolve(local, v);
      var i :| 0 <= i < At(v.clock, v.origin) <= |Writes(h, v.origin, k)| && SameWrite(Writes(h, v.origin, k)[i], v);
      forall n ensures At(r.clock, n) <= |Writes(h, n, k)| {
        assert At(v.clock, n) <= |Writes(h, n, k)|;
        assert local.Some? ==> At(local.value.clock, n) <= |Writes(h, n, k)|;
      }
      assert SameWrite(Writes(h, r.origin, k)[i], r);
    }
  }

  lemma DigestEntryGenuine(h: History, k: string, v: Value)
    requires Genuine(h, k, v)
    ensures GenuineDigest(h, k, ToDigest(v))
  {
    var i :| 0 <= i < At(v.clock, v.origin) <= |Writes(h, v.origin, k)| && SameWrite(Writes(h, v.origin, k)[i], v);
    assert ToStamp(ToDigest(v)) == StampOf(Writes(h, v.origin, k)[i]);
  }

  lemma DigestGenuine(h: History, store: Store)
    requires GenuineStore(h, store)
    ensures GenuineMessage(h, Digest(DigestOf(store)))
  {
    forall k | k in store ensures GenuineDigest(h, k, ToDigest(store[k])) {
      DigestEntryGenuine(h, k, store[k]);
    }
  }

  lemma AnswerGenuine(h: History, store: Store, d: DigestMap)
    requires GenuineStore(h, store)
    ensures GenuineMessage(h, State(StateFor(store, d)))
  {
  }

  lemma RepliesGenuine(h: History, store: Store, d: DigestMap, m: Message)
    requires GenuineStore(h, store) && m in DigestReplies(store, d) + [Digest(DigestOf(store))]
    ensures GenuineMessage(h, m)
  {
    DigestGenuine(h, store);
    AnswerGenuine(h, store, d);
    ReplyKinds(store, d, m);
  }

  lemma ReplyKinds(store: Store, d: DigestMap, m: Message)
    requires m in DigestReplies(store, d) + [Digest(DigestOf(store))]
    ensures m == State(StateFor(store, d)) || m == Digest(DigestOf(store))
  {
  }

  function Append(h: History, n: string, k: string, v: Value): (h': History)
    ensures forall m, j :: Writes(h', m, j) == if (m, j) == (n, k) then Writes(h, n, k) + [v] else Writes(h, m, j)
  {
    h[(n, k) := Writes(h, n, k) + [v]]
  }

  lemma AppendGenuine(h: History, n: string, k: string, local: Option<Value>, data: string, ts: int)
    requires local.Some? ==> Genuine(h, k, local.value)
    requires At(ClockOf(local), n) == |Writes(h, n, k)|
    ensures var v := Written(local, n, data, ts); Genuine(Append(h, n, k, v), k, v)
  {
    var v := Written(local, n, data, ts);
    var h' := Append(h, n, k, v);
    forall m ensures At(v.clock, m) <= |Writes(h', m, k)| {
      assert local.Some? ==> At(local.value.clock, m) <= |Writes(h, m, k)|;
    }
    assert SameWrite(Writes(h', n, k)[|Writes(h, n, k)|], v);
  }

  lemma AppendWellFormed(h: History, n: string, k: string, v: Value)
    requires HistoryWellFormed(h) && v.origin == n && At(v.clock, n) == |Writes(h, n, k)| + 1
    ensures HistoryWellFormed(Append(h, n, k, v)) && Extends(h, Append(h, n, k, v))
  {
  }

  function Latest(c: Cluster, s: Step): Value
    requires Enabled(c, s) && s.Put?
  {
    Written(Find(c.stores[s.node], s.key), s.node, s.data, s.timestamp)
  }

  /** The list a Put extends is the writer's own, and the new value is its last element. */
  lemma PutHistory(c: Cluster, s: Step)
    requires Inv(c) && Enabled(c, s) && s.Put?
    ensures Apply(c, s).puts == Append(c.puts, s.node, s.key, Latest(c, s))
    ensures Extends(c.puts, Apply(c, s).puts) && HistoryWellFormed(Apply(c, s).puts)
    ensures Genuine(Apply(c, s).puts, s.key, Latest(c, s))
    ensures |Writes(c.puts, s.node, s.key)| + 1 == At(Latest(c, s).clock, s.node)
  {
    var local := Find(c.stores[s.node], s.key);
    assert GenuineStore(c.puts, c.stores[s.node]);
    assert |Writes(c.puts, s.node, s.key)| == At(ClockOf(local), s.node);
    AppendGenuine(c.puts, s.node, s.key, local, s.data, s.timestamp);
    AppendWellFormed(c.puts, s.node, s.key, Latest(c, s));
  }

  lemma PutStoreGenuine(c: Cluster, s: Step, n: string)
    requires Inv(c) && Enabled(c, s) && s.Put? && n in c.stores
    ensures GenuineStore(Apply(c, s).puts, Apply(c, s).stores[n])
  {
    PutHistory(c, s);
    var c' := Apply(c, s);
    assert GenuineStore(c.puts, c.stores[n]);
    forall k | k in c'.stores[n] ensures Genuine(c'.puts, k, c'.stores[n][k]) {
      if (n, k) != (s.node, s.key) {
        GenuineStable(c.puts, c'.puts, k, c.stores[n][k]);
      }
    }
  }

  lemma PutStoreExact(c: Cluster, s: Step, n: string)
    requires Inv(c) && Enabled(c, s) && s.Put? && n in c.stores
    ensures OwnEntriesExact(Apply(c, s).puts, n, Apply(c, s).stores[n])
  {
    PutHistory(c, s);
    assert OwnEntriesExact(c.puts, n, c.stores[n]);
  }

  lemma PutKeepsInv(c: Cluster, s: Step)
    requires Inv(c) && Enabled(c, s) && s.Put?
    ensures Inv(Apply(c, s))
  {
    PutHistory(c, s);
    var c' := Apply(c, s);
    forall e | e in c'.sent ensures GenuineMessage(c'.puts, e.message) {
      GenuineMessageStable(c.puts, c'.puts, e.message);
    }
    forall n | n in c'.stores ensures GenuineStore(c'.puts, c'.stores[n]) && OwnEntriesExact(c'.puts, n, c'.stores[n]) {
      PutStoreGenuine(c, s, n);
      PutStoreExact(c, s, n);
    }
  }

  lemma ApplyStateGenuine(h: History, store: Store, st: Store)
    requires GenuineStore(h, store) && GenuineStore(h, st)
    ensures GenuineStore(h, ApplyState(store, st))
  {
    forall k | k in ApplyState(store, st) ensures Genuine(h, k, ApplyState(store, st)[k]) {
      if k in st {
        ResolveGenuine(h, k, Find(store, k), st[k]);
      }
    }
  }

  /** Resolving changes no entry that is already at least as high. */
  lemma ResolveAt(local: Option<Value>, v: Value, n: string)
    requires At(v.clock, n) <= At(ClockOf(local), n)
    ensures At(Resolve(local, v).clock, n) == At(ClockOf(local), n)
  {
  }

  /** No other node knows of more Puts of a node than the node itself. */
  lemma ApplyStateExact(h: History, n: string, store: Store, st: Store)
    requires OwnEntriesExact(h, n, store) && GenuineStore(h, st)
    ensures OwnEntriesExact(h, n, ApplyState(store, st))
  {
    forall k ensures |Writes(h, n, k)| == At(ClockOf(Find(ApplyState(store, st), k)), n) {
      assert |Writes(h, n, k)| == At(ClockOf(Find(store, k)), n);
      if k in st {
        assert At(st[k].clock, n) <= |Writes(h, n, k)|;
        ResolveAt(Find(store, k), st[k], n);
      }
    }
  }

  lemma StateKeepsInv(c: Cluster, e: Envelope)
    requires Inv(c) && Enabled(c, Handle(e)) && e.message.State?
    ensures Inv(Apply(c, Handle(e)))
  {
    assert GenuineMessage(c.puts, e.message);
    ApplyStateGenuine(c.puts, c.stores[e.to], e.message.state);
    ApplyStateExact(c.puts, e.to, c.stores[e.to], e.message.state);
  }

  lemma StepKeepsInv(c: Cluster, s: Step)
    requires Inv(c) && Enabled(c, s)
    ensures Inv(Apply(c, s)) && Extends(c.puts, Apply(c, s).puts)
  {
    match s
    case Put(_, _, _, _) =>
      PutHistory(c, s);
      PutKeepsInv(c, s);
    case SendDigest(n, peer) =>
      RepliesGenuine(c.puts, c.stores[n], map[], Digest(DigestOf(c.stores[n])));
    case Arrive(_) =>
    case Handle(e) =>
      if e.message.State? {
        StateKeepsInv(c, e);
      } else {
        forall m | m in DigestReplies(c.stores[e.to], e.message.digest) ensures GenuineMessage(c.puts, m) {
          RepliesGenuine(c.puts, c.stores[e.to], e.message.digest, m);
        }
      }
    case SetFaults(_, _) =>
  }

  lemma {:induction false} RunKeepsInv(c: Cluster, steps: seq<Step>)
    requires Inv(c) && ValidRun(c, steps)
    ensures Inv(After(c, steps)) && Extends(c.puts, After(c, steps).puts)
    ensures After(c, steps).stores.Keys == c.stores.Keys
    decreases |steps|
  {
    if steps != [] {
      var c1 := Apply(c, steps[0]);
      StepKeepsInv(c, steps[0]);
      RunKeepsInv(c1, steps[1..]);
      forall n, k ensures Writes(c.puts, n, k) <= Writes(After(c, steps).puts, n, k) {
        assert Writes(c.puts, n, k) <= Writes(c1.puts, n, k);
        assert Writes(c1.puts, n, k) <= Writes(After(c, steps).puts, n, k);
      }
    }
  }

  lemma InitInv(c: Cluster)
    requires Init(c)
    ensures Inv(c)
  {
  }

  /** In every run, with arbitrary timestamps: a node's own entry equals its number of
      Puts of the key; no store shows a larger entry; every stored value is an actual
      Put by its origin. */
  lemma ClockAuthority(c: Cluster, steps: seq<Step>, node: string, key: string)
    requires Init(c) && ValidRun(c, steps) && node in c.stores
    ensures
      var f := After(c, steps);
      && node in f.stores
      && At(ClockOf(Find(f.stores[node], key)), node) == |Writes(f.puts, node, key)|
      && (forall m :: At(ClockOf(Find(f.stores[node], key)), m) <= |Writes(f.puts, m, key)|)
      && (key in f.stores[node] ==>
            var v := f.stores[node][key];
            exists i :: 0 <= i < |Writes(f.puts, v.origin, key)| && SameWrite(Writes(f.puts, v.origin, key)[i], v))
  {
    InitInv(c);
    RunKeepsInv(c, steps);
    var f := After(c, steps);
    if key in f.stores[node] {
      assert Genuine(f.puts, key, f.stores[node][key]);
    }
  }

  /** The same for every message ever sent: STATE values are actual Puts with their
      data, DIGEST entries carry the stamp of an actual Put, and neither shows a clock
      entry above the number of Puts made. */
  lemma InFlightProvenance(c: Cluster, steps: seq<Step>, e: Envelope)
    requires Init(c) && ValidRun(c, steps) && e in After(c, steps).sent
    ensures GenuineMessage(After(c, steps).puts, e.message)
  {
    InitInv(c);
    RunKeepsInv(c, steps);
  }
}
