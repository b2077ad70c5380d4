/** Delivery order matters in real runs once a wall clock goes back. */
module SkewedRuns {
  import opened Options
  import opened GossipValues
  import opened FaultGates
  import opened GossipCluster
  import opened LastWriterWins
  import opened ExchangeRuns

  /** What a writer and an asker need of the cluster between two steps of the run below. */
  ghost predicate Same(c: Cluster, c': Cluster, stores: map<string, Store>) {
    c'.stores == stores && c'.faults == c.faults && c.sent <= c'.sent
  }

  /** A replica without values asks another one: the whole store of the other is on its way. */
  lemma Ask(c: Cluster, asker: string, node: string) returns (steps: seq<Step>, c': Cluster)
    requires Open(c, asker, node) && c.stores[asker] == map[] && c.stores[node] != map[]
    ensures Runs(c, steps, c') && Same(c, c', c.stores)
    ensures Envelope(node, asker, State(c.stores[node])) in c'.sent
  {
    var c1 := SendRuns(c, asker, node);
    assert DigestOf(map[]) == map[];
    c' := DigestRuns(c1, asker, node, map[]);
    assert StateFor(c.stores[node], map[]) == c.stores[node];
    var d := Envelope(asker, node, Digest(map[]));
    JoinRuns(c, [SendDigest(asker, node)], c1, Pass(d), c');
    steps := [SendDigest(asker, node)] + Pass(d);
  }

  /** A Put at one node, then another node without values asks it. */
  lemma PutAndAsk(c: Cluster, s: Step, asker: string) returns (steps: seq<Step>, c': Cluster)
    requires s.Put? && Open(c, asker, s.node) && asker != s.node && c.stores[asker] == map[]
    ensures Runs(c, steps, c') && steps != [] && steps[0] == s
    ensures Same(c, c', c.stores[s.node := c.stores[s.node][s.key := Latest(c, s)]])
    ensures Envelope(s.node, asker, State(c.stores[s.node][s.key := Latest(c, s)])) in c'.sent
  {
    OneStep(c, s);
    var c1 := Apply(c, s);
    assert s.key in c1.stores[s.node];
    var more;
    more, c' := Ask(c1, asker, s.node);
    JoinRuns(c, [s], c1, more, c');
    steps := [s] + more;
  }

  /** The three writes: `early` overwrites `late` at `x` after the clock went back, and `mid`
      is concurrent with both. */
  function Late(x: string, data: string, t: int): Value {
    Value(data, 1, x, t, map[x := 1])
  }

  function Early(x: string, data: string, t: int): Value {
    Value(data, 2, x, t, map[x := 2])
  }

  lemma PutTwice(x: string, data: string, t: int, data2: string, t2: int)
    ensures Written(None, x, data, t) == Late(x, data, t)
    ensures Written(Some(Late(x, data, t)), x, data2, t2) == Early(x, data2, t2)
  {
  }

  function Carrying(from: string, to: string, k: string, v: Value): Envelope {
    Envelope(from, to, State(map[k := v]))
  }

  /** In every cluster with three nodes that reach each other there is a run, with one Put whose
      wall clock went back, after which the three STATEs are all on their way to `z`. */
  lemma SkewedRun(c: Cluster, x: string, y: string, z: string, k: string, t: int)
    returns (steps: seq<Step>, c': Cluster)
    requires Init(c) && x != y && y != z && x != z && Open(c, z, x) && Open(c, z, y)
    ensures Runs(c, steps, c') && z in c'.stores && c'.stores[z] == map[]
    ensures Carrying(x, z, k, Late(x, "a", t + 2)) in c'.sent
    ensures Carrying(x, z, k, Early(x, "b", t)) in c'.sent
    ensures Carrying(y, z, k, Late(y, "c", t + 1)) in c'.sent
  {
    PutTwice(x, "a", t + 2, "b", t);
    PutTwice(y, "c", t + 1, "", 0);
    var p, c1 := PutAndAsk(c, Put(x, k, "a", t + 2), z);
    assert c1.stores[x] == map[k := Late(x, "a", t + 2)];
    var q, c2 := PutAndAsk(c1, Put(x, k, "b", t), z);
    assert c2.stores[x] == map[k := Early(x, "b", t)];
    var r;
    r, c' := PutAndAsk(c2, Put(y, k, "c", t + 1), z);
    assert c'.stores[y] == map[k := Late(y, "c", t + 1)];
    JoinRuns(c, p, c1, q, c2);
    JoinRuns(c, p + q, c2, r, c');
    steps := p + q + r;
  }

  lemma DeliverNext(store: Store, k: string, v: Value)
    ensures Find(ApplyState(store, map[k := v]), k) == Some(Resolve(Find(store, k), v))
  {
  }

  /** Three deliveries of one key to an empty replica. */
  lemma DeliverThree(k: string, u: Value, v: Value, w: Value)
    ensures Find(Deliver(map[], [map[k := u], map[k := v], map[k := w]]), k) ==
              Some(Resolve(Some(Resolve(Some(Resolve(None, u)), v)), w))
  {
    var m1, m2, m3: Store := map[k := u], map[k := v], map[k := w];
    var all, s0: Store := [m1, m2, m3], map[];
    var s1 := ApplyState(s0, m1);
    var s2 := ApplyState(s1, m2);
    var s3 := ApplyState(s2, m3);
    assert all[1..] == [m2, m3] && [m2, m3][1..] == [m3] && [m3][1..] == [];
    assert Deliver(s2, [m3]) == s3;
    assert Deliver(s1, [m2, m3]) == s3;
    assert Deliver(s0, all) == s3;
    DeliverNext(s0, k, u);
    DeliverNext(s1, k, v);
    DeliverNext(s2, k, w);
  }

  lemma SkewedOutcomes(x: string, y: string, k: string, t: int)
    requires x != y
    ensures
      var a, b, c := map[k := Late(x, "a", t + 2)], map[k := Early(x, "b", t)], map[k := Late(y, "c", t + 1)];
      !SameView(Deliver(map[], [a, b, c]), Deliver(map[], [c, a, b]))
  {
    var a, b, c := Late(x, "a", t + 2), Early(x, "b", t), Late(y, "c", t + 1);
    assert At(a.clock, x) == 1 && At(b.clock, x) == 2 && At(c.clock, x) == 0;
    assert At(a.clock, y) == 0 && At(b.clock, y) == 0 && At(c.clock, y) == 1;
    OrderMattersWhenClocksGoBack(a, b, c, x, y);
    DeliverThree(k, a, b, c);
    DeliverThree(k, c, a, b);
  }

  /** Every cluster with three nodes that reach each other has a run in which one Put's wall
      clock goes back, and after which the order of delivering the STATEs sent to one of the
      nodes decides what it ends up holding.  The run is not monotone, as it must be by
      DeliveryOrderIrrelevantInRuns.  That condition is one-way: a run that is not monotone may
      still be independent of order, because a conflict also takes a second writer and a third
      replica that hears of both; with one writer all values are causally ordered. */
  lemma OrderMattersInRuns(c: Cluster, x: string, y: string, z: string, k: string, t: int)
    returns (steps: seq<Step>, p: seq<Envelope>, q: seq<Envelope>)
    requires Init(c) && x != y && y != z && x != z && Open(c, z, x) && Open(c, z, y)
    ensures ValidRun(c, steps) && !MonotonePuts(c, steps) && z in After(c, steps).stores
    ensures forall e :: e in p ==> e in After(c, steps).sent && e.message.State? && e.to == z
    ensures forall e :: e in q <==> e in p
    ensures !SameView(Deliver(After(c, steps).stores[z], Bodies(p)), Deliver(After(c, steps).stores[z], Bodies(q)))
  {
    var c';
    steps, c' := SkewedRun(c, x, y, z, k, t);
    var a := Carrying(x, z, k, Late(x, "a", t + 2));
    var b := Carrying(x, z, k, Early(x, "b", t));
    var d := Carrying(y, z, k, Late(y, "c", t + 1));
    p, q := [a, b, d], [d, a, b];
    Rotated(a, b, d);
    SkewedOutcomes(x, y, k, t);
    NotMonotone(c, steps, z, p, q);
  }

  lemma Rotated(a: Envelope, b: Envelope, d: Envelope)
    requires a.message.State? && b.message.State? && d.message.State?
    ensures forall e :: e in [d, a, b] <==> e in [a, b, d]
    ensures Bodies([a, b, d]) == [a.message.state, b.message.state, d.message.state]
    ensures Bodies([d, a, b]) == [d.message.state, a.message.state, b.message.state]
  {
  }

  lemma NotMonotone(c: Cluster, steps: seq<Step>, z: string, p: seq<Envelope>, q: seq<Envelope>)
    requires Init(c) && ValidRun(c, steps) && z in After(c, steps).stores
    requires forall e :: e in p ==> e in After(c, steps).sent && e.message.State?
    requires forall e :: e in q <==> e in p
    requires !SameView(Deliver(After(c, steps).stores[z], Bodies(p)), Deliver(After(c, steps).stores[z], Bodies(q)))
    ensures !MonotonePuts(c, steps)
  {
    if MonotonePuts(c, steps) {
      DeliveryOrderIrrelevantInRuns(c, steps, z, p, q);
    }
  }
}
