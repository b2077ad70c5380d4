/** An exchange between two nodes whose gates are open is a run of the cluster. */
module ExchangeRuns {
  import opened GossipValues
  import opened FaultGates
  import opened GossipCluster
  import opened LastWriterWins
  import opened ViewGossip
  import opened Convergence

  ghost predicate Open(c: Cluster, a: string, b: string) {
    && a in c.stores && b in c.stores && c.faults.Keys == c.stores.Keys
    && MaySend(c.faults[a], b) && MayReceive(c.faults[a], b)
    && MaySend(c.faults[b], a) && MayReceive(c.faults[b], a)
  }

  /** The envelope passes the receiver's gate and is handled next. */
  ghost function Pass(e: Envelope): seq<Step> {
    [Arrive(e), Handle(e)]
  }

  /** Only envelopes that are already on their way get through and are handled. */
  ghost predicate Deliveries(steps: seq<Step>) {
    forall s :: s in steps ==> s.Arrive? || s.Handle?
  }

  ghost predicate Runs(c: Cluster, steps: seq<Step>, c': Cluster) {
    ValidRun(c, steps) && After(c, steps) == c'
  }

  lemma {:induction false} JoinRuns(c: Cluster, p: seq<Step>, c1: Cluster, q: seq<Step>, c2: Cluster)
    requires Runs(c, p, c1) && Runs(c1, q, c2)
    ensures Runs(c, p + q, c2)
    decreases |p|
  {
    if p == [] {
      assert p + q == q;
    } else {
      assert (p + q)[0] == p[0] && (p + q)[1..] == p[1..] + q;
      JoinRuns(Apply(c, p[0]), p[1..], c1, q, c2);
    }
  }

  lemma JoinDeliveries(e: Envelope, more: seq<Step>)
    requires Deliveries(more)
    ensures Deliveries(Pass(e) + more)
  {
  }

  lemma OneStep(c: Cluster, s: Step)
    requires Enabled(c, s)
    ensures Runs(c, [s], Apply(c, s))
  {
    assert [s][1..] == [];
    assert ValidRun(Apply(c, s), []);
  }

  lemma PassRuns(c: Cluster, e: Envelope)
    requires Open(c, e.from, e.to) && e in c.sent
    ensures Enabled(c, Arrive(e)) && Enabled(Apply(c, Arrive(e)), Handle(e))
    ensures Runs(c, Pass(e), Apply(Apply(c, Arrive(e)), Handle(e)))
  {
    var c1 := Apply(c, Arrive(e));
    OneStep(c, Arrive(e));
    OneStep(c1, Handle(e));
    JoinRuns(c, [Arrive(e)], c1, [Handle(e)], Apply(c1, Handle(e)));
    assert [Arrive(e)] + [Handle(e)] == Pass(e);
  }

  /** What the rest of an exchange may rely on: only stores, inbox and sent have moved. */
  ghost predicate Reaches(c: Cluster, c': Cluster, stores: map<string, Store>, extra: set<Envelope>) {
    && c'.stores == stores && c'.faults == c.faults && c'.puts == c.puts
    && c.sent <= c'.sent <= c.sent + extra
  }

  lemma SendRuns(c: Cluster, a: string, b: string) returns (c': Cluster)
    requires Open(c, a, b)
    ensures Runs(c, [SendDigest(a, b)], c')
    ensures var d := Envelope(a, b, Digest(DigestOf(c.stores[a])));
            Reaches(c, c', c.stores, {d}) && d in c'.sent
  {
    OneStep(c, SendDigest(a, b));
    c' := Apply(c, SendDigest(a, b));
    var m := Digest(DigestOf(c.stores[a]));
    assert m in [m];
    assert Envelope(a, b, m) in Outgoing(c, a, b, [m]);
  }

  /** A DIGEST that gets through puts exactly its replies on the wire. */
  lemma DigestRuns(c: Cluster, from: string, to: string, d: DigestMap) returns (c': Cluster)
    requires Open(c, from, to) && Envelope(from, to, Digest(d)) in c.sent
    ensures Runs(c, Pass(Envelope(from, to, Digest(d))), c')
    ensures
      var st := Envelope(to, from, State(StateFor(c.stores[to], d)));
      var rd := Envelope(to, from, Digest(DigestOf(c.stores[to])));
      && Reaches(c, c', c.stores, (if StateFor(c.stores[to], d) != map[] then {st} else {}) +
                                  (if Behind(c.stores[to], d) then {rd} else {}))
      && (StateFor(c.stores[to], d) != map[] ==> st in c'.sent)
      && (Behind(c.stores[to], d) ==> rd in c'.sent)
  {
    var e := Envelope(from, to, Digest(d));
    PassRuns(c, e);
    var c1 := Apply(c, Arrive(e));
    c' := Apply(c1, Handle(e));
    var replies := DigestReplies(c.stores[to], d);
    assert c'.sent == c.sent + set m | m in replies :: Envelope(to, from, m);
    assert StateFor(c.stores[to], d) != map[] ==> State(StateFor(c.stores[to], d)) in replies;
    assert Behind(c.stores[to], d) ==> Digest(DigestOf(c.stores[to])) in replies;
  }

  /** A STATE that gets through is applied; an empty one was never sent. */
  lemma StateRuns(c: Cluster, from: string, to: string, st: Store) returns (steps: seq<Step>, c': Cluster)
    requires Open(c, from, to) && (st != map[] ==> Envelope(from, to, State(st)) in c.sent)
    ensures Runs(c, steps, c') && Deliveries(steps)
    ensures Reaches(c, c', c.stores[to := ApplyState(c.stores[to], st)], {})
  {
    if st == map[] {
      steps, c' := [], c;
      assert ApplyState(c.stores[to], st) == c.stores[to];
      assert c.stores[to := c.stores[to]] == c.stores;
    } else {
      var e := Envelope(from, to, State(st));
      PassRuns(c, e);
      steps, c' := Pass(e), Apply(Apply(c, Arrive(e)), Handle(e));
    }
  }

  /** The responder's part: its STATE reaches the initiator, its reverse DIGEST is out. */
  lemma FirstHalf(c: Cluster, a: string, b: string) returns (steps: seq<Step>, c': Cluster)
    requires Open(c, a, b) && a != b && Envelope(a, b, Digest(DigestOf(c.stores[a]))) in c.sent
    ensures Runs(c, steps, c') && Deliveries(steps)
    ensures
      var sa, sb := c.stores[a], c.stores[b];
      var st := Envelope(b, a, State(StateFor(sb, DigestOf(sa))));
      var rd := Envelope(b, a, Digest(DigestOf(sb)));
      && Reaches(c, c', c.stores[a := InitiatorAfter(sa, sb)], {st, rd})
      && (Behind(sb, DigestOf(sa)) ==> rd in c'.sent)
  {
    var sa, sb := c.stores[a], c.stores[b];
    var d := Envelope(a, b, Digest(DigestOf(sa)));
    var c1 := DigestRuns(c, a, b, DigestOf(sa));
    var more;
    more, c' := StateRuns(c1, b, a, StateFor(sb, DigestOf(sa)));
    JoinRuns(c, Pass(d), c1, more, c');
    JoinDeliveries(d, more);
    steps := Pass(d) + more;
  }

  /** The initiator's part: it answers the reverse DIGEST with at most a STATE. */
  lemma SecondHalf(c: Cluster, a: string, b: string, sa: Store, sb: Store) returns (steps: seq<Step>, c': Cluster)
    requires Open(c, a, b) && a != b && c.stores[a] == InitiatorAfter(sa, sb) && c.stores[b] == sb
    requires Envelope(b, a, Digest(DigestOf(sb))) in c.sent && Behind(sb, DigestOf(sa))
    ensures Runs(c, steps, c') && Deliveries(steps)
    ensures Reaches(c, c', c.stores[b := ResponderAfter(sa, sb)],
                    {Envelope(a, b, State(StateFor(c.stores[a], DigestOf(sb))))})
  {
    NotBehindAfterState(sa, sb);
    var rd := Envelope(b, a, Digest(DigestOf(sb)));
    var c1 := DigestRuns(c, b, a, DigestOf(sb));
    var more;
    more, c' := StateRuns(c1, a, b, StateFor(c.stores[a], DigestOf(sb)));
    JoinRuns(c, Pass(rd), c1, more, c');
    JoinDeliveries(rd, more);
    steps := Pass(rd) + more;
  }

  /** Once the initiator's DIGEST is on its way, a run of deliveries ends with exactly the
      exchanged stores and puts at most three further envelopes on the wire. */
  lemma RestOfExchange(c: Cluster, a: string, b: string)
    returns (steps: seq<Step>, c': Cluster, further: set<Envelope>)
    requires Open(c, a, b) && a != b && Envelope(a, b, Digest(DigestOf(c.stores[a]))) in c.sent
    ensures Runs(c, steps, c') && Deliveries(steps) && |further| <= 3
    ensures Reaches(c, c', Exchange(c.stores, a, b), further)
  {
    var sa, sb := c.stores[a], c.stores[b];
    var st := Envelope(b, a, State(StateFor(sb, DigestOf(sa))));
    var rd := Envelope(b, a, Digest(DigestOf(sb)));
    var first, c1 := FirstHalf(c, a, b);
    if Behind(sb, DigestOf(sa)) {
      var second, c2 := SecondHalf(c1, a, b, sa, sb);
      JoinRuns(c, first, c1, second, c2);
      steps, c' := first + second, c2;
      further := {st, rd, Envelope(a, b, State(StateFor(c1.stores[a], DigestOf(sb))))};
    } else {
      steps, c', further := first, c1, {st, rd};
      assert c.stores[a := InitiatorAfter(sa, sb)] == Exchange(c.stores, a, b);
    }
  }

  /** Between two nodes whose gates are open there is a run that starts with one DIGEST,
      ends with exactly the exchanged stores, and puts at most three further envelopes on
      the wire. */
  lemma ExchangeIsARun(c: Cluster, a: string, b: string)
    returns (steps: seq<Step>, c': Cluster, further: set<Envelope>)
    requires Open(c, a, b) && a != b
    ensures Runs(c, steps, c') && |further| <= 3
    ensures steps != [] && steps[0] == SendDigest(a, b) && Deliveries(steps[1..])
    ensures Reaches(c, c', Exchange(c.stores, a, b), {Envelope(a, b, Digest(DigestOf(c.stores[a])))} + further)
  {
    var c1 := SendRuns(c, a, b);
    var rest;
    rest, c', further := RestOfExchange(c1, a, b);
    JoinRuns(c, [SendDigest(a, b)], c1, rest, c');
    steps := [SendDigest(a, b)] + rest;
    assert steps[1..] == rest;
  }
}
