/** Causality-first resolution coincides with plain last-writer-wins exactly as long as
    every Put carries a newer stamp than the value it overwrites. */
module LastWriterWins {
  import opened Options
  import opened Ordering
  import opened GossipValues
  import opened GossipCluster

  /** Write i of node n under k is covered by the clock. */
  ghost predicate Covered(h: History, k: string, clock: Clock, n: string, i: nat) {
    i < At(clock, n) && i < |Writes(h, n, k)|
  }

  ghost predicate Newest(h: History, k: string, v: Value) {
    forall n, i: nat :: Covered(h, k, v.clock, n, i) ==> AtMost(StampOf(Writes(h, n, k)[i]), StampOf(v))
  }

  /** `v` is the one greatest write its clock covers: every other covered write is older. */
  ghost predicate Winner(h: History, k: string, v: Value) {
    && (exists i: nat :: Covered(h, k, v.clock, v.origin, i) && SameWrite(Writes(h, v.origin, k)[i], v))
    && (forall n, i: nat :: Covered(h, k, v.clock, n, i) ==>
          || SameWrite(Writes(h, n, k)[i], v)
          || Older(StampOf(Writes(h, n, k)[i]), StampOf(v)))
  }

  /** Each node's stamps of a key increase, so a stamp identifies a write. */
  ghost predicate Increasing(h: History) {
    forall n, k, i, j {:trigger Writes(h, n, k)[i], Writes(h, n, k)[j]} :: 0 <= i < j < |Writes(h, n, k)| ==>
      Older(StampOf(Writes(h, n, k)[i]), StampOf(Writes(h, n, k)[j]))
  }

  /** A genuine value that is newest among what it covers. */
  ghost predicate Sound(h: History, k: string, v: Value) {
    Genuine(h, k, v) && Newest(h, k, v)
  }

  ghost predicate SoundStore(h: History, store: Store) {
    forall k :: k in store ==> Sound(h, k, store[k])
  }

  ghost predicate Orderly(h: History) {
    HistoryWellFormed(h) && Increasing(h)
  }

  ghost predicate LwwInv(c: Cluster) {
    && Inv(c) && Increasing(c.puts)
    && (forall n :: n in c.stores ==> SoundStore(c.puts, c.stores[n]))
    && (forall e :: e in c.sent && e.message.State? ==> SoundStore(c.puts, e.message.state))
  }

  /******* Stamps identify writes *******/

  lemma StampIsUnique(h: History, k: string, n: string, i: nat, m: string, j: nat)
    requires Orderly(h) && i < |Writes(h, n, k)| && j < |Writes(h, m, k)|
    requires StampOf(Writes(h, n, k)[i]) == StampOf(Writes(h, m, k)[j])
    ensures n == m && i == j
  {
    assert Writes(h, n, k)[i].origin == n && Writes(h, m, k)[j].origin == m;
    OlderIsTotal(StampOf(Writes(h, n, k)[i]), StampOf(Writes(h, n, k)[i]));
  }

  /** Equal stamps mean the same write, data included. */
  lemma SameStampSameWrite(h: History, k: string, v: Value, w: Value)
    requires Orderly(h) && Genuine(h, k, v) && Genuine(h, k, w) && StampOf(v) == StampOf(w)
    ensures SameWrite(v, w)
  {
    var i :| 0 <= i < At(v.clock, v.origin) <= |Writes(h, v.origin, k)| && SameWrite(Writes(h, v.origin, k)[i], v);
    var j :| 0 <= j < At(w.clock, w.origin) <= |Writes(h, w.origin, k)| && SameWrite(Writes(h, w.origin, k)[j], w);
    StampIsUnique(h, k, v.origin, i, w.origin, j);
  }

  lemma SoundIsWinner(h: History, k: string, v: Value)
    requires Orderly(h) && Sound(h, k, v)
    ensures Winner(h, k, v)
  {
    var w :| 0 <= w < At(v.clock, v.origin) <= |Writes(h, v.origin, k)| && SameWrite(Writes(h, v.origin, k)[w], v);
    assert Covered(h, k, v.clock, v.origin, w);
    forall n, i: nat | Covered(h, k, v.clock, n, i) && !Older(StampOf(Writes(h, n, k)[i]), StampOf(v))
      ensures SameWrite(Writes(h, n, k)[i], v)
    {
      StampIsUnique(h, k, n, i, v.origin, w);
    }
  }

  /** A value whose write is covered by a sound value's clock is not newer than it. */
  lemma CoveredIsOlder(h: History, k: string, v: Value, r: Value)
    requires Genuine(h, k, v) && Sound(h, k, r) && Dominates(r.clock, v.clock)
    ensures AtMost(StampOf(v), StampOf(r))
  {
    var i :| 0 <= i < At(v.clock, v.origin) <= |Writes(h, v.origin, k)| && SameWrite(Writes(h, v.origin, k)[i], v);
    assert At(v.clock, v.origin) <= At(r.clock, v.origin);
    assert Covered(h, k, r.clock, v.origin, i);
  }

  /******* What one resolution does *******/

  /** `v` can never again replace `r`: it is not newer by stamp, nor strictly later by clock. */
  ghost predicate Settled(r: Value, v: Value) {
    && AtMost(StampOf(v), StampOf(r))
    && (Dominates(v.clock, r.clock) ==> Dominates(r.clock, v.clock))
  }

  /** An entry may only gain: its clock pointwise, its stamp in the conflict order. */
  ghost predicate Grows(before: Option<Value>, after: Option<Value>) {
    before.Some? ==>
      && after.Some?
      && Dominates(after.value.clock, before.value.clock)
      && AtMost(StampOf(before.value), StampOf(after.value))
  }

  lemma GrowsTransitive(a: Option<Value>, b: Option<Value>, c: Option<Value>)
    requires Grows(a, b) && Grows(b, c)
    ensures Grows(a, c)
  {
    if a.Some? {
      AtMostTransitive(StampOf(a.value), StampOf(b.value), StampOf(c.value));
      forall n ensures At(a.value.clock, n) <= At(c.value.clock, n) {
        assert At(a.value.clock, n) <= At(b.value.clock, n) <= At(c.value.clock, n);
      }
    }
  }

  /** A sound value is never rejected for being causally later, and never accepted for
      being causally later with an older stamp: the verdict follows the stamps. */
  lemma ResolveOrdersStamps(h: History, k: string, l: Value, v: Value)
    requires Sound(h, k, l) && Sound(h, k, v)
    ensures IsIncomingNewer(l, v) ==> AtMost(StampOf(l), StampOf(v))
    ensures !IsIncomingNewer(l, v) ==> AtMost(StampOf(v), StampOf(l)) && Settled(l, v)
  {
    NewerMeans(l, v);
    OlderIsTotal(StampOf(l), StampOf(v));
    if Dominates(v.clock, l.clock) {
      CoveredIsOlder(h, k, l, v);
    }
    if Dominates(l.clock, v.clock) {
      CoveredIsOlder(h, k, v, l);
    }
  }

  /** Handling a sound value leaves the newer of the two stamps, keeps soundness, never
      loses clock or stamp, and settles the value for good. */
  lemma ResolveIsLww(h: History, k: string, local: Option<Value>, v: Value)
    requires Sound(h, k, v) && (local.Some? ==> Sound(h, k, local.value))
    ensures Sound(h, k, Resolve(local, v))
    ensures Grows(local, Some(Resolve(local, v)))
    ensures Settled(Resolve(local, v), v)
    ensures SameWrite(Resolve(local, v), v) || (local.Some? && Resolve(local, v) == local.value)
  {
    var r := Resolve(local, v);
    ResolveGenuine(h, k, local, v);
    if local.Some? {
      ResolveOrdersStamps(h, k, local.value, v);
    }
    if Accepts(local, v) {
      forall n, i: nat | Covered(h, k, r.clock, n, i) ensures AtMost(StampOf(Writes(h, n, k)[i]), StampOf(r)) {
        if Covered(h, k, v.clock, n, i) {
        } else {
          assert Covered(h, k, local.value.clock, n, i);
          AtMostTransitive(StampOf(Writes(h, n, k)[i]), StampOf(local.value), StampOf(v));
        }
      }
    }
  }

  /** A settled value is rejected, now and after any growth of the entry. */
  lemma SettledForever(r: Value, r': Value, v: Value)
    requires Settled(r, v) && Grows(Some(r), Some(r'))
    ensures Settled(r', v) && Resolve(Some(r'), v) == r'
  {
    AtMostTransitive(StampOf(v), StampOf(r), StampOf(r'));
    if Dominates(v.clock, r'.clock) {
      forall n ensures At(r.clock, n) <= At(v.clock, n) {
        assert At(r.clock, n) <= At(r'.clock, n) <= At(v.clock, n);
      }
      forall n ensures At(v.clock, n) <= At(r'.clock, n) {
        assert At(v.clock, n) <= At(r.clock, n) <= At(r'.clock, n);
      }
    }
    NewerMeans(r', v);
    OlderIsTotal(StampOf(r'), StampOf(v));
  }

  /******* Puts *******/

  /** The Put's stamp is newer than that of the value it overwrites. */
  ghost predicate Monotone(c: Cluster, s: Step)
    requires Enabled(c, s)
  {
    s.Put? && s.key in c.stores[s.node] ==> Older(StampOf(c.stores[s.node][s.key]), StampOf(Latest(c, s)))
  }

  /** What a caller can check before the Put: the clock has not gone back, and on an equal
      timestamp the writer's id is not below the stored origin. */
  lemma MonotoneMeans(c: Cluster, s: Step)
    requires Enabled(c, s) && s.Put?
    ensures Monotone(c, s) <==>
              (s.key in c.stores[s.node] ==>
                 var cur := c.stores[s.node][s.key];
                 s.timestamp > cur.timestamp || (s.timestamp == cur.timestamp && !Less(s.node, cur.origin)))
  {
    if s.key in c.stores[s.node] {
      var cur := c.stores[s.node][s.key];
      LessTotal(cur.origin, s.node);
      LessIrreflexive(s.node);
      if Less(cur.origin, s.node) {
        LessAsymmetric(cur.origin, s.node);
      }
    }
  }

  lemma SoundStable(h: History, h': History, k: string, v: Value)
    requires Sound(h, k, v) && Extends(h, h')
    ensures Sound(h', k, v)
  {
    GenuineStable(h, h', k, v);
    forall n, i: nat | Covered(h', k, v.clock, n, i) ensures AtMost(StampOf(Writes(h', n, k)[i]), StampOf(v)) {
      assert At(v.clock, n) <= |Writes(h, n, k)|;
      assert Writes(h, n, k) <= Writes(h', n, k);
      assert Covered(h, k, v.clock, n, i) && Writes(h', n, k)[i] == Writes(h, n, k)[i];
    }
  }

  lemma SoundStoreStable(h: History, h': History, store: Store)
    requires SoundStore(h, store) && Extends(h, h')
    ensures SoundStore(h', store)
  {
    forall k | k in store ensures Sound(h', k, store[k]) {
      SoundStable(h, h', k, store[k]);
    }
  }

  /** The new value is newer than every write its clock covers. */
  lemma MonotonePutIsSound(c: Cluster, s: Step)
    requires LwwInv(c) && Enabled(c, s) && s.Put? && Monotone(c, s)
    ensures Sound(Apply(c, s).puts, s.key, Latest(c, s))
    ensures forall i :: 0 <= i < |Writes(c.puts, s.node, s.key)| ==>
              Older(StampOf(Writes(c.puts, s.node, s.key)[i]), StampOf(Latest(c, s)))
  {
    PutHistory(c, s);
    var n, k, v, h, h' := s.node, s.key, Latest(c, s), c.puts, Apply(c, s).puts;
    var local := Find(c.stores[n], k);
    assert local.Some? ==> Sound(h, k, local.value);
    forall m, i: nat | Covered(h, k, ClockOf(local), m, i) ensures Older(StampOf(Writes(h, m, k)[i]), StampOf(v)) {
      assert Covered(h, k, local.value.clock, m, i);
      AtMostTransitive(StampOf(Writes(h, m, k)[i]), StampOf(local.value), StampOf(v));
    }
    assert |Writes(h, n, k)| == At(ClockOf(local), n);
    forall i | 0 <= i < |Writes(h, n, k)| ensures Older(StampOf(Writes(h, n, k)[i]), StampOf(v)) {
      assert Covered(h, k, ClockOf(local), n, i);
    }
    forall m, i: nat | Covered(h', k, v.clock, m, i) ensures AtMost(StampOf(Writes(h', m, k)[i]), StampOf(v)) {
      if m == n && i == |Writes(h, n, k)| {
      } else {
        assert At(ClockOf(local), m) <= |Writes(h, m, k)|;
        assert Covered(h, k, ClockOf(local), m, i);
      }
    }
  }

  lemma AppendIncreasing(h: History, n: string, k: string, v: Value)
    requires Increasing(h)
    requires forall i :: 0 <= i < |Writes(h, n, k)| ==> Older(StampOf(Writes(h, n, k)[i]), StampOf(v))
    ensures Increasing(Append(h, n, k, v))
  {
  }

  lemma PutStoreSound(c: Cluster, s: Step, n: string)
    requires LwwInv(c) && Enabled(c, s) && s.Put? && n in c.stores && Extends(c.puts, Apply(c, s).puts)
    requires Sound(Apply(c, s).puts, s.key, Latest(c, s))
    ensures SoundStore(Apply(c, s).puts, Apply(c, s).stores[n])
  {
    assert SoundStore(c.puts, c.stores[n]);
    SoundStoreStable(c.puts, Apply(c, s).puts, c.stores[n]);
  }

  lemma MonotonePutKeepsLww(c: Cluster, s: Step)
    requires LwwInv(c) && Enabled(c, s) && s.Put? && Monotone(c, s)
    ensures LwwInv(Apply(c, s))
  {
    var c' := Apply(c, s);
    StepKeepsInv(c, s);
    PutHistory(c, s);
    MonotonePutIsSound(c, s);
    AppendIncreasing(c.puts, s.node, s.key, Latest(c, s));
    forall n | n in c'.stores ensures SoundStore(c'.puts, c'.stores[n]) {
      PutStoreSound(c, s, n);
    }
    forall e | e in c'.sent && e.message.State? ensures SoundStore(c'.puts, e.message.state) {
      SoundStoreStable(c.puts, c'.puts, e.message.state);
    }
  }

  lemma ApplyStateSound(h: History, store: Store, st: Store)
    requires SoundStore(h, store) && SoundStore(h, st)
    ensures SoundStore(h, ApplyState(store, st))
  {
    forall k | k in ApplyState(store, st) ensures Sound(h, k, ApplyState(store, st)[k]) {
      if k in st {
        ResolveIsLww(h, k, Find(store, k), st[k]);
      }
    }
  }

  lemma StateForSound(h: History, store: Store, digest: DigestMap)
    requires SoundStore(h, store)
    ensures SoundStore(h, StateFor(store, digest))
  {
  }

  lemma StateKeepsLww(c: Cluster, e: Envelope)
    requires LwwInv(c) && Enabled(c, Handle(e)) && e.message.State? && Inv(Apply(c, Handle(e)))
    ensures LwwInv(Apply(c, Handle(e)))
  {
    assert SoundStore(c.puts, c.stores[e.to]) && SoundStore(c.puts, e.message.state);
    ApplyStateSound(c.puts, c.stores[e.to], e.message.state);
  }

  lemma ReplyIsAnswer(store: Store, digest: DigestMap, m: Message)
    requires m in DigestReplies(store, digest) && m.State?
    ensures m.state == StateFor(store, digest)
  {
  }

  lemma SentByHandling(c: Cluster, e: Envelope, x: Envelope)
    requires Enabled(c, Handle(e)) && e.message.Digest? && x in Apply(c, Handle(e)).sent && x.message.State?
    ensures x in c.sent || x.message.state == StateFor(c.stores[e.to], e.message.digest)
  {
    if x !in c.sent {
      ReplyIsAnswer(c.stores[e.to], e.message.digest, x.message);
    }
  }

  lemma DigestKeepsLww(c: Cluster, e: Envelope)
    requires LwwInv(c) && Enabled(c, Handle(e)) && e.message.Digest? && Inv(Apply(c, Handle(e)))
    ensures LwwInv(Apply(c, Handle(e)))
  {
    assert SoundStore(c.puts, c.stores[e.to]);
    StateForSound(c.puts, c.stores[e.to], e.message.digest);
    var c' := Apply(c, Handle(e));
    forall x | x in c'.sent && x.message.State? ensures SoundStore(c'.puts, x.message.state) {
      SentByHandling(c, e, x);
    }
  }

  lemma HandleKeepsLww(c: Cluster, e: Envelope)
    requires LwwInv(c) && Enabled(c, Handle(e))
    ensures LwwInv(Apply(c, Handle(e)))
  {
    StepKeepsInv(c, Handle(e));
    if e.message.State? {
      StateKeepsLww(c, e);
    } else {
      DigestKeepsLww(c, e);
    }
  }

  lemma StepKeepsLww(c: Cluster, s: Step)
    requires LwwInv(c) && Enabled(c, s) && Monotone(c, s)
    ensures LwwInv(Apply(c, s))
  {
    StepKeepsInv(c, s);
    match s
    case Put(_, _, _, _) => MonotonePutKeepsLww(c, s);
    case Handle(e) => HandleKeepsLww(c, e);
    case _ =>
  }

  /******* Runs *******/

  ghost predicate MonotonePuts(c: Cluster, steps: seq<Step>)
    requires ValidRun(c, steps)
    decreases |steps|
  {
    steps == [] || (Monotone(c, steps[0]) && MonotonePuts(Apply(c, steps[0]), steps[1..]))
  }

  ghost predicate StoresWin(c: Cluster) {
    forall n, k :: n in c.stores && k in c.stores[n] ==> Winner(c.puts, k, c.stores[n][k])
  }

  /** Every state of the run is a last-writer-wins state. */
  ghost predicate AlwaysWins(c: Cluster, steps: seq<Step>)
    requires ValidRun(c, steps)
    decreases |steps|
  {
    StoresWin(c) && (steps == [] || AlwaysWins(Apply(c, steps[0]), steps[1..]))
  }

  lemma {:induction false} RunKeepsLww(c: Cluster, steps: seq<Step>)
    requires LwwInv(c) && ValidRun(c, steps) && MonotonePuts(c, steps)
    ensures LwwInv(After(c, steps))
    decreases |steps|
  {
    if steps != [] {
      StepKeepsLww(c, steps[0]);
      RunKeepsLww(Apply(c, steps[0]), steps[1..]);
    }
  }

  lemma LwwInvWins(c: Cluster)
    requires LwwInv(c)
    ensures StoresWin(c)
  {
    forall n, k | n in c.stores && k in c.stores[n] ensures Winner(c.puts, k, c.stores[n][k]) {
      assert SoundStore(c.puts, c.stores[n]);
      SoundIsWinner(c.puts, k, c.stores[n][k]);
    }
  }

  lemma StaleIsNoWinner(h: History, k: string, cur: Value, v: Value)
    requires Genuine(h, k, cur) && Dominates(v.clock, cur.clock)
    requires StampOf(cur) != StampOf(v) && !Older(StampOf(cur), StampOf(v))
    ensures !Winner(h, k, v)
  {
    var i :| 0 <= i < At(cur.clock, cur.origin) <= |Writes(h, cur.origin, k)| &&
      SameWrite(Writes(h, cur.origin, k)[i], cur);
    assert At(cur.clock, cur.origin) <= At(v.clock, cur.origin);
    assert Covered(h, k, v.clock, cur.origin, i);
  }

  lemma CurrentStaysGenuine(c: Cluster, s: Step)
    requires Inv(c) && Enabled(c, s) && s.Put? && s.key in c.stores[s.node]
    ensures Genuine(Apply(c, s).puts, s.key, c.stores[s.node][s.key])
  {
    PutHistory(c, s);
    assert GenuineStore(c.puts, c.stores[s.node]);
    GenuineStable(c.puts, Apply(c, s).puts, s.key, c.stores[s.node][s.key]);
  }

  /** The value just stored covers the newer one it has overwritten. */
  lemma StaleLatest(c: Cluster, s: Step)
    requires Inv(c) && Enabled(c, s) && !Monotone(c, s)
    ensures !Winner(Apply(c, s).puts, s.key, Latest(c, s))
  {
    var cur := c.stores[s.node][s.key];
    CurrentStaysGenuine(c, s);
    WrittenDominates(cur, s.node, s.data, s.timestamp);
    StaleIsNoWinner(Apply(c, s).puts, s.key, cur, Latest(c, s));
  }

  /** A Put with an older stamp stores a value that is not the winner: it covers the
      newer value it has just overwritten. */
  lemma StalePutLoses(c: Cluster, s: Step)
    requires Inv(c) && Enabled(c, s) && !Monotone(c, s)
    ensures !StoresWin(Apply(c, s))
  {
    StaleLatest(c, s);
    NotWinning(Apply(c, s), s.node, s.key);
  }

  lemma NotWinning(c: Cluster, n: string, k: string)
    requires n in c.stores && k in c.stores[n] && !Winner(c.puts, k, c.stores[n][k])
    ensures !StoresWin(c)
  {
  }

  lemma {:induction false} LwwExactly(c: Cluster, steps: seq<Step>)
    requires LwwInv(c) && ValidRun(c, steps)
    ensures AlwaysWins(c, steps) <==> MonotonePuts(c, steps)
    decreases |steps|
  {
    LwwInvWins(c);
    if steps != [] {
      if Monotone(c, steps[0]) {
        StepKeepsLww(c, steps[0]);
        LwwExactly(Apply(c, steps[0]), steps[1..]);
      } else {
        StalePutLoses(c, steps[0]);
      }
    }
  }

  /** In every run, under arbitrary loss, duplication, delay and reordering: each replica
      holds, in every state, exactly the (timestamp, origin, version)-greatest of the Puts
      its clock covers, if and only if every Put is monotone. */
  lemma LwwRefinement(c: Cluster, steps: seq<Step>)
    requires Init(c) && ValidRun(c, steps)
    ensures AlwaysWins(c, steps) <==> MonotonePuts(c, steps)
  {
    InitInv(c);
    LwwExactly(c, steps);
  }

  /** A run whose second Put reads an earlier wall clock: the replica ends up holding the
      older of its own two writes. */
  lemma ClockGoingBackBreaksLww()
    ensures
      var c := Cluster(map["n" := map[]], map["n" := FaultGates.Faults(false, {})], {}, {}, map[]);
      var steps := [Put("n", "k", "first", 5), Put("n", "k", "second", 3)];
      Init(c) && ValidRun(c, steps) && !StoresWin(After(c, steps))
  {
    var c := Cluster(map["n" := map[]], map["n" := FaultGates.Faults(false, {})], {}, {}, map[]);
    var s1, s2 := Put("n", "k", "first", 5), Put("n", "k", "second", 3);
    InitInv(c);
    var c1 := Apply(c, s1);
    StepKeepsInv(c, s1);
    assert !Monotone(c1, s2);
    StalePutLoses(c1, s2);
    TwoSteps(c, s1, s2);
    assert After(c, [s1, s2]) == Apply(c1, s2);
  }

  lemma TwoSteps(c: Cluster, s1: Step, s2: Step)
    requires Enabled(c, s1) && Enabled(Apply(c, s1), s2)
    ensures ValidRun(c, [s1, s2]) && After(c, [s1, s2]) == Apply(Apply(c, s1), s2)
  {
    var c1 := Apply(c, s1);
    assert [s1, s2][1..] == [s2] && [s2][1..] == [];
    assert ValidRun(Apply(c1, s2), []) && ValidRun(c1, [s2]);
    assert After(c1, [s2]) == After(Apply(c1, s2), []);
  }

  /******* No resurrection *******/

  lemma WrittenDominates(local: Value, n: string, data: string, ts: int)
    ensures Dominates(Written(Some(local), n, data, ts).clock, local.clock)
  {
  }

  lemma PutGrows(c: Cluster, s: Step)
    requires Enabled(c, s) && s.Put? && Monotone(c, s)
    ensures Grows(Find(c.stores[s.node], s.key), Some(Latest(c, s)))
  {
    if s.key in c.stores[s.node] {
      WrittenDominates(c.stores[s.node][s.key], s.node, s.data, s.timestamp);
    }
  }

  lemma ApplyGrows(h: History, store: Store, st: Store, k: string)
    requires SoundStore(h, store) && SoundStore(h, st)
    ensures Grows(Find(store, k), Find(ApplyState(store, st), k))
  {
    if k in st {
      ResolveIsLww(h, k, Find(store, k), st[k]);
    }
  }

  lemma StepGrows(c: Cluster, s: Step, n: string, k: string)
    requires LwwInv(c) && Enabled(c, s) && Monotone(c, s) && n in c.stores
    ensures n in Apply(c, s).stores
    ensures Grows(Find(c.stores[n], k), Find(Apply(c, s).stores[n], k))
  {
    if s.Put? && n == s.node && k == s.key {
      PutGrows(c, s);
    } else if s.Handle? && s.envelope.message.State? && s.envelope.to == n {
      ApplyGrows(c.puts, c.stores[n], s.envelope.message.state, k);
    } else {
      assert Find(Apply(c, s).stores[n], k) == Find(c.stores[n], k);
    }
  }

  /** Over any run neither the clock nor the stamp of any entry ever decreases. */
  lemma {:induction false} EntriesNeverGoBack(c: Cluster, steps: seq<Step>, n: string, k: string)
    requires LwwInv(c) && ValidRun(c, steps) && MonotonePuts(c, steps) && n in c.stores
    ensures n in After(c, steps).stores
    ensures Grows(Find(c.stores[n], k), Find(After(c, steps).stores[n], k))
    decreases |steps|
  {
    if steps != [] {
      var c1 := Apply(c, steps[0]);
      StepGrows(c, steps[0], n, k);
      StepKeepsLww(c, steps[0]);
      EntriesNeverGoBack(c1, steps[1..], n, k);
      GrowsTransitive(Find(c.stores[n], k), Find(c1.stores[n], k), Find(After(c, steps).stores[n], k));
    }
  }

  /** A STATE value handled once, accepted or rejected, never changes that entry again,
      whatever was handled or written in between. */
  lemma NoResurrection(c: Cluster, before: seq<Step>, e: Envelope, between: seq<Step>, e2: Envelope, k: string)
    requires Init(c) && ValidRun(c, before) && MonotonePuts(c, before)
    requires Enabled(After(c, before), Handle(e))
    requires ValidRun(Apply(After(c, before), Handle(e)), between)
    requires MonotonePuts(Apply(After(c, before), Handle(e)), between)
    requires Enabled(After(Apply(After(c, before), Handle(e)), between), Handle(e2))
    requires e.message.State? && e2.message.State? && e.to == e2.to
    requires k in e.message.state && k in e2.message.state && e.message.state[k] == e2.message.state[k]
    ensures
      var c2 := After(Apply(After(c, before), Handle(e)), between);
      k in c2.stores[e.to] && Find(Apply(c2, Handle(e2)).stores[e.to], k) == Find(c2.stores[e.to], k)
  {
    InitInv(c);
    RunKeepsLww(c, before);
    HandledForGood(After(c, before), e, between, e2, k);
  }

  lemma HandledForGood(c: Cluster, e: Envelope, between: seq<Step>, e2: Envelope, k: string)
    requires LwwInv(c) && Enabled(c, Handle(e)) && e.message.State? && k in e.message.state
    requires ValidRun(Apply(c, Handle(e)), between) && MonotonePuts(Apply(c, Handle(e)), between)
    requires Enabled(After(Apply(c, Handle(e)), between), Handle(e2)) && e2.message.State? && e.to == e2.to
    requires k in e2.message.state && e.message.state[k] == e2.message.state[k]
    ensures
      var c2 := After(Apply(c, Handle(e)), between);
      k in c2.stores[e.to] && Find(Apply(c2, Handle(e2)).stores[e.to], k) == Find(c2.stores[e.to], k)
  {
    HandleSettles(c, e, k);
    SettledRun(Apply(c, Handle(e)), between, e.to, k, e.message.state[k]);
    HandleAgain(After(Apply(c, Handle(e)), between), e2, k);
  }

  lemma HandleAgain(c: Cluster, e: Envelope, k: string)
    requires Enabled(c, Handle(e)) && e.message.State? && k in e.message.state && k in c.stores[e.to]
    requires Resolve(Some(c.stores[e.to][k]), e.message.state[k]) == c.stores[e.to][k]
    ensures Find(Apply(c, Handle(e)).stores[e.to], k) == Find(c.stores[e.to], k)
  {
    UnchangedEntry(c.stores[e.to], e.message.state, k);
  }

  lemma HandleSettles(c: Cluster, e: Envelope, k: string)
    requires LwwInv(c) && Enabled(c, Handle(e)) && e.message.State? && k in e.message.state
    ensures var c1 := Apply(c, Handle(e));
      LwwInv(c1) && e.to in c1.stores && k in c1.stores[e.to] && Settled(c1.stores[e.to][k], e.message.state[k])
  {
    assert SoundStore(c.puts, c.stores[e.to]) && SoundStore(c.puts, e.message.state);
    ResolveIsLww(c.puts, k, Find(c.stores[e.to], k), e.message.state[k]);
    HandleKeepsLww(c, e);
  }

  lemma SettledRun(c: Cluster, steps: seq<Step>, n: string, k: string, v: Value)
    requires LwwInv(c) && ValidRun(c, steps) && MonotonePuts(c, steps)
    requires n in c.stores && k in c.stores[n] && Settled(c.stores[n][k], v)
    ensures var f := After(c, steps);
      n in f.stores && k in f.stores[n] && Resolve(Some(f.stores[n][k]), v) == f.stores[n][k]
  {
    EntriesNeverGoBack(c, steps, n, k);
    SettledForever(c.stores[n][k], After(c, steps).stores[n][k], v);
  }

  lemma UnchangedEntry(store: Store, st: Store, k: string)
    requires k in store && k in st && Resolve(Some(store[k]), st[k]) == store[k]
    ensures Find(ApplyState(store, st), k) == Find(store, k)
  {
  }

  /******* Delivery order *******/

  function Deliver(store: Store, messages: seq<Store>): Store
    decreases |messages|
  {
    if messages == [] then store else Deliver(ApplyState(store, messages[0]), messages[1..])
  }

  ghost predicate Offered(messages: seq<Store>, k: string, w: Value) {
    exists m :: m in messages && k in m && SameWrite(m[k], w)
  }

  /** After any deliveries the entry is at least as new as the initial one and as every
      delivered value, and it is one of them. */
  lemma {:induction false} DeliverIsMaximum(h: History, store: Store, messages: seq<Store>, k: string)
    requires SoundStore(h, store) && (forall m :: m in messages ==> SoundStore(h, m))
    ensures SoundStore(h, Deliver(store, messages))
    ensures Grows(Find(store, k), Find(Deliver(store, messages), k))
    ensures forall m :: m in messages && k in m ==>
              k in Deliver(store, messages) && AtMost(StampOf(m[k]), StampOf(Deliver(store, messages)[k]))
    ensures k in Deliver(store, messages) ==>
              || (k in store && SameWrite(store[k], Deliver(store, messages)[k]))
              || Offered(messages, k, Deliver(store, messages)[k])
    decreases |messages|
  {
    if messages != [] {
      var m0, next := messages[0], ApplyState(store, messages[0]);
      var end := Deliver(store, messages);
      ApplyStateSound(h, store, m0);
      DeliverIsMaximum(h, next, messages[1..], k);
      if k in m0 {
        ResolveIsLww(h, k, Find(store, k), m0[k]);
        AtMostTransitive(StampOf(m0[k]), StampOf(next[k]), StampOf(end[k]));
      }
      GrowsTransitive(Find(store, k), Find(next, k), Find(end, k));
      if k in end {
        if Offered(messages[1..], k, end[k]) {
          var m :| m in messages[1..] && k in m && SameWrite(m[k], end[k]);
          assert m in messages;
        } else if k in m0 && SameWrite(m0[k], end[k]) {
          assert m0 in messages;
        }
      }
    }
  }

  /** The final stamp is bounded by that of any other schedule of the same messages. */
  lemma DeliverBounded(h: History, store: Store, p: seq<Store>, q: seq<Store>, k: string)
    requires SoundStore(h, store)
    requires (forall m :: m in p ==> SoundStore(h, m)) && (forall m :: m in q ==> SoundStore(h, m))
    requires forall m :: m in p ==> m in q
    requires k in Deliver(store, p)
    ensures k in Deliver(store, q) && AtMost(StampOf(Deliver(store, p)[k]), StampOf(Deliver(store, q)[k]))
  {
    DeliverIsMaximum(h, store, p, k);
    DeliverIsMaximum(h, store, q, k);
  }

  ghost predicate SameView(a: Store, b: Store) {
    a.Keys == b.Keys && forall k :: k in a ==> SameWrite(a[k], b[k])
  }

  /** Any two delivery sequences over the same set of STATE messages, in any order and with
      any repeats, end with the same data, version, origin and timestamp per key. */
  lemma DeliveryOrderIrrelevant(h: History, store: Store, p: seq<Store>, q: seq<Store>)
    requires Orderly(h) && SoundStore(h, store)
    requires (forall m :: m in p ==> SoundStore(h, m)) && (forall m :: m in q ==> SoundStore(h, m))
    requires forall m :: m in p <==> m in q
    ensures SameView(Deliver(store, p), Deliver(store, q))
  {
    var a, b := Deliver(store, p), Deliver(store, q);
    forall k ensures k in a <==> k in b {
      if k in a {
        DeliverBounded(h, store, p, q, k);
      }
      if k in b {
        DeliverBounded(h, store, q, p, k);
      }
    }
    forall k | k in a ensures SameWrite(a[k], b[k]) {
      SameEntry(h, store, p, q, k);
    }
  }

  lemma SameEntry(h: History, store: Store, p: seq<Store>, q: seq<Store>, k: string)
    requires Orderly(h) && SoundStore(h, store)
    requires (forall m :: m in p ==> SoundStore(h, m)) && (forall m :: m in q ==> SoundStore(h, m))
    requires (forall m :: m in p <==> m in q) && k in Deliver(store, p) && k in Deliver(store, q)
    ensures SameWrite(Deliver(store, p)[k], Deliver(store, q)[k])
  {
    DeliverBounded(h, store, p, q, k);
    DeliverBounded(h, store, q, p, k);
    DeliverIsMaximum(h, store, p, k);
    DeliverIsMaximum(h, store, q, k);
    var a, b := Deliver(store, p)[k], Deliver(store, q)[k];
    OlderIsTotal(StampOf(a), StampOf(b));
    SameStampSameWrite(h, k, a, b);
  }

  /** The same in a reachable cluster: the messages are any STATEs sent so far. */
  lemma DeliveryOrderIrrelevantInRuns(c: Cluster, steps: seq<Step>, n: string, p: seq<Envelope>, q: seq<Envelope>)
    requires Init(c) && ValidRun(c, steps) && MonotonePuts(c, steps) && n in After(c, steps).stores
    requires forall e :: e in p ==> e in After(c, steps).sent && e.message.State?
    requires forall e :: e in q <==> e in p
    ensures SameView(Deliver(After(c, steps).stores[n], Bodies(p)), Deliver(After(c, steps).stores[n], Bodies(q)))
  {
    InitInv(c);
    RunKeepsLww(c, steps);
    var f := After(c, steps);
    BodiesIncluded(p, q);
    BodiesIncluded(q, p);
    DeliveryOrderIrrelevant(f.puts, f.stores[n], Bodies(p), Bodies(q));
  }

  lemma BodiesIncluded(p: seq<Envelope>, q: seq<Envelope>)
    requires forall e :: e in p + q ==> e.message.State?
    requires forall e :: e in p ==> e in q
    ensures forall m :: m in Bodies(p) ==> m in Bodies(q)
  {
    forall m | m in Bodies(p) ensures m in Bodies(q) {
      var i :| 0 <= i < |p| && Bodies(p)[i] == m;
      assert p[i] in p;
      var j :| 0 <= j < |q| && q[j] == p[i];
      assert Bodies(q)[j] == m;
    }
  }

  ghost function Bodies(envelopes: seq<Envelope>): (r: seq<Store>)
    requires forall e :: e in envelopes ==> e.message.State?
    ensures |r| == |envelopes| && forall i :: 0 <= i < |r| ==> r[i] == envelopes[i].message.state
  {
    seq(|envelopes|, i requires 0 <= i < |envelopes| => envelopes[i].message.state)
  }

  /** The later of two concurrent writes wins in both orders, but only one of them merges. */
  lemma LaterAccepted(p: Value, q: Value)
    requires p == Value("p", 1, "x", 1, map["x" := 1]) && q == Value("q", 1, "y", 2, map["y" := 1])
    ensures var r := Resolve(Some(Resolve(None, p)), q); SameWrite(r, q) && At(r.clock, "x") == 1
  {
    var p0 := Resolve(None, p);
    assert At(p0.clock, "x") == 1 && At(p0.clock, "y") == 0 && At(q.clock, "x") == 0 && At(q.clock, "y") == 1;
    ConcurrentMeans(p0, q, "x", "y");
  }

  lemma EarlierRejected(p: Value, q: Value)
    requires p == Value("p", 1, "x", 1, map["x" := 1]) && q == Value("q", 1, "y", 2, map["y" := 1])
    ensures var r := Resolve(Some(Resolve(None, q)), p); SameWrite(r, q) && At(r.clock, "x") == 0
  {
    var q0 := Resolve(None, q);
    assert At(q0.clock, "x") == 0 && At(q0.clock, "y") == 1 && At(p.clock, "x") == 1 && At(p.clock, "y") == 0;
    ConcurrentMeans(q0, p, "y", "x");
  }

  /** The merged clocks may differ: a rejected STATE leaves no trace of its clock. */
  lemma MergedClocksMayDiffer()
    ensures
      var p := Value("p", 1, "x", 1, map["x" := 1]);
      var q := Value("q", 1, "y", 2, map["y" := 1]);
      var pq, qp := Resolve(Some(Resolve(None, p)), q), Resolve(Some(Resolve(None, q)), p);
      SameWrite(pq, qp) && !SameClock(pq.clock, qp.clock)
  {
    var p := Value("p", 1, "x", 1, map["x" := 1]);
    var q := Value("q", 1, "y", 2, map["y" := 1]);
    LaterAccepted(p, q);
    EarlierRejected(p, q);
  }

  /** Whenever `b` causally follows `a` with an older stamp and `c` is concurrent with both
      and stamped in between, the order of delivery decides the outcome. */
  lemma OrderMattersWhenClocksGoBack(a: Value, b: Value, c: Value, x: string, y: string)
    requires Dominates(b.clock, a.clock) && !Dominates(a.clock, b.clock)
    requires At(a.clock, x) > At(c.clock, x) && At(c.clock, y) > At(b.clock, y)
    requires Older(StampOf(b), StampOf(c)) && Older(StampOf(c), StampOf(a))
    ensures SameWrite(Resolve(Some(Resolve(Some(Resolve(None, a)), b)), c), c)
    ensures SameWrite(Resolve(Some(Resolve(Some(Resolve(None, c)), a)), b), a)
    ensures !SameWrite(a, c)
  {
    OlderIsTotal(StampOf(c), StampOf(a));
    OlderIsTotal(StampOf(a), StampOf(c));
    OlderTransitive(StampOf(b), StampOf(c), StampOf(a));
    OlderIsTotal(StampOf(b), StampOf(a));
    assert At(a.clock, y) <= At(b.clock, y) && At(a.clock, x) <= At(b.clock, x);
    EarlyFirst(a, b, c, x, y);
    LateLast(a, b, c, x, y);
  }

  lemma EarlyFirst(a: Value, b: Value, c: Value, x: string, y: string)
    requires Dominates(b.clock, a.clock) && !Dominates(a.clock, b.clock)
    requires At(b.clock, x) > At(c.clock, x) && At(c.clock, y) > At(b.clock, y)
    requires Older(StampOf(b), StampOf(c))
    ensures SameWrite(Resolve(Some(Resolve(Some(Resolve(None, a)), b)), c), c)
  {
    var a0 := Resolve(None, a);
    assert SameClock(a0.clock, a.clock);
    NewerMeans(a0, b);
    var ab := Resolve(Some(a0), b);
    assert At(ab.clock, x) >= At(b.clock, x);
    assert At(a.clock, y) <= At(b.clock, y);
    ConcurrentMeans(ab, c, x, y);
  }

  lemma LateLast(a: Value, b: Value, c: Value, x: string, y: string)
    requires At(a.clock, x) > At(c.clock, x) && At(c.clock, y) > At(a.clock, y) && At(c.clock, y) > At(b.clock, y)
    requires Older(StampOf(c), StampOf(a)) && !Older(StampOf(a), StampOf(b))
    ensures SameWrite(Resolve(Some(Resolve(Some(Resolve(None, c)), a)), b), a)
  {
    var c0 := Resolve(None, c);
    assert SameClock(c0.clock, c.clock);
    ConcurrentMeans(c0, a, y, x);
    var ca := Resolve(Some(c0), a);
    assert At(ca.clock, y) > At(b.clock, y);
    NewerMeans(ca, b);
  }

  /** Two clocks that each lead somewhere: the stamps decide. */
  lemma ConcurrentMeans(l: Value, v: Value, x: string, y: string)
    requires At(l.clock, x) > At(v.clock, x) && At(v.clock, y) > At(l.clock, y)
    ensures IsIncomingNewer(l, v) <==> Older(StampOf(l), StampOf(v))
  {
    NewerMeans(l, v);
  }
}
