/** Runs without Puts, however the steps are interleaved, lost, repeated or reordered: the
    newest write of a key stays the same, nobody who holds it loses it, and every exchange
    that is completed, no matter what is handled in between, passes it on. */
module QuietRuns {
  import opened Options
  import opened GossipValues
  import opened GossipCluster
  import opened LastWriterWins
  import opened ViewGossip
  import opened Convergence

  ghost predicate Quiet(steps: seq<Step>) {
    forall s :: s in steps ==> !s.Put?
  }

  lemma {:induction false} PrefixIsRun(c: Cluster, steps: seq<Step>, i: nat)
    requires ValidRun(c, steps) && i <= |steps|
    ensures ValidRun(c, steps[..i]) && ValidRun(After(c, steps[..i]), steps[i..])
    ensures After(After(c, steps[..i]), steps[i..]) == After(c, steps)
    decreases i
  {
    if i > 0 {
      assert steps[..i][1..] == steps[1..][..i-1] && steps[i..] == steps[1..][i-1..];
      PrefixIsRun(Apply(c, steps[0]), steps[1..], i - 1);
    } else {
      assert steps[..i] == [] && steps[i..] == steps;
    }
  }

  /******* The newest write *******/

  /** The newest view is at least as new as every Put ever made of the key: each writer's own
      replica covers all its Puts. */
  lemma TopCoversPuts(c: Cluster, k: string, top: View, n: string, i: nat)
    requires LwwInv(c) && IsTop(ViewsOf(c.stores, k), top) && i < |Writes(c.puts, n, k)|
    ensures UpTo(Some(StampOf(Writes(c.puts, n, k)[i])), top)
  {
    assert n in c.stores;
    assert OwnEntriesExact(c.puts, n, c.stores[n]) && SoundStore(c.puts, c.stores[n]);
    assert k in c.stores[n];
    assert Covered(c.puts, k, c.stores[n][k].clock, n, i);
    assert UpTo(ViewsOf(c.stores, k)[n], top);
    UpToIsTotal(Some(StampOf(Writes(c.puts, n, k)[i])), ViewOf(c.stores[n], k), top);
  }

  lemma GenuineUpToTop(c: Cluster, k: string, top: View, v: Value)
    requires LwwInv(c) && IsTop(ViewsOf(c.stores, k), top) && Genuine(c.puts, k, v)
    ensures UpTo(Some(StampOf(v)), top)
  {
    var i :| 0 <= i < At(v.clock, v.origin) <= |Writes(c.puts, v.origin, k)| &&
      SameWrite(Writes(c.puts, v.origin, k)[i], v);
    TopCoversPuts(c, k, top, v.origin, i);
  }

  lemma GrowsIsUpTo(a: Store, b: Store, k: string)
    requires Grows(Find(a, k), Find(b, k))
    ensures UpTo(ViewOf(a, k), ViewOf(b, k))
  {
  }

  lemma SoundUpToTop(c: Cluster, store: Store, k: string, top: View)
    requires LwwInv(c) && IsTop(ViewsOf(c.stores, k), top) && SoundStore(c.puts, store)
    ensures UpTo(ViewOf(store, k), top)
  {
    if k in store {
      GenuineUpToTop(c, k, top, store[k]);
    }
  }

  lemma QuietPuts(c: Cluster, s: Step)
    requires Enabled(c, s) && !s.Put?
    ensures Apply(c, s).puts == c.puts && Monotone(c, s) && Apply(c, s).stores.Keys == c.stores.Keys
  {
  }

  /** One step without a Put: every view grows towards the newest one. */
  lemma QuietStepView(c: Cluster, s: Step, k: string, top: View, n: string)
    requires LwwInv(c) && Enabled(c, s) && !s.Put? && n in c.stores && IsTop(ViewsOf(c.stores, k), top)
    requires LwwInv(Apply(c, s))
    ensures n in Apply(c, s).stores
    ensures UpTo(ViewOf(c.stores[n], k), ViewOf(Apply(c, s).stores[n], k))
    ensures UpTo(ViewOf(Apply(c, s).stores[n], k), top)
  {
    QuietPuts(c, s);
    StepGrows(c, s, n, k);
    GrowsIsUpTo(c.stores[n], Apply(c, s).stores[n], k);
    SoundUpToTop(c, Apply(c, s).stores[n], k, top);
  }

  /** Views that grow without passing the top: holders stay, so laggards only leave. */
  lemma GrowingViews(s: Views, s': Views, top: View)
    requires IsTop(s, top) && s.Keys == s'.Keys
    requires forall n :: n in s ==> UpTo(s[n], s'[n]) && UpTo(s'[n], top)
    ensures IsTop(s', top) && Lagging(s', top) <= Lagging(s, top)
  {
    forall n | n in s && s[n] == top ensures s'[n] == top {
      UpToIsTotal(top, s'[n], top);
    }
    var w :| w in s && s[w] == top;
    assert s'[w] == top;
  }

  lemma QuietStep(c: Cluster, s: Step, k: string, top: View)
    requires LwwInv(c) && Enabled(c, s) && !s.Put? && IsTop(ViewsOf(c.stores, k), top)
    ensures LwwInv(Apply(c, s)) && IsTop(ViewsOf(Apply(c, s).stores, k), top)
    ensures Lagging(ViewsOf(Apply(c, s).stores, k), top) <= Lagging(ViewsOf(c.stores, k), top)
  {
    QuietPuts(c, s);
    StepKeepsLww(c, s);
    var before, after := ViewsOf(c.stores, k), ViewsOf(Apply(c, s).stores, k);
    assert before.Keys == after.Keys;
    forall n | n in before ensures UpTo(before[n], after[n]) && UpTo(after[n], top) {
      QuietStepView(c, s, k, top, n);
    }
    GrowingViews(before, after, top);
  }

  /** Over every run without Puts the newest view stays the same and laggards only leave. */
  lemma {:induction false} QuietRun(c: Cluster, steps: seq<Step>, k: string, top: View)
    requires LwwInv(c) && ValidRun(c, steps) && Quiet(steps) && IsTop(ViewsOf(c.stores, k), top)
    ensures LwwInv(After(c, steps)) && IsTop(ViewsOf(After(c, steps).stores, k), top)
    ensures Lagging(ViewsOf(After(c, steps).stores, k), top) <= Lagging(ViewsOf(c.stores, k), top)
    decreases |steps|
  {
    if steps != [] {
      assert steps[0] in steps;
      QuietStep(c, steps[0], k, top);
      assert Quiet(steps[1..]);
      QuietRun(Apply(c, steps[0]), steps[1..], k, top);
    }
  }

  lemma SubsetSize(a: set<string>, b: set<string>)
    requires a <= b
    ensures |a| <= |b|
  {
    assert b == a + (b - a);
  }

  /** In any two states of a run without Puts, the later one has the same newest view and no
      more laggards than the earlier one: convergence is never undone. */
  lemma NewestIsStable(c: Cluster, steps: seq<Step>, k: string, top: View, i: nat, j: nat)
    requires LwwInv(c) && ValidRun(c, steps) && Quiet(steps) && IsTop(ViewsOf(c.stores, k), top) && i <= j <= |steps|
    ensures ValidRun(c, steps[..i]) && ValidRun(c, steps[..j])
    ensures
      var a, b := ViewsOf(After(c, steps[..i]).stores, k), ViewsOf(After(c, steps[..j]).stores, k);
      && IsTop(a, top) && IsTop(b, top)
      && Lagging(b, top) <= Lagging(a, top) && |Lagging(b, top)| <= |Lagging(a, top)|
  {
    BetweenStates(c, steps, i, j);
    QuietParts(steps, i, j);
    QuietRun(c, steps[..i], k, top);
    QuietRun(After(c, steps[..i]), steps[i..j], k, top);
    var a, b := ViewsOf(After(c, steps[..i]).stores, k), ViewsOf(After(c, steps[..j]).stores, k);
    SubsetSize(Lagging(b, top), Lagging(a, top));
  }

  lemma BetweenStates(c: Cluster, steps: seq<Step>, i: nat, j: nat)
    requires ValidRun(c, steps) && i <= j <= |steps|
    ensures ValidRun(c, steps[..i]) && ValidRun(c, steps[..j]) && ValidRun(After(c, steps[..i]), steps[i..j])
    ensures After(After(c, steps[..i]), steps[i..j]) == After(c, steps[..j])
  {
    PrefixIsRun(c, steps, j);
    PrefixIsRun(c, steps[..j], i);
    assert steps[..j][..i] == steps[..i] && steps[..j][i..] == steps[i..j];
  }

  lemma QuietParts(steps: seq<Step>, i: nat, j: nat)
    requires Quiet(steps) && i <= j <= |steps|
    ensures Quiet(steps[..i]) && Quiet(steps[i..j])
  {
  }

  /** A replica that holds the newest write in one state of the run holds it in all later ones. */
  lemma HolderStays(c: Cluster, steps: seq<Step>, k: string, top: View, i: nat, n: string)
    requires LwwInv(c) && ValidRun(c, steps) && Quiet(steps) && IsTop(ViewsOf(c.stores, k), top) && i <= |steps|
    requires ValidRun(c, steps[..i])
    requires n in After(c, steps[..i]).stores && ViewOf(After(c, steps[..i]).stores[n], k) == top
    ensures n in After(c, steps).stores && ViewOf(After(c, steps).stores[n], k) == top
  {
    NewestIsStable(c, steps, k, top, i, |steps|);
    assert steps[..|steps|] == steps;
    PrefixIsRun(c, steps, i);
    StoresStay(After(c, steps[..i]), steps[i..]);
    var a, b := ViewsOf(After(c, steps[..i]).stores, k), ViewsOf(After(c, steps).stores, k);
    assert n !in Lagging(a, top);
    assert n in b && n !in Lagging(b, top);
  }

  lemma {:induction false} StoresStay(c: Cluster, steps: seq<Step>)
    requires ValidRun(c, steps)
    ensures After(c, steps).stores.Keys == c.stores.Keys
    decreases |steps|
  {
    if steps != [] {
      StoresStay(Apply(c, steps[0]), steps[1..]);
    }
  }

  /******* One exchange, whatever is handled in between *******/

  /** A replica without the newest write is behind every digest that shows it. */
  lemma LaggardIsBehind(h: History, store: Store, digest: DigestMap, k: string)
    requires SoundStore(h, store) && k in digest && GenuineDigest(h, k, digest[k])
    requires k in store ==> Older(StampOf(store[k]), ToStamp(digest[k]))
    ensures Behind(store, digest)
  {
    if k in store {
      var d := digest[k];
      var i :| 0 <= i < At(d.clock, d.origin) <= |Writes(h, d.origin, k)| &&
        ToStamp(d) == StampOf(Writes(h, d.origin, k)[i]);
      NotAhead(h, k, store[k], d, i);
      OlderIsTotal(StampOf(store[k]), ToStamp(d));
      OlderDecides(store[k], d);
    }
  }

  /** A sound value older than the digest's write does not cover it. */
  lemma NotAhead(h: History, k: string, v: Value, d: DigestEntry, i: nat)
    requires Sound(h, k, v) && i < At(d.clock, d.origin) <= |Writes(h, d.origin, k)|
    requires ToStamp(d) == StampOf(Writes(h, d.origin, k)[i]) && Older(StampOf(v), ToStamp(d))
    ensures !Dominates(v.clock, d.clock)
  {
    OlderIsTotal(StampOf(v), ToStamp(d));
    if Dominates(v.clock, d.clock) {
      assert At(d.clock, d.origin) <= At(v.clock, d.origin);
      assert Covered(h, k, v.clock, d.origin, i);
    }
  }

  lemma OlderDecides(v: Value, d: DigestEntry)
    requires !Dominates(v.clock, d.clock) && Older(StampOf(v), ToStamp(d))
    ensures CompareToDigest(v, d) < 0
  {
    var w := Value("", d.version, d.origin, d.timestamp, d.clock);
    assert ToDigest(w) == d && StampOf(w) == ToStamp(d);
    DigestFidelity(v, w);
    NewerMeans(v, w);
  }

  /** The STATE answering a laggard's digest carries the newest write. */
  lemma AnswerCarries(h: History, holder: Store, laggard: Store, k: string)
    requires SoundStore(h, holder) && SoundStore(h, laggard) && k in holder
    requires k in laggard ==> Older(StampOf(laggard[k]), StampOf(holder[k]))
    ensures var st := StateFor(holder, DigestOf(laggard)); k in st && st[k] == holder[k]
  {
    StateForIsExactlyWhatIsAccepted(laggard, holder, k);
    if k in laggard {
      ResolveOrdersStamps(h, k, laggard[k], holder[k]);
      OlderIsTotal(StampOf(laggard[k]), StampOf(holder[k]));
    }
  }

  /** Handling a STATE that carries the newest write makes a holder. */
  lemma StateMakesHolder(c: Cluster, e: Envelope, k: string, top: View)
    requires LwwInv(c) && Enabled(c, Handle(e)) && IsTop(ViewsOf(c.stores, k), top)
    requires e.message.State? && k in e.message.state && top == Some(StampOf(e.message.state[k]))
    ensures e.to in Apply(c, Handle(e)).stores && ViewOf(Apply(c, Handle(e)).stores[e.to], k) == top
  {
    HandleSettles(c, e, k);
    QuietStepView(c, Handle(e), k, top, e.to);
    UpToIsTotal(ViewOf(Apply(c, Handle(e)).stores[e.to], k), top, top);
  }

  /** The reverse DIGEST the receiver of a DIGEST sends. */
  ghost function Reverse(c: Cluster, from: string, to: string): Envelope
    requires from in c.stores
  {
    Envelope(from, to, Digest(DigestOf(c.stores[from])))
  }

  /** The STATE with which the receiver of a DIGEST answers. */
  ghost function Answer(c: Cluster, from: string, to: string, digest: DigestMap): Envelope
    requires from in c.stores
  {
    Envelope(from, to, State(StateFor(c.stores[from], digest)))
  }

  /** From step `j` on: the reverse DIGEST is handled and so is the STATE answering it, if any. */
  ghost predicate Answered(c: Cluster, steps: seq<Step>, j: nat, h: string, r: string, digest: DigestMap)
    requires ValidRun(c, steps)
  {
    && j < |steps| && ValidRun(c, steps[..j]) && h in After(c, steps[..j]).stores
    && steps[j] == Handle(Envelope(r, h, Digest(digest)))
    && (StateFor(After(c, steps[..j]).stores[h], digest) != map[] ==>
          exists l :: j < l < |steps| && steps[l] == Handle(Answer(After(c, steps[..j]), h, r, digest)))
  }

  /** At step `i` replica `r` handles a DIGEST of `h`; whatever this asks for is handled later in
      the run, with anything in between. */
  ghost predicate Completed(c: Cluster, steps: seq<Step>, i: nat, h: string, r: string, digest: DigestMap)
    requires ValidRun(c, steps)
  {
    && i < |steps| && ValidRun(c, steps[..i]) && r in After(c, steps[..i]).stores
    && steps[i] == Handle(Envelope(h, r, Digest(digest)))
    && (Behind(After(c, steps[..i]).stores[r], digest) ==>
          exists j :: i < j && Answered(c, steps, j, h, r, DigestOf(After(c, steps[..i]).stores[r])))
  }

  lemma StepAt(c: Cluster, steps: seq<Step>, i: nat)
    requires ValidRun(c, steps) && i < |steps|
    ensures ValidRun(c, steps[..i]) && Enabled(After(c, steps[..i]), steps[i])
    ensures ValidRun(c, steps[..i+1]) && After(c, steps[..i+1]) == Apply(After(c, steps[..i]), steps[i])
  {
    PrefixIsRun(c, steps, i + 1);
    PrefixIsRun(c, steps[..i+1], i);
    assert steps[..i+1][..i] == steps[..i] && steps[..i+1][i..] == [steps[i]];
    assert [steps[i]][1..] == [];
  }

  /** Handling a STATE with the newest write somewhere in the run makes a holder at its end. */
  lemma HandledStateHolds(c: Cluster, steps: seq<Step>, k: string, top: View, l: nat, e: Envelope)
    requires LwwInv(c) && ValidRun(c, steps) && Quiet(steps) && IsTop(ViewsOf(c.stores, k), top)
    requires l < |steps| && steps[l] == Handle(e)
    requires e.message.State? && k in e.message.state && top == Some(StampOf(e.message.state[k]))
    ensures e.to in After(c, steps).stores && ViewOf(After(c, steps).stores[e.to], k) == top
  {
    StepAt(c, steps, l);
    QuietRun(c, steps[..l], k, top);
    StateMakesHolder(After(c, steps[..l]), e, k, top);
    HolderStays(c, steps, k, top, l + 1, e.to);
  }

  /** A laggard's DIGEST that a holder answers, and whose answer is handled, ends the lag. */
  lemma AnsweredHolds(c: Cluster, steps: seq<Step>, k: string, top: View, j: nat, h: string, r: string, laggard: Store)
    requires LwwInv(c) && ValidRun(c, steps) && Quiet(steps) && IsTop(ViewsOf(c.stores, k), top) && top.Some?
    requires h in c.stores && ViewOf(c.stores[h], k) == top
    requires SoundStore(c.puts, laggard) && ViewOf(laggard, k) != top && UpTo(ViewOf(laggard, k), top)
    requires Answered(c, steps, j, h, r, DigestOf(laggard))
    ensures r in After(c, steps).stores && ViewOf(After(c, steps).stores[r], k) == top
  {
    StepAt(c, steps, j);
    var now := After(c, steps[..j]);
    QuietPrefix(c, steps, j, k, top, h);
    AnswerCarries(c.puts, now.stores[h], laggard, k);
    var l :| j < l < |steps| && steps[l] == Handle(Answer(now, h, r, DigestOf(laggard)));
    HandledStateHolds(c, steps, k, top, l, Answer(now, h, r, DigestOf(laggard)));
  }

  /** What a state in the middle of the run keeps of its start. */
  lemma QuietPrefix(c: Cluster, steps: seq<Step>, j: nat, k: string, top: View, h: string)
    requires LwwInv(c) && ValidRun(c, steps) && Quiet(steps) && IsTop(ViewsOf(c.stores, k), top) && j <= |steps|
    requires h in c.stores && ViewOf(c.stores[h], k) == top && top.Some?
    ensures ValidRun(c, steps[..j])
    ensures
      var now := After(c, steps[..j]);
      && LwwInv(now) && now.puts == c.puts && h in now.stores && SoundStore(c.puts, now.stores[h])
      && ViewOf(now.stores[h], k) == top && IsTop(ViewsOf(now.stores, k), top)
  {
    PrefixIsRun(c, steps, j);
    assert Quiet(steps[..j]);
    QuietRun(c, steps[..j], k, top);
    assert steps[..j][..0] == [];
    HolderStays(c, steps[..j], k, top, 0, h);
    PutsStay(c, steps[..j]);
  }

  lemma {:induction false} PutsStay(c: Cluster, steps: seq<Step>)
    requires ValidRun(c, steps) && Quiet(steps)
    ensures After(c, steps).puts == c.puts
    decreases |steps|
  {
    if steps != [] {
      assert steps[0] in steps;
      PutsStay(Apply(c, steps[0]), steps[1..]);
    }
  }

  /** In every run without Puts: a replica that handles a DIGEST showing the newest write, sent by
      a replica that holds it, ends up holding it too, provided whatever the DIGEST asks for is
      handled some time later; the envelopes may be late and anything may be handled in between. */
  lemma CompletedExchangeSpreads(
    c: Cluster, steps: seq<Step>, i: nat, h: string, r: string, digest: DigestMap, k: string, top: View)
    requires LwwInv(c) && ValidRun(c, steps) && Quiet(steps) && IsTop(ViewsOf(c.stores, k), top) && top.Some?
    requires h in c.stores && ViewOf(c.stores[h], k) == top
    requires Completed(c, steps, i, h, r, digest) && k in digest && ToStamp(digest[k]) == top.value
    ensures r in After(c, steps).stores && ViewOf(After(c, steps).stores[r], k) == top
  {
    StepAt(c, steps, i);
    QuietPrefix(c, steps, i, k, top, h);
    var now := After(c, steps[..i]);
    if ViewOf(now.stores[r], k) == top {
      HolderStays(c, steps, k, top, i, r);
    } else {
      LaggardAsks(now, h, r, digest, k, top);
      var j :| i < j && Answered(c, steps, j, h, r, DigestOf(now.stores[r]));
      AnsweredHolds(c, steps, k, top, j, h, r, now.stores[r]);
    }
  }

  lemma LaggardAsks(c: Cluster, h: string, r: string, digest: DigestMap, k: string, top: View)
    requires LwwInv(c) && Enabled(c, Handle(Envelope(h, r, Digest(digest)))) && IsTop(ViewsOf(c.stores, k), top)
    requires k in digest && Some(ToStamp(digest[k])) == top && ViewOf(c.stores[r], k) != top
    ensures Behind(c.stores[r], digest) && SoundStore(c.puts, c.stores[r]) && UpTo(ViewOf(c.stores[r], k), top)
  {
    assert UpTo(ViewsOf(c.stores, k)[r], top);
    HandledIsGenuine(c, Envelope(h, r, Digest(digest)), k);
    LaggardIsBehind(c.puts, c.stores[r], digest, k);
  }

  lemma HandledIsGenuine(c: Cluster, e: Envelope, k: string)
    requires Inv(c) && Enabled(c, Handle(e)) && e.message.Digest? && k in e.message.digest
    ensures GenuineDigest(c.puts, k, e.message.digest[k])
  {
    assert e in c.sent;
    assert GenuineMessage(c.puts, e.message);
  }

  /** All replicas but `h` complete an exchange in which `h` shows the newest write. */
  ghost predicate AllComplete(c: Cluster, steps: seq<Step>, h: string, k: string, top: View)
    requires ValidRun(c, steps)
  {
    forall r :: r in c.stores && r != h ==>
      exists i, digest ::
        Completed(c, steps, i, h, r, digest) && k in digest && Some(ToStamp(digest[k])) == top
  }

  /** Hence any run without Puts in which some holder completes an exchange with every other
      replica, in whatever interleaving, ends with all replicas agreeing on the key. */
  lemma QuietRunsConverge(c: Cluster, before: seq<Step>, steps: seq<Step>, h: string, k: string, top: View)
    requires Init(c) && ValidRun(c, before) && MonotonePuts(c, before)
    requires ValidRun(After(c, before), steps) && Quiet(steps)
    requires IsTop(ViewsOf(After(c, before).stores, k), top) && top.Some?
    requires h in After(c, before).stores && ViewOf(After(c, before).stores[h], k) == top
    requires AllComplete(After(c, before), steps, h, k, top)
    ensures AllAgree(After(After(c, before), steps).stores, k)
  {
    InitInv(c);
    RunKeepsLww(c, before);
    var now := After(c, before);
    QuietRun(now, steps, k, top);
    StoresStay(now, steps);
    var f := After(now, steps);
    forall r | r in f.stores ensures ViewOf(f.stores[r], k) == top {
      EveryoneHolds(now, steps, h, k, top, r);
    }
    EqualViewsAgree(f.puts, f.stores, k);
  }

  lemma EveryoneHolds(c: Cluster, steps: seq<Step>, h: string, k: string, top: View, r: string)
    requires LwwInv(c) && ValidRun(c, steps) && Quiet(steps) && IsTop(ViewsOf(c.stores, k), top) && top.Some?
    requires h in c.stores && ViewOf(c.stores[h], k) == top && AllComplete(c, steps, h, k, top) && r in c.stores
    ensures r in After(c, steps).stores && ViewOf(After(c, steps).stores[r], k) == top
  {
    if r == h {
      assert steps[..|steps|] == steps;
      QuietPrefix(c, steps, |steps|, k, top, h);
    } else {
      var i, digest :| Completed(c, steps, i, h, r, digest) && k in digest && Some(ToStamp(digest[k])) == top;
      CompletedExchangeSpreads(c, steps, i, h, r, digest, k, top);
    }
  }
}
