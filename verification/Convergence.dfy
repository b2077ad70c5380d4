/** Anti-entropy exchanges: what one of them achieves for the two replicas, and what any
    sequence of them achieves for the cluster once writing has stopped. */
module Convergence {
  import opened Options
  import opened GossipValues
  import opened GossipCluster
  import opened LastWriterWins
  import opened ViewGossip

  /** Store of the initiator after it handled the responder's STATE. */
  function InitiatorAfter(a: Store, b: Store): Store {
    ApplyState(a, StateFor(b, DigestOf(a)))
  }

  /** Store of the responder: it hears back only if it asked with a reverse DIGEST. */
  function ResponderAfter(a: Store, b: Store): Store {
    if Behind(b, DigestOf(a)) then ApplyState(b, StateFor(InitiatorAfter(a, b), DigestOf(b))) else b
  }

  function ViewOf(store: Store, k: string): View {
    if k in store then Some(StampOf(store[k])) else None
  }

  /******* One exchange *******/

  lemma ExchangeSound(h: History, a: Store, b: Store)
    requires SoundStore(h, a) && SoundStore(h, b)
    ensures SoundStore(h, InitiatorAfter(a, b)) && SoundStore(h, ResponderAfter(a, b))
  {
    assert SoundStore(h, StateFor(b, DigestOf(a)));
    ApplyStateSound(h, a, StateFor(b, DigestOf(a)));
    var a1 := InitiatorAfter(a, b);
    assert SoundStore(h, StateFor(a1, DigestOf(b)));
    ApplyStateSound(h, b, StateFor(a1, DigestOf(b)));
  }

  /** The two stores hold the same write of the key. */
  ghost predicate Agree(s: Store, t: Store, k: string) {
    k in s && k in t && SameWrite(s[k], t[k])
  }

  /** The initiator ends with the responder's write exactly where it accepts it. */
  lemma InitiatorSide(a: Store, b: Store, k: string)
    ensures k in b && Accepts(Find(a, k), b[k]) ==> Agree(InitiatorAfter(a, b), b, k)
    ensures k in a && !(k in b && Accepts(Find(a, k), b[k])) ==>
              k in InitiatorAfter(a, b) && InitiatorAfter(a, b)[k] == a[k]
    ensures k !in a && k !in b ==> k !in InitiatorAfter(a, b)
  {
    StateForIsExactlyWhatIsAccepted(a, b, k);
  }

  /** Where the responder is behind on a key it asks for it and receives it. */
  lemma ResponderCatchesUp(a: Store, b: Store, k: string)
    requires k in a && Accepts(Find(b, k), a[k])
    requires k in InitiatorAfter(a, b) && InitiatorAfter(a, b)[k] == a[k]
    ensures Agree(ResponderAfter(a, b), a, k)
  {
    if k in b {
      DigestFidelity(b[k], a[k]);
    }
    assert k in DigestOf(a) && Behind(b, DigestOf(a));
    StateForIsExactlyWhatIsAccepted(b, InitiatorAfter(a, b), k);
  }

  /** Where it is not behind, it keeps its write or receives the same one. */
  lemma ResponderKeeps(a: Store, b: Store, k: string)
    requires k in b && k in InitiatorAfter(a, b)
    requires Agree(InitiatorAfter(a, b), b, k) || !Accepts(Find(b, k), InitiatorAfter(a, b)[k])
    ensures Agree(ResponderAfter(a, b), b, k)
  {
    StateForIsExactlyWhatIsAccepted(b, InitiatorAfter(a, b), k);
  }

  lemma ResponderLacks(a: Store, b: Store, k: string)
    requires k !in a && k !in b
    ensures k !in ResponderAfter(a, b)
  {
    InitiatorSide(a, b, k);
  }

  /** Key held on both sides: the newer write wins on both, and on a tie, when nothing is
      sent, the writes are the same already. */
  lemma JoinBoth(h: History, a: Store, b: Store, k: string)
    requires Orderly(h) && k in a && k in b && Sound(h, k, a[k]) && Sound(h, k, b[k])
    ensures Agree(InitiatorAfter(a, b), ResponderAfter(a, b), k)
    ensures ViewOf(InitiatorAfter(a, b), k) == Newer(ViewOf(a, k), ViewOf(b, k))
  {
    InitiatorSide(a, b, k);
    ResolveOrdersStamps(h, k, a[k], b[k]);
    ResolveOrdersStamps(h, k, b[k], a[k]);
    UpToIsTotal(ViewOf(a, k), ViewOf(b, k), ViewOf(b, k));
    if Accepts(Find(a, k), b[k]) {
      ResponderKeeps(a, b, k);
    } else if Accepts(Find(b, k), a[k]) {
      ResponderCatchesUp(a, b, k);
    } else {
      DigestFidelity(b[k], a[k]);
      SameStampSameWrite(h, k, a[k], b[k]);
      ResponderKeeps(a, b, k);
    }
  }

  /** One undisturbed exchange leaves both replicas with the same write for every key
      either held, namely the newer of the two. */
  lemma PairwiseJoin(h: History, a: Store, b: Store, k: string)
    requires Orderly(h) && SoundStore(h, a) && SoundStore(h, b)
    ensures k in a || k in b ==> Agree(InitiatorAfter(a, b), ResponderAfter(a, b), k)
    ensures ViewOf(InitiatorAfter(a, b), k) == Newer(ViewOf(a, k), ViewOf(b, k))
    ensures ViewOf(ResponderAfter(a, b), k) == Newer(ViewOf(a, k), ViewOf(b, k))
  {
    InitiatorSide(a, b, k);
    if k in a && k in b {
      JoinBoth(h, a, b, k);
    } else if k in a {
      ResponderCatchesUp(a, b, k);
    } else if k in b {
      ResponderKeeps(a, b, k);
    } else {
      ResponderLacks(a, b, k);
    }
  }

  /******* The cluster *******/

  type Stores = map<string, Store>

  ghost predicate SoundStores(h: History, s: Stores) {
    forall n :: n in s ==> SoundStore(h, s[n])
  }

  function Exchange(s: Stores, a: string, b: string): (s': Stores)
    requires a in s && b in s
    ensures s'.Keys == s.Keys
  {
    s[a := InitiatorAfter(s[a], s[b])][b := ResponderAfter(s[a], s[b])]
  }

  ghost function ViewsOf(s: Stores, k: string): (r: Views)
    ensures r.Keys == s.Keys
  {
    map n | n in s :: ViewOf(s[n], k)
  }

  lemma ExchangeKeepsSound(h: History, s: Stores, a: string, b: string)
    requires SoundStores(h, s) && a in s && b in s && a != b
    ensures SoundStores(h, Exchange(s, a, b))
  {
    ExchangeSound(h, s[a], s[b]);
  }

  lemma ExchangePartners(h: History, s: Stores, a: string, b: string, k: string)
    requires Orderly(h) && SoundStores(h, s) && a in s && b in s && a != b
    ensures
      var before, after := ViewsOf(s, k), ViewsOf(Exchange(s, a, b), k);
      after[a] == Newer(before[a], before[b]) && after[b] == Newer(before[a], before[b])
  {
    PairwiseJoin(h, s[a], s[b], k);
  }

  /** The views after a meeting are determined node by node. */
  lemma MeetFrom(s: Views, t: Views, a: string, b: string)
    requires a in s && b in s && s.Keys == t.Keys
    requires t[a] == Newer(s[a], s[b]) && t[b] == Newer(s[a], s[b])
    requires forall n :: n in s && n != a && n != b ==> t[n] == s[n]
    ensures t == Meet(s, a, b)
  {
  }

  lemma OthersKeep(s: Stores, a: string, b: string, k: string)
    requires a in s && b in s
    ensures forall n :: n in s && n != a && n != b ==> ViewsOf(Exchange(s, a, b), k)[n] == ViewsOf(s, k)[n]
  {
  }

  lemma ExchangeMeets(h: History, s: Stores, a: string, b: string, k: string)
    requires Orderly(h) && SoundStores(h, s) && a in s && b in s && a != b
    ensures ViewsOf(Exchange(s, a, b), k) == Meet(ViewsOf(s, k), a, b)
  {
    ExchangePartners(h, s, a, b, k);
    OthersKeep(s, a, b, k);
    MeetFrom(ViewsOf(s, k), ViewsOf(Exchange(s, a, b), k), a, b);
  }

  lemma ExchangeIsMeet(h: History, s: Stores, a: string, b: string, k: string)
    requires Orderly(h) && SoundStores(h, s) && a in s && b in s && a != b
    ensures SoundStores(h, Exchange(s, a, b))
    ensures ViewsOf(Exchange(s, a, b), k) == Meet(ViewsOf(s, k), a, b)
  {
    ExchangeKeepsSound(h, s, a, b);
    ExchangeMeets(h, s, a, b, k);
  }

  ghost function ExchangeAll(s: Stores, schedule: Schedule): (r: Stores)
    requires ValidSchedule(s.Keys, schedule)
    ensures r.Keys == s.Keys
    decreases |schedule|
  {
    if schedule == [] then s else ExchangeAll(Exchange(s, schedule[0].0, schedule[0].1), schedule[1..])
  }

  lemma {:induction false} ExchangeAllIsMeetAll(h: History, s: Stores, schedule: Schedule, k: string)
    requires Orderly(h) && SoundStores(h, s) && ValidSchedule(s.Keys, schedule)
    ensures SoundStores(h, ExchangeAll(s, schedule))
    ensures ViewsOf(ExchangeAll(s, schedule), k) == MeetAll(ViewsOf(s, k), schedule)
    decreases |schedule|
  {
    if schedule != [] {
      ExchangeIsMeet(h, s, schedule[0].0, schedule[0].1, k);
      ExchangeAllIsMeetAll(h, Exchange(s, schedule[0].0, schedule[0].1), schedule[1..], k);
    }
  }

  /** All replicas hold the same data, version, origin and timestamp for the key, or none
      holds the key. */
  ghost predicate AllAgree(s: Stores, k: string) {
    forall n, m :: n in s && m in s && k in s[n] ==> Agree(s[n], s[m], k)
  }

  lemma SameViewsAgree(h: History, s: Stores, k: string)
    requires Orderly(h) && SoundStores(h, s)
    ensures AllAgree(s, k) <==> forall n, m :: n in s && m in s ==> ViewOf(s[n], k) == ViewOf(s[m], k)
  {
    if forall n, m :: n in s && m in s ==> ViewOf(s[n], k) == ViewOf(s[m], k) {
      forall n, m | n in s && m in s && k in s[n] ensures Agree(s[n], s[m], k) {
        assert ViewOf(s[n], k) == ViewOf(s[m], k);
        assert SoundStore(h, s[n]) && SoundStore(h, s[m]);
        SameStampSameWrite(h, k, s[n][k], s[m][k]);
      }
    }
    if AllAgree(s, k) {
      forall n, m | n in s && m in s ensures ViewOf(s[n], k) == ViewOf(s[m], k) {
        if k in s[n] {
          assert Agree(s[n], s[m], k);
        } else if k in s[m] {
          assert Agree(s[m], s[n], k);
        }
      }
    }
  }

  /** Nobody lags exactly when all replicas agree. */
  lemma NoLaggardsMeansAgreement(h: History, s: Stores, k: string, top: View)
    requires Orderly(h) && SoundStores(h, s) && IsTop(ViewsOf(s, k), top)
    ensures |Lagging(ViewsOf(s, k), top)| == 0 <==> AllAgree(s, k)
  {
    SameViewsAgree(h, s, k);
    var views := ViewsOf(s, k);
    var w :| w in views && views[w] == top;
    if Lagging(views, top) == {} {
      forall n | n in s ensures ViewOf(s[n], k) == top {
        assert n !in Lagging(views, top);
      }
    } else {
      var n :| n in Lagging(views, top);
      assert ViewOf(s[n], k) != ViewOf(s[w], k);
    }
  }

  /** Over any schedule of exchanges with no further Puts: laggards left plus productive
      exchanges made equals the laggards there were.  So the measure never grows, drops by
      one at each exchange between a holder and a non-holder, and all replicas agree exactly
      when as many such exchanges have been made as there were laggards. */
  lemma ConvergenceAccounting(h: History, s: Stores, schedule: Schedule, k: string, top: View)
    requires Orderly(h) && SoundStores(h, s) && ValidSchedule(s.Keys, schedule) && IsTop(ViewsOf(s, k), top)
    ensures
      var before, after := Lagging(ViewsOf(s, k), top), Lagging(ViewsOf(ExchangeAll(s, schedule), k), top);
      var made := ProductiveCount(ViewsOf(s, k), schedule, top);
      && |after| + made == |before|
      && (AllAgree(ExchangeAll(s, schedule), k) <==> made == |before|)
  {
    ExchangeAllIsMeetAll(h, s, schedule, k);
    Accounting(ViewsOf(s, k), schedule, top);
    NoLaggardsMeansAgreement(h, ExchangeAll(s, schedule), k, top);
  }

  /** Two schedules one after the other. */
  lemma ExchangeTwice(h: History, s: Stores, p: Schedule, q: Schedule, k: string)
    requires Orderly(h) && SoundStores(h, s) && ValidSchedule(s.Keys, p) && ValidSchedule(s.Keys, q)
    ensures SoundStores(h, ExchangeAll(ExchangeAll(s, p), q))
    ensures ViewsOf(ExchangeAll(ExchangeAll(s, p), q), k) == MeetAll(MeetAll(ViewsOf(s, k), p), q)
  {
    ExchangeAllIsMeetAll(h, s, p, k);
    ExchangeAllIsMeetAll(h, ExchangeAll(s, p), q, k);
  }

  ghost predicate AllEqual(views: Views) {
    forall n, m :: n in views && m in views ==> views[n] == views[m]
  }

  lemma EqualViewsAgree(h: History, s: Stores, k: string)
    requires Orderly(h) && SoundStores(h, s) && AllEqual(ViewsOf(s, k))
    ensures AllAgree(s, k)
  {
    forall n, m | n in s && m in s ensures ViewOf(s[n], k) == ViewOf(s[m], k) {
      assert ViewsOf(s, k)[n] == ViewsOf(s, k)[m];
    }
    SameViewsAgree(h, s, k);
  }

  lemma AgreeAfterTwo(h: History, s: Stores, p: Schedule, k: string)
    requires Orderly(h) && SoundStores(h, s) && ValidSchedule(s.Keys, p)
    requires AllEqual(MeetAll(MeetAll(ViewsOf(s, k), p), p))
    ensures AllAgree(ExchangeAll(ExchangeAll(s, p), p), k)
  {
    ExchangeTwice(h, s, p, p, k);
    EqualViewsAgree(h, ExchangeAll(ExchangeAll(s, p), p), k);
  }

  /** Two sweeps of any hub over the other nodes bring every key to agreement. */
  lemma TwoSweepsConverge(h: History, s: Stores, hub: string, others: seq<string>, sweep: Schedule, k: string)
    requires Orderly(h) && SoundStores(h, s) && hub in s
    requires forall m :: m in others ==> m in s && m != hub
    requires forall n :: n in s ==> n == hub || n in others
    requires sweep == Sweep(hub, others)
    ensures ValidSchedule(s.Keys, sweep)
    ensures AllAgree(ExchangeAll(ExchangeAll(s, sweep), sweep), k)
  {
    TwoSweepsAgree(ViewsOf(s, k), hub, others);
    AgreeAfterTwo(h, s, sweep, k);
  }

  /** The stores of every reachable cluster with monotone Puts meet the hypotheses above. */
  lemma ReachableIsSound(c: Cluster, steps: seq<Step>)
    requires Init(c) && ValidRun(c, steps) && MonotonePuts(c, steps)
    ensures Orderly(After(c, steps).puts) && SoundStores(After(c, steps).puts, After(c, steps).stores)
  {
    InitInv(c);
    RunKeepsLww(c, steps);
  }
}
