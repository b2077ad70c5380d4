/** Values, vector clocks and the conflict order of the gossip store, together
    with the pure part of the two message handlers. */
module GossipValues {
  import opened Options
  import opened Ordering

  /******* Vector clocks *******/

  type Clock = map<string, nat>

  /** A missing entry reads as zero, as indexing a Go map does. */
  function At(c: Clock, node: string): nat {
    if node in c then c[node] else 0
  }

  /** `c` has seen everything that `d` has seen. */
  ghost predicate Dominates(c: Clock, d: Clock) {
    forall n :: At(d, n) <= At(c, n)
  }

  ghost predicate SameClock(c: Clock, d: Clock) {
    forall n :: At(c, n) == At(d, n)
  }

  predicate SomewhereGreater(c: Clock, d: Clock)
    ensures SomewhereGreater(c, d) <==> !Dominates(d, c)
  {
    var r := exists n :: n in c && At(c, n) > At(d, n);
    assert forall n :: At(c, n) > At(d, n) ==> n in c;
    r
  }

  /** 1 when `c` is causally after `d`, -1 when it is before, 0 when the two are
      equal or concurrent. */
  function CompareClocks(c: Clock, d: Clock): (r: int)
    ensures r == 1 <==> Dominates(c, d) && !Dominates(d, c)
    ensures r == -1 <==> Dominates(d, c) && !Dominates(c, d)
    ensures r == 0 <==> (Dominates(c, d) <==> Dominates(d, c))
  {
    if SomewhereGreater(c, d) && !SomewhereGreater(d, c) then 1
    else if SomewhereGreater(d, c) && !SomewhereGreater(c, d) then -1
    else 0
  }

  /** Pointwise maximum.  Entries of `c` are copied; an entry of `d` is written
      only where it exceeds what is there, so a zero never creates a new key. */
  function Merge(c: Clock, d: Clock): (r: Clock)
    ensures forall n :: At(r, n) == if At(c, n) < At(d, n) then At(d, n) else At(c, n)
  {
    map n | n in c.Keys + d.Keys && (n in c || d[n] > 0) ::
      if At(c, n) < At(d, n) then At(d, n) else At(c, n)
  }

  function Bump(c: Clock, node: string): (r: Clock)
    ensures forall n :: At(r, n) == At(c, n) + (if n == node then 1 else 0)
  {
    c[node := At(c, node) + 1]
  }

  /******* Stored values and their stamps *******/

  datatype Value = Value(data: string, version: int, origin: string, timestamp: int, clock: Clock)

  datatype DigestEntry = DigestEntry(version: int, origin: string, timestamp: int, clock: Clock)

  type Store = map<string, Value>
  type DigestMap = map<string, DigestEntry>

  /** What decides between two values once their clocks do not. */
  datatype Stamp = Stamp(timestamp: int, origin: string, version: int)

  function StampOf(v: Value): Stamp {
    Stamp(v.timestamp, v.origin, v.version)
  }

  predicate Older(a: Stamp, b: Stamp) {
    || a.timestamp < b.timestamp
    || (a.timestamp == b.timestamp && Less(a.origin, b.origin))
    || (a.timestamp == b.timestamp && a.origin == b.origin && a.version < b.version)
  }

  /** `Older` is a strict total order. */
  lemma OlderIsTotal(a: Stamp, b: Stamp)
    ensures !Older(a, a)
    ensures Older(a, b) ==> !Older(b, a)
    ensures Older(a, b) || a == b || Older(b, a)
  {
    LessIrreflexive(a.origin);
    LessTotal(a.origin, b.origin);
    if Less(a.origin, b.origin) {
      LessAsymmetric(a.origin, b.origin);
    }
  }

  /** Timestamps decide first, then origins in dictionary order, then versions. */
  lemma OlderMeans(a: Stamp, b: Stamp)
    ensures Older(a, b) <==>
              || a.timestamp < b.timestamp
              || (a.timestamp == b.timestamp && LexBefore(a.origin, b.origin))
              || (a.timestamp == b.timestamp && a.origin == b.origin && a.version < b.version)
  {
    LessIsLexicographic(a.origin, b.origin);
  }

  lemma OlderTransitive(a: Stamp, b: Stamp, c: Stamp)
    requires Older(a, b) && Older(b, c)
    ensures Older(a, c)
  {
    if Less(a.origin, b.origin) && Less(b.origin, c.origin) {
      LessTransitive(a.origin, b.origin, c.origin);
    }
  }

  predicate AtMost(a: Stamp, b: Stamp) {
    a == b || Older(a, b)
  }

  lemma AtMostTransitive(a: Stamp, b: Stamp, c: Stamp)
    requires AtMost(a, b) && AtMost(b, c)
    ensures AtMost(a, c)
    ensures Older(a, b) || Older(b, c) ==> Older(a, c)
  {
    if Older(a, b) && Older(b, c) {
      OlderTransitive(a, b, c);
    }
  }

  /** The two values record one and the same write (their clocks may differ). */
  predicate SameWrite(v: Value, w: Value) {
    v.data == w.data && StampOf(v) == StampOf(w)
  }

  /******* Conflict resolution *******/

  predicate IsIncomingNewer(local: Value, incoming: Value) {
    var cmp := CompareClocks(local.clock, incoming.clock);
    if cmp > 0 then false
    else if cmp < 0 then true
    else if incoming.timestamp > local.timestamp then true
    else if incoming.timestamp < local.timestamp then false
    else if Less(local.origin, incoming.origin) then true
    else if Less(incoming.origin, local.origin) then false
    else incoming.version > local.version
  }

  /** Causality decides first; otherwise the incoming value must carry the newer stamp. */
  lemma NewerMeans(local: Value, incoming: Value)
    ensures IsIncomingNewer(local, incoming) <==>
              || (Dominates(incoming.clock, local.clock) && !Dominates(local.clock, incoming.clock))
              || (&& (Dominates(incoming.clock, local.clock) <==> Dominates(local.clock, incoming.clock))
                  && Older(StampOf(local), StampOf(incoming)))
  {
    LessTotal(local.origin, incoming.origin);
    LessIrreflexive(local.origin);
    if Less(local.origin, incoming.origin) {
      LessAsymmetric(local.origin, incoming.origin);
    }
    if Less(incoming.origin, local.origin) {
      LessAsymmetric(incoming.origin, local.origin);
    }
  }

  function Find(store: Store, key: string): Option<Value> {
    if key in store then Some(store[key]) else None
  }

  function ClockOf(entry: Option<Value>): Clock {
    if entry.Some? then entry.value.clock else map[]
  }

  predicate Accepts(local: Option<Value>, incoming: Value) {
    local.None? || IsIncomingNewer(local.value, incoming)
  }

  /** What the store holds for a key after an incoming value has been handled. */
  function Resolve(local: Option<Value>, incoming: Value): Value {
    if Accepts(local, incoming)
    then incoming.(clock := Merge(ClockOf(local), incoming.clock))
    else local.value
  }

  /** handleState: every key of the message is resolved on its own. */
  function ApplyState(store: Store, state: Store): (r: Store)
    ensures r.Keys == store.Keys + state.Keys
  {
    map k | k in store.Keys + state.Keys ::
      if k in state then Resolve(Find(store, k), state[k]) else store[k]
  }

  /******* Digests *******/

  function ToDigest(v: Value): DigestEntry {
    DigestEntry(v.version, v.origin, v.timestamp, v.clock)
  }

  function DigestOf(store: Store): DigestMap {
    map k | k in store :: ToDigest(store[k])
  }

  function CompareToDigest(local: Value, remote: DigestEntry): int {
    var cmp := CompareClocks(local.clock, remote.clock);
    if cmp != 0 then cmp
    else if local.timestamp > remote.timestamp then 1
    else if local.timestamp < remote.timestamp then -1
    else if Less(remote.origin, local.origin) then 1
    else if Less(local.origin, remote.origin) then -1
    else if local.version > remote.version then 1
    else if local.version < remote.version then -1
    else 0
  }

  /** Comparing against a digest entry gives the verdict the full value would get,
      in both directions. */
  lemma DigestFidelity(local: Value, v: Value)
    ensures CompareToDigest(local, ToDigest(v)) < 0 <==> IsIncomingNewer(local, v)
    ensures CompareToDigest(local, ToDigest(v)) > 0 <==> IsIncomingNewer(v, local)
    ensures CompareToDigest(local, ToDigest(v)) == 0 ==> StampOf(local) == StampOf(v)
  {
    LessTotal(local.origin, v.origin);
    LessIrreflexive(local.origin);
    if Less(local.origin, v.origin) {
      LessAsymmetric(local.origin, v.origin);
    }
    if Less(v.origin, local.origin) {
      LessAsymmetric(v.origin, local.origin);
    }
  }

  /** The STATE part of handleDigest's answer: keys the digest lacks or is behind on. */
  function StateFor(store: Store, digest: DigestMap): Store {
    map k | k in store && (k !in digest || CompareToDigest(store[k], digest[k]) > 0) :: store[k]
  }

  /** Whether handleDigest asks back with a digest of its own. */
  predicate Behind(store: Store, digest: DigestMap) {
    exists k :: k in digest && (k !in store || CompareToDigest(store[k], digest[k]) < 0)
  }

  datatype Message = Digest(digest: DigestMap) | State(state: Store)

  /** handleDigest: at most one STATE, then at most one reverse DIGEST. */
  function DigestReplies(store: Store, digest: DigestMap): seq<Message> {
    (if StateFor(store, digest) != map[] then [State(StateFor(store, digest))] else []) +
    (if Behind(store, digest) then [Digest(DigestOf(store))] else [])
  }

  /** The STATE built for a digest holds exactly the keys whose value the unchanged
      digest sender accepts, and applying it installs every one of them. */
  lemma StateForIsExactlyWhatIsAccepted(sender: Store, responder: Store, k: string)
    ensures k in StateFor(responder, DigestOf(sender)) <==>
              k in responder && Accepts(Find(sender, k), responder[k])
    ensures k in StateFor(responder, DigestOf(sender)) ==>
              && StateFor(responder, DigestOf(sender))[k] == responder[k]
              && SameWrite(ApplyState(sender, StateFor(responder, DigestOf(sender)))[k], responder[k])
    ensures k in sender && k !in StateFor(responder, DigestOf(sender)) ==>
              ApplyState(sender, StateFor(responder, DigestOf(sender)))[k] == sender[k]
  {
    if k in responder && k in sender {
      DigestFidelity(responder[k], sender[k]);
    }
  }

  /** After applying the STATE that came with a reverse DIGEST a node is not behind
      that DIGEST, whatever the timestamps: so it never answers it with a DIGEST. */
  lemma NotBehindAfterState(sender: Store, responder: Store)
    ensures !Behind(ApplyState(sender, StateFor(responder, DigestOf(sender))), DigestOf(responder))
  {
    var after := ApplyState(sender, StateFor(responder, DigestOf(sender)));
    forall k | k in responder
      ensures k in after && CompareToDigest(after[k], ToDigest(responder[k])) >= 0
    {
      StateForIsExactlyWhatIsAccepted(sender, responder, k);
      DigestFidelity(after[k], responder[k]);
      if k in StateFor(responder, DigestOf(sender)) {
        NewerMeans(after[k], responder[k]);
        OlderIsTotal(StampOf(after[k]), StampOf(responder[k]));
      }
    }
  }

  lemma RepliesBound(store: Store, digest: DigestMap)
    ensures |DigestReplies(store, digest)| <= 2
    ensures !Behind(store, digest) ==>
              |DigestReplies(store, digest)| <= 1 && forall m :: m in DigestReplies(store, digest) ==> m.State?
  {
  }

  /** What handling one message does to a store, and what it answers. */
  function HandleOne(store: Store, m: Message): (Store, seq<Message>) {
    match m
    case Digest(d) => (store, DigestReplies(store, d))
    case State(st) => (ApplyState(store, st), [])
  }

  /** Handling messages one at a time, in the order of the list, and all that is answered. */
  function HandleAll(store: Store, messages: seq<Message>): (Store, seq<Message>)
    decreases |messages|
  {
    if messages == [] then (store, [])
    else
      var one := HandleOne(store, messages[0]);
      var rest := HandleAll(one.0, messages[1..]);
      (rest.0, one.1 + rest.1)
  }

  lemma HandleFirst(store: Store, m: Message, rest: seq<Message>)
    ensures
      var one := HandleOne(store, m);
      HandleAll(store, [m] + rest) == (HandleAll(one.0, rest).0, one.1 + HandleAll(one.0, rest).1)
  {
    assert ([m] + rest)[0] == m && ([m] + rest)[1..] == rest;
  }

  lemma HandleSingle(store: Store, m: Message)
    ensures HandleAll(store, [m]) == HandleOne(store, m)
  {
    HandleFirst(store, m, []);
    assert [m] + [] == [m];
    assert HandleOne(store, m).1 + [] == HandleOne(store, m).1;
  }

  /** A STATE that comes first is applied before the rest is handled; without one, nothing is. */
  lemma StateComesFirst(store: Store, st: Store, rest: seq<Message>)
    ensures HandleAll(store, (if st != map[] then [State(st)] else []) + rest) == HandleAll(ApplyState(store, st), rest)
  {
    if st == map[] {
      assert ApplyState(store, st) == store && [] + rest == rest;
    } else {
      HandleFirst(store, State(st), rest);
      assert [] + HandleAll(ApplyState(store, st), rest).1 == HandleAll(ApplyState(store, st), rest).1;
    }
  }

  lemma DigestOrNothing(store: Store, d: DigestMap, asked: bool)
    ensures HandleAll(store, if asked then [Digest(d)] else []) ==
              (store, if asked then DigestReplies(store, d) else [])
  {
    HandleSingle(store, Digest(d));
  }

  /** What is left to do for the sender once the responder has answered its DIGEST. */
  lemma RepliesHandled(sender: Store, responder: Store)
    ensures
      var sender' := ApplyState(sender, StateFor(responder, DigestOf(sender)));
      HandleAll(sender, DigestReplies(responder, DigestOf(sender))) ==
        (sender', if Behind(responder, DigestOf(sender)) then DigestReplies(sender', DigestOf(responder)) else [])
  {
    var st, asked := StateFor(responder, DigestOf(sender)), Behind(responder, DigestOf(sender));
    StateComesFirst(sender, st, if asked then [Digest(DigestOf(responder))] else []);
    DigestOrNothing(ApplyState(sender, st), DigestOf(responder), asked);
  }

  lemma StatesUnanswered(store: Store, messages: seq<Message>)
    requires |messages| <= 1 && forall m :: m in messages ==> m.State?
    ensures HandleAll(store, messages).1 == []
  {
    if messages != [] {
      assert messages == [messages[0]] && messages[0] in messages;
      HandleSingle(store, messages[0]);
    }
  }

  /** An undisturbed exchange started by one DIGEST, with every message handled one at a time in
      the order it was sent: the responder's replies and the sender's answers to them are at
      most three messages, no DIGEST is among the answers, and the responder has nothing to
      answer them with. */
  lemma NoDigestPingPong(sender: Store, responder: Store)
    ensures
      var first := DigestReplies(responder, DigestOf(sender));
      var second := HandleAll(sender, first).1;
      && |first| + |second| <= 3
      && (forall m :: m in second ==> m.State?)
      && HandleAll(responder, second).1 == []
  {
    NotBehindAfterState(sender, responder);
    RepliesHandled(sender, responder);
    RepliesBound(responder, DigestOf(sender));
    RepliesBound(ApplyState(sender, StateFor(responder, DigestOf(sender))), DigestOf(responder));
    StatesUnanswered(responder, HandleAll(sender, DigestReplies(responder, DigestOf(sender))).1);
  }
}
