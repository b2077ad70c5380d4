/** Runs of the failure detector: incarnations stay zero everywhere, so status moves only by
    local timers and direct messages, and the timing of suspicion and death is exact. */
module FailureDetectorRuns {
  import opened FailureDetector

  /******* The cluster: incarnations *******/

  datatype World = World(members: map<string, Member>, sent: set<Envelope>)

  datatype WorldStep =
    | TickAt(node: string)
    | DeliverAt(node: string, envelope: Envelope)
    | SetPeersAt(node: string, peers: seq<string>)

  ghost predicate NoIncarnations(b: Member) {
    forall p :: p in b.incarnation ==> b.incarnation[p] == 0
  }

  ghost predicate Plain(payload: Payload) {
    payload.Membership? ==> payload.event.incarnation == 0
  }

  /** Every node has been started, with any peers, and nothing is in flight. */
  ghost predicate WorldInit(w: World) {
    w.sent == {} && forall n :: n in w.members ==> exists ps :: w.members[n] == StartState(PeersState(Fresh([]), ps), n)
  }

  predicate WorldEnabled(w: World, s: WorldStep) {
    s.node in w.members && (s.DeliverAt? ==> s.envelope in w.sent)
  }

  /** A sent envelope may be delivered to any node, any number of times: that includes every
      way a broadcast can be expanded. */
  ghost function WorldApply(w: World, s: WorldStep): World
    requires WorldEnabled(w, s)
  {
    var b := w.members[s.node];
    match s
    case TickAt(n) =>
      World(w.members[n := TickState(b)], w.sent + set e | e in TickSends(b))
    case DeliverAt(n, e) =>
      World(w.members[n := MessageState(b, e.from, e.payload)],
            w.sent + set x | x in MessageSends(b, e.from, e.payload))
    case SetPeersAt(n, ps) =>
      World(w.members[n := PeersState(b, ps)], w.sent)
  }

  ghost predicate ValidWorldRun(w: World, steps: seq<WorldStep>)
    decreases |steps|
  {
    steps == [] || (WorldEnabled(w, steps[0]) && ValidWorldRun(WorldApply(w, steps[0]), steps[1..]))
  }

  ghost function WorldAfter(w: World, steps: seq<WorldStep>): World
    requires ValidWorldRun(w, steps)
    decreases |steps|
  {
    if steps == [] then w else WorldAfter(WorldApply(w, steps[0]), steps[1..])
  }

  ghost predicate AllZero(w: World) {
    && (forall n :: n in w.members ==> NoIncarnations(w.members[n]))
    && (forall e :: e in w.sent ==> Plain(e.payload))
  }

  /** With zero incarnations a membership event is no more than a sign of life. */
  lemma EventIsOnlyASignOfLife(b: Member, from: string, payload: Payload)
    requires NoIncarnations(b) && Plain(payload)
    ensures MessageState(b, from, payload) == MessageState(b, from, Heartbeat)
    ensures MessageState(b, from, payload) == if from == b.id then b else Hear(b, from)
    ensures MessageSends(b, from, payload) == []
    ensures NoIncarnations(MessageState(b, from, payload))
  {
  }

  lemma {:induction false} EnrolKeepsZero(b: Member, ps: seq<string>)
    requires NoIncarnations(b)
    ensures NoIncarnations(Enrol(b, ps)) && NoIncarnations(ResetAll(b, ps))
    decreases |ps|
  {
    if ps != [] {
      EnrolKeepsZero(b, ps[..|ps|-1]);
    }
  }

  lemma {:induction false} TickIsPlain(b: Member, ps: seq<string>)
    requires NoIncarnations(b)
    ensures forall e :: e in Heartbeats(b, ps) + Announcements(b, ps) ==> Plain(e.payload)
    decreases |ps|
  {
    if ps != [] {
      TickIsPlain(b, ps[..|ps|-1]);
    }
  }

  lemma StepKeepsZero(w: World, s: WorldStep)
    requires AllZero(w) && WorldEnabled(w, s)
    ensures AllZero(WorldApply(w, s))
  {
    var b := w.members[s.node];
    match s
    case TickAt(n) =>
      ScanIsPerPeer(Advance(b), b.peers, n);
      TickIsPlain(b, b.peers);
      TickIsPlain(b, TickDeclares(b));
    case DeliverAt(n, e) =>
      EventIsOnlyASignOfLife(b, e.from, e.payload);
    case SetPeersAt(n, ps) =>
      EnrolKeepsZero(b.(peers := ps), ps);
  }

  /** In every run of the cluster all incarnation entries and all membership events in
      flight stay zero. */
  lemma {:induction false} IncarnationsStayZero(w: World, steps: seq<WorldStep>)
    requires AllZero(w) && ValidWorldRun(w, steps)
    ensures AllZero(WorldAfter(w, steps))
    decreases |steps|
  {
    if steps != [] {
      StepKeepsZero(w, steps[0]);
      IncarnationsStayZero(WorldApply(w, steps[0]), steps[1..]);
    }
  }

  lemma StartIsZero(ps: seq<string>, id: string)
    ensures NoIncarnations(StartState(PeersState(Fresh([]), ps), id))
  {
    EnrolKeepsZero(Fresh([]).(peers := ps), ps);
    var b := PeersState(Fresh([]), ps);
    EnrolKeepsZero(b.(id := id, tick := 0, status := b.status[id := Alive]), b.peers);
  }

  lemma InitIsZero(w: World)
    requires WorldInit(w)
    ensures AllZero(w)
  {
    forall m | m in w.members ensures NoIncarnations(w.members[m]) {
      var ps :| w.members[m] == StartState(PeersState(Fresh([]), ps), m);
      StartIsZero(ps, m);
    }
  }

  /** Hence in every reachable state delivering any envelope in flight does what a heartbeat
      from the same sender would do: no broadcast changes the receiver's status for the node
      it names, and none is answered. */
  lemma BroadcastsChangeNothing(w: World, steps: seq<WorldStep>, n: string, e: Envelope)
    requires WorldInit(w) && ValidWorldRun(w, steps)
    requires n in WorldAfter(w, steps).members && e in WorldAfter(w, steps).sent
    ensures
      var b := WorldAfter(w, steps).members[n];
      && MessageState(b, e.from, e.payload) == MessageState(b, e.from, Heartbeat)
      && MessageSends(b, e.from, e.payload) == []
      && forall q :: q != e.from ==> StatusOf(MessageState(b, e.from, e.payload), q) == StatusOf(b, q)
  {
    InitIsZero(w);
    IncarnationsStayZero(w, steps);
    OnlyTheSenderMoves(WorldAfter(w, steps).members[n], e.from, e.payload);
  }

  lemma OnlyTheSenderMoves(b: Member, from: string, payload: Payload)
    requires NoIncarnations(b) && Plain(payload)
    ensures MessageState(b, from, payload) == MessageState(b, from, Heartbeat)
    ensures MessageSends(b, from, payload) == []
    ensures forall q :: q != from ==> StatusOf(MessageState(b, from, payload), q) == StatusOf(b, q)
  {
    EventIsOnlyASignOfLife(b, from, payload);
  }

  /******* What messages and peer lists do *******/

  /** Any message marks its sender as heard of now and alive; a sender never seen before is added
      at the end of the peers, with incarnation zero.  Nothing else moves. */
  lemma HearMeans(b: Member, from: string, q: string)
    ensures var b' := Hear(b, from);
      && b'.id == b.id && b'.tick == b.tick && b'.suspectSince == b.suspectSince
      && b'.peers == (if from in b.lastSeen then b.peers else b.peers + [from])
      && from in b'.lastSeen && b'.lastSeen[from] == b.tick && StatusOf(b', from) == Alive
      && (q != from ==> Count(b'.lastSeen, q) == Count(b.lastSeen, q) && StatusOf(b', q) == StatusOf(b, q))
      && (q != from ==> (q in b'.lastSeen <==> q in b.lastSeen))
      && Count(b'.incarnation, q) == if q == from && from !in b.lastSeen then 0 else Count(b.incarnation, q)
  {
  }

  /** SetPeers replaces the list; peers never seen before are entered as seen at tick 0 and alive. */
  lemma PeersMean(b: Member, ps: seq<string>, q: string)
    ensures var b' := PeersState(b, ps);
      && b'.peers == ps && b'.id == b.id && b'.tick == b.tick && b'.suspectSince == b.suspectSince
      && (q in b'.lastSeen <==> q in b.lastSeen || q in ps)
      && Seen(b', q) == Seen(b, q)
      && StatusOf(b', q) == (if q in ps && q !in b.lastSeen then Alive else StatusOf(b, q))
  {
    EnrolMoves(b.(peers := ps), ps, q);
  }

  /** A membership event counts only with an incarnation above the known one: then the named node's
      status and incarnation are adopted, unless it is this node declared dead, which answers with
      a broadcast that it is alive in its next incarnation. */
  lemma EventMeans(b: Member, from: string, ev: MembershipEvent, q: string)
    requires from != b.id
    ensures
      var h, b' := Hear(b, from), MessageState(b, from, Membership(ev));
      var sends := MessageSends(b, from, Membership(ev));
      var known := Count(h.incarnation, ev.node);
      && b'.tick == h.tick && b'.peers == h.peers && b'.lastSeen == h.lastSeen && b'.suspectSince == h.suspectSince
      && (ev.incarnation <= known ==> b' == h && sends == [])
      && (q != ev.node ==> StatusOf(b', q) == StatusOf(h, q) && Count(b'.incarnation, q) == Count(h.incarnation, q))
      && (ev.incarnation > known && !(ev.node == b.id && ev.status == Dead) ==>
            StatusOf(b', ev.node) == ev.status && Count(b'.incarnation, ev.node) == ev.incarnation && sends == [])
      && (ev.incarnation > known && ev.node == b.id && ev.status == Dead ==>
            && StatusOf(b', b.id) == Alive && Count(b'.incarnation, b.id) == known + 1
            && sends == [Envelope(b.id, "", Membership(MembershipEvent(b.id, Alive, known + 1)))])
  {
    HearMeans(b, from, q);
  }

  /** A node ignores what carries its own id as sender. */
  lemma OwnMessagesIgnored(b: Member, payload: Payload)
    ensures MessageState(b, b.id, payload) == b && MessageSends(b, b.id, payload) == []
  {
  }

  /******* One node: timing *******/

  datatype Event = Tick | Message(from: string, payload: Payload) | SetPeers(peers: seq<string>)

  ghost predicate PlainEvent(e: Event) {
    e.Message? ==> Plain(e.payload)
  }

  function Step(b: Member, e: Event): Member {
    match e
    case Tick => TickState(b)
    case Message(from, payload) => MessageState(b, from, payload)
    case SetPeers(ps) => PeersState(b, ps)
  }

  /** How many DEAD broadcasts about `p` the event causes. */
  function DeadCasts(b: Member, e: Event, p: string): nat {
    if e.Tick? then multiset(TickDeclares(b))[p] else 0
  }

  function Run(b: Member, events: seq<Event>): Member
    decreases |events|
  {
    if events == [] then b else Run(Step(b, events[0]), events[1..])
  }

  function DeadCastsIn(b: Member, events: seq<Event>, p: string): nat
    decreases |events|
  {
    if events == [] then 0 else DeadCasts(b, events[0], p) + DeadCastsIn(Step(b, events[0]), events[1..], p)
  }

  function Ticks(events: seq<Event>): nat {
    if events == [] then 0 else (if events[0].Tick? then 1 else 0) + Ticks(events[1..])
  }

  ghost predicate AllPlain(events: seq<Event>) {
    forall e :: e in events ==> PlainEvent(e)
  }

  function Seen(b: Member, p: string): nat {
    Count(b.lastSeen, p)
  }

  function Since(b: Member, p: string): nat {
    Count(b.suspectSince, p)
  }

  /** What every event keeps: peers have an entry, no timer lies in the future (so no unsigned
      subtraction underflows), and suspicion began after a full timeout of silence. */
  ghost predicate Regular(b: Member) {
    && NoIncarnations(b)
    && (forall p :: p in b.peers ==> p in b.lastSeen)
    && (forall p :: Seen(b, p) <= b.tick && Since(b, p) <= b.tick)
    && (forall p :: StatusOf(b, p) == Suspect ==> Since(b, p) > Seen(b, p) + TIMEOUT_TICKS)
  }

  lemma NoUnderflow(b: Member, p: string)
    requires Regular(b)
    ensures Minus(b.tick + 1, Seen(b, p)) == b.tick + 1 - Seen(b, p)
    ensures Minus(b.tick + 1, Since(b, p)) == b.tick + 1 - Since(b, p)
  {
    assert Seen(b, p) <= b.tick && Since(b, p) <= b.tick;
  }

  /** Effect of a tick on one peer. */
  lemma TickMoves(b: Member, p: string)
    requires Regular(b)
    ensures var b' := TickState(b);
      && SameButStatus(Advance(b), b')
      && (p !in b.peers ==>
            StatusOf(b', p) == StatusOf(b, p) && Since(b', p) == Since(b, p) && DeadCasts(b, Tick, p) == 0)
      && (p in b.peers ==>
            match StatusOf(b, p)
            case Alive =>
              && DeadCasts(b, Tick, p) == 0
              && (if b.tick + 1 - Seen(b, p) > TIMEOUT_TICKS
                  then StatusOf(b', p) == Suspect && Since(b', p) == b.tick + 1
                  else StatusOf(b', p) == Alive && Since(b', p) == Since(b, p))
            case Suspect =>
              && Since(b', p) == Since(b, p)
              && (if b.tick + 1 - Since(b, p) > TIMEOUT_TICKS then StatusOf(b', p) == Dead && DeadCasts(b, Tick, p) == 1
                  else StatusOf(b', p) == Suspect && DeadCasts(b, Tick, p) == 0)
            case Dead =>
              StatusOf(b', p) == Dead && Since(b', p) == Since(b, p) && DeadCasts(b, Tick, p) == 0)
  {
    NoUnderflow(b, p);
    ScanIsPerPeer(Advance(b), b.peers, p);
  }

  /** SetPeers only adds entries for peers it has never seen. */
  lemma {:induction false} EnrolMoves(b: Member, ps: seq<string>, p: string)
    ensures var b' := Enrol(b, ps);
      && b'.tick == b.tick && b'.id == b.id && b'.peers == b.peers && b'.suspectSince == b.suspectSince
      && (p in b'.lastSeen <==> p in b.lastSeen || p in ps)
      && Seen(b', p) == Seen(b, p)
      && (p in b.lastSeen || p !in ps ==> StatusOf(b', p) == StatusOf(b, p))
      && (p !in b.lastSeen && p in ps ==> StatusOf(b', p) == Alive)
    decreases |ps|
  {
    if ps != [] {
      assert ps == ps[..|ps|-1] + [ps[|ps|-1]];
      EnrolMoves(b, ps[..|ps|-1], p);
      EnrolMoves(b, ps[..|ps|-1], ps[|ps|-1]);
    }
  }

  lemma StepKeepsRegular(b: Member, e: Event)
    requires Regular(b) && PlainEvent(e)
    ensures Regular(Step(b, e))
  {
    var b' := Step(b, e);
    match e
    case Tick =>
      TickMoves(b, b.id);
      forall p
        ensures Seen(b', p) <= b'.tick && Since(b', p) <= b'.tick
        ensures StatusOf(b', p) == Suspect ==> Since(b', p) > Seen(b', p) + TIMEOUT_TICKS
      {
        TickMoves(b, p);
        assert Seen(b, p) <= b.tick && Since(b, p) <= b.tick;
      }
    case Message(from, payload) =>
      EventIsOnlyASignOfLife(b, from, payload);
      forall p
        ensures Seen(b', p) <= b'.tick && Since(b', p) <= b'.tick
        ensures StatusOf(b', p) == Suspect ==> Since(b', p) > Seen(b', p) + TIMEOUT_TICKS
      {
        assert Seen(b, p) <= b.tick && Since(b, p) <= b.tick;
      }
    case SetPeers(ps) =>
      EnrolKeepsZero(b.(peers := ps), ps);
      forall p
        ensures p in b'.peers ==> p in b'.lastSeen
        ensures Seen(b', p) <= b'.tick && Since(b', p) <= b'.tick
        ensures StatusOf(b', p) == Suspect ==> Since(b', p) > Seen(b', p) + TIMEOUT_TICKS
      {
        EnrolMoves(b.(peers := ps), ps, p);
        assert Seen(b, p) <= b.tick && Since(b, p) <= b.tick;
      }
  }

  lemma {:induction false} ResetMoves(b: Member, ps: seq<string>, p: string)
    ensures var b' := ResetAll(b, ps);
      && b'.tick == b.tick && b'.id == b.id && b'.peers == b.peers && b'.suspectSince == b.suspectSince
      && (p in b'.lastSeen <==> p in b.lastSeen || p in ps)
      && Seen(b', p) == (if p in ps then 0 else Seen(b, p))
      && StatusOf(b', p) == (if p in ps then Alive else StatusOf(b, p))
      && Count(b'.incarnation, p) == (if p in ps then 0 else Count(b.incarnation, p))
    decreases |ps|
  {
    if ps != [] {
      assert ps == ps[..|ps|-1] + [ps[|ps|-1]];
      ResetMoves(b, ps[..|ps|-1], p);
    }
  }

  /** Start puts the clock to zero and enters every listed peer as seen at tick 0 and alive. */
  lemma StartMeans(b: Member, id: string, p: string)
    ensures var f := StartState(b, id);
      && f.id == id && f.tick == 0 && f.peers == b.peers && f.suspectSince == b.suspectSince
      && (p in f.lastSeen <==> p in b.lastSeen || p in b.peers)
      && Seen(f, p) == (if p in b.peers then 0 else Seen(b, p))
      && StatusOf(f, p) == (if p in b.peers || p == id then Alive else StatusOf(b, p))
      && Count(f.incarnation, p) == (if p in b.peers || p == id then 0 else Count(b.incarnation, p))
  {
    ResetMoves(b.(id := id, tick := 0, status := b.status[id := Alive]), b.peers, p);
  }

  lemma StartIsRegular(ps: seq<string>, id: string)
    ensures Regular(StartState(PeersState(Fresh([]), ps), id))
  {
    var b := PeersState(Fresh([]), ps);
    var b1 := b.(id := id, tick := 0, status := b.status[id := Alive]);
    StartIsZero(ps, id);
    forall p
      ensures var f := StartState(b, id);
        && (p in f.peers ==> p in f.lastSeen)
        && Seen(f, p) == 0 && Since(f, p) == 0 && StatusOf(f, p) == Alive && f.tick == 0
    {
      EnrolMoves(Fresh([]).(peers := ps), ps, p);
      ResetMoves(b1, b.peers, p);
    }
  }

  /** Every node of every run is regular: the timing results below apply to it. */
  lemma {:induction false} RunsAreRegular(w: World, steps: seq<WorldStep>)
    requires AllZero(w) && ValidWorldRun(w, steps) && forall n :: n in w.members ==> Regular(w.members[n])
    ensures forall n :: n in WorldAfter(w, steps).members ==> Regular(WorldAfter(w, steps).members[n])
    decreases |steps|
  {
    if steps != [] {
      var s := steps[0];
      StepKeepsZero(w, s);
      match s {
        case TickAt(n) => StepKeepsRegular(w.members[n], Tick);
        case DeliverAt(n, e) => StepKeepsRegular(w.members[n], Message(e.from, e.payload));
        case SetPeersAt(n, ps) => StepKeepsRegular(w.members[n], SetPeers(ps));
      }
      RunsAreRegular(WorldApply(w, s), steps[1..]);
    }
  }

  lemma ReachableIsRegular(w: World, steps: seq<WorldStep>, n: string)
    requires WorldInit(w) && ValidWorldRun(w, steps) && n in WorldAfter(w, steps).members
    ensures Regular(WorldAfter(w, steps).members[n])
  {
    forall m | m in w.members ensures Regular(w.members[m]) {
      var ps :| w.members[m] == StartState(PeersState(Fresh([]), ps), m);
      StartIsRegular(ps, m);
    }
    RunsAreRegular(w, steps);
  }

  /** The shape of a peer's entry after `b.tick - Seen` ticks of silence. */
  ghost predicate SilentShape(b: Member, p: string) {
    var d := b.tick - Seen(b, p);
    if d <= TIMEOUT_TICKS then StatusOf(b, p) == Alive
    else if d <= 2 * TIMEOUT_TICKS + 1 then StatusOf(b, p) == Suspect && Since(b, p) == Seen(b, p) + TIMEOUT_TICKS + 1
    else StatusOf(b, p) == Dead
  }

  /** `p` stays listed at every tick and sends nothing. */
  ghost predicate SilentButListed(b: Member, events: seq<Event>, p: string)
    decreases |events|
  {
    events == [] ||
    (&& PlainEvent(events[0])
     && (events[0].Tick? ==> p in b.peers)
     && (events[0].Message? ==> events[0].from != p)
     && SilentButListed(Step(b, events[0]), events[1..], p))
  }

  lemma SilentStep(b: Member, e: Event, p: string)
    requires Regular(b) && p in b.lastSeen && SilentShape(b, p) && PlainEvent(e)
    requires (e.Tick? ==> p in b.peers) && (e.Message? ==> e.from != p)
    ensures var b' := Step(b, e);
      && p in b'.lastSeen && SilentShape(b', p) && Seen(b', p) == Seen(b, p)
      && b'.tick == b.tick + (if e.Tick? then 1 else 0)
      && DeadCasts(b, e, p) == (if b'.tick == Seen(b, p) + 42 && e.Tick? then 1 else 0)
  {
    assert Seen(b, p) <= b.tick;
    match e
    case Tick => TickMoves(b, p);
    case Message(from, payload) => EventIsOnlyASignOfLife(b, from, payload);
    case SetPeers(ps) => EnrolMoves(b.(peers := ps), ps, p);
  }

  /** From a peer's last message on: it stays Alive through 20 ticks of silence, is Suspect
      from the 21st to the 41st and Dead from the 42nd, and the DEAD broadcast goes out once,
      at the 42nd. */
  lemma {:induction false} SilenceTiming(b: Member, events: seq<Event>, p: string)
    requires Regular(b) && p in b.lastSeen && SilentShape(b, p) && SilentButListed(b, events, p)
    ensures
      var f := Run(b, events);
      && Regular(f) && SilentShape(f, p) && Seen(f, p) == Seen(b, p) && f.tick == b.tick + Ticks(events)
      && DeadCastsIn(b, events, p) == if b.tick < Seen(b, p) + 42 <= f.tick then 1 else 0
    decreases |events|
  {
    if events != [] {
      SilentStep(b, events[0], p);
      StepKeepsRegular(b, events[0]);
      SilenceTiming(Step(b, events[0]), events[1..], p);
    }
  }

  /** Read off directly from the message: status after `n` ticks of silence. */
  lemma ExactTiming(b: Member, from: string, payload: Payload, events: seq<Event>)
    requires Regular(b) && Plain(payload) && from != b.id
    requires SilentButListed(MessageState(b, from, payload), events, from)
    ensures
      var n := Ticks(events);
      var f := Run(MessageState(b, from, payload), events);
      && f.tick == b.tick + n
      && StatusOf(f, from) == (if n <= 20 then Alive else if n <= 41 then Suspect else Dead)
      && DeadCastsIn(MessageState(b, from, payload), events, from) == if n >= 42 then 1 else 0
  {
    EventIsOnlyASignOfLife(b, from, payload);
    StepKeepsRegular(b, Message(from, payload));
    SilenceTiming(MessageState(b, from, payload), events, from);
  }

  /** Gaps of at most 20 ticks between messages never cause suspicion. */
  ghost predicate HeardOften(b: Member, events: seq<Event>, p: string)
    decreases |events|
  {
    b.tick <= Seen(b, p) + TIMEOUT_TICKS && (events == [] || HeardOften(Step(b, events[0]), events[1..], p))
  }

  lemma {:induction false} NoFalseSuspicion(b: Member, events: seq<Event>, p: string)
    requires Regular(b) && AllPlain(events) && StatusOf(b, p) == Alive && HeardOften(b, events, p)
    ensures StatusOf(Run(b, events), p) == Alive && DeadCastsIn(b, events, p) == 0
    decreases |events|
  {
    if events != [] {
      var e := events[0];
      StepKeepsRegular(b, e);
      match e {
        case Tick => TickMoves(b, p);
        case Message(from, payload) => EventIsOnlyASignOfLife(b, from, payload);
        case SetPeers(ps) => EnrolMoves(b.(peers := ps), ps, p);
      }
      NoFalseSuspicion(Step(b, e), events[1..], p);
    }
  }

  /** Once declared dead at tick `since`, a peer is Dead or has been heard from later. */
  lemma {:induction false} DeadOrHeard(b: Member, events: seq<Event>, p: string, since: nat)
    requires Regular(b) && AllPlain(events) && p in b.lastSeen && since <= b.tick
    requires StatusOf(b, p) == Dead || Seen(b, p) >= since
    ensures Regular(Run(b, events))
    ensures StatusOf(Run(b, events), p) == Dead || Seen(Run(b, events), p) >= since
    decreases |events|
  {
    if events != [] {
      var e := events[0];
      StepKeepsRegular(b, e);
      match e {
        case Tick => TickMoves(b, p);
        case Message(from, payload) => EventIsOnlyASignOfLife(b, from, payload);
        case SetPeers(ps) => EnrolMoves(b.(peers := ps), ps, p);
      }
      DeadOrHeard(Step(b, e), events[1..], p, since);
    }
  }

  /** Two DEAD broadcasts of one node about one peer are at least 42 ticks apart, whatever
      messages and peer changes come in between. */
  lemma DeadCastsApart(b: Member, between: seq<Event>, p: string)
    requires Regular(b) && AllPlain(between)
    requires DeadCasts(b, Tick, p) > 0
    requires DeadCasts(Run(Step(b, Tick), between), Tick, p) > 0
    ensures Run(Step(b, Tick), between).tick + 1 >= Step(b, Tick).tick + 42
  {
    TickMoves(b, p);
    StepKeepsRegular(b, Tick);
    var b1 := Step(b, Tick);
    DeadOrHeard(b1, between, p, b1.tick);
    TickMoves(Run(b1, between), p);
  }
}
