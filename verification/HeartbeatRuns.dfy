/** Heartbeats: when and to whom they go, and that nodes whose heartbeats arrive in time never
    suspect each other. */
module HeartbeatRuns {
  import opened FailureDetector
  import opened FailureDetectorRuns
  import opened ClusterTiming

  function Beat(from: string, to: string): Envelope {
    Envelope(from, to, Heartbeat)
  }

  /******* One tick *******/

  /** What the next listed peer adds. */
  function MoreBeats(b: Member, q: string): seq<Envelope> {
    if StatusOf(b, q) == Dead then [] else [Beat(b.id, q)]
  }

  lemma HeartbeatsNext(b: Member, init: seq<string>, q: string)
    ensures Heartbeats(b, init + [q]) == Heartbeats(b, init) + MoreBeats(b, q)
  {
    assert (init + [q])[..|init|] == init;
  }

  lemma MoreBeatsCount(b: Member, q: string, p: string)
    ensures multiset(MoreBeats(b, q))[Beat(b.id, p)] == if q == p && StatusOf(b, p) != Dead then 1 else 0
  {
  }

  lemma ListCount(init: seq<string>, q: string, p: string)
    ensures multiset(init + [q])[p] == multiset(init)[p] + if q == p then 1 else 0
  {
  }

  lemma {:induction false} HeartbeatCount(b: Member, ps: seq<string>, p: string)
    ensures multiset(Heartbeats(b, ps))[Beat(b.id, p)] == if StatusOf(b, p) == Dead then 0 else multiset(ps)[p]
    decreases |ps|
  {
    if ps != [] {
      var init, q := ps[..|ps|-1], ps[|ps|-1];
      assert ps == init + [q];
      HeartbeatCount(b, init, p);
      HeartbeatsNext(b, init, q);
      MoreBeatsCount(b, q, p);
      ListCount(init, q, p);
      CountOfParts(Heartbeats(b, init), MoreBeats(b, q), Beat(b.id, p));
    }
  }

  lemma {:induction false} AnnouncementsAreNoBeats(b: Member, ps: seq<string>, e: Envelope)
    requires e.payload.Heartbeat?
    ensures multiset(Announcements(b, ps))[e] == 0
    decreases |ps|
  {
    if ps != [] {
      var init, q := ps[..|ps|-1], ps[|ps|-1];
      AnnouncementsAreNoBeats(b, init, e);
      assert Announcements(b, ps) == Announcements(b, init) + [Announce(b, q, Dead)];
    }
  }

  /** Every fifth tick sends each listed peer that is not Dead one heartbeat for each time it is
      listed; no other tick sends any. */
  lemma HeartbeatsMean(b: Member, p: string)
    ensures multiset(TickSends(b))[Beat(b.id, p)] ==
              if (b.tick + 1) % 5 == 0 && StatusOf(b, p) != Dead then multiset(b.peers)[p] else 0
  {
    DueCount(b, p);
    AnnouncementsAreNoBeats(b, TickDeclares(b), Beat(b.id, p));
    CountOfParts(DueBeats(b), Announcements(b, TickDeclares(b)), Beat(b.id, p));
    TickSendsParts(b);
  }

  lemma TickSendsParts(b: Member)
    ensures TickSends(b) == DueBeats(b) + Announcements(b, TickDeclares(b))
  {
  }

  function DueBeats(b: Member): seq<Envelope> {
    if (b.tick + 1) % HEARTBEAT_INTERVAL == 0 then Heartbeats(b, b.peers) else []
  }

  lemma DueCount(b: Member, p: string)
    ensures multiset(DueBeats(b))[Beat(b.id, p)] ==
              if (b.tick + 1) % 5 == 0 && StatusOf(b, p) != Dead then multiset(b.peers)[p] else 0
  {
    HeartbeatCount(b, b.peers, p);
  }

  lemma CountOfParts(a: seq<Envelope>, b: seq<Envelope>, e: Envelope)
    ensures multiset(a + b)[e] == multiset(a)[e] + multiset(b)[e]
  {
  }

  /******* Five ticks *******/

  lemma EventTick(b: Member, e: Event)
    ensures Step(b, e).tick == b.tick + (if e.Tick? then 1 else 0)
  {
    match e
    case Tick => ScanIsPerPeer(Advance(b), b.peers, b.id);
    case Message(_, _) =>
    case SetPeers(ps) => EnrolMoves(b.(peers := ps), ps, b.id);
  }

  /** The peer is listed and not Dead whenever the node ticks. */
  ghost predicate CaredFor(b: Member, events: seq<Event>, p: string)
    decreases |events|
  {
    events == [] ||
    (&& (events[0].Tick? ==> p in b.peers && StatusOf(b, p) != Dead)
     && CaredFor(Step(b, events[0]), events[1..], p))
  }

  /** Heartbeats the events make the node send to the peer. */
  function BeatsTo(b: Member, events: seq<Event>, p: string): nat
    decreases |events|
  {
    if events == [] then 0
    else
      (if events[0].Tick? then multiset(TickSends(b))[Beat(b.id, p)] else 0) +
      BeatsTo(Step(b, events[0]), events[1..], p)
  }

  lemma {:induction false} NextBeat(b: Member, events: seq<Event>, p: string)
    requires CaredFor(b, events, p) && Ticks(events) >= 5 - b.tick % 5
    ensures BeatsTo(b, events, p) >= 1
    decreases |events|
  {
    var e := events[0];
    EventTick(b, e);
    if e.Tick? && (b.tick + 1) % 5 == 0 {
      HeartbeatsMean(b, p);
      assert p in multiset(b.peers);
    } else {
      NextBeat(Step(b, e), events[1..], p);
    }
  }

  /** Any five consecutive ticks, whatever comes between them, send a heartbeat to every peer that
      is listed and not Dead throughout. */
  lemma FiveTicksBeat(b: Member, events: seq<Event>, p: string)
    requires CaredFor(b, events, p) && Ticks(events) >= 5
    ensures BeatsTo(b, events, p) >= 1
  {
    NextBeat(b, events, p);
  }

  /******* Runs as sequences of states *******/

  /** All states of a run, from the first to the last. */
  ghost predicate IsTrace(trace: seq<World>, steps: seq<WorldStep>) {
    |trace| == |steps| + 1 && forall j :: 0 <= j < |steps| ==> Takes(trace, steps, j)
  }

  ghost predicate Takes(trace: seq<World>, steps: seq<WorldStep>, j: nat)
    requires j < |steps| && j + 1 < |trace|
  {
    WorldEnabled(trace[j], steps[j]) && trace[j+1] == WorldApply(trace[j], steps[j])
  }

  lemma {:induction false} TraceIsRun(trace: seq<World>, steps: seq<WorldStep>)
    requires IsTrace(trace, steps)
    ensures ValidWorldRun(trace[0], steps) && WorldAfter(trace[0], steps) == trace[|steps|]
    decreases |steps|
  {
    if steps != [] {
      assert Takes(trace, steps, 0);
      forall j | 0 <= j < |steps[1..]| ensures Takes(trace[1..], steps[1..], j) {
        assert Takes(trace, steps, j + 1);
      }
      TraceIsRun(trace[1..], steps[1..]);
    }
  }

  lemma TraceReaches(trace: seq<World>, steps: seq<WorldStep>, j: nat)
    requires IsTrace(trace, steps) && WorldInit(trace[0]) && j < |trace|
    ensures Reached(trace[j]) && trace[j].members.Keys == trace[0].members.Keys
  {
    var front := trace[..j+1];
    forall i | 0 <= i < j ensures Takes(front, steps[..j], i) {
      assert Takes(trace, steps, i);
    }
    TraceIsRun(front, steps[..j]);
    RunsReach(trace[0], steps[..j]);
    MembersStay(trace[0], steps[..j]);
  }

  /** Neither the tick nor what a node has seen ever decreases. */
  lemma StepMonotone(w: World, s: WorldStep, n: string, p: string)
    requires Reached(w) && WorldEnabled(w, s) && n in w.members
    ensures var b, b' := w.members[n], WorldApply(w, s).members[n];
      b'.tick == b.tick + (if s == TickAt(n) then 1 else 0) && Seen(b, p) <= Seen(b', p)
  {
    var b := w.members[n];
    assert Seen(b, p) <= b.tick;
    match s
    case TickAt(m) =>
      if m == n {
        TickMoves(b, p);
      }
    case DeliverAt(m, e) =>
      if m == n {
        EventIsOnlyASignOfLife(b, e.from, e.payload);
      }
    case SetPeersAt(m, ps) =>
      if m == n {
        EnrolMoves(b.(peers := ps), ps, p);
      }
  }

  /******* Clocks *******/

  ghost predicate Growing(s: seq<nat>) {
    forall i, j :: 0 <= i <= j < |s| ==> s[i] <= s[j]
  }

  lemma {:induction false} StepwiseGrows(s: seq<nat>)
    requires forall i :: 0 <= i < |s| - 1 ==> s[i] <= s[i+1]
    ensures Growing(s)
    decreases |s|
  {
    if s != [] {
      var front := s[..|s|-1];
      StepwiseGrows(front);
      forall i, j | 0 <= i <= j < |s| ensures s[i] <= s[j] {
        if i < j && j == |s| - 1 {
          assert front[i] <= front[j-1] <= s[j];
        }
      }
    }
  }

  /** A clock that has come to `x` has ticked from `x - 1` to `x` before. */
  lemma {:induction false} TickTo(clock: seq<nat>, x: nat, j: nat) returns (i: nat)
    requires j < |clock| && clock[0] < x <= clock[j]
    requires forall i :: 0 <= i < |clock| - 1 ==> clock[i+1] <= clock[i] + 1
    ensures i < j && clock[i] + 1 == x == clock[i+1]
    decreases j
  {
    if x <= clock[j-1] {
      i := TickTo(clock, x, j - 1);
    } else {
      i := j - 1;
    }
  }

  /** The clock value of the heartbeat that keeps the peer alive at the next tick. */
  lemma PickBeat(t: int, lead: int, drift: nat, delay: nat) returns (x: nat)
    requires t >= 21 && lead <= 0 && delay >= 1 && drift + delay <= 16
    ensures x >= 1 && x % 5 == 0 && t - 20 <= x + lead && x + lead + drift + delay <= t
  {
    var q := (t - delay - lead - drift) / 5;
    x := 5 * q;
  }

  /** The clocks of the two nodes drift apart by at most `drift` ticks: how far the first is ahead
      always lies between `lead` and `lead + drift`. */
  ghost predicate Drifting(mine: seq<nat>, other: seq<nat>, lead: int, drift: nat) {
    |mine| == |other| && forall j :: 0 <= j < |mine| ==> lead <= mine[j] - other[j] <= lead + drift
  }

  /** Whenever the other clock comes to a multiple of 5 mine stands still, and that time has been
      heard of before I tick for the `delay`-th time after it. */
  ghost predicate HearsBeats(mine: seq<nat>, other: seq<nat>, heard: seq<nat>, delay: nat, upTo: nat)
    requires |mine| == |other| == |heard| && upTo < |mine|
  {
    forall i :: 0 <= i < upTo ==> HearsBeat(mine, other, heard, delay, i, upTo)
  }

  ghost predicate HearsBeat(mine: seq<nat>, other: seq<nat>, heard: seq<nat>, delay: nat, i: nat, upTo: nat)
    requires |mine| == |other| == |heard| && i < upTo < |mine|
  {
    other[i+1] == other[i] + 1 && other[i+1] % 5 == 0 ==>
      mine[i+1] == mine[i] && HeardFrom(mine, heard, i, delay, upTo)
  }

  ghost predicate HeardFrom(mine: seq<nat>, heard: seq<nat>, i: nat, delay: nat, j: nat)
    requires |mine| == |heard| && i < |mine| && j < |mine|
  {
    mine[j] + 1 >= mine[i] + delay ==> heard[j] >= mine[i]
  }

  /** Whenever I tick I have heard from the other at most 20 ticks ago. */
  lemma HeardLately(mine: seq<nat>, other: seq<nat>, heard: seq<nat>, lead: int, drift: nat, delay: nat, j: nat)
    requires |mine| == |other| == |heard| && j < |mine| && mine[0] == other[0] == 0
    requires Drifting(mine, other, lead, drift) && delay >= 1 && drift + delay <= 16
    requires forall i :: 0 <= i < |other| - 1 ==> other[i+1] <= other[i] + 1
    requires HearsBeats(mine, other, heard, delay, j)
    ensures mine[j] + 1 <= heard[j] + 20
  {
    var t := mine[j] + 1;
    if t >= 21 {
      assert lead <= mine[0] - other[0] <= lead + drift;
      var x := PickBeat(t, lead, drift, delay);
      assert lead <= mine[j] - other[j] <= lead + drift;
      var i := TickTo(other, x, j);
      assert lead <= mine[i+1] - other[i+1] <= lead + drift;
      assert HearsBeat(mine, other, heard, delay, i, j);
      assert HeardFrom(mine, heard, i, delay, j);
    }
  }

  /******* Two nodes *******/

  ghost predicate Present(trace: seq<World>, n: string) {
    forall j :: 0 <= j < |trace| ==> n in trace[j].members
  }

  ghost function Clock(trace: seq<World>, n: string): (r: seq<nat>)
    requires Present(trace, n)
    ensures |r| == |trace| && forall j :: 0 <= j < |r| ==> r[j] == trace[j].members[n].tick
  {
    seq(|trace|, j requires 0 <= j < |trace| => trace[j].members[n].tick)
  }

  /** The ticks at which `n` last heard of `p`. */
  ghost function Heard(trace: seq<World>, n: string, p: string): (r: seq<nat>)
    requires Present(trace, n)
    ensures |r| == |trace| && forall j :: 0 <= j < |r| ==> r[j] == Seen(trace[j].members[n], p)
  {
    seq(|trace|, j requires 0 <= j < |trace| => Seen(trace[j].members[n], p))
  }

  /** Each of the two nodes always lists the other. */
  ghost predicate KnowEachOther(trace: seq<World>, n: string, m: string) {
    && Present(trace, n) && Present(trace, m)
    && forall j :: 0 <= j < |trace| ==> m in trace[j].members[n].peers && n in trace[j].members[m].peers
  }

  /** Step `i` is a tick of `m` that sends `n` a heartbeat. */
  ghost predicate BeatsAt(trace: seq<World>, steps: seq<WorldStep>, m: string, n: string, i: nat)
    requires i < |steps| && i < |trace| && m in trace[i].members
  {
    steps[i] == TickAt(m) && Beat(m, n) in TickSends(trace[i].members[m])
  }

  ghost predicate ArrivedBetween(steps: seq<WorldStep>, m: string, n: string, i: nat, j: nat) {
    exists l :: i < l < j && l < |steps| && steps[l] == DeliverAt(n, Beat(m, n))
  }

  /** Every heartbeat of `m` to `n` arrives before `n` ticks for the `delay`-th time after it. */
  ghost predicate InTime(trace: seq<World>, steps: seq<WorldStep>, m: string, n: string, delay: nat)
    requires |trace| == |steps| + 1 && Present(trace, n) && Present(trace, m)
  {
    forall i, j :: 0 <= i < j < |trace| && BeatsAt(trace, steps, m, n, i) && DueBy(Clock(trace, n), i, j, delay) ==>
      ArrivedBetween(steps, m, n, i, j)
  }

  ghost predicate DueBy(clock: seq<nat>, i: nat, j: nat, delay: nat)
    requires i < |clock| && j < |clock|
  {
    clock[j] + 1 >= clock[i] + delay
  }

  lemma TraceStep(trace: seq<World>, steps: seq<WorldStep>, n: string, p: string, j: nat)
    requires IsTrace(trace, steps) && WorldInit(trace[0]) && Present(trace, n) && j < |steps|
    ensures Clock(trace, n)[j+1] == Clock(trace, n)[j] + (if steps[j] == TickAt(n) then 1 else 0)
    ensures Heard(trace, n, p)[j] <= Heard(trace, n, p)[j+1]
  {
    TraceReaches(trace, steps, j);
    assert Takes(trace, steps, j);
    StepMonotone(trace[j], steps[j], n, p);
  }

  lemma TraceGrows(trace: seq<World>, steps: seq<WorldStep>, n: string, p: string)
    requires IsTrace(trace, steps) && WorldInit(trace[0]) && Present(trace, n)
    ensures Growing(Clock(trace, n)) && Growing(Heard(trace, n, p))
  {
    forall j | 0 <= j < |steps|
      ensures Clock(trace, n)[j] <= Clock(trace, n)[j+1] && Heard(trace, n, p)[j] <= Heard(trace, n, p)[j+1]
    {
      TraceStep(trace, steps, n, p, j);
    }
    StepwiseGrows(Clock(trace, n));
    StepwiseGrows(Heard(trace, n, p));
  }

  lemma BeatIsSent(b: Member, n: string)
    requires (b.tick + 1) % 5 == 0 && n in b.peers && StatusOf(b, n) != Dead
    ensures Beat(b.id, n) in TickSends(b)
  {
    HeartbeatsMean(b, n);
    assert n in multiset(b.peers);
    assert Beat(b.id, n) in multiset(TickSends(b));
  }

  lemma BeatGoesOut(trace: seq<World>, steps: seq<WorldStep>, n: string, m: string, i: nat)
    requires i < |steps| && i < |trace| && m in trace[i].members && trace[i].members[m].id == m
    requires steps[i] == TickAt(m) && (trace[i].members[m].tick + 1) % 5 == 0
    requires n in trace[i].members[m].peers && StatusOf(trace[i].members[m], n) != Dead
    ensures BeatsAt(trace, steps, m, n, i)
  {
    BeatIsSent(trace[i].members[m], n);
  }

  lemma MemberId(trace: seq<World>, steps: seq<WorldStep>, m: string, i: nat)
    requires IsTrace(trace, steps) && WorldInit(trace[0]) && Present(trace, m) && i < |trace|
    ensures trace[i].members[m].id == m
  {
    TraceReaches(trace, steps, i);
  }

  lemma DeliveredIsSeen(w: World, n: string, m: string)
    requires Reached(w) && WorldEnabled(w, DeliverAt(n, Beat(m, n))) && n != m
    ensures Seen(WorldApply(w, DeliverAt(n, Beat(m, n))).members[n], m) == w.members[n].tick
  {
    EventIsOnlyASignOfLife(w.members[n], m, Heartbeat);
  }

  /** A delivered heartbeat has been seen from then on. */
  lemma ArrivedIsSeen(trace: seq<World>, steps: seq<WorldStep>, n: string, m: string, i: nat, j: nat)
    requires IsTrace(trace, steps) && WorldInit(trace[0]) && Present(trace, n) && n != m && i < j < |trace|
    requires ArrivedBetween(steps, m, n, i, j)
    ensures Heard(trace, n, m)[j] >= Clock(trace, n)[i]
  {
    var l :| i < l < j && l < |steps| && steps[l] == DeliverAt(n, Beat(m, n));
    TraceReaches(trace, steps, l);
    assert Takes(trace, steps, l);
    DeliveredIsSeen(trace[l], n, m);
    TraceGrows(trace, steps, n, m);
    assert Clock(trace, n)[i] <= Clock(trace, n)[l] == Heard(trace, n, m)[l+1] <= Heard(trace, n, m)[j];
  }

  /** Up to step `j` the node does not hold the other Dead. */
  ghost predicate NotDeadUpTo(trace: seq<World>, m: string, n: string, j: nat)
    requires Present(trace, m) && j < |trace|
  {
    forall i :: 0 <= i <= j ==> StatusOf(trace[i].members[m], n) != Dead
  }

  lemma ClockTicks(trace: seq<World>, steps: seq<WorldStep>, n: string, m: string, i: nat)
    requires IsTrace(trace, steps) && WorldInit(trace[0]) && Present(trace, n) && Present(trace, m) && n != m
    requires i < |steps| && Clock(trace, m)[i+1] == Clock(trace, m)[i] + 1
    ensures steps[i] == TickAt(m) && Clock(trace, n)[i+1] == Clock(trace, n)[i]
  {
    TraceStep(trace, steps, m, n, i);
    TraceStep(trace, steps, n, m, i);
  }

  lemma BeatIsHeard(trace: seq<World>, steps: seq<WorldStep>, n: string, m: string, delay: nat, i: nat, j: nat)
    requires IsTrace(trace, steps) && WorldInit(trace[0]) && n != m && Present(trace, n) && Present(trace, m)
    requires InTime(trace, steps, m, n, delay) && i < j < |trace| && BeatsAt(trace, steps, m, n, i)
    ensures HeardFrom(Clock(trace, n), Heard(trace, n, m), i, delay, j)
  {
    if DueBy(Clock(trace, n), i, j, delay) {
      ArrivedIsSeen(trace, steps, n, m, i, j);
    }
  }

  lemma TraceHears(trace: seq<World>, steps: seq<WorldStep>, n: string, m: string, delay: nat, j: nat)
    requires IsTrace(trace, steps) && WorldInit(trace[0]) && n != m && KnowEachOther(trace, n, m)
    requires InTime(trace, steps, m, n, delay) && j < |trace| && NotDeadUpTo(trace, m, n, j)
    ensures HearsBeats(Clock(trace, n), Clock(trace, m), Heard(trace, n, m), delay, j)
  {
    forall i | 0 <= i < j ensures HearsBeat(Clock(trace, n), Clock(trace, m), Heard(trace, n, m), delay, i, j) {
      TickIsHeard(trace, steps, n, m, delay, i, j);
    }
  }

  lemma TickIsHeard(trace: seq<World>, steps: seq<WorldStep>, n: string, m: string, delay: nat, i: nat, j: nat)
    requires IsTrace(trace, steps) && WorldInit(trace[0]) && n != m && Present(trace, n) && Present(trace, m)
    requires InTime(trace, steps, m, n, delay) && i < j < |trace|
    requires n in trace[i].members[m].peers && StatusOf(trace[i].members[m], n) != Dead
    ensures HearsBeat(Clock(trace, n), Clock(trace, m), Heard(trace, n, m), delay, i, j)
  {
    if Clock(trace, m)[i+1] == Clock(trace, m)[i] + 1 && Clock(trace, m)[i+1] % 5 == 0 {
      ClockTicks(trace, steps, n, m, i);
      TickBeats(trace, steps, n, m, i);
      BeatIsHeard(trace, steps, n, m, delay, i, j);
    }
  }

  lemma TickBeats(trace: seq<World>, steps: seq<WorldStep>, n: string, m: string, i: nat)
    requires IsTrace(trace, steps) && WorldInit(trace[0]) && Present(trace, m) && i < |steps| && steps[i] == TickAt(m)
    requires Clock(trace, m)[i+1] == Clock(trace, m)[i] + 1 && Clock(trace, m)[i+1] % 5 == 0
    requires n in trace[i].members[m].peers && StatusOf(trace[i].members[m], n) != Dead
    ensures BeatsAt(trace, steps, m, n, i)
  {
    MemberId(trace, steps, m, i);
    BeatGoesOut(trace, steps, n, m, i);
  }

  lemma TraceHeardLately(
    trace: seq<World>, steps: seq<WorldStep>, n: string, m: string, lead: int, drift: nat, delay: nat, j: nat)
    requires IsTrace(trace, steps) && WorldInit(trace[0]) && n != m && KnowEachOther(trace, n, m)
    requires Drifting(Clock(trace, n), Clock(trace, m), lead, drift) && delay >= 1 && drift + delay <= 16
    requires InTime(trace, steps, m, n, delay) && j < |trace| && NotDeadUpTo(trace, m, n, j)
    ensures trace[j].members[n].tick + 1 <= Seen(trace[j].members[n], m) + 20
  {
    TraceHears(trace, steps, n, m, delay, j);
    InitAlive(trace[0], n, m);
    InitAlive(trace[0], m, n);
    var other := Clock(trace, m);
    forall i | 0 <= i < |other| - 1 ensures other[i+1] <= other[i] + 1 {
      TraceStep(trace, steps, m, n, i);
    }
    HeardLately(Clock(trace, n), other, Heard(trace, n, m), lead, drift, delay, j);
  }

  /** One step keeps the peer alive if a tick finds it heard of lately. */
  lemma AliveNext(w: World, s: WorldStep, n: string, m: string)
    requires Reached(w) && WorldEnabled(w, s) && n in w.members && m in w.members[n].peers
    requires StatusOf(w.members[n], m) == Alive && w.members[n].tick + 1 <= Seen(w.members[n], m) + 20
    ensures StatusOf(WorldApply(w, s).members[n], m) == Alive
  {
    var b := w.members[n];
    match s
    case TickAt(k) =>
      if k == n {
        TickMoves(b, m);
      }
    case DeliverAt(k, e) =>
      if k == n {
        EventIsOnlyASignOfLife(b, e.from, e.payload);
      }
    case SetPeersAt(k, ps) =>
      if k == n {
        EnrolMoves(b.(peers := ps), ps, m);
      }
  }

  lemma InitAlive(w: World, n: string, p: string)
    requires WorldInit(w) && n in w.members
    ensures w.members[n].tick == 0 && StatusOf(w.members[n], p) == Alive
  {
    var ps :| w.members[n] == StartState(PeersState(Fresh([]), ps), n);
    StartMeans(PeersState(Fresh([]), ps), n, p);
    EnrolMoves(Fresh([]).(peers := ps), ps, p);
  }

  ghost predicate BothAlive(w: World, n: string, m: string) {
    n in w.members && m in w.members && StatusOf(w.members[n], m) == Alive && StatusOf(w.members[m], n) == Alive
  }

  lemma AliveStep(
    trace: seq<World>, steps: seq<WorldStep>, n: string, m: string, lead: int, drift: nat, delay: nat, j: nat)
    requires IsTrace(trace, steps) && WorldInit(trace[0]) && n != m && KnowEachOther(trace, n, m) && j < |steps|
    requires Drifting(Clock(trace, n), Clock(trace, m), lead, drift) && delay >= 1 && drift + delay <= 16
    requires InTime(trace, steps, m, n, delay) && NotDeadUpTo(trace, m, n, j)
    requires StatusOf(trace[j].members[n], m) == Alive
    ensures StatusOf(trace[j+1].members[n], m) == Alive
  {
    TraceHeardLately(trace, steps, n, m, lead, drift, delay, j);
    TraceReaches(trace, steps, j);
    assert Takes(trace, steps, j);
    AliveNext(trace[j], steps[j], n, m);
  }

  lemma DriftBack(mine: seq<nat>, other: seq<nat>, lead: int, drift: nat)
    requires Drifting(mine, other, lead, drift)
    ensures Drifting(other, mine, -lead - drift, drift)
  {
    forall j | 0 <= j < |other| ensures -lead - drift <= other[j] - mine[j] <= -lead - drift + drift {
      assert lead <= mine[j] - other[j] <= lead + drift;
    }
  }

  ghost predicate AllAlive(trace: seq<World>, n: string, m: string, j: nat)
    requires j < |trace|
  {
    forall i :: 0 <= i <= j ==> BothAlive(trace[i], n, m)
  }

  ghost predicate Healthy(
    trace: seq<World>, steps: seq<WorldStep>, n: string, m: string, lead: int, drift: nat, delay: nat)
  {
    && IsTrace(trace, steps) && WorldInit(trace[0]) && n != m && KnowEachOther(trace, n, m)
    && Drifting(Clock(trace, n), Clock(trace, m), lead, drift) && delay >= 1 && drift + delay <= 16
    && InTime(trace, steps, m, n, delay) && InTime(trace, steps, n, m, delay)
  }

  /** One node's half of the hypotheses. */
  lemma HalfNext(
    trace: seq<World>, steps: seq<WorldStep>, n: string, m: string, lead: int, drift: nat, delay: nat, j: nat)
    requires IsTrace(trace, steps) && WorldInit(trace[0]) && n != m && KnowEachOther(trace, n, m) && j < |steps|
    requires Drifting(Clock(trace, n), Clock(trace, m), lead, drift) && delay >= 1 && drift + delay <= 16
    requires InTime(trace, steps, m, n, delay) && AllAlive(trace, n, m, j)
    ensures StatusOf(trace[j+1].members[n], m) == Alive
  {
    NeverDead(trace, n, m, j);
    assert BothAlive(trace[j], n, m);
    AliveStep(trace, steps, n, m, lead, drift, delay, j);
  }

  lemma KnowBack(trace: seq<World>, n: string, m: string)
    requires KnowEachOther(trace, n, m)
    ensures KnowEachOther(trace, m, n)
  {
  }

  lemma AliveTogether(trace: seq<World>, n: string, m: string, j: nat)
    requires j < |trace| && AllAlive(trace, n, m, j)
    ensures AllAlive(trace, m, n, j)
  {
    forall i | 0 <= i <= j ensures BothAlive(trace[i], m, n) {
      assert BothAlive(trace[i], n, m);
    }
  }

  /** The other node's half. */
  lemma OtherHalfNext(
    trace: seq<World>, steps: seq<WorldStep>, n: string, m: string, lead: int, drift: nat, delay: nat, j: nat)
    requires IsTrace(trace, steps) && WorldInit(trace[0]) && n != m && KnowEachOther(trace, n, m) && j < |steps|
    requires Drifting(Clock(trace, n), Clock(trace, m), lead, drift) && delay >= 1 && drift + delay <= 16
    requires InTime(trace, steps, n, m, delay) && AllAlive(trace, n, m, j)
    ensures StatusOf(trace[j+1].members[m], n) == Alive
  {
    DriftBack(Clock(trace, n), Clock(trace, m), lead, drift);
    AliveTogether(trace, n, m, j);
    KnowBack(trace, n, m);
    HalfNext(trace, steps, m, n, -lead - drift, drift, delay, j);
  }

  lemma BothNext(
    trace: seq<World>, steps: seq<WorldStep>, n: string, m: string, lead: int, drift: nat, delay: nat, j: nat)
    requires Healthy(trace, steps, n, m, lead, drift, delay) && j < |steps| && AllAlive(trace, n, m, j)
    ensures BothAlive(trace[j+1], n, m)
  {
    HalfNext(trace, steps, n, m, lead, drift, delay, j);
    OtherHalfNext(trace, steps, n, m, lead, drift, delay, j);
  }

  lemma BothFirst(trace: seq<World>, n: string, m: string)
    requires trace != [] && WorldInit(trace[0]) && n in trace[0].members && m in trace[0].members
    ensures AllAlive(trace, n, m, 0)
  {
    InitAlive(trace[0], n, m);
    InitAlive(trace[0], m, n);
  }

  /** As long as both are alive they are so in the next state. */
  ghost predicate Progress(trace: seq<World>, n: string, m: string) {
    forall j :: 0 <= j < |trace| - 1 && AllAlive(trace, n, m, j) ==> BothAlive(trace[j+1], n, m)
  }

  lemma {:induction false} AliveUpTo(trace: seq<World>, n: string, m: string, j: nat)
    requires j < |trace| && AllAlive(trace, n, m, 0) && Progress(trace, n, m)
    ensures AllAlive(trace, n, m, j)
    decreases j
  {
    if j > 0 {
      AliveUpTo(trace, n, m, j - 1);
    }
  }

  lemma NeverDead(trace: seq<World>, n: string, m: string, j: nat)
    requires Present(trace, n) && Present(trace, m) && j < |trace|
    requires AllAlive(trace, n, m, j)
    ensures NotDeadUpTo(trace, m, n, j) && NotDeadUpTo(trace, n, m, j)
  {
    forall i | 0 <= i <= j
      ensures StatusOf(trace[i].members[m], n) != Dead && StatusOf(trace[i].members[n], m) != Dead
    {
      assert BothAlive(trace[i], n, m);
    }
  }

  /** In every run of the cluster, two nodes that list each other, whose clocks drift apart by at
      most `drift` ticks and whose heartbeats arrive within `delay` ticks never suspect each other,
      as long as drift and delay together are at most 16 ticks: with nodes that tick in turn
      (a drift of one) a heartbeat may take 15 ticks. */
  lemma HealthyPair(
    trace: seq<World>, steps: seq<WorldStep>, n: string, m: string, lead: int, drift: nat, delay: nat)
    requires IsTrace(trace, steps) && WorldInit(trace[0]) && n != m && KnowEachOther(trace, n, m)
    requires Drifting(Clock(trace, n), Clock(trace, m), lead, drift) && delay >= 1 && drift + delay <= 16
    requires InTime(trace, steps, m, n, delay) && InTime(trace, steps, n, m, delay)
    ensures forall j :: 0 <= j < |trace| ==> BothAlive(trace[j], n, m)
  {
    BothFirst(trace, n, m);
    forall j | 0 <= j < |trace| - 1 && AllAlive(trace, n, m, j) ensures BothAlive(trace[j+1], n, m) {
      BothNext(trace, steps, n, m, lead, drift, delay, j);
    }
    AliveUpTo(trace, n, m, |trace| - 1);
  }
}
