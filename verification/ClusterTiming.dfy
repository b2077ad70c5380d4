/** The timing of failure detection in runs of the whole cluster: what one node does there is a
    run of its own events, all of which are as the timing results require. */
module ClusterTiming {
  import opened FailureDetector
  import opened FailureDetectorRuns

  /** The events the steps of a run are to node `n`. */
  function EventAt(n: string, s: WorldStep): seq<Event> {
    if s.node != n then []
    else
      match s
      case TickAt(_) => [Tick]
      case DeliverAt(_, e) => [Message(e.from, e.payload)]
      case SetPeersAt(_, ps) => [SetPeers(ps)]
  }

  function EventsAt(n: string, steps: seq<WorldStep>): seq<Event>
    decreases |steps|
  {
    if steps == [] then [] else EventAt(n, steps[0]) + EventsAt(n, steps[1..])
  }

  lemma {:induction false} RunParts(b: Member, p: seq<Event>, q: seq<Event>)
    ensures Run(b, p + q) == Run(Run(b, p), q)
    decreases |p|
  {
    if p == [] {
      assert p + q == q;
    } else {
      assert (p + q)[0] == p[0] && (p + q)[1..] == p[1..] + q;
      RunParts(Step(b, p[0]), p[1..], q);
    }
  }

  lemma StepIsEvent(w: World, s: WorldStep, n: string)
    requires WorldEnabled(w, s) && n in w.members
    ensures n in WorldApply(w, s).members && WorldApply(w, s).members[n] == Run(w.members[n], EventAt(n, s))
  {
    var e := EventAt(n, s);
    if e != [] {
      assert e == [e[0]] && [e[0]][1..] == [];
      assert Run(Step(w.members[n], e[0]), []) == Step(w.members[n], e[0]);
    }
  }

  /** A node's state after a run of the cluster is its state after its own events. */
  lemma {:induction false} NodeRun(w: World, steps: seq<WorldStep>, n: string)
    requires ValidWorldRun(w, steps) && n in w.members
    ensures n in WorldAfter(w, steps).members
    ensures WorldAfter(w, steps).members[n] == Run(w.members[n], EventsAt(n, steps))
    decreases |steps|
  {
    if steps != [] {
      StepIsEvent(w, steps[0], n);
      NodeRun(WorldApply(w, steps[0]), steps[1..], n);
      RunParts(w.members[n], EventAt(n, steps[0]), EventsAt(n, steps[1..]));
    }
  }

  lemma EventIsPlain(w: World, s: WorldStep, n: string)
    requires AllZero(w) && WorldEnabled(w, s)
    ensures AllPlain(EventAt(n, s))
  {
  }

  lemma {:induction false} EventsArePlain(w: World, steps: seq<WorldStep>, n: string)
    requires AllZero(w) && ValidWorldRun(w, steps)
    ensures AllPlain(EventsAt(n, steps))
    decreases |steps|
  {
    if steps != [] {
      EventIsPlain(w, steps[0], n);
      StepKeepsZero(w, steps[0]);
      EventsArePlain(WorldApply(w, steps[0]), steps[1..], n);
    }
  }

  /******* Reachable clusters *******/

  ghost predicate Reached(w: World) {
    AllZero(w) && forall n :: n in w.members ==> Regular(w.members[n]) && w.members[n].id == n
  }

  lemma {:induction false} ResetKeepsId(b: Member, ps: seq<string>)
    ensures ResetAll(b, ps).id == b.id && Enrol(b, ps).id == b.id
    decreases |ps|
  {
    if ps != [] {
      ResetKeepsId(b, ps[..|ps|-1]);
    }
  }

  lemma EventKeepsId(b: Member, e: Event)
    ensures Step(b, e).id == b.id
  {
    match e
    case Tick => ScanIsPerPeer(Advance(b), b.peers, b.id);
    case Message(_, _) =>
    case SetPeers(ps) => ResetKeepsId(b.(peers := ps), ps);
  }

  lemma {:induction false} RunKeepsId(b: Member, events: seq<Event>)
    ensures Run(b, events).id == b.id
    decreases |events|
  {
    if events != [] {
      EventKeepsId(b, events[0]);
      RunKeepsId(Step(b, events[0]), events[1..]);
    }
  }

  lemma InitIds(w: World)
    requires WorldInit(w)
    ensures forall n :: n in w.members ==> w.members[n].id == n
  {
    forall n | n in w.members ensures w.members[n].id == n {
      var ps :| w.members[n] == StartState(PeersState(Fresh([]), ps), n);
      var b := PeersState(Fresh([]), ps);
      ResetKeepsId(b.(id := n, tick := 0, status := b.status[n := Alive]), b.peers);
    }
  }

  lemma {:induction false} MembersStay(w: World, steps: seq<WorldStep>)
    requires ValidWorldRun(w, steps)
    ensures WorldAfter(w, steps).members.Keys == w.members.Keys
    decreases |steps|
  {
    if steps != [] {
      MembersStay(WorldApply(w, steps[0]), steps[1..]);
    }
  }

  lemma RunsReach(w: World, steps: seq<WorldStep>)
    requires WorldInit(w) && ValidWorldRun(w, steps)
    ensures Reached(WorldAfter(w, steps))
  {
    InitIsZero(w);
    InitIds(w);
    IncarnationsStayZero(w, steps);
    MembersStay(w, steps);
    forall n | n in WorldAfter(w, steps).members
      ensures Regular(WorldAfter(w, steps).members[n]) && WorldAfter(w, steps).members[n].id == n
    {
      ReachableIsRegular(w, steps, n);
      NodeRun(w, steps, n);
      RunKeepsId(w.members[n], EventsAt(n, steps));
    }
  }

  /******* Timing *******/

  /** Node `n` lists `p` whenever it ticks, and no message of `p` is delivered to it. */
  ghost predicate Silent(w: World, steps: seq<WorldStep>, n: string, p: string)
    requires ValidWorldRun(w, steps)
    decreases |steps|
  {
    steps == [] ||
    (&& (steps[0].TickAt? && steps[0].node == n ==> p in w.members[n].peers)
     && (steps[0].DeliverAt? && steps[0].node == n ==> steps[0].envelope.from != p)
     && Silent(WorldApply(w, steps[0]), steps[1..], n, p))
  }

  lemma {:induction false} SilenceProjects(w: World, steps: seq<WorldStep>, n: string, p: string)
    requires AllZero(w) && ValidWorldRun(w, steps) && n in w.members && Silent(w, steps, n, p)
    ensures SilentButListed(w.members[n], EventsAt(n, steps), p)
    decreases |steps|
  {
    if steps != [] {
      var e := EventAt(n, steps[0]);
      StepKeepsZero(w, steps[0]);
      StepIsEvent(w, steps[0], n);
      SilenceProjects(WorldApply(w, steps[0]), steps[1..], n, p);
      if e == [] {
        assert EventsAt(n, steps) == EventsAt(n, steps[1..]);
      } else {
        assert EventsAt(n, steps)[0] == e[0] && EventsAt(n, steps)[1..] == EventsAt(n, steps[1..]);
        SilentHead(w, steps[0], n, p);
      }
    }
  }

  lemma SilentHead(w: World, s: WorldStep, n: string, p: string)
    requires AllZero(w) && WorldEnabled(w, s) && n in w.members && EventAt(n, s) != []
    requires s.TickAt? ==> p in w.members[n].peers
    requires s.DeliverAt? ==> s.envelope.from != p
    ensures
      var e := EventAt(n, s)[0];
      && PlainEvent(e) && (e.Tick? ==> p in w.members[n].peers) && (e.Message? ==> e.from != p)
      && WorldApply(w, s).members[n] == Step(w.members[n], e)
  {
  }

  /** In every run of the cluster: after a message from a listed peer has been delivered to a node
      and nothing of that peer since, however much else happens in the cluster, the peer is Alive
      to the node through 20 of its ticks, Suspect through 41 and Dead from 42 on, with exactly one
      DEAD broadcast. */
  lemma ClusterTiming(w: World, before: seq<WorldStep>, n: string, e: Envelope, after: seq<WorldStep>)
    requires WorldInit(w) && ValidWorldRun(w, before)
    requires WorldEnabled(WorldAfter(w, before), DeliverAt(n, e)) && e.from != n
    requires ValidWorldRun(WorldApply(WorldAfter(w, before), DeliverAt(n, e)), after)
    requires Silent(WorldApply(WorldAfter(w, before), DeliverAt(n, e)), after, n, e.from)
    ensures
      var w1 := WorldApply(WorldAfter(w, before), DeliverAt(n, e));
      var events, f := EventsAt(n, after), WorldAfter(w1, after);
      && n in f.members
      && StatusOf(f.members[n], e.from) ==
           (if Ticks(events) <= 20 then Alive else if Ticks(events) <= 41 then Suspect else Dead)
      && DeadCastsIn(w1.members[n], events, e.from) == if Ticks(events) >= 42 then 1 else 0
  {
    RunsReach(w, before);
    var w0 := WorldAfter(w, before);
    var w1 := WorldApply(w0, DeliverAt(n, e));
    StepKeepsZero(w0, DeliverAt(n, e));
    SilenceProjects(w1, after, n, e.from);
    NodeRun(w1, after, n);
    ExactTiming(w0.members[n], e.from, e.payload, EventsAt(n, after));
  }

  /** In every run of the cluster two DEAD broadcasts of one node about one peer are at least 42 of
      its ticks apart. */
  lemma ClusterDeadCastsApart(w: World, before: seq<WorldStep>, n: string, between: seq<WorldStep>, p: string)
    requires WorldInit(w) && ValidWorldRun(w, before) && n in WorldAfter(w, before).members
    requires ValidWorldRun(WorldApply(WorldAfter(w, before), TickAt(n)), between)
    requires DeadCasts(WorldAfter(w, before).members[n], Tick, p) > 0
    requires
      var f := WorldAfter(WorldApply(WorldAfter(w, before), TickAt(n)), between);
      n in f.members && DeadCasts(f.members[n], Tick, p) > 0
    ensures
      var w1 := WorldApply(WorldAfter(w, before), TickAt(n));
      WorldAfter(w1, between).members[n].tick + 1 >= w1.members[n].tick + 42
  {
    RunsReach(w, before);
    var w0 := WorldAfter(w, before);
    var w1 := WorldApply(w0, TickAt(n));
    StepKeepsZero(w0, TickAt(n));
    EventsArePlain(w1, between, n);
    NodeRun(w1, between, n);
    DeadCastsApart(w0.members[n], EventsAt(n, between), p);
  }

  /******* Broadcasts counted are broadcasts sent *******/

  lemma {:induction false} HeartbeatsAreNoEvents(b: Member, ps: seq<string>, e: Envelope)
    requires e.payload.Membership?
    ensures multiset(Heartbeats(b, ps))[e] == 0
    decreases |ps|
  {
    if ps != [] {
      HeartbeatsAreNoEvents(b, ps[..|ps|-1], e);
    }
  }

  lemma {:induction false} AnnouncementsCount(b: Member, ps: seq<string>, p: string)
    ensures multiset(Announcements(b, ps))[Announce(b, p, Dead)] == multiset(ps)[p]
    decreases |ps|
  {
    if ps != [] {
      var init, q := ps[..|ps|-1], ps[|ps|-1];
      AnnouncementsCount(b, init, p);
      assert ps == init + [q];
      assert Announcements(b, ps) == Announcements(b, init) + [Announce(b, q, Dead)];
    }
  }

  /** The DEAD broadcasts about a peer that are counted are those among the envelopes sent. */
  lemma CastsAreSent(b: Member, p: string)
    ensures
      var dead := Envelope(b.id, "", Membership(MembershipEvent(p, Dead, Count(b.incarnation, p))));
      multiset(TickSends(b))[dead] == DeadCasts(b, Tick, p)
  {
    HeartbeatsAreNoEvents(b, b.peers, Announce(b, p, Dead));
    AnnouncementsCount(b, TickDeclares(b), p);
  }
}
