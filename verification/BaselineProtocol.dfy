/** The baseline protocol object of one node. */
module BaselineProtocol {
  import opened Addresses
  import opened FailureDetector

  class Protocol {
    var nodeID: string
    var tick: nat
    var peers: seq<string>
    var lastSeen: map<string, nat>
    var status: map<string, Status>
    var suspectSince: map<string, nat>
    var incarnation: map<string, nat>

    ghost function Model(): Member
      reads this
    {
      Member(nodeID, tick, peers, lastSeen, status, suspectSince, incarnation)
    }

    constructor (initialPeers: seq<string>)
      ensures Model() == Fresh(initialPeers)
    {
      nodeID, tick, peers := "", 0, initialPeers;
      lastSeen, status, suspectSince, incarnation := map[], map[], map[], map[];
    }

    method Start(id: string)
      modifies this
      ensures Model() == StartState(old(Model()), id)
    {
      nodeID, tick := id, 0;
      status := status[id := Alive];
      ghost var b := Model();
      for i := 0 to |peers|
        invariant peers == b.peers && nodeID == id
        invariant Model() == ResetAll(b, b.peers[..i])
      {
        assert b.peers[..i+1][..i] == b.peers[..i];
        lastSeen := lastSeen[peers[i] := 0];
        status := status[peers[i] := Alive];
        incarnation := incarnation[peers[i] := 0];
      }
      assert peers[..|peers|] == peers;
      incarnation := incarnation[nodeID := 0];
    }

    method Tick() returns (out: seq<Envelope>)
      modifies this
      ensures Model() == TickState(old(Model()))
      ensures out == TickSends(old(Model()))
    {
      ghost var was := Model();
      tick := tick + 1;
      assert Model() == Advance(was);
      out := [];
      if tick % HEARTBEAT_INTERVAL == 0 {
        out := SendHeartbeats(was);
      }
      var declared := CheckTimeouts(was);
      out := out + declared;
    }

    /** One heartbeat for every listed peer that is not Dead. */
    method SendHeartbeats(ghost was: Member) returns (out: seq<Envelope>)
      requires Model() == Advance(was)
      ensures out == Heartbeats(was, was.peers)
    {
      out := [];
      for i := 0 to |peers|
        invariant out == Heartbeats(was, peers[..i])
      {
        assert peers[..i+1][..i] == peers[..i];
        if !(peers[i] in status && status[peers[i]] == Dead) {
          out := out + [Envelope(nodeID, peers[i], Heartbeat)];
        }
      }
      assert peers[..|peers|] == peers;
    }

    /** The scan of the listed peers; `declared` holds the DEAD broadcasts. */
    method CheckTimeouts(ghost was: Member) returns (declared: seq<Envelope>)
      requires Model() == Advance(was)
      modifies this`status, this`suspectSince
      ensures Model() == TickState(was)
      ensures declared == Announcements(was, TickDeclares(was))
    {
      ghost var b := Model();
      declared := [];
      for i := 0 to |peers|
        invariant Model() == Scan(b, b.peers[..i])
        invariant declared == Announcements(was, Declared(b, b.peers[..i]))
      {
        assert b.peers[..i+1] == b.peers[..i] + [peers[i]];
        ScanStepAnnounces(was, b, b.peers[..i], peers[i]);
        var dead := CheckTimeout(peers[i]);
        if dead {
          declared := declared + [MakeMembershipEnvelope(peers[i], Dead)];
        }
      }
      assert b.peers[..|b.peers|] == b.peers;
    }

    method CheckTimeout(peer: string) returns (dead: bool)
      modifies this`status, this`suspectSince
      ensures Model() == ScanOne(old(Model()), peer)
      ensures dead <==> BecomesDead(old(Model()), peer)
    {
      dead := false;
      var state := if peer in status then status[peer] else Alive;
      match state {
        case Alive =>
          if Minus(tick, Count(lastSeen, peer)) > TIMEOUT_TICKS {
            status := status[peer := Suspect];
            suspectSince := suspectSince[peer := tick];
          }
        case Suspect =>
          if Minus(tick, Count(suspectSince, peer)) > TIMEOUT_TICKS {
            status := status[peer := Dead];
            dead := true;
          }
        case Dead =>
      }
    }

    function MakeMembershipEnvelope(node: string, s: Status): Envelope
      reads this
    {
      Envelope(nodeID, "", Membership(MembershipEvent(node, s, Count(incarnation, node))))
    }

    method OnMessage(rawFrom: string, payload: Payload) returns (out: seq<Envelope>)
      modifies this
      ensures Model() == MessageState(old(Model()), BeforeAt(rawFrom), payload)
      ensures out == MessageSends(old(Model()), BeforeAt(rawFrom), payload)
    {
      out := [];
      var from := BeforeAt(rawFrom);
      if from == nodeID {
        return;
      }
      MarkHeard(from);
      if payload.Heartbeat? {
        return;
      }
      var ev := payload.event;
      var localInc := Count(incarnation, ev.node);
      if ev.node == nodeID && ev.status == Dead && ev.incarnation > localInc {
        incarnation := incarnation[nodeID := Count(incarnation, nodeID) + 1];
        status := status[nodeID := Alive];
        return [MakeMembershipEnvelope(nodeID, Alive)];
      }
      if ev.incarnation > localInc {
        incarnation := incarnation[ev.node := ev.incarnation];
        status := status[ev.node := ev.status];
      }
    }

    method MarkHeard(from: string)
      modifies this
      ensures Model() == Hear(old(Model()), from)
    {
      ghost var was := Model();
      if from !in lastSeen {
        peers := peers + [from];
        lastSeen := lastSeen[from := tick];
        status := status[from := Alive];
        incarnation := incarnation[from := 0];
      }
      assert StatusOf(Model(), from) == if from in was.lastSeen then StatusOf(was, from) else Alive;
      lastSeen := lastSeen[from := tick];
      if from in status && status[from] != Alive {
        status := status[from := Alive];
      }
    }

    method SetPeers(newPeers: seq<string>)
      modifies this
      ensures Model() == PeersState(old(Model()), newPeers)
    {
      peers := newPeers;
      ghost var b := Model();
      for i := 0 to |newPeers|
        invariant Model() == Enrol(b, newPeers[..i])
      {
        assert newPeers[..i+1][..i] == newPeers[..i];
        if newPeers[i] !in lastSeen {
          lastSeen := lastSeen[newPeers[i] := 0];
          status := status[newPeers[i] := Alive];
          incarnation := incarnation[newPeers[i] := 0];
        }
      }
      assert newPeers[..|newPeers|] == newPeers;
    }
  }

  /** One more peer scanned adds at most one announcement at the end. */
  lemma ScanStepAnnounces(was: Member, b: Member, init: seq<string>, p: string)
    ensures Scan(b, init + [p]) == ScanOne(Scan(b, init), p)
    ensures Declared(b, init + [p]) == Declared(b, init) + if BecomesDead(Scan(b, init), p) then [p] else []
    ensures Announcements(was, Declared(b, init + [p])) ==
              Announcements(was, Declared(b, init)) +
              if BecomesDead(Scan(b, init), p) then [Announce(was, p, Dead)] else []
  {
    var ps := init + [p];
    assert ps[..|ps|-1] == init && ps[|ps|-1] == p;
  }
}
