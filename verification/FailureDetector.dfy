/** The baseline failure detector: Alive, Suspect and Dead driven by ticks and messages. */
module FailureDetector {
  const HEARTBEAT_INTERVAL: nat := 5
  const TIMEOUT_TICKS: nat := 20
  const UINT64: nat := 0x1_0000_0000_0000_0000

  datatype Status = Alive | Suspect | Dead

  datatype MembershipEvent = MembershipEvent(node: string, status: Status, incarnation: nat)

  /** A heartbeat stands for every payload that decodes to no membership event. */
  datatype Payload = Heartbeat | Membership(event: MembershipEvent)

  /** An empty `to` is a broadcast. */
  datatype Envelope = Envelope(from: string, to: string, payload: Payload)

  datatype Member = Member(
    id: string,
    tick: nat,
    peers: seq<string>,
    lastSeen: map<string, nat>,
    status: map<string, Status>,
    suspectSince: map<string, nat>,
    incarnation: map<string, nat>
  )

  /** A missing entry reads as the zero value, as indexing a Go map does. */
  function Count(m: map<string, nat>, p: string): nat {
    if p in m then m[p] else 0
  }

  function StatusOf(b: Member, p: string): Status {
    if p in b.status then b.status[p] else Alive
  }

  /** Subtraction of uint64 values. */
  function Minus(a: nat, b: nat): nat {
    if a >= b then a - b else (a - b) % UINT64
  }

  /******* Tick *******/

  predicate BecomesSuspect(b: Member, p: string) {
    StatusOf(b, p) == Alive && Minus(b.tick, Count(b.lastSeen, p)) > TIMEOUT_TICKS
  }

  predicate BecomesDead(b: Member, p: string) {
    StatusOf(b, p) == Suspect && Minus(b.tick, Count(b.suspectSince, p)) > TIMEOUT_TICKS
  }

  function ScanOne(b: Member, p: string): Member {
    if BecomesSuspect(b, p) then b.(status := b.status[p := Suspect], suspectSince := b.suspectSince[p := b.tick])
    else if BecomesDead(b, p) then b.(status := b.status[p := Dead])
    else b
  }

  function Scan(b: Member, ps: seq<string>): Member
    decreases |ps|
  {
    if ps == [] then b else ScanOne(Scan(b, ps[..|ps|-1]), ps[|ps|-1])
  }

  /** The peers declared dead while scanning, in order. */
  function Declared(b: Member, ps: seq<string>): seq<string>
    decreases |ps|
  {
    if ps == [] then []
    else
      var init, p := ps[..|ps|-1], ps[|ps|-1];
      Declared(b, init) + if BecomesDead(Scan(b, init), p) then [p] else []
  }

  function Advance(b: Member): Member {
    b.(tick := b.tick + 1)
  }

  function TickState(b: Member): Member {
    Scan(Advance(b), b.peers)
  }

  function TickDeclares(b: Member): seq<string> {
    Declared(Advance(b), b.peers)
  }

  function Announce(b: Member, node: string, status: Status): Envelope {
    Envelope(b.id, "", Membership(MembershipEvent(node, status, Count(b.incarnation, node))))
  }

  function Announcements(b: Member, ps: seq<string>): (r: seq<Envelope>)
    ensures |r| == |ps| && forall i :: 0 <= i < |r| ==> r[i] == Announce(b, ps[i], Dead)
  {
    seq(|ps|, i requires 0 <= i < |ps| => Announce(b, ps[i], Dead))
  }

  function Heartbeats(b: Member, ps: seq<string>): seq<Envelope> {
    if ps == [] then []
    else Heartbeats(b, ps[..|ps|-1]) +
         if StatusOf(b, ps[|ps|-1]) == Dead then [] else [Envelope(b.id, ps[|ps|-1], Heartbeat)]
  }

  function TickSends(b: Member): seq<Envelope> {
    (if (b.tick + 1) % HEARTBEAT_INTERVAL == 0 then Heartbeats(b, b.peers) else []) +
    Announcements(b, TickDeclares(b))
  }

  /******* OnMessage, SetPeers, Start *******/

  /** Any message proves its sender alive; a new sender becomes a peer. */
  function Hear(b: Member, from: string): Member {
    var b1 := if from in b.lastSeen then b
              else b.(peers := b.peers + [from], status := b.status[from := Alive],
                      incarnation := b.incarnation[from := 0]);
    b1.(lastSeen := b1.lastSeen[from := b.tick],
        status := if StatusOf(b1, from) == Alive then b1.status else b1.status[from := Alive])
  }

  function MessageState(b: Member, from: string, payload: Payload): Member {
    if from == b.id then b
    else
      var b1 := Hear(b, from);
      match payload
      case Heartbeat => b1
      case Membership(ev) =>
        if ev.node == b.id && ev.status == Dead && ev.incarnation > Count(b1.incarnation, ev.node)
        then b1.(incarnation := b1.incarnation[b.id := Count(b1.incarnation, b.id) + 1],
                 status := b1.status[b.id := Alive])
        else if ev.incarnation > Count(b1.incarnation, ev.node)
        then b1.(incarnation := b1.incarnation[ev.node := ev.incarnation], status := b1.status[ev.node := ev.status])
        else b1
  }

  function MessageSends(b: Member, from: string, payload: Payload): seq<Envelope> {
    if from != b.id && payload.Membership? && payload.event.node == b.id && payload.event.status == Dead &&
       payload.event.incarnation > Count(Hear(b, from).incarnation, b.id)
    then [Announce(MessageState(b, from, payload), b.id, Alive)]
    else []
  }

  function Enrol(b: Member, ps: seq<string>): Member {
    if ps == [] then b
    else
      var b1, p := Enrol(b, ps[..|ps|-1]), ps[|ps|-1];
      if p in b1.lastSeen then b1
      else b1.(lastSeen := b1.lastSeen[p := 0], status := b1.status[p := Alive], incarnation := b1.incarnation[p := 0])
  }

  function PeersState(b: Member, ps: seq<string>): Member {
    Enrol(b.(peers := ps), ps)
  }

  /** Start enters every current peer as seen at tick 0 and alive. */
  function ResetAll(b: Member, ps: seq<string>): Member {
    if ps == [] then b
    else
      var b1, p := ResetAll(b, ps[..|ps|-1]), ps[|ps|-1];
      b1.(lastSeen := b1.lastSeen[p := 0], status := b1.status[p := Alive], incarnation := b1.incarnation[p := 0])
  }

  function StartState(b: Member, id: string): Member {
    var b1 := ResetAll(b.(id := id, tick := 0, status := b.status[id := Alive]), b.peers);
    b1.(incarnation := b1.incarnation[id := 0])
  }

  function Fresh(peers: seq<string>): Member {
    Member("", 0, peers, map[], map[], map[], map[])
  }

  /******* What a tick does to one peer *******/

  lemma ScanOneFrame(b: Member, p: string, q: string)
    ensures var b' := ScanOne(b, p);
      && SameButStatus(b, b')
      && (q != p ==> StatusOf(b', q) == StatusOf(b, q) && Count(b'.suspectSince, q) == Count(b.suspectSince, q))
  {
  }

  ghost predicate SameButStatus(b: Member, b': Member) {
    && b'.tick == b.tick && b'.lastSeen == b.lastSeen && b'.peers == b.peers && b'.id == b.id
    && b'.incarnation == b.incarnation
  }

  /** What one look does to a peer's status and the start of its suspicion. */
  function Entry(b: Member, q: string): (Status, nat) {
    (StatusOf(b, q), Count(b.suspectSince, q))
  }

  lemma ScanOneEntry(b: Member, b': Member, q: string)
    requires SameButStatus(b, b')
    ensures Entry(b', q) == Entry(b, q) ==> Entry(ScanOne(b', q), q) == Entry(ScanOne(b, q), q)
    ensures Entry(b', q) == Entry(ScanOne(b, q), q) ==> Entry(ScanOne(b', q), q) == Entry(ScanOne(b, q), q)
  {
  }

  lemma {:induction false} ScanEntry(b: Member, ps: seq<string>, q: string)
    ensures SameButStatus(b, Scan(b, ps))
    ensures Entry(Scan(b, ps), q) == Entry(if q in ps then ScanOne(b, q) else b, q)
    decreases |ps|
  {
    if ps != [] {
      var init, p := ps[..|ps|-1], ps[|ps|-1];
      assert ps == init + [p];
      ScanEntry(b, init, q);
      ScanOneFrame(Scan(b, init), p, q);
      ScanOneEntry(b, Scan(b, init), q);
      assert q in ps <==> q in init || q == p;
    }
  }

  lemma {:induction false} DeclaredOnce(b: Member, ps: seq<string>, q: string)
    ensures multiset(Declared(b, ps))[q] == if q in ps && BecomesDead(b, q) then 1 else 0
    decreases |ps|
  {
    if ps != [] {
      var init, p := ps[..|ps|-1], ps[|ps|-1];
      assert ps == init + [p];
      DeclaredOnce(b, init, q);
      ScanEntry(b, init, p);
      assert q in ps <==> q in init || q == p;
      var more := if BecomesDead(Scan(b, init), p) then [p] else [];
      assert multiset(Declared(b, ps))[q] == multiset(Declared(b, init))[q] + multiset(more)[q];
      assert p in init ==> !BecomesDead(Scan(b, init), p);
      assert p !in init ==> (BecomesDead(Scan(b, init), p) <==> BecomesDead(b, p));
    }
  }

  /** Whatever else is scanned, in whatever order and however often, a peer's entry moves
      exactly as one look at it would move it, and it is declared dead at most once. */
  lemma ScanIsPerPeer(b: Member, ps: seq<string>, q: string)
    ensures var b' := Scan(b, ps);
      && SameButStatus(b, b')
      && StatusOf(b', q) == StatusOf(if q in ps then ScanOne(b, q) else b, q)
      && Count(b'.suspectSince, q) == Count((if q in ps then ScanOne(b, q) else b).suspectSince, q)
      && multiset(Declared(b, ps))[q] == if q in ps && BecomesDead(b, q) then 1 else 0
  {
    ScanEntry(b, ps, q);
    DeclaredOnce(b, ps, q);
  }
}
