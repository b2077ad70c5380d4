/** Exactly when Compute's result is the same for every iteration order of the node maps and
    every permutation of the snapshots. */
module MapOrder {
  import opened Options
  import opened MostCommon
  import opened Metrics
  import opened ComputeMetrics

  /******* Iteration orders realise every arrangement of states *******/

  lemma {:induction false} AnOrder(nodes: Nodes, keys: set<string>) returns (order: seq<string>)
    requires keys <= nodes.Keys
    ensures PartOrder(nodes, order) && forall n :: n in keys <==> n in order
    decreases |keys|
  {
    if keys == {} {
      order := [];
    } else {
      var x :| x in keys;
      var rest := AnOrder(nodes, keys - {x});
      order := rest + [x];
    }
  }

  function Except(order: seq<string>, i: nat): (rest: seq<string>)
    requires i < |order|
    ensures |rest| == |order| - 1
    ensures forall j :: 0 <= j < |rest| ==> rest[j] == if j < i then order[j] else order[j+1]
  {
    order[..i] + order[i+1..]
  }

  /** Visiting all but one of the nodes of an order. */
  lemma Drop(nodes: Nodes, order: seq<string>, i: nat)
    requires PartOrder(nodes, order) && i < |order|
    ensures PartOrder(nodes, Except(order, i)) && order[i] !in Except(order, i)
    ensures forall n :: n in order <==> n in Except(order, i) || n == order[i]
  {
    assert order == order[..i] + [order[i]] + order[i+1..];
  }

  lemma MultisetExcept(a: seq<NodeState>, b: seq<NodeState>, i: nat)
    requires i < |a| == |b| + 1 && a[..i] == b[..i] && a[i+1..] == b[i..]
    ensures multiset(a) == multiset(b) + multiset{a[i]}
  {
    assert a == a[..i] + [a[i]] + a[i+1..] && b == b[..i] + b[i..];
  }

  lemma DropCounts(nodes: Nodes, order: seq<string>, i: nat)
    requires PartOrder(nodes, order) && i < |order| && PartOrder(nodes, Except(order, i))
    ensures multiset(StatesIn(nodes, order)) == multiset(StatesIn(nodes, Except(order, i))) + multiset{nodes[order[i]]}
  {
    MultisetExcept(StatesIn(nodes, order), StatesIn(nodes, Except(order, i)), i);
  }

  lemma FrontCounts(states: seq<NodeState>, m: multiset<NodeState>)
    requires states != [] && multiset(states) == m + multiset{states[|states|-1]}
    ensures multiset(states[..|states|-1]) == m
  {
    var x := states[|states|-1];
    assert states == states[..|states|-1] + [x];
    assert (m + multiset{x}) - multiset{x} == m;
    assert (multiset(states[..|states|-1]) + multiset{x}) - multiset{x} == multiset(states[..|states|-1]);
  }

  /** Any arrangement of the nodes' states comes from visiting the nodes in some order. */
  lemma {:induction false} Realise(nodes: Nodes, order: seq<string>, states: seq<NodeState>)
    returns (found: seq<string>)
    requires PartOrder(nodes, order) && SameCounts(states, StatesIn(nodes, order))
    ensures PartOrder(nodes, found) && (forall n :: n in found <==> n in order) && StatesIn(nodes, found) == states
    decreases |order|
  {
    assert |multiset(states)| == |multiset(StatesIn(nodes, order))|;
    if states == [] {
      found := [];
    } else {
      var x := states[|states|-1];
      assert x in multiset(states);
      assert x in multiset(StatesIn(nodes, order));
      var i :| 0 <= i < |order| && nodes[order[i]] == x;
      Drop(nodes, order, i);
      DropCounts(nodes, order, i);
      var rest := Except(order, i);
      FrontCounts(states, multiset(StatesIn(nodes, rest)));
      var front := Realise(nodes, rest, states[..|states|-1]);
      found := AppendNode(nodes, front, order[i], states);
    }
  }

  lemma AppendNode(nodes: Nodes, front: seq<string>, x: string, states: seq<NodeState>) returns (order: seq<string>)
    requires PartOrder(nodes, front) && x in nodes && x !in front && states != []
    requires StatesIn(nodes, front) == states[..|states|-1] && nodes[x] == states[|states|-1]
    ensures order == front + [x] && PartOrder(nodes, order) && StatesIn(nodes, order) == states
  {
    order := front + [x];
    assert order[..|order|-1] == front;
    assert PartOrder(nodes, order);
    OrderLast(nodes, order);
  }

  /** Every state that qualifies as mode can be the one returned. */
  lemma QualifiedMayBeMode(nodes: Nodes, order: seq<string>, mode: NodeState, n: nat)
    requires IsOrder(nodes, order) && IsMode(StatesIn(nodes, order), mode, n)
    ensures MayBeMode(nodes, mode, n)
  {
    ModeCanBeAny(StatesIn(nodes, order), mode, n);
    var found := Realise(nodes, order, FirstOf(StatesIn(nodes, order), mode));
    assert IsOrder(nodes, found);
    assert mode in StatesIn(nodes, order);
  }

  lemma SomeMode(nodes: Nodes) returns (mode: NodeState, n: nat)
    ensures MayBeMode(nodes, mode, n)
  {
    if nodes == map[] {
      mode, n := ZERO_STATE, 0;
    } else {
      var order := AnOrder(nodes, nodes.Keys);
      assert IsOrder(nodes, order);
      mode, n := Mode(StatesIn(nodes, order)).0, Mode(StatesIn(nodes, order)).1;
      assert Mode(StatesIn(nodes, order)) == (mode, n);
    }
  }

  lemma {:induction false} SomeModes(ordered: seq<Snapshot>, len: nat) returns (modes: seq<(NodeState, nat)>)
    requires len <= |ordered|
    ensures |modes| == len && ValidModes(ordered, modes)
    decreases len
  {
    if len == 0 {
      modes := [];
    } else {
      var front := SomeModes(ordered, len - 1);
      var mode, n := SomeMode(ordered[len-1].nodes);
      modes := front + [(mode, n)];
    }
  }

  /******* What another mode changes *******/

  /** The gaps after those of the first |modes| snapshots in which the node differs from the mode. */
  function StaleTime(ordered: seq<Snapshot>, modes: seq<(NodeState, nat)>, x: string): int
    requires |modes| <= |ordered|
  {
    if modes == [] then 0
    else
      var i := |modes| - 1;
      StaleTime(ordered, modes[..i], x) + StaleGap(ordered, i, modes[i].0, x)
  }

  function StaleGap(ordered: seq<Snapshot>, i: nat, mode: NodeState, x: string): int
    requires i < |ordered|
  {
    if i + 1 < |ordered| && x in ordered[i].nodes && ordered[i].nodes[x] != mode
    then ordered[i+1].time - ordered[i].time
    else 0
  }

  lemma ExtendStale(r: Result, ordered: seq<Snapshot>, i: nat, mode: NodeState, n: nat, x: string)
    requires i < |ordered| && Sorted(ordered)
    ensures Stale(Extend(r, ordered, i, mode, n).staleDurationPerNode, x) ==
            Stale(r.staleDurationPerNode, x) + StaleGap(ordered, i, mode, x)
  {
  }

  /** StaleDurationPerNode holds, for every node, exactly the time it differed from the mode. */
  lemma {:induction false} StaleDurationMeans(ordered: seq<Snapshot>, modes: seq<(NodeState, nat)>, x: string)
    requires |modes| <= |ordered| && Sorted(ordered)
    ensures Stale(Reduce(ordered, modes).staleDurationPerNode, x) == StaleTime(ordered, modes, x)
    decreases |modes|
  {
    if modes != [] {
      var i := |modes| - 1;
      StaleDurationMeans(ordered, modes[..i], x);
      ExtendStale(Reduce(ordered, modes[..i]), ordered, i, modes[i].0, modes[i].1, x);
    }
  }

  /** Replacing the mode a node holds by another one adds that gap to the node's staleness. */
  lemma {:induction false} OtherModeShifts(
    ordered: seq<Snapshot>, modes: seq<(NodeState, nat)>, i: nat, other: (NodeState, nat), x: string)
    requires i < |modes| <= |ordered| && i + 1 < |ordered| && Sorted(ordered)
    requires x in ordered[i].nodes && ordered[i].nodes[x] == modes[i].0 && ordered[i].nodes[x] != other.0
    ensures StaleTime(ordered, modes[i := other], x) == StaleTime(ordered, modes, x) + Gap(ordered, i)
    decreases |modes|
  {
    var last, swapped := |modes| - 1, modes[i := other];
    if i < last {
      assert swapped[..last] == modes[..last][i := other] && swapped[last] == modes[last];
      OtherModeShifts(ordered, modes[..last], i, other, x);
    } else {
      assert swapped[..last] == modes[..last];
    }
  }

  /******* Times *******/

  /** At most one snapshot per time. */
  ghost predicate OnePerTime(s: seq<Snapshot>) {
    forall t :: |AtTime(s, t)| <= 1
  }

  lemma {:induction false} AtTimeOne(s: seq<Snapshot>, i: nat)
    requires i < |s|
    ensures |AtTime(s, s[i].time)| >= 1
    decreases |s|
  {
    if i < |s| - 1 {
      AtTimeOne(s[..|s|-1], i);
    }
  }

  lemma {:induction false} AtTimeTwo(s: seq<Snapshot>, i: nat, j: nat)
    requires i < j < |s| && s[i].time == s[j].time
    ensures |AtTime(s, s[i].time)| >= 2
    decreases |s|
  {
    if j < |s| - 1 {
      AtTimeTwo(s[..|s|-1], i, j);
    } else {
      AtTimeOne(s[..|s|-1], i);
    }
  }

  lemma OnePerTimeIdentifies(s: seq<Snapshot>)
    requires OnePerTime(s)
    ensures TimesIdentify(s)
  {
    forall a, b | a in s && b in s && a.time == b.time ensures a == b {
      var i :| 0 <= i < |s| && s[i] == a;
      var j :| 0 <= j < |s| && s[j] == b;
      if i < j {
        AtTimeTwo(s, i, j);
      } else if j < i {
        AtTimeTwo(s, j, i);
      }
    }
  }

  lemma GapsPositive(s: seq<Snapshot>, i: nat)
    requires OnePerTime(s) && i + 1 < |StableSort(s)|
    ensures Gap(StableSort(s), i) > 0
  {
    var ordered := StableSort(s);
    SortKeepsLength(s);
    assert ordered[i].time <= ordered[i+1].time;
    if ordered[i].time == ordered[i+1].time {
      AtTimeTwo(ordered, i, i + 1);
      StableSortSorts(s, ordered[i].time);
    }
  }

  /******* The exact condition *******/

  /** Every snapshot but the latest has an unambiguous mode. */
  ghost predicate UnambiguousBeforeLast(s: seq<Snapshot>) {
    forall i :: 0 <= i < |StableSort(s)| - 1 ==> Unambiguous(StableSort(s)[i].nodes)
  }

  /** Whatever the permutation and the iteration orders, there is one result. */
  ghost predicate Determined(s: seq<Snapshot>) {
    forall q, modes, modes', r, r' ::
      multiset(q) == multiset(s) && IsOutcome(s, modes, r) && IsOutcome(q, modes', r') ==> r == r'
  }

  lemma AmbiguousSplits(s: seq<Snapshot>, i: nat)
    requires OnePerTime(s) && i + 1 < |StableSort(s)| && !Unambiguous(StableSort(s)[i].nodes)
    ensures !Determined(s)
  {
    var ordered := StableSort(s);
    var nodes := ordered[i].nodes;
    var a, b, n, x := Tie(nodes);
    var any := SomeModes(ordered, |ordered|);
    var modes := any[i := (a, n)];
    SwapValid(ordered, any, i, (a, n));
    SwapValid(ordered, modes, i, (b, n));
    GapsPositive(s, i);
    SortKeepsLength(s);
    Differ(ordered, modes, i, (b, n), x);
    NotDetermined(s, modes, modes[i := (b, n)]);
  }

  lemma Tie(nodes: Nodes) returns (a: NodeState, b: NodeState, n: nat, x: string)
    requires !Unambiguous(nodes)
    ensures a != b && MayBeMode(nodes, a, n) && MayBeMode(nodes, b, n) && x in nodes && nodes[x] == a
  {
    var order :| IsOrder(nodes, order) && Ambiguous(StatesIn(nodes, order));
    a, b, n, x := TwoModes(nodes, order);
  }

  lemma SwapValid(ordered: seq<Snapshot>, modes: seq<(NodeState, nat)>, i: nat, other: (NodeState, nat))
    requires ValidModes(ordered, modes) && i < |modes| && MayBeMode(ordered[i].nodes, other.0, other.1)
    ensures ValidModes(ordered, modes[i := other])
  {
  }

  lemma NotDetermined(s: seq<Snapshot>, modes: seq<(NodeState, nat)>, modes': seq<(NodeState, nat)>)
    requires |modes| == |modes'| == |StableSort(s)|
    requires ValidModes(StableSort(s), modes) && ValidModes(StableSort(s), modes')
    requires Conclude(StableSort(s), modes) != Conclude(StableSort(s), modes')
    ensures !Determined(s)
  {
    assert IsOutcome(s, modes, Conclude(StableSort(s), modes));
    assert IsOutcome(s, modes', Conclude(StableSort(s), modes'));
  }

  /** Two different modes of an ambiguous snapshot, and a node holding the first. */
  lemma TwoModes(nodes: Nodes, order: seq<string>) returns (a: NodeState, b: NodeState, n: nat, x: string)
    requires IsOrder(nodes, order) && Ambiguous(StatesIn(nodes, order))
    ensures a != b && MayBeMode(nodes, a, n) && MayBeMode(nodes, b, n) && x in nodes && nodes[x] == a
  {
    a, b, n := PickModes(StatesIn(nodes, order));
    QualifiedMayBeMode(nodes, order, a, n);
    QualifiedMayBeMode(nodes, order, b, n);
    x := HolderOf(nodes, order, a);
  }

  lemma PickModes(states: seq<NodeState>) returns (a: NodeState, b: NodeState, n: nat)
    requires Ambiguous(states)
    ensures a != b && IsMode(states, a, n) && IsMode(states, b, n) && a in states
  {
    a, b, n :| a != b && IsMode(states, a, n) && IsMode(states, b, n);
  }

  lemma HolderOf(nodes: Nodes, order: seq<string>, a: NodeState) returns (x: string)
    requires PartOrder(nodes, order) && a in StatesIn(nodes, order)
    ensures x in nodes && nodes[x] == a
  {
    var k :| 0 <= k < |order| && StatesIn(nodes, order)[k] == a;
    x := order[k];
    assert x in order;
  }

  lemma Differ(ordered: seq<Snapshot>, modes: seq<(NodeState, nat)>, i: nat, other: (NodeState, nat), x: string)
    requires i + 1 < |ordered| == |modes| && Gap(ordered, i) > 0 && Sorted(ordered)
    requires x in ordered[i].nodes && ordered[i].nodes[x] == modes[i].0 && ordered[i].nodes[x] != other.0
    ensures Conclude(ordered, modes) != Conclude(ordered, modes[i := other])
  {
    OtherModeShifts(ordered, modes, i, other, x);
    StaleDurationMeans(ordered, modes, x);
    StaleDurationMeans(ordered, modes[i := other], x);
    var r, r' := Conclude(ordered, modes), Conclude(ordered, modes[i := other]);
    assert Stale(r.staleDurationPerNode, x) != Stale(r'.staleDurationPerNode, x);
  }

  /** Extending by a snapshot with an unambiguous mode, or by the latest, leaves no choice. */
  lemma {:induction false} NoChoice(ordered: seq<Snapshot>, modes: seq<(NodeState, nat)>, modes': seq<(NodeState, nat)>)
    requires ValidModes(ordered, modes) && ValidModes(ordered, modes') && |modes| == |modes'|
    requires forall i :: 0 <= i < |ordered| - 1 ==> Unambiguous(ordered[i].nodes)
    ensures Reduce(ordered, modes) == Reduce(ordered, modes')
    decreases |modes|
  {
    if modes != [] {
      var i := |modes| - 1;
      NoChoice(ordered, modes[..i], modes'[..i]);
      ModeUnique(ordered[i].nodes, modes[i].0, modes[i].1, modes'[i].0, modes'[i].1);
    }
  }

  lemma SameOutcome(
    s: seq<Snapshot>, q: seq<Snapshot>,
    modes: seq<(NodeState, nat)>, modes': seq<(NodeState, nat)>, r: Result, r': Result)
    requires TimesIdentify(s) && UnambiguousBeforeLast(s) && multiset(q) == multiset(s)
    requires IsOutcome(s, modes, r) && IsOutcome(q, modes', r')
    ensures r == r'
  {
    SortUnique(s, q);
    var ordered := StableSort(s);
    NoChoice(ordered, modes, modes');
    if ordered != [] {
      var i := |ordered| - 1;
      ModeUnique(ordered[i].nodes, modes[i].0, modes[i].1, modes'[i].0, modes'[i].1);
    }
  }

  lemma UnambiguousDetermines(s: seq<Snapshot>)
    requires OnePerTime(s) && UnambiguousBeforeLast(s)
    ensures Determined(s)
  {
    OnePerTimeIdentifies(s);
    forall q, modes, modes', r, r' |
      multiset(q) == multiset(s) && IsOutcome(s, modes, r) && IsOutcome(q, modes', r') ensures r == r'
    {
      SameOutcome(s, q, modes, modes', r, r');
    }
  }

  /** For snapshots at distinct times: Compute gives one result for every permutation of them
      and every iteration order of the node maps if and only if no snapshot but the latest has
      two different states tying for the mode. */
  lemma DeterminedExactly(s: seq<Snapshot>)
    requires OnePerTime(s)
    ensures Determined(s) <==> UnambiguousBeforeLast(s)
  {
    if UnambiguousBeforeLast(s) {
      UnambiguousDetermines(s);
    } else {
      var i :| 0 <= i < |StableSort(s)| - 1 && !Unambiguous(StableSort(s)[i].nodes);
      AmbiguousSplits(s, i);
    }
  }
}
