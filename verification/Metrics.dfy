/** The metrics reduction: divergence, staleness and agreement over a list of snapshots. */
module Metrics {
  import opened Options
  import opened MostCommon

  datatype Snapshot = Snapshot(time: int, nodes: Nodes)

  datatype Result = Result(
    convergenceTime: Option<int>,
    firstAgreementTime: Option<int>,
    finalConsistent: bool,
    peakDivergence: int,
    areaUnderDivergence: int,
    divergenceOverTime: seq<(int, int)>,
    staleDurationPerNode: map<string, int>
  )

  const EMPTY_RESULT := Result(None, None, false, 0, 0, [], map[])

  /******* Iterating a node map *******/

  ghost predicate PartOrder(nodes: Nodes, order: seq<string>) {
    && (forall n :: n in order ==> n in nodes)
    && (forall i, j :: 0 <= i < j < |order| ==> order[i] != order[j])
  }

  /** An order in which a map iteration may visit all nodes. */
  ghost predicate IsOrder(nodes: Nodes, order: seq<string>) {
    PartOrder(nodes, order) && forall n :: n in nodes ==> n in order
  }

  ghost function StatesIn(nodes: Nodes, order: seq<string>): (r: seq<NodeState>)
    requires PartOrder(nodes, order)
    ensures |r| == |order| && forall i :: 0 <= i < |r| ==> r[i] == nodes[order[i]]
  {
    seq(|order|, i requires 0 <= i < |order| => nodes[order[i]])
  }

  ghost function Holders(nodes: Nodes, s: NodeState): set<string> {
    set n | n in nodes && nodes[n] == s
  }

  /** Nodes whose state is not the mode. */
  function StaleNodes(nodes: Nodes, mode: NodeState): set<string> {
    set n | n in nodes && nodes[n] != mode
  }

  /** Visiting one more node. */
  lemma OrderLast(nodes: Nodes, order: seq<string>)
    requires PartOrder(nodes, order) && order != []
    ensures var init, x := order[..|order|-1], order[|order|-1];
      && PartOrder(nodes, init) && x !in init && x in nodes
      && StatesIn(nodes, order) == StatesIn(nodes, init) + [nodes[x]]
  {
    var init, x := order[..|order|-1], order[|order|-1];
    assert order == init + [x];
    assert forall i :: 0 <= i < |init| ==> init[i] == order[i];
  }

  ghost function HoldersIn(nodes: Nodes, order: seq<string>, s: NodeState): set<string>
    requires PartOrder(nodes, order)
  {
    set n | n in order && nodes[n] == s
  }

  lemma {:induction false} CountIsHolders(nodes: Nodes, order: seq<string>, s: NodeState)
    requires PartOrder(nodes, order)
    ensures Count(StatesIn(nodes, order), s) == |HoldersIn(nodes, order, s)|
    decreases |order|
  {
    if order == [] {
      assert HoldersIn(nodes, order, s) == {};
    } else {
      var init, x := order[..|order|-1], order[|order|-1];
      assert order == init + [x];
      OrderLast(nodes, order);
      CountIsHolders(nodes, init, s);
      var holders := HoldersIn(nodes, init, s);
      assert HoldersIn(nodes, order, s) == if nodes[x] == s then holders + {x} else holders;
    }
  }

  /** Every order counts the same. */
  lemma OrdersCountAlike(nodes: Nodes, p: seq<string>, q: seq<string>)
    requires IsOrder(nodes, p) && IsOrder(nodes, q)
    ensures SameCounts(StatesIn(nodes, p), StatesIn(nodes, q))
  {
    var a, b := multiset(StatesIn(nodes, p)), multiset(StatesIn(nodes, q));
    forall s ensures a[s] == b[s] {
      CountIsHolders(nodes, p, s);
      CountIsHolders(nodes, q, s);
      assert HoldersIn(nodes, p, s) == HoldersIn(nodes, q, s);
    }
    assert a == b;
  }

  /** A result mostCommonState may return for the map: the loop's answer in some order. */
  ghost predicate MayBeMode(nodes: Nodes, mode: NodeState, n: nat) {
    if nodes == map[] then (mode, n) == (ZERO_STATE, 0)
    else exists order :: IsOrder(nodes, order) && Mode(StatesIn(nodes, order)) == (mode, n)
  }

  lemma HoldersAndStale(nodes: Nodes, mode: NodeState)
    ensures |nodes| == |Holders(nodes, mode)| + |StaleNodes(nodes, mode)|
    ensures StaleNodes(nodes, mode) == {} ==> forall x :: x in nodes ==> nodes[x] == mode
  {
    assert Holders(nodes, mode) + StaleNodes(nodes, mode) == nodes.Keys;
    assert Holders(nodes, mode) !! StaleNodes(nodes, mode);
    if StaleNodes(nodes, mode) == {} {
      forall y | y in nodes ensures nodes[y] == mode {
        assert y !in StaleNodes(nodes, mode);
      }
    }
  }

  lemma ModeCountsHolders(nodes: Nodes, order: seq<string>)
    requires nodes != map[] && IsOrder(nodes, order)
    ensures var (mode, n) := Mode(StatesIn(nodes, order)); n == |Holders(nodes, mode)| && n > 0
  {
    var (mode, n) := Mode(StatesIn(nodes, order));
    var x :| x in nodes;
    assert x in order;
    ModeIsMode(StatesIn(nodes, order));
    CountIsHolders(nodes, order, mode);
    assert HoldersIn(nodes, order, mode) == Holders(nodes, mode);
    assert mode in multiset(StatesIn(nodes, order));
  }

  /** The returned count is exact: the others are the stale nodes. */
  lemma ModeCountExact(nodes: Nodes, mode: NodeState, n: nat)
    requires MayBeMode(nodes, mode, n)
    ensures |nodes| == n + |StaleNodes(nodes, mode)|
    ensures nodes != map[] ==> n > 0
    ensures n == |nodes| ==> forall x :: x in nodes ==> nodes[x] == mode
  {
    if nodes == map[] {
      assert StaleNodes(nodes, mode) == {};
    } else {
      var order :| IsOrder(nodes, order) && Mode(StatesIn(nodes, order)) == (mode, n);
      ModeCountsHolders(nodes, order);
      HoldersAndStale(nodes, mode);
    }
  }

  /** No two different states of the snapshot tie for the mode. */
  ghost predicate Unambiguous(nodes: Nodes) {
    forall order :: IsOrder(nodes, order) ==> !Ambiguous(StatesIn(nodes, order))
  }

  /** Counts never depend on the iteration order; the mode does not if it is unambiguous. */
  lemma ModeUnique(nodes: Nodes, a: NodeState, n: nat, b: NodeState, m: nat)
    requires MayBeMode(nodes, a, n) && MayBeMode(nodes, b, m)
    ensures n == m
    ensures Unambiguous(nodes) ==> a == b
  {
    if nodes != map[] {
      var p :| IsOrder(nodes, p) && Mode(StatesIn(nodes, p)) == (a, n);
      var q :| IsOrder(nodes, q) && Mode(StatesIn(nodes, q)) == (b, m);
      var x :| x in nodes;
      assert x in p && x in q;
      OrdersCountAlike(nodes, p, q);
      ModeIsMode(StatesIn(nodes, p));
      ModeIsMode(StatesIn(nodes, q));
      ModeByCounts(StatesIn(nodes, q), StatesIn(nodes, p), b, m);
      ModesAlike(StatesIn(nodes, p), a, n, b, m);
      if Unambiguous(nodes) {
        assert !Ambiguous(StatesIn(nodes, p));
      }
    }
  }

  /** The loop's state after visiting `order`. */
  ghost predicate Tallied(nodes: Nodes, order: seq<string>, counts: map<NodeState, nat>, mode: NodeState, n: nat) {
    && PartOrder(nodes, order)
    && (forall s :: CountIn(counts, s) == Count(StatesIn(nodes, order), s))
    && Mode(StatesIn(nodes, order)) == (mode, n)
  }

  function CountIn(counts: map<NodeState, nat>, s: NodeState): nat {
    if s in counts then counts[s] else 0
  }

  /** What visiting one more node does to the order and to the counts. */
  lemma VisitNode(nodes: Nodes, order: seq<string>, x: string)
    requires PartOrder(nodes, order) && x in nodes && x !in order
    ensures PartOrder(nodes, order + [x])
    ensures StatesIn(nodes, order + [x]) == StatesIn(nodes, order) + [nodes[x]]
  {
    var next := order + [x];
    assert PartOrder(nodes, next);
    assert next[..|next|-1] == order;
    OrderLast(nodes, next);
  }

  lemma CountOneMore(states: seq<NodeState>, x: NodeState, counts: map<NodeState, nat>, s: NodeState)
    requires forall y :: CountIn(counts, y) == Count(states, y)
    ensures CountIn(counts[x := CountIn(counts, x) + 1], s) == Count(states + [x], s)
  {
    assert CountIn(counts, s) == Count(states, s);
  }

  lemma ModeOneMore(states: seq<NodeState>, x: NodeState)
    ensures
      var best, n := Mode(states), Count(states, x) + 1;
      Mode(states + [x]) == if n > best.1 || (n == best.1 && LessState(x, best.0)) then (x, n) else best
  {
    assert (states + [x])[..|states|] == states;
    assert Count(states + [x], x) == Count(states, x) + 1;
  }

  lemma TallyOne(nodes: Nodes, order: seq<string>, x: string, counts: map<NodeState, nat>, mode: NodeState, n: nat)
    requires Tallied(nodes, order, counts, mode, n) && x in nodes && x !in order
    ensures
      var state := nodes[x];
      var count := CountIn(counts, state) + 1;
      if count > n || (count == n && LessState(state, mode))
      then Tallied(nodes, order + [x], counts[state := count], state, count)
      else Tallied(nodes, order + [x], counts[state := count], mode, n)
  {
    var state, states := nodes[x], StatesIn(nodes, order);
    var counts' := counts[state := CountIn(counts, state) + 1];
    VisitNode(nodes, order, x);
    ModeOneMore(states, state);
    forall s ensures CountIn(counts', s) == Count(StatesIn(nodes, order + [x]), s) {
      CountOneMore(states, state, counts, s);
    }
  }

  method MostCommonState(nodes: Nodes) returns (mode: NodeState, n: nat)
    ensures MayBeMode(nodes, mode, n)
  {
    mode, n := ZERO_STATE, 0;
    var counts: map<NodeState, nat> := map[];
    var rest := nodes.Keys;
    ghost var order: seq<string> := [];
    while rest != {}
      invariant rest <= nodes.Keys && forall x :: x in nodes ==> (x in order <==> x !in rest)
      invariant Tallied(nodes, order, counts, mode, n)
      decreases |rest|
    {
      var x :| x in rest;
      TallyOne(nodes, order, x, counts, mode, n);
      rest := rest - {x};
      order := order + [x];
      var state := nodes[x];
      var count := CountIn(counts, state) + 1;
      counts := counts[state := count];
      if count > n || (count == n && LessState(state, mode)) {
        mode, n := state, count;
      }
    }
    if nodes != map[] {
      assert IsOrder(nodes, order);
    }
  }

  method AllNodesExist(nodes: Nodes) returns (r: bool)
    ensures r == AllExist(nodes)
    ensures r ==> nodes != map[] && forall n :: n in nodes ==> nodes[n].exists_
    ensures !r ==> nodes == map[] || exists n :: n in nodes && !nodes[n].exists_
  {
    if nodes == map[] {
      return false;
    }
    var rest := nodes.Keys;
    while rest != {}
      invariant rest <= nodes.Keys && forall n :: n in nodes && n !in rest ==> nodes[n].exists_
      decreases |rest|
    {
      var n :| n in rest;
      rest := rest - {n};
      if !nodes[n].exists_ {
        return false;
      }
    }
    return true;
  }

  predicate AllExist(nodes: Nodes) {
    nodes != map[] && forall n :: n in nodes ==> nodes[n].exists_
  }

  /******* Staleness *******/

  function Stale(m: map<string, int>, n: string): int {
    if n in m then m[n] else 0
  }

  function AddStale(m: map<string, int>, nodes: set<string>, delta: int): map<string, int> {
    map n | n in m.Keys + nodes :: Stale(m, n) + (if n in nodes then delta else 0)
  }

  /** Sum of all durations in the map. */
  ghost function Total(m: map<string, int>): int
    decreases |m.Keys|
  {
    if m == map[] then 0
    else
      var n :| n in m;
      assert |(m - {n}).Keys| < |m.Keys| by { assert m.Keys == (m - {n}).Keys + {n}; }
      m[n] + Total(m - {n})
  }

  lemma {:induction false} TotalSplit(m: map<string, int>, n: string)
    requires n in m
    ensures Total(m) == m[n] + Total(m - {n})
    decreases |m.Keys|
  {
    var k :| k in m && Total(m) == m[k] + Total(m - {k});
    if k != n {
      assert m.Keys == (m - {k}).Keys + {k} && m.Keys == (m - {n}).Keys + {n};
      TotalSplit(m - {k}, n);
      TotalSplit(m - {n}, k);
      assert m - {k} - {n} == m - {n} - {k};
    }
  }

  lemma TotalUpdate(m: map<string, int>, n: string, v: int)
    ensures Total(m[n := v]) == Total(m) - Stale(m, n) + v
  {
    TotalSplit(m[n := v], n);
    assert m[n := v] - {n} == m - {n};
    if n in m {
      TotalSplit(m, n);
    } else {
      assert m - {n} == m;
    }
  }

  lemma AddStaleOne(m: map<string, int>, nodes: set<string>, n: string, delta: int)
    requires n !in nodes
    ensures Stale(AddStale(m, nodes, delta), n) == Stale(m, n)
    ensures AddStale(m, nodes + {n}, delta) == AddStale(m, nodes, delta)[n := Stale(m, n) + delta]
  {
    var a, b := AddStale(m, nodes + {n}, delta), AddStale(m, nodes, delta)[n := Stale(m, n) + delta];
    assert a.Keys == b.Keys;
    assert forall x :: x in a ==> a[x] == b[x];
  }

  lemma TotalAddOne(m: map<string, int>, nodes: set<string>, n: string, delta: int)
    requires n !in nodes
    ensures Total(AddStale(m, nodes + {n}, delta)) == Total(AddStale(m, nodes, delta)) + delta
  {
    AddStaleOne(m, nodes, n, delta);
    TotalUpdate(AddStale(m, nodes, delta), n, Stale(m, n) + delta);
  }

  lemma {:induction false} TotalAfterAdd(m: map<string, int>, nodes: set<string>, delta: int)
    ensures Total(AddStale(m, nodes, delta)) == Total(m) + |nodes| * delta
    decreases |nodes|
  {
    if nodes == {} {
      assert AddStale(m, nodes, delta) == m;
    } else {
      var n :| n in nodes;
      var rest := nodes - {n};
      assert nodes == rest + {n} && |nodes| == |rest| + 1;
      TotalAddOne(m, rest, n, delta);
      TotalAfterAdd(m, rest, delta);
      OneMore(|rest|, delta);
    }
  }

  lemma OneMore(n: int, delta: int)
    ensures (n + 1) * delta == n * delta + delta
  {
  }

  function StaleSoFar(nodes: Nodes, mode: NodeState, rest: set<string>): set<string> {
    set n | n in nodes && n !in rest && nodes[n] != mode
  }

  lemma MarkOne(m: map<string, int>, nodes: Nodes, mode: NodeState, rest: set<string>, n: string, delta: int)
    requires n in nodes && n in rest
    ensures
      var a := AddStale(m, StaleSoFar(nodes, mode, rest), delta);
      AddStale(m, StaleSoFar(nodes, mode, rest - {n}), delta) ==
        if nodes[n] != mode then a[n := Stale(a, n) + delta] else a
  {
    var done := StaleSoFar(nodes, mode, rest);
    assert StaleSoFar(nodes, mode, rest - {n}) == if nodes[n] != mode then done + {n} else done;
    AddStaleOne(m, done, n, delta);
  }

  lemma MarkEnds(m: map<string, int>, nodes: Nodes, mode: NodeState, delta: int)
    ensures AddStale(m, StaleSoFar(nodes, mode, nodes.Keys), delta) == m
    ensures StaleSoFar(nodes, mode, {}) == StaleNodes(nodes, mode)
  {
    assert StaleSoFar(nodes, mode, nodes.Keys) == {};
  }

  method MarkStale(m: map<string, int>, nodes: Nodes, mode: NodeState, delta: int) returns (r: map<string, int>)
    ensures r == AddStale(m, StaleNodes(nodes, mode), delta)
  {
    r := m;
    var rest := nodes.Keys;
    MarkEnds(m, nodes, mode, delta);
    while rest != {}
      invariant rest <= nodes.Keys
      invariant r == AddStale(m, StaleSoFar(nodes, mode, rest), delta)
      decreases |rest|
    {
      var n :| n in rest;
      MarkOne(m, nodes, mode, rest, n, delta);
      rest := rest - {n};
      if nodes[n] != mode {
        r := r[n := Stale(r, n) + delta];
      }
    }
  }

  /******* Sorting by time *******/

  predicate Sorted(s: seq<Snapshot>) {
    forall i, j :: 0 <= i < j < |s| ==> s[i].time <= s[j].time
  }

  /** Place a snapshot behind every snapshot that is not later. */
  function Insert(s: seq<Snapshot>, x: Snapshot): seq<Snapshot> {
    if s == [] || s[|s|-1].time <= x.time then s + [x]
    else Insert(s[..|s|-1], x) + [s[|s|-1]]
  }

  function StableSort(s: seq<Snapshot>): seq<Snapshot> {
    if s == [] then [] else Insert(StableSort(s[..|s|-1]), s[|s|-1])
  }

  function AtTime(s: seq<Snapshot>, t: int): seq<Snapshot> {
    if s == [] then [] else AtTime(s[..|s|-1], t) + if s[|s|-1].time == t then [s[|s|-1]] else []
  }

  lemma {:induction false} InsertPermutes(s: seq<Snapshot>, x: Snapshot)
    ensures multiset(Insert(s, x)) == multiset(s) + multiset{x}
    decreases |s|
  {
    if s != [] && s[|s|-1].time > x.time {
      InsertPermutes(s[..|s|-1], x);
      assert s == s[..|s|-1] + [s[|s|-1]];
    }
  }

  lemma {:induction false} InsertSorts(s: seq<Snapshot>, x: Snapshot, bound: int)
    requires Sorted(s) && (forall y :: y in s ==> y.time <= bound) && x.time <= bound
    ensures Sorted(Insert(s, x)) && forall y :: y in Insert(s, x) ==> y.time <= bound
    decreases |s|
  {
    if s == [] || s[|s|-1].time <= x.time {
    } else {
      var init, last := s[..|s|-1], s[|s|-1];
      InsertSorts(init, x, last.time);
      var r := Insert(init, x);
      assert forall i :: 0 <= i < |r| ==> r[i] in r;
    }
  }

  lemma AtTimeLast(s: seq<Snapshot>, x: Snapshot, t: int)
    ensures AtTime(s + [x], t) == AtTime(s, t) + if x.time == t then [x] else []
  {
    assert (s + [x])[..|s|] == s;
  }

  lemma {:induction false} InsertStable(s: seq<Snapshot>, x: Snapshot, t: int)
    ensures AtTime(Insert(s, x), t) == AtTime(s, t) + if x.time == t then [x] else []
    decreases |s|
  {
    if s == [] || s[|s|-1].time <= x.time {
      AtTimeLast(s, x, t);
    } else {
      var init, last := s[..|s|-1], s[|s|-1];
      InsertStable(init, x, t);
      AtTimeLast(Insert(init, x), last, t);
    }
  }

  lemma {:induction false} SomeBound(s: seq<Snapshot>) returns (bound: int)
    ensures forall y :: y in s ==> y.time <= bound
    decreases |s|
  {
    if s == [] {
      bound := 0;
    } else {
      var b := SomeBound(s[1..]);
      bound := if b < s[0].time then s[0].time else b;
      assert s == [s[0]] + s[1..];
    }
  }

  /** The sort orders by time, keeps all snapshots, and keeps the order among equal times. */
  lemma {:induction false} StableSortSorts(s: seq<Snapshot>, t: int)
    ensures Sorted(StableSort(s)) && multiset(StableSort(s)) == multiset(s)
    ensures AtTime(StableSort(s), t) == AtTime(s, t)
    decreases |s|
  {
    if s != [] {
      assert s == s[..|s|-1] + [s[|s|-1]];
      StableSortSorts(s[..|s|-1], t);
      var sorted, x := StableSort(s[..|s|-1]), s[|s|-1];
      var bound := SomeBound(sorted + [x]);
      InsertSorts(sorted, x, bound);
      InsertPermutes(sorted, x);
      InsertStable(sorted, x, t);
    }
  }
}
