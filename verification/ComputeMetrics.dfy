/** Compute over a list of snapshots, and what holds of its result for every list and every
    iteration order of the node maps. */
module ComputeMetrics {
  import opened Options
  import opened MostCommon
  import opened Metrics

  /** One possible outcome of mostCommonState for each snapshot. */
  ghost predicate ValidModes(ordered: seq<Snapshot>, modes: seq<(NodeState, nat)>) {
    |modes| <= |ordered| && forall i :: 0 <= i < |modes| ==> MayBeMode(ordered[i].nodes, modes[i].0, modes[i].1)
  }

  function Gap(ordered: seq<Snapshot>, i: nat): int
    requires i + 1 < |ordered|
  {
    var delta := ordered[i+1].time - ordered[i].time;
    if delta < 0 then 0 else delta
  }

  function Divergence(s: Snapshot, n: nat): int {
    |s.nodes| - n
  }

  function Max(a: int, b: int): int {
    if a < b then b else a
  }

  /** One turn of the loop: snapshot `i`, whose mode is `mode` with count `n`. */
  function Extend(r: Result, ordered: seq<Snapshot>, i: nat, mode: NodeState, n: nat): Result
    requires i < |ordered|
  {
    var s, d := ordered[i], Divergence(ordered[i], n);
    r.(divergenceOverTime := r.divergenceOverTime + [(s.time, d)],
       peakDivergence := Max(r.peakDivergence, d),
       convergenceTime := if d == 0 && r.convergenceTime.None? && AllExist(s.nodes) then Some(s.time)
                          else r.convergenceTime,
       firstAgreementTime := if r.firstAgreementTime.None? && n >= |s.nodes| / 2 + 1 then Some(s.time)
                             else r.firstAgreementTime,
       areaUnderDivergence := r.areaUnderDivergence + (if i + 1 < |ordered| then d * Gap(ordered, i) else 0),
       staleDurationPerNode := if i + 1 < |ordered|
                               then AddStale(r.staleDurationPerNode, StaleNodes(s.nodes, mode), Gap(ordered, i))
                               else r.staleDurationPerNode)
  }

  /** Reduction of the first |modes| snapshots. */
  function Reduce(ordered: seq<Snapshot>, modes: seq<(NodeState, nat)>): Result
    requires |modes| <= |ordered|
  {
    if modes == [] then EMPTY_RESULT
    else Extend(Reduce(ordered, modes[..|modes|-1]), ordered, |modes| - 1, modes[|modes|-1].0, modes[|modes|-1].1)
  }

  lemma FrontOfNext(modes: seq<(NodeState, nat)>, last: (NodeState, nat))
    ensures (modes + [last])[..|modes + [last]| - 1] == modes
  {
  }

  lemma ReduceNext(ordered: seq<Snapshot>, modes: seq<(NodeState, nat)>, mode: NodeState, n: nat)
    requires |modes| < |ordered|
    ensures Reduce(ordered, modes + [(mode, n)]) == Extend(Reduce(ordered, modes), ordered, |modes|, mode, n)
  {
    FrontOfNext(modes, (mode, n));
  }

  function Conclude(ordered: seq<Snapshot>, modes: seq<(NodeState, nat)>): Result
    requires |ordered| == |modes|
  {
    if ordered == [] then EMPTY_RESULT
    else
      var last := |ordered| - 1;
      Reduce(ordered, modes).(
        finalConsistent := Divergence(ordered[last], modes[last].1) == 0 && AllExist(ordered[last].nodes))
  }

  lemma EmptyOutcome(snapshots: seq<Snapshot>)
    requires StableSort(snapshots) == []
    ensures snapshots == [] && IsOutcome(snapshots, [], EMPTY_RESULT)
  {
    SortKeepsLength(snapshots);
  }

  lemma ConclusionSound(ordered: seq<Snapshot>, modes: seq<(NodeState, nat)>)
    requires ordered != [] && Sorted(ordered) && |modes| == |ordered| && ValidModes(ordered, modes)
    ensures var r := Conclude(ordered, modes);
      && Balanced(r, Span(ordered))
      && (r.convergenceTime.Some? ==>
            r.firstAgreementTime.Some? && r.firstAgreementTime.value <= r.convergenceTime.value)
  {
    Conservation(ordered, modes);
    AgreementFirst(ordered, modes);
    ConcludeKeeps(ordered, modes);
    assert Covered(ordered, |modes|) == Span(ordered);
  }

  /** The conclusion adds nothing but the final verdict. */
  lemma ConcludeKeeps(ordered: seq<Snapshot>, modes: seq<(NodeState, nat)>)
    requires ordered != [] && |modes| == |ordered|
    ensures Conclude(ordered, modes) ==
              Reduce(ordered, modes).(finalConsistent := Conclude(ordered, modes).finalConsistent)
  {
  }

  /** Every outcome is balanced, and agreement comes no later than convergence. */
  lemma OutcomeSound(snapshots: seq<Snapshot>, modes: seq<(NodeState, nat)>, r: Result)
    requires IsOutcome(snapshots, modes, r)
    ensures snapshots != [] ==> StableSort(snapshots) != [] && Balanced(r, Span(StableSort(snapshots)))
    ensures r.convergenceTime.Some? ==>
              r.firstAgreementTime.Some? && r.firstAgreementTime.value <= r.convergenceTime.value
  {
    SortKeepsLength(snapshots);
    if snapshots != [] {
      ConclusionSound(StableSort(snapshots), modes);
    }
  }

  lemma ValidNext(ordered: seq<Snapshot>, modes: seq<(NodeState, nat)>, mode: NodeState, n: nat)
    requires ValidModes(ordered, modes) && |modes| < |ordered| && MayBeMode(ordered[|modes|].nodes, mode, n)
    ensures ValidModes(ordered, modes + [(mode, n)])
  {
  }

  method ReduceAll(ordered: seq<Snapshot>) returns (r: Result, ghost modes: seq<(NodeState, nat)>)
    ensures |modes| == |ordered| && ValidModes(ordered, modes) && r == Reduce(ordered, modes)
  {
    r, modes := EMPTY_RESULT, [];
    for i := 0 to |ordered|
      invariant |modes| == i && ValidModes(ordered, modes)
      invariant r == Reduce(ordered, modes)
    {
      var mode, n := MostCommonState(ordered[i].nodes);
      ReduceNext(ordered, modes, mode, n);
      ValidNext(ordered, modes, mode, n);
      r := Turn(r, ordered, i, mode, n);
      modes := modes + [(mode, n)];
    }
  }

  ghost predicate IsOutcome(snapshots: seq<Snapshot>, modes: seq<(NodeState, nat)>, r: Result) {
    var ordered := StableSort(snapshots);
    |modes| == |ordered| && ValidModes(ordered, modes) && r == Conclude(ordered, modes)
  }

  lemma SortKeepsLength(s: seq<Snapshot>)
    ensures |StableSort(s)| == |s| && Sorted(StableSort(s)) && multiset(StableSort(s)) == multiset(s)
  {
    StableSortSorts(s, 0);
    assert |multiset(StableSort(s))| == |multiset(s)|;
  }

  /** The loop body, statement by statement. */
  method Turn(r0: Result, ordered: seq<Snapshot>, i: nat, mode: NodeState, n: nat) returns (r: Result)
    requires i < |ordered|
    ensures r == Extend(r0, ordered, i, mode, n)
  {
    var snapshot := ordered[i];
    var divergence := |snapshot.nodes| - n;
    var log := r0.divergenceOverTime + [(snapshot.time, divergence)];
    var peak := r0.peakDivergence;
    if divergence > peak {
      peak := divergence;
    }
    var converged := r0.convergenceTime;
    if divergence == 0 && converged.None? {
      var exist := AllNodesExist(snapshot.nodes);
      if exist {
        converged := Some(snapshot.time);
      }
    }
    var agreed := r0.firstAgreementTime;
    if agreed.None? {
      var quorum := |snapshot.nodes| / 2 + 1;
      if n >= quorum && quorum > 0 {
        agreed := Some(snapshot.time);
      }
    }
    r := r0.(divergenceOverTime := log, peakDivergence := peak,
             convergenceTime := converged, firstAgreementTime := agreed);
    r := Account(r, ordered, i, mode, divergence);
  }

  /** Last part of the loop body: the gap to the next snapshot. */
  method Account(r0: Result, ordered: seq<Snapshot>, i: nat, mode: NodeState, divergence: int) returns (r: Result)
    requires i < |ordered|
    ensures r == if i + 1 < |ordered|
                 then r0.(areaUnderDivergence := r0.areaUnderDivergence + divergence * Gap(ordered, i),
                          staleDurationPerNode :=
                            AddStale(r0.staleDurationPerNode, StaleNodes(ordered[i].nodes, mode), Gap(ordered, i)))
                 else r0
  {
    r := r0;
    if i < |ordered| - 1 {
      var delta := ordered[i+1].time - ordered[i].time;
      if delta < 0 {
        delta := 0;
      }
      var stale := MarkStale(r.staleDurationPerNode, ordered[i].nodes, mode, delta);
      r := r.(areaUnderDivergence := r.areaUnderDivergence + divergence * delta, staleDurationPerNode := stale);
    }
  }

  /******* Conservation *******/

  function Span(ordered: seq<Snapshot>): int
    requires ordered != []
  {
    ordered[|ordered|-1].time - ordered[0].time
  }

  lemma LogNext(r: Result, ordered: seq<Snapshot>, i: nat, mode: NodeState, n: nat)
    requires i < |ordered|
    ensures Extend(r, ordered, i, mode, n).divergenceOverTime ==
              r.divergenceOverTime + [(ordered[i].time, Divergence(ordered[i], n))]
  {
  }

  lemma {:induction false} DivergenceLogged(ordered: seq<Snapshot>, modes: seq<(NodeState, nat)>)
    requires |modes| <= |ordered|
    ensures var log := Reduce(ordered, modes).divergenceOverTime;
      |log| == |modes| && forall i :: 0 <= i < |log| ==> log[i] == (ordered[i].time, Divergence(ordered[i], modes[i].1))
    decreases |modes|
  {
    if modes != [] {
      var i := |modes| - 1;
      DivergenceLogged(ordered, modes[..i]);
      LogNext(Reduce(ordered, modes[..i]), ordered, i, modes[i].0, modes[i].1);
    }
  }

  /** Time covered by the gaps accounted for so far. */
  function Covered(ordered: seq<Snapshot>, n: nat): int
    requires ordered != [] && n <= |ordered|
  {
    ordered[if n < |ordered| then n else |ordered| - 1].time - ordered[0].time
  }

  lemma AreaBound(area: int, peak: int, d: int, covered: int, gap: int)
    requires 0 <= d && 0 <= gap && 0 <= covered && 0 <= area <= peak * covered
    ensures 0 <= area + d * gap <= Max(peak, d) * (covered + gap)
  {
    var p := Max(peak, d);
    assert peak * covered <= p * covered;
    assert 0 <= d * gap <= p * gap;
    assert p * (covered + gap) == p * covered + p * gap;
  }

  /** Area and staleness agree, and the area fits under the peak. */
  ghost predicate Balanced(r: Result, covered: int) {
    && Total(r.staleDurationPerNode) == r.areaUnderDivergence
    && 0 <= r.areaUnderDivergence <= r.peakDivergence * covered
  }

  lemma ExtendTotal(r: Result, ordered: seq<Snapshot>, i: nat, mode: NodeState, n: nat)
    requires i < |ordered| && MayBeMode(ordered[i].nodes, mode, n)
    requires Total(r.staleDurationPerNode) == r.areaUnderDivergence
    ensures var r' := Extend(r, ordered, i, mode, n); Total(r'.staleDurationPerNode) == r'.areaUnderDivergence
  {
    ModeCountExact(ordered[i].nodes, mode, n);
    if i + 1 < |ordered| {
      TotalAfterAdd(r.staleDurationPerNode, StaleNodes(ordered[i].nodes, mode), Gap(ordered, i));
      assert |StaleNodes(ordered[i].nodes, mode)| == Divergence(ordered[i], n);
    }
  }

  lemma ExtendArea(r: Result, ordered: seq<Snapshot>, i: nat, mode: NodeState, n: nat)
    requires i < |ordered| && Sorted(ordered) && n <= |ordered[i].nodes|
    requires 0 <= r.areaUnderDivergence <= r.peakDivergence * Covered(ordered, i)
    ensures var r' := Extend(r, ordered, i, mode, n);
            0 <= r'.areaUnderDivergence <= r'.peakDivergence * Covered(ordered, i + 1)
  {
    var d, covered := Divergence(ordered[i], n), Covered(ordered, i);
    assert 0 <= covered;
    var gap := if i + 1 < |ordered| then Gap(ordered, i) else 0;
    AreaBound(r.areaUnderDivergence, r.peakDivergence, d, covered, gap);
    var r' := Extend(r, ordered, i, mode, n);
    assert Covered(ordered, i + 1) == covered + gap;
    assert r'.areaUnderDivergence == r.areaUnderDivergence + d * gap;
  }

  lemma ExtendBalanced(r: Result, ordered: seq<Snapshot>, i: nat, mode: NodeState, n: nat)
    requires i < |ordered| && Sorted(ordered) && MayBeMode(ordered[i].nodes, mode, n)
    requires Balanced(r, Covered(ordered, i))
    ensures Balanced(Extend(r, ordered, i, mode, n), Covered(ordered, i + 1))
  {
    ModeCountExact(ordered[i].nodes, mode, n);
    ExtendTotal(r, ordered, i, mode, n);
    ExtendArea(r, ordered, i, mode, n);
  }

  /** The area under the divergence curve is exactly the staleness of all nodes together, and
      at most the peak divergence over the whole time span. */
  lemma {:induction false} Conservation(ordered: seq<Snapshot>, modes: seq<(NodeState, nat)>)
    requires ordered != [] && Sorted(ordered) && ValidModes(ordered, modes)
    ensures Balanced(Reduce(ordered, modes), Covered(ordered, |modes|))
    decreases |modes|
  {
    if modes == [] {
      assert Total(map[]) == 0;
    } else {
      var i := |modes| - 1;
      Conservation(ordered, modes[..i]);
      ExtendBalanced(Reduce(ordered, modes[..i]), ordered, i, modes[i].0, modes[i].1);
    }
  }

  /******* Convergence and agreement *******/

  /** All nodes exist and hold one and the same state. */
  ghost predicate Converged(nodes: Nodes) {
    AllExist(nodes) && forall a, b :: a in nodes && b in nodes ==> nodes[a] == nodes[b]
  }

  lemma ZeroDivergenceMeans(s: Snapshot, mode: NodeState, n: nat)
    requires MayBeMode(s.nodes, mode, n)
    ensures Divergence(s, n) == 0 && AllExist(s.nodes) <==> Converged(s.nodes)
    ensures Converged(s.nodes) ==> n >= |s.nodes| / 2 + 1
  {
    ModeCountExact(s.nodes, mode, n);
    if Converged(s.nodes) {
      var x :| x in s.nodes;
      assert s.nodes[x] == mode ==> StaleNodes(s.nodes, mode) == {};
      assert s.nodes[x] != mode ==> StaleNodes(s.nodes, mode) == s.nodes.Keys;
    }
  }

  /** The time is that of the first of the `n` snapshots that is converged, if there is one. */
  ghost predicate IsFirstConverged(t: Option<int>, ordered: seq<Snapshot>, n: nat)
    requires n <= |ordered|
  {
    if t.None? then NoneConverged(ordered, n)
    else exists i :: 0 <= i < n && ordered[i].time == t.value && FirstConvergedAt(ordered, i)
  }

  ghost predicate FirstConvergedAt(ordered: seq<Snapshot>, i: nat)
    requires i < |ordered|
  {
    Converged(ordered[i].nodes) && NoneConverged(ordered, i)
  }

  ghost predicate NoneConverged(ordered: seq<Snapshot>, n: nat)
    requires n <= |ordered|
  {
    forall i :: 0 <= i < n ==> !Converged(ordered[i].nodes)
  }

  lemma FirstStep(t: Option<int>, ordered: seq<Snapshot>, n: nat)
    requires n < |ordered| && IsFirstConverged(t, ordered, n)
    ensures
      var t' := if t.None? && Converged(ordered[n].nodes) then Some(ordered[n].time) else t;
      IsFirstConverged(t', ordered, n + 1)
  {
  }

  lemma ExtendConvergence(r: Result, ordered: seq<Snapshot>, i: nat, mode: NodeState, n: nat)
    requires i < |ordered| && MayBeMode(ordered[i].nodes, mode, n)
    ensures Extend(r, ordered, i, mode, n).convergenceTime ==
              if r.convergenceTime.None? && Converged(ordered[i].nodes) then Some(ordered[i].time)
              else r.convergenceTime
  {
    ZeroDivergenceMeans(ordered[i], mode, n);
  }

  /** ConvergenceTime is the time of the first snapshot in which all nodes exist and agree. */
  lemma {:induction false} ConvergenceTimeMeans(ordered: seq<Snapshot>, modes: seq<(NodeState, nat)>)
    requires ValidModes(ordered, modes)
    ensures IsFirstConverged(Reduce(ordered, modes).convergenceTime, ordered, |modes|)
    decreases |modes|
  {
    if modes != [] {
      var i := |modes| - 1;
      var r := Reduce(ordered, modes[..i]);
      ConvergenceTimeMeans(ordered, modes[..i]);
      ExtendConvergence(r, ordered, i, modes[i].0, modes[i].1);
      FirstStep(r.convergenceTime, ordered, i);
    }
  }

  /** A quorum agrees no later than all do. */
  lemma {:induction false} AgreementFirst(ordered: seq<Snapshot>, modes: seq<(NodeState, nat)>)
    requires Sorted(ordered) && ValidModes(ordered, modes)
    ensures var r := Reduce(ordered, modes);
      && (r.firstAgreementTime.Some? ==> modes != [] && r.firstAgreementTime.value <= ordered[|modes|-1].time)
      && (r.convergenceTime.Some? ==>
            r.firstAgreementTime.Some? && r.firstAgreementTime.value <= r.convergenceTime.value)
    decreases |modes|
  {
    if modes != [] {
      var i := |modes| - 1;
      AgreementFirst(ordered, modes[..i]);
      ZeroDivergenceMeans(ordered[i], modes[i].0, modes[i].1);
    }
  }

  /******* Order independence *******/

  /** Snapshots of equal time are equal: distinct times are a special case. */
  ghost predicate TimesIdentify(s: seq<Snapshot>) {
    forall a, b :: a in s && b in s && a.time == b.time ==> a == b
  }

  lemma MultisetOfFront(p: seq<Snapshot>)
    requires p != []
    ensures multiset(p) == multiset(p[..|p|-1]) + multiset{p[|p|-1]}
  {
    assert p == p[..|p|-1] + [p[|p|-1]];
  }

  lemma Cancel(m: multiset<Snapshot>, n: multiset<Snapshot>, a: Snapshot)
    requires m + multiset{a} == n + multiset{a}
    ensures m == n
  {
    assert (m + multiset{a}) - multiset{a} == m && (n + multiset{a}) - multiset{a} == n;
  }

  /** No element of a permutation comes after the last of the sorted list. */
  lemma LastIsLatest(p: seq<Snapshot>, q: seq<Snapshot>)
    requires Sorted(p) && multiset(p) == multiset(q) && p != [] && q != []
    ensures q[|q|-1] in p && q[|q|-1].time <= p[|p|-1].time
  {
    assert q[|q|-1] in multiset(q);
    var i :| 0 <= i < |p| && p[i] == q[|q|-1];
  }

  lemma SameLast(p: seq<Snapshot>, q: seq<Snapshot>)
    requires Sorted(p) && Sorted(q) && multiset(p) == multiset(q) && TimesIdentify(p) && p != [] && q != []
    ensures p[|p|-1] == q[|q|-1]
  {
    LastIsLatest(p, q);
    LastIsLatest(q, p);
  }

  lemma SameFronts(p: seq<Snapshot>, q: seq<Snapshot>)
    requires multiset(p) == multiset(q) && p != [] && q != [] && p[|p|-1] == q[|q|-1]
    ensures multiset(p[..|p|-1]) == multiset(q[..|q|-1])
  {
    MultisetOfFront(p);
    MultisetOfFront(q);
    Cancel(multiset(p[..|p|-1]), multiset(q[..|q|-1]), p[|p|-1]);
  }

  lemma FrontKeeps(p: seq<Snapshot>)
    requires Sorted(p) && TimesIdentify(p) && p != []
    ensures Sorted(p[..|p|-1]) && TimesIdentify(p[..|p|-1])
  {
  }

  lemma SameSize(p: seq<Snapshot>, q: seq<Snapshot>)
    requires multiset(p) == multiset(q)
    ensures |p| == |q|
  {
    assert |multiset(p)| == |p| && |multiset(q)| == |q|;
  }

  lemma {:induction false} SortedIsUnique(p: seq<Snapshot>, q: seq<Snapshot>)
    requires Sorted(p) && Sorted(q) && multiset(p) == multiset(q) && TimesIdentify(p)
    ensures p == q
    decreases |p|
  {
    SameSize(p, q);
    if p != [] {
      SameLast(p, q);
      SameFronts(p, q);
      FrontKeeps(p);
      SortedIsUnique(p[..|p|-1], q[..|q|-1]);
      assert p == p[..|p|-1] + [p[|p|-1]] && q == q[..|q|-1] + [q[|q|-1]];
    }
  }

  lemma SortKeepsElements(p: seq<Snapshot>)
    ensures forall x :: x in StableSort(p) ==> x in p
  {
    SortKeepsLength(p);
    forall x | x in StableSort(p) ensures x in p {
      assert x in multiset(StableSort(p));
      assert x in multiset(p);
    }
  }

  lemma SortUnique(p: seq<Snapshot>, q: seq<Snapshot>)
    requires multiset(p) == multiset(q) && TimesIdentify(p)
    ensures StableSort(p) == StableSort(q)
  {
    SortKeepsLength(p);
    SortKeepsLength(q);
    SortKeepsElements(p);
    SortedIsUnique(StableSort(p), StableSort(q));
  }

  ghost predicate SameButStaleness(r: Result, r': Result) {
    r'.(staleDurationPerNode := r.staleDurationPerNode) == r
  }

  lemma ExtendAlike(r: Result, r': Result, ordered: seq<Snapshot>, i: nat, mode: NodeState, mode': NodeState, n: nat)
    requires i < |ordered| && SameButStaleness(r, r')
    ensures SameButStaleness(Extend(r, ordered, i, mode, n), Extend(r', ordered, i, mode', n))
  {
  }

  ghost predicate AllUnambiguous(s: seq<Snapshot>) {
    forall x :: x in s ==> Unambiguous(x.nodes)
  }

  /** Of the whole result only the split of staleness among nodes can depend on how map
      iteration breaks ties for the mode. */
  lemma {:induction false} OnlyStalenessDepends(
    ordered: seq<Snapshot>, modes: seq<(NodeState, nat)>, modes': seq<(NodeState, nat)>)
    requires ValidModes(ordered, modes) && ValidModes(ordered, modes') && |modes| == |modes'|
    ensures SameButStaleness(Reduce(ordered, modes), Reduce(ordered, modes'))
    ensures AllUnambiguous(ordered) ==> Reduce(ordered, modes) == Reduce(ordered, modes')
    decreases |modes|
  {
    if modes != [] {
      var i := |modes| - 1;
      OnlyStalenessDepends(ordered, modes[..i], modes'[..i]);
      ModeUnique(ordered[i].nodes, modes[i].0, modes[i].1, modes'[i].0, modes'[i].1);
      var r, r' := Reduce(ordered, modes[..i]), Reduce(ordered, modes'[..i]);
      ExtendAlike(r, r', ordered, i, modes[i].0, modes'[i].0, modes[i].1);
      assert AllUnambiguous(ordered) ==> modes[i] == modes'[i] by {
        assert ordered[i] in ordered;
      }
    }
  }

  lemma SortedUnambiguous(p: seq<Snapshot>)
    requires AllUnambiguous(p)
    ensures AllUnambiguous(StableSort(p))
  {
    SortKeepsElements(p);
  }

  /** Equal reductions have equal conclusions: the last count does not depend on order. */
  lemma ConcludeAlike(ordered: seq<Snapshot>, modes: seq<(NodeState, nat)>, modes': seq<(NodeState, nat)>)
    requires |ordered| == |modes| == |modes'| && ValidModes(ordered, modes) && ValidModes(ordered, modes')
    requires Reduce(ordered, modes) == Reduce(ordered, modes')
    ensures Conclude(ordered, modes) == Conclude(ordered, modes')
  {
    if ordered != [] {
      var i := |ordered| - 1;
      ModeUnique(ordered[i].nodes, modes[i].0, modes[i].1, modes'[i].0, modes'[i].1);
    }
  }

  /** Compute gives the same result for every permutation of the snapshots and every iteration
      order of the node maps, if equal times mean equal snapshots and no mode is ambiguous. */
  lemma ComputeDetermined(
    p: seq<Snapshot>, q: seq<Snapshot>,
    modes: seq<(NodeState, nat)>, modes': seq<(NodeState, nat)>, r: Result, r': Result)
    requires multiset(p) == multiset(q) && TimesIdentify(p)
    requires AllUnambiguous(p)
    requires IsOutcome(p, modes, r) && IsOutcome(q, modes', r')
    ensures r == r'
  {
    SortUnique(p, q);
    SortedUnambiguous(p);
    OnlyStalenessDepends(StableSort(p), modes, modes');
    ConcludeAlike(StableSort(p), modes, modes');
  }
}
