/** What the fields of Compute's result mean in terms of the snapshots alone: for every
    permutation of them and every iteration order of the node maps. */
module MetricsMeaning {
  import opened Options
  import opened MostCommon
  import opened Metrics
  import opened ComputeMetrics

  /** Some state is held by more than half of the nodes. */
  ghost predicate QuorumAgrees(nodes: Nodes) {
    exists s :: 2 * |Holders(nodes, s)| > |nodes|
  }

  /** The fewest nodes that can be left out of a group of nodes with equal states. */
  ghost predicate LeftOut(nodes: Nodes, d: int) {
    && (forall s :: d <= |nodes| - |Holders(nodes, s)|)
    && exists s :: d == |nodes| - |Holders(nodes, s)|
  }

  /******* One snapshot *******/

  lemma NoHolders(nodes: Nodes, s: NodeState)
    requires nodes == map[]
    ensures Holders(nodes, s) == {}
  {
  }

  /** The mode's count is that of a largest group of equal states. */
  lemma ModeIsLargest(nodes: Nodes, mode: NodeState, n: nat)
    requires MayBeMode(nodes, mode, n)
    ensures n == |Holders(nodes, mode)| && forall s :: |Holders(nodes, s)| <= n
  {
    if nodes == map[] {
      forall s ensures |Holders(nodes, s)| == 0 {
        NoHolders(nodes, s);
      }
    } else {
      var order :| IsOrder(nodes, order) && Mode(StatesIn(nodes, order)) == (mode, n);
      ModeCountsHolders(nodes, order);
      forall s ensures |Holders(nodes, s)| <= n {
        GroupIsCounted(nodes, order, s);
      }
    }
  }

  lemma GroupIsCounted(nodes: Nodes, order: seq<string>, s: NodeState)
    requires nodes != map[] && IsOrder(nodes, order)
    ensures |Holders(nodes, s)| <= Mode(StatesIn(nodes, order)).1
  {
    var x :| x in nodes;
    assert x in order;
    CountIsHolders(nodes, order, s);
    assert HoldersIn(nodes, order, s) == Holders(nodes, s);
    ModeIsMode(StatesIn(nodes, order));
    if s !in StatesIn(nodes, order) {
      assert s !in multiset(StatesIn(nodes, order));
    }
  }

  lemma QuorumMeans(nodes: Nodes, mode: NodeState, n: nat)
    requires MayBeMode(nodes, mode, n)
    ensures n >= |nodes| / 2 + 1 <==> QuorumAgrees(nodes)
  {
    ModeIsLargest(nodes, mode, n);
    if n >= |nodes| / 2 + 1 {
      assert 2 * |Holders(nodes, mode)| > |nodes|;
    }
    if QuorumAgrees(nodes) {
      var s :| 2 * |Holders(nodes, s)| > |nodes|;
      assert |Holders(nodes, s)| <= n;
    }
  }

  lemma DivergenceMeans(s: Snapshot, mode: NodeState, n: nat)
    requires MayBeMode(s.nodes, mode, n)
    ensures LeftOut(s.nodes, Divergence(s, n))
  {
    ModeIsLargest(s.nodes, mode, n);
  }

  /******* First agreement *******/

  ghost predicate NoneAgreed(ordered: seq<Snapshot>, n: nat)
    requires n <= |ordered|
  {
    forall i :: 0 <= i < n ==> !QuorumAgrees(ordered[i].nodes)
  }

  ghost predicate FirstAgreedAt(ordered: seq<Snapshot>, i: nat)
    requires i < |ordered|
  {
    QuorumAgrees(ordered[i].nodes) && NoneAgreed(ordered, i)
  }

  /** The time is that of the first of the `n` snapshots with a quorum, if there is one. */
  ghost predicate IsFirstAgreed(t: Option<int>, ordered: seq<Snapshot>, n: nat)
    requires n <= |ordered|
  {
    if t.None? then NoneAgreed(ordered, n)
    else exists i :: 0 <= i < n && ordered[i].time == t.value && FirstAgreedAt(ordered, i)
  }

  lemma FirstAgreedStep(t: Option<int>, ordered: seq<Snapshot>, n: nat)
    requires n < |ordered| && IsFirstAgreed(t, ordered, n)
    ensures
      var t' := if t.None? && QuorumAgrees(ordered[n].nodes) then Some(ordered[n].time) else t;
      IsFirstAgreed(t', ordered, n + 1)
  {
    if t.None? && QuorumAgrees(ordered[n].nodes) {
      assert FirstAgreedAt(ordered, n);
    }
  }

  lemma ExtendAgreement(r: Result, ordered: seq<Snapshot>, i: nat, mode: NodeState, n: nat)
    requires i < |ordered| && MayBeMode(ordered[i].nodes, mode, n)
    ensures Extend(r, ordered, i, mode, n).firstAgreementTime ==
              if r.firstAgreementTime.None? && QuorumAgrees(ordered[i].nodes) then Some(ordered[i].time)
              else r.firstAgreementTime
  {
    QuorumMeans(ordered[i].nodes, mode, n);
  }

  /** FirstAgreementTime is the time of the first snapshot in which more than half of the nodes
      hold one state, and unset exactly if there is none. */
  lemma {:induction false} AgreementTimeMeans(ordered: seq<Snapshot>, modes: seq<(NodeState, nat)>)
    requires ValidModes(ordered, modes)
    ensures IsFirstAgreed(Reduce(ordered, modes).firstAgreementTime, ordered, |modes|)
    decreases |modes|
  {
    if modes != [] {
      var i := |modes| - 1;
      var r := Reduce(ordered, modes[..i]);
      AgreementTimeMeans(ordered, modes[..i]);
      ExtendAgreement(r, ordered, i, modes[i].0, modes[i].1);
      FirstAgreedStep(r.firstAgreementTime, ordered, i);
    }
  }

  /******* Peak, log and final verdict *******/

  /** The largest number of nodes any of the `n` snapshots leaves out, and zero without any. */
  ghost predicate IsPeak(peak: int, ordered: seq<Snapshot>, n: nat)
    requires n <= |ordered|
  {
    && (forall i, d :: 0 <= i < n && LeftOut(ordered[i].nodes, d) ==> d <= peak)
    && if n == 0 then peak == 0 else exists i :: 0 <= i < n && LeftOut(ordered[i].nodes, peak)
  }

  lemma LeftOutUnique(nodes: Nodes, d: int, e: int)
    requires LeftOut(nodes, d) && LeftOut(nodes, e)
    ensures d == e && 0 <= d
  {
    var s :| d == |nodes| - |Holders(nodes, s)|;
    var t :| e == |nodes| - |Holders(nodes, t)|;
    assert e <= |nodes| - |Holders(nodes, s)| && d <= |nodes| - |Holders(nodes, t)|;
    assert Holders(nodes, s) <= nodes.Keys;
    SubsetSize(Holders(nodes, s), nodes.Keys);
  }

  lemma SubsetSize(a: set<string>, b: set<string>)
    requires a <= b
    ensures |a| <= |b|
  {
    assert b == a + (b - a);
  }

  lemma PeakStep(peak: int, ordered: seq<Snapshot>, n: nat, d: int)
    requires n < |ordered| && IsPeak(peak, ordered, n) && LeftOut(ordered[n].nodes, d)
    ensures IsPeak(Max(peak, d), ordered, n + 1)
  {
    LeftOutUnique(ordered[n].nodes, d, d);
    forall i, e | 0 <= i < n + 1 && LeftOut(ordered[i].nodes, e) ensures e <= Max(peak, d) {
      if i == n {
        LeftOutUnique(ordered[n].nodes, d, e);
      }
    }
    if Max(peak, d) != d {
      var i :| 0 <= i < n && LeftOut(ordered[i].nodes, peak);
    }
  }

  lemma ExtendPeak(r: Result, ordered: seq<Snapshot>, i: nat, mode: NodeState, n: nat)
    requires i < |ordered| && MayBeMode(ordered[i].nodes, mode, n) && IsPeak(r.peakDivergence, ordered, i)
    ensures IsPeak(Extend(r, ordered, i, mode, n).peakDivergence, ordered, i + 1)
  {
    DivergenceMeans(ordered[i], mode, n);
    PeakStep(r.peakDivergence, ordered, i, Divergence(ordered[i], n));
  }

  /** PeakDivergence is the largest number of nodes outside a largest group of equal states. */
  lemma {:induction false} PeakMeans(ordered: seq<Snapshot>, modes: seq<(NodeState, nat)>)
    requires ValidModes(ordered, modes)
    ensures IsPeak(Reduce(ordered, modes).peakDivergence, ordered, |modes|)
    decreases |modes|
  {
    if modes != [] {
      var i := |modes| - 1;
      PeakMeans(ordered, modes[..i]);
      ExtendPeak(Reduce(ordered, modes[..i]), ordered, i, modes[i].0, modes[i].1);
    }
  }

  /** The series holds, snapshot by snapshot, the time and the number of nodes left out. */
  ghost predicate IsSeries(log: seq<(int, int)>, ordered: seq<Snapshot>) {
    && |log| == |ordered|
    && forall i :: 0 <= i < |log| ==> log[i].0 == ordered[i].time && LeftOut(ordered[i].nodes, log[i].1)
  }

  lemma SeriesMeans(ordered: seq<Snapshot>, modes: seq<(NodeState, nat)>)
    requires ValidModes(ordered, modes) && |modes| == |ordered|
    ensures IsSeries(Reduce(ordered, modes).divergenceOverTime, ordered)
  {
    DivergenceLogged(ordered, modes);
    forall i | 0 <= i < |ordered| ensures LeftOut(ordered[i].nodes, Divergence(ordered[i], modes[i].1)) {
      DivergenceMeans(ordered[i], modes[i].0, modes[i].1);
    }
  }

  /** FinalConsistent says whether the latest snapshot is converged. */
  lemma FinalMeans(ordered: seq<Snapshot>, modes: seq<(NodeState, nat)>)
    requires |modes| == |ordered| && ValidModes(ordered, modes)
    ensures Conclude(ordered, modes).finalConsistent <==> ordered != [] && Converged(ordered[|ordered|-1].nodes)
  {
    if ordered != [] {
      var i := |ordered| - 1;
      ZeroDivergenceMeans(ordered[i], modes[i].0, modes[i].1);
    }
  }

  /******* The whole result *******/

  ghost predicate Means(r: Result, ordered: seq<Snapshot>) {
    && IsFirstAgreed(r.firstAgreementTime, ordered, |ordered|)
    && IsFirstConverged(r.convergenceTime, ordered, |ordered|)
    && IsPeak(r.peakDivergence, ordered, |ordered|)
    && IsSeries(r.divergenceOverTime, ordered)
    && (r.finalConsistent <==> ordered != [] && Converged(ordered[|ordered|-1].nodes))
  }

  /** Every result Compute may return means, of the snapshots in order of time: first agreement,
      convergence, peak, series and final verdict are what the snapshots say they are. */
  lemma OutcomeMeans(snapshots: seq<Snapshot>, modes: seq<(NodeState, nat)>, r: Result)
    requires IsOutcome(snapshots, modes, r)
    ensures Means(r, StableSort(snapshots))
  {
    var ordered := StableSort(snapshots);
    AgreementTimeMeans(ordered, modes);
    ConvergenceTimeMeans(ordered, modes);
    PeakMeans(ordered, modes);
    SeriesMeans(ordered, modes);
    FinalMeans(ordered, modes);
    if ordered != [] {
      ConcludeKeeps(ordered, modes);
    }
  }

  /** Compute returns the reduction of the sorted snapshots for some iteration orders of the
      node maps; whatever these are, its fields mean what they should, area and staleness agree,
      and agreement comes no later than convergence. */
  method Compute(snapshots: seq<Snapshot>) returns (r: Result)
    ensures exists modes :: IsOutcome(snapshots, modes, r)
    ensures Means(r, StableSort(snapshots))
    ensures snapshots != [] ==> StableSort(snapshots) != [] && Balanced(r, Span(StableSort(snapshots)))
    ensures r.convergenceTime.Some? ==>
              r.firstAgreementTime.Some? && r.firstAgreementTime.value <= r.convergenceTime.value
  {
    ghost var modes;
    r, modes := ComputeOutcome(snapshots);
    OutcomeMeans(snapshots, modes, r);
    OutcomeSound(snapshots, modes, r);
  }

  method ComputeOutcome(snapshots: seq<Snapshot>) returns (r: Result, ghost modes: seq<(NodeState, nat)>)
    ensures IsOutcome(snapshots, modes, r)
  {
    var ordered := StableSort(snapshots);
    if ordered == [] {
      EmptyOutcome(snapshots);
      return EMPTY_RESULT, [];
    }
    r, modes := ReduceAll(ordered);
    var exist := AllNodesExist(ordered[|ordered|-1].nodes);
    DivergenceLogged(ordered, modes);
    r := r.(finalConsistent := r.divergenceOverTime[|r.divergenceOverTime|-1].1 == 0 && exist);
    assert r == Conclude(ordered, modes);
  }
}
