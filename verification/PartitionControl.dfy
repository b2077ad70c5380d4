/** Partitions from the control plane to the nodes: the recorded lists, the symmetric
    fault-partition command, and the reconciliation each node's fault engine performs. */
module PartitionControl {
  import opened Options
  import opened Text
  import opened Commands
  import opened CommandText
  import opened Experiment
  import opened ExperimentRoundTrip

  /******* Reconciliation at a node *******/

  /** Ids of a recorded list a node acts upon. */
  function Desired(node: string, list: seq<string>): set<string> {
    set id | id in list && id != "" && id != node
  }

  /** SetFaultParams on the engine's set: known peers are partitioned or healed, then every
      desired id is partitioned. */
  function Reconciled(engine: set<string>, peers: set<string>, desired: set<string>): set<string> {
    engine - (peers - desired) + desired
  }

  /** The engine ends with exactly the desired set if and only if it held no stale id beyond
      the current peers. */
  lemma ReconciledExactly(engine: set<string>, peers: set<string>, desired: set<string>)
    ensures Reconciled(engine, peers, desired) == desired <==> engine <= peers + desired
  {
    var r := Reconciled(engine, peers, desired);
    if r == desired {
      forall id | id in engine ensures id in peers + desired {
        assert id !in r || id in desired;
      }
    }
  }

  /******* The recorded lists *******/

  function Without(list: seq<string>, id: string): seq<string> {
    if list == [] then [] else Without(list[..|list|-1], id) + if list[|list|-1] == id then [] else [list[|list|-1]]
  }

  function UpdatedList(list: seq<string>, id: string, enabled: bool): seq<string> {
    if enabled then (if id in list then list else list + [id]) else Without(list, id)
  }

  lemma {:induction false} WithoutMeans(list: seq<string>, id: string, x: string)
    ensures x in Without(list, id) <==> x in list && x != id
    decreases |list|
  {
    if list != [] {
      WithoutMeans(list[..|list|-1], id, x);
      assert list == list[..|list|-1] + [list[|list|-1]];
    }
  }

  lemma UpdatedListMeans(list: seq<string>, id: string, enabled: bool, x: string)
    ensures x in UpdatedList(list, id, enabled) <==> if x == id then enabled else x in list
  {
    WithoutMeans(list, id, x);
  }

  /** Control plane and nodes: recorded lists, engine sets and the peers each node knows. */
  datatype Control = Control(
    recorded: map<string, seq<string>>,
    engines: map<string, set<string>>,
    peers: map<string, set<string>>
  )

  ghost predicate Registered(c: Control, nodes: set<string>) {
    nodes <= c.recorded.Keys && c.recorded.Keys == c.engines.Keys == c.peers.Keys
  }

  /** Record a node's new list and push it to the node. */
  function UpdateNode(c: Control, target: string, other: string, enabled: bool): Option<Control> {
    if target !in c.recorded || target !in c.engines || target !in c.peers then None
    else
      var list := UpdatedList(c.recorded[target], other, enabled);
      Some(c.(recorded := c.recorded[target := list],
              engines := c.engines[target := Reconciled(c.engines[target], c.peers[target], Desired(target, list))]))
  }

  /** The symmetric command: a failure of the first half aborts, one of the second does not. */
  function SetPair(c: Control, node: string, peer: string, enabled: bool): Control {
    var first := UpdateNode(c, node, peer, enabled);
    if first.None? then c
    else
      var second := UpdateNode(first.value, peer, node, enabled);
      if second.None? then first.value else second.value
  }

  /** `a` is recorded as cut off from `b`. */
  predicate Cut(c: Control, a: string, b: string) {
    a in c.recorded && b in c.recorded[a]
  }

  lemma UpdateNodeCuts(c: Control, target: string, other: string, enabled: bool, a: string, b: string)
    requires Registered(c, {target})
    ensures var r := UpdateNode(c, target, other, enabled);
      && r.Some? && Registered(r.value, c.recorded.Keys)
      && r.value.recorded.Keys == c.recorded.Keys && r.value.peers == c.peers
      && (Cut(r.value, a, b) <==> if (a, b) == (target, other) then enabled else Cut(c, a, b))
  {
    assert target in c.recorded;
    UpdatedListMeans(c.recorded[target], other, enabled, b);
  }

  lemma SetPairCuts(c: Control, node: string, peer: string, enabled: bool, a: string, b: string)
    requires Registered(c, {node, peer})
    ensures var r := SetPair(c, node, peer, enabled);
      && Registered(r, c.recorded.Keys) && r.recorded.Keys == c.recorded.Keys && r.peers == c.peers
      && (Cut(r, a, b) <==> if (a, b) == (node, peer) || (a, b) == (peer, node) then enabled else Cut(c, a, b))
  {
    UpdateNodeCuts(c, node, peer, enabled, a, b);
    var c1 := UpdateNode(c, node, peer, enabled).value;
    UpdateNodeCuts(c1, peer, node, enabled, a, b);
  }

  /******* Engines agree with the records *******/

  /** Every node's engine holds its recorded list without itself, and lists only peers. */
  ghost predicate Agreeing(c: Control) {
    && Registered(c, {})
    && forall n :: n in c.recorded ==>
         c.engines[n] == Desired(n, c.recorded[n]) && Desired(n, c.recorded[n]) <= c.peers[n]
  }

  lemma UpdateNodeAgrees(c: Control, target: string, other: string, enabled: bool)
    requires Agreeing(c) && target in c.recorded && other in c.peers[target] + {target}
    ensures UpdateNode(c, target, other, enabled).Some? && Agreeing(UpdateNode(c, target, other, enabled).value)
  {
    var list := UpdatedList(c.recorded[target], other, enabled);
    var desired := Desired(target, list);
    forall x | x in desired ensures x in c.peers[target] {
      UpdatedListMeans(c.recorded[target], other, enabled, x);
      assert x == other || x in Desired(target, c.recorded[target]);
    }
    ReconciledExactly(c.engines[target], c.peers[target], desired);
  }

  lemma SetPairAgrees(c: Control, node: string, peer: string, enabled: bool)
    requires Agreeing(c) && node in c.recorded && peer in c.recorded
    requires peer in c.peers[node] + {node} && node in c.peers[peer] + {peer}
    ensures Agreeing(SetPair(c, node, peer, enabled))
  {
    UpdateNodeAgrees(c, node, peer, enabled);
    UpdateNodeAgrees(UpdateNode(c, node, peer, enabled).value, peer, node, enabled);
  }

  /******* Executing texts *******/

  /** Submitting one text: only an accepted fault-partition command touches partitions. */
  function Execute(c: Control, text: string): Control {
    match Decoded(text)
    case Some(SetPartition(_, node, peer, enabled)) => SetPair(c, node, peer, enabled)
    case _ => c
  }

  function ExecuteAll(c: Control, texts: seq<string>): Control
    decreases |texts|
  {
    if texts == [] then c else ExecuteAll(Execute(c, texts[0]), texts[1..])
  }

  function SetPairs(c: Control, pairs: Pairs, enabled: bool): Control
    decreases |pairs|
  {
    if pairs == [] then c
    else SetPairs(SetPair(c, TrimSpace(pairs[0].0), TrimSpace(pairs[0].1), enabled), pairs[1..], enabled)
  }

  /** One of the listed pairs names the two nodes in this order. */
  ghost predicate Names(pairs: Pairs, a: string, b: string) {
    exists i :: 0 <= i < |pairs| && TrimSpace(pairs[i].0) == a && TrimSpace(pairs[i].1) == b
  }

  ghost predicate AllRegistered(c: Control, pairs: Pairs) {
    forall i :: 0 <= i < |pairs| ==> Registered(c, {TrimSpace(pairs[i].0), TrimSpace(pairs[i].1)})
  }

  /** All named nodes know each other as peers. */
  ghost predicate AllPeers(c: Control, pairs: Pairs) {
    forall i :: 0 <= i < |pairs| ==>
      var l, r := TrimSpace(pairs[i].0), TrimSpace(pairs[i].1);
      && l in c.recorded && r in c.recorded && l in c.peers && r in c.peers
      && r in c.peers[l] + {l} && l in c.peers[r] + {r}
  }

  lemma NamesFirst(pairs: Pairs, a: string, b: string)
    requires pairs != []
    ensures Names(pairs, a, b) <==>
              (TrimSpace(pairs[0].0) == a && TrimSpace(pairs[0].1) == b) || Names(pairs[1..], a, b)
  {
    if Names(pairs[1..], a, b) {
      var i :| 0 <= i < |pairs[1..]| && TrimSpace(pairs[1..][i].0) == a && TrimSpace(pairs[1..][i].1) == b;
      assert pairs[i+1] == pairs[1..][i];
    }
    if Names(pairs, a, b) {
      var i :| 0 <= i < |pairs| && TrimSpace(pairs[i].0) == a && TrimSpace(pairs[i].1) == b;
      assert i > 0 ==> pairs[1..][i-1] == pairs[i];
    }
  }

  lemma {:induction false} SetPairsCuts(c: Control, pairs: Pairs, enabled: bool, a: string, b: string)
    requires AllRegistered(c, pairs)
    ensures Cut(SetPairs(c, pairs, enabled), a, b) <==>
              if Names(pairs, a, b) || Names(pairs, b, a) then enabled else Cut(c, a, b)
    decreases |pairs|
  {
    if pairs != [] {
      var l, r := TrimSpace(pairs[0].0), TrimSpace(pairs[0].1);
      var c1 := SetPair(c, l, r, enabled);
      assert Registered(c, {l, r});
      SetPairCuts(c, l, r, enabled, a, b);
      NamesFirst(pairs, a, b);
      NamesFirst(pairs, b, a);
      forall i | 0 <= i < |pairs[1..]|
        ensures Registered(c1, {TrimSpace(pairs[1..][i].0), TrimSpace(pairs[1..][i].1)})
      {
        assert pairs[1..][i] == pairs[i+1];
        assert Registered(c, {TrimSpace(pairs[i+1].0), TrimSpace(pairs[i+1].1)});
      }
      SetPairsCuts(c1, pairs[1..], enabled, a, b);
    }
  }

  lemma {:induction false} SetPairsAgree(c: Control, pairs: Pairs, enabled: bool)
    requires Agreeing(c) && AllPeers(c, pairs)
    ensures Agreeing(SetPairs(c, pairs, enabled))
    decreases |pairs|
  {
    if pairs != [] {
      var l, r := TrimSpace(pairs[0].0), TrimSpace(pairs[0].1);
      assert l in c.recorded && r in c.recorded && r in c.peers[l] + {l} && l in c.peers[r] + {r};
      var c1 := SetPair(c, l, r, enabled);
      SetPairAgrees(c, l, r, enabled);
      SetPairCuts(c, l, r, enabled, l, r);
      forall i | 0 <= i < |pairs[1..]|
        ensures var x, y := TrimSpace(pairs[1..][i].0), TrimSpace(pairs[1..][i].1);
          && x in c1.recorded && y in c1.recorded && x in c1.peers && y in c1.peers
          && y in c1.peers[x] + {x} && x in c1.peers[y] + {y}
      {
        assert pairs[1..][i] == pairs[i+1];
        assert TrimSpace(pairs[i+1].0) in c.recorded;
      }
      SetPairsAgree(c1, pairs[1..], enabled);
    }
  }

  /** Running the texts of a list of pairs is running the pairs. */
  lemma {:induction false} ExecutePairs(c: Control, e: Setting, pairs: Pairs, enabled: bool)
    requires CleanSetting(e) && AllResolve(pairs, e.members)
    ensures ExecuteAll(c, PrintAll(Partitions(e.cluster, pairs, enabled))) == SetPairs(c, pairs, enabled)
    decreases |pairs|
  {
    var cmds := Partitions(e.cluster, pairs, enabled);
    if pairs != [] {
      assert pairs[0] in pairs;
      KnownIsClean(TrimSpace(pairs[0].0), e);
      KnownIsClean(TrimSpace(pairs[0].1), e);
      ReadBack(cmds[0]);
      assert PrintAll(cmds)[0] == Print(cmds[0]);
      assert PrintAll(cmds)[1..] == PrintAll(Partitions(e.cluster, pairs[1..], enabled));
      assert AllResolve(pairs[1..], e.members) by {
        assert forall p :: p in pairs[1..] ==> p in pairs;
      }
      ExecutePairs(Execute(c, PrintAll(cmds)[0]), e, pairs[1..], enabled);
    }
  }

  /** The two names occur in different groups. */
  ghost predicate Apart(groups: seq<seq<string>>, a: string, b: string) {
    exists i, j, l, r :: 0 <= i < |groups| && 0 <= j < |groups| && i != j && l in groups[i] && r in groups[j] &&
      TrimSpace(l) == a && TrimSpace(r) == b
  }

  /** Two names from different groups cross in one order or the other. */
  lemma ApartCrosses(groups: seq<seq<string>>, i: nat, j: nat, l: string, r: string)
    requires i < |groups| && j < |groups| && i != j && l in groups[i] && r in groups[j]
    ensures Crosses(groups, l, r) || Crosses(groups, r, l)
  {
  }

  lemma ApartIsNamed(groups: seq<seq<string>>, a: string, b: string)
    requires Apart(groups, a, b)
    ensures Names(CrossPairs(groups), a, b) || Names(CrossPairs(groups), b, a)
  {
    var i, j, l, r :| 0 <= i < |groups| && 0 <= j < |groups| && i != j && l in groups[i] && r in groups[j] &&
      TrimSpace(l) == a && TrimSpace(r) == b;
    ApartCrosses(groups, i, j, l, r);
    if Crosses(groups, l, r) {
      CrossIsNamed(groups, l, r);
    } else {
      CrossIsNamed(groups, r, l);
    }
  }

  lemma NamesAreApart(groups: seq<seq<string>>, a: string, b: string)
    ensures Names(CrossPairs(groups), a, b) || Names(CrossPairs(groups), b, a) <==> Apart(groups, a, b)
  {
    if Names(CrossPairs(groups), a, b) {
      NamesCross(groups, a, b);
    }
    if Names(CrossPairs(groups), b, a) {
      NamesCross(groups, b, a);
    }
    if Apart(groups, a, b) {
      ApartIsNamed(groups, a, b);
    }
  }

  lemma NamesCross(groups: seq<seq<string>>, a: string, b: string)
    requires Names(CrossPairs(groups), a, b)
    ensures Apart(groups, a, b) && Apart(groups, b, a)
  {
    var pairs := CrossPairs(groups);
    var x :| 0 <= x < |pairs| && TrimSpace(pairs[x].0) == a && TrimSpace(pairs[x].1) == b;
    var l, r := pairs[x].0, pairs[x].1;
    assert (l, r) in pairs;
    CrossPairsMean(groups, l, r);
    var i, j :| 0 <= i < j < |groups| && l in groups[i] && r in groups[j];
  }

  lemma CrossIsNamed(groups: seq<seq<string>>, l: string, r: string)
    requires Crosses(groups, l, r)
    ensures Names(CrossPairs(groups), TrimSpace(l), TrimSpace(r))
  {
    CrossPairsMean(groups, l, r);
    var pairs := CrossPairs(groups);
    var x :| 0 <= x < |pairs| && pairs[x] == (l, r);
  }

  /** The lifecycle note changes nothing, so the step's texts run its pairs. */
  lemma ExecuteStep(c: Control, e: Setting, groups: seq<seq<string>>, enabled: bool)
    requires CleanSetting(e) && |groups| <= MAX_INT && PartitionCommands(e, groups, enabled).Some?
    ensures ExecuteAll(c, PrintAll(PartitionCommands(e, groups, enabled).value)) ==
              SetPairs(c, CrossPairs(groups), enabled)
  {
    var note := PartitionCommands(e, groups, enabled).value[0];
    var rest := Partitions(e.cluster, CrossPairs(groups), enabled);
    SplitNotePrintable(e.cluster, |groups|);
    HealNotePrintable(e.cluster);
    ReadBack(note);
    PrintAllCons(note, rest);
    assert Execute(c, Print(note)) == c;
    ExecutePairs(c, e, CrossPairs(groups), enabled);
  }

  /** Executing the texts of a compiled partition step adds exactly all cross-group pairs, in
      both directions, to the recorded relation; those of a heal step with the same groups
      remove exactly those.  Engines that agreed with the records keep agreeing while the
      named nodes are current peers of each other. */
  lemma PartitionStepCorrect(c: Control, e: Setting, groups: seq<seq<string>>, enabled: bool, a: string, b: string)
    requires CleanSetting(e) && |groups| <= MAX_INT && PartitionCommands(e, groups, enabled).Some?
    requires AllRegistered(c, CrossPairs(groups))
    ensures
      var c' := ExecuteAll(c, PrintAll(PartitionCommands(e, groups, enabled).value));
      && (Cut(c', a, b) <==> if Apart(groups, a, b) then enabled else Cut(c, a, b))
      && (Agreeing(c) && AllPeers(c, CrossPairs(groups)) ==> Agreeing(c'))
  {
    var pairs := CrossPairs(groups);
    ExecuteStep(c, e, groups, enabled);
    SetPairsCuts(c, pairs, enabled, a, b);
    NamesAreApart(groups, a, b);
    if Agreeing(c) && AllPeers(c, pairs) {
      SetPairsAgree(c, pairs, enabled);
    }
  }

  /******* Lists and sets in detail *******/

  lemma WithoutLast(list: seq<string>, x: string, id: string)
    ensures Without(list + [x], id) == Without(list, id) + if x == id then [] else [x]
  {
    assert (list + [x])[..|list|] == list;
  }

  /** Removing a peer treats each entry on its own and preserves their order. */
  lemma {:induction false} WithoutParts(a: seq<string>, b: seq<string>, id: string)
    ensures Without(a + b, id) == Without(a, id) + Without(b, id)
    ensures |b| == 1 ==> Without(b, id) == if b[0] == id then [] else b
    decreases |b|
  {
    if b == [] {
      assert a + b == a;
    } else {
      var front, x := b[..|b|-1], b[|b|-1];
      assert b == front + [x] && a + b == (a + front) + [x];
      WithoutParts(a, front, id);
      WithoutLast(a + front, x, id);
      WithoutLast(front, x, id);
    }
  }

  /** An id is refused after reconciliation exactly if it is desired, or was refused before and is
      not a current peer. */
  lemma ReconciledMeans(engine: set<string>, peers: set<string>, node: string, list: seq<string>, id: string)
    ensures id in Reconciled(engine, peers, Desired(node, list)) <==>
              (id in list && id != "" && id != node) || (id in engine && id !in peers)
  {
  }
}
