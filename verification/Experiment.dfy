/** The experiment compiler: a timeline step becomes a list of command texts. */
module Experiment {
  import opened Options
  import opened Text
  import opened Commands
  import opened CommandText

  datatype ClusterMember = ClusterMember(id: string, port: int, host: string)

  datatype TimelineStep = TimelineStep(
    action: string, groups: seq<seq<string>>, key: string, value: string, target: string)

  /** Where the commands run: cluster id, control plane address and members. */
  datatype Setting = Setting(cluster: string, cpHost: string, cpPort: int, members: seq<ClusterMember>)

  /******* Resolving node names *******/

  predicate Known(id: string, members: seq<ClusterMember>) {
    exists i :: 0 <= i < |members| && members[i].id == id
  }

  /** A group entry resolves to its trimmed text if that is a member's id. */
  function ResolveGroupNodeID(name: string, members: seq<ClusterMember>): Option<string> {
    var id := TrimSpace(name);
    if id != "" && Known(id, members) then Some(id) else None
  }

  function LowerChar(c: char): char {
    if 'A' <= c <= 'Z' then c - 'A' + 'a' else c
  }

  /** Lower case of the ASCII letters, the only ones the compared names consist of. */
  function Lower(s: string): string {
    if s == "" then "" else [LowerChar(s[0])] + Lower(s[1..])
  }

  function Ids(members: seq<ClusterMember>): seq<string> {
    seq(|members|, i requires 0 <= i < |members| => members[i].id)
  }

  /** The first node of the group with the given number, counted from one. */
  function LeaderAt(index: Option<int>, groups: seq<seq<string>>, members: seq<ClusterMember>): Option<string> {
    if index.None? || index.value < 1 || index.value > |groups| || groups[index.value-1] == [] then None
    else ResolveGroupNodeID(groups[index.value-1][0], members)
  }

  /** The first node of the group a target such as "group2" names. */
  function GroupLeader(target: string, groups: seq<seq<string>>, members: seq<ClusterMember>): Option<string> {
    var lower := Lower(TrimSpace(target));
    if "group" <= lower then LeaderAt(Atoi(lower[5..]), groups, members) else None
  }

  function WriteTargets(target: string, groups: seq<seq<string>>, members: seq<ClusterMember>): Option<seq<string>> {
    var trimmed := TrimSpace(target);
    if trimmed == "" then None
    else if Lower(trimmed) == "all" then
      if members == [] then None else Some(Ids(members))
    else
      var node := if "group" <= Lower(trimmed) then GroupLeader(trimmed, groups, members)
                  else ResolveGroupNodeID(trimmed, members);
      if node.None? then None else Some([node.value])
  }

  /******* Cross-group pairs *******/

  type Pairs = seq<(string, string)>

  function WithEach(left: string, rights: seq<string>): Pairs {
    if rights == [] then [] else [(left, rights[0])] + WithEach(left, rights[1..])
  }

  function Between(lefts: seq<string>, rights: seq<string>): Pairs {
    if lefts == [] then [] else WithEach(lefts[0], rights) + Between(lefts[1..], rights)
  }

  function Against(group: seq<string>, groups: seq<seq<string>>): Pairs {
    if groups == [] then [] else Between(group, groups[0]) + Against(group, groups[1..])
  }

  /** All pairs of a node of an earlier group with a node of a later one. */
  function CrossPairs(groups: seq<seq<string>>): Pairs {
    if groups == [] then [] else Against(groups[0], groups[1..]) + CrossPairs(groups[1..])
  }

  lemma {:induction false} WithEachMeans(left: string, rights: seq<string>, a: string, b: string)
    ensures (a, b) in WithEach(left, rights) <==> a == left && b in rights
    decreases |rights|
  {
    if rights != [] {
      WithEachMeans(left, rights[1..], a, b);
      assert rights == [rights[0]] + rights[1..];
    }
  }

  lemma {:induction false} BetweenMeans(lefts: seq<string>, rights: seq<string>, a: string, b: string)
    ensures (a, b) in Between(lefts, rights) <==> a in lefts && b in rights
    decreases |lefts|
  {
    if lefts != [] {
      WithEachMeans(lefts[0], rights, a, b);
      BetweenMeans(lefts[1..], rights, a, b);
      assert lefts == [lefts[0]] + lefts[1..];
    }
  }

  lemma {:induction false} AgainstMeans(group: seq<string>, groups: seq<seq<string>>, a: string, b: string)
    ensures (a, b) in Against(group, groups) <==> a in group && exists j :: 0 <= j < |groups| && b in groups[j]
    decreases |groups|
  {
    if groups != [] {
      BetweenMeans(group, groups[0], a, b);
      AgainstMeans(group, groups[1..], a, b);
      if exists j :: 0 <= j < |groups| && b in groups[j] {
        var j :| 0 <= j < |groups| && b in groups[j];
        assert j > 0 ==> groups[1..][j-1] == groups[j];
      }
    }
  }

  ghost predicate Crosses(groups: seq<seq<string>>, a: string, b: string) {
    exists i, j :: 0 <= i < j < |groups| && a in groups[i] && b in groups[j]
  }

  lemma {:induction false} CrossPairsMean(groups: seq<seq<string>>, a: string, b: string)
    ensures (a, b) in CrossPairs(groups) <==> Crosses(groups, a, b)
    decreases |groups|
  {
    if groups != [] {
      var rest := groups[1..];
      AgainstMeans(groups[0], rest, a, b);
      CrossPairsMean(rest, a, b);
      if Crosses(groups, a, b) {
        var i, j :| 0 <= i < j < |groups| && a in groups[i] && b in groups[j];
        assert groups[j] == rest[j-1];
        if i > 0 {
          assert groups[i] == rest[i-1];
        }
      }
      if Crosses(rest, a, b) {
        var i, j :| 0 <= i < j < |rest| && a in rest[i] && b in rest[j];
        assert a in groups[i+1] && b in groups[j+1];
      }
      if exists j :: 0 <= j < |rest| && b in rest[j] {
        var j :| 0 <= j < |rest| && b in rest[j];
        assert b in groups[j+1];
      }
    }
  }

  /******* Meaning of a step *******/

  predicate AllResolve(pairs: Pairs, members: seq<ClusterMember>) {
    forall p :: p in pairs ==> ResolveGroupNodeID(p.0, members).Some? && ResolveGroupNodeID(p.1, members).Some?
  }

  function Partitions(cluster: string, pairs: Pairs, enabled: bool): (r: seq<Command>)
    ensures |r| == |pairs|
    ensures forall i :: 0 <= i < |r| ==>
              r[i] == SetPartition(cluster, TrimSpace(pairs[i].0), TrimSpace(pairs[i].1), enabled)
  {
    seq(|pairs|, i requires 0 <= i < |pairs| =>
      SetPartition(cluster, TrimSpace(pairs[i].0), TrimSpace(pairs[i].1), enabled))
  }

  function HostOf(m: ClusterMember): string {
    if TrimSpace(m.host) == "" then "localhost" else TrimSpace(m.host)
  }

  function PeerEntry(m: ClusterMember): string {
    m.id + ":" + Digits(m.port)
  }

  function Entries(members: seq<ClusterMember>): (r: seq<string>)
    ensures |r| == |members| && forall i :: 0 <= i < |r| ==> r[i] == PeerEntry(members[i])
  {
    seq(|members|, i requires 0 <= i < |members| => PeerEntry(members[i]))
  }

  /** All elements except the one at `skip`. */
  function Others(xs: seq<string>, skip: nat): seq<string> {
    if skip < |xs| then xs[..skip] + xs[skip+1..] else xs
  }

  /** id:port of every member except the one at `skip`. */
  function PeerEntries(members: seq<ClusterMember>, skip: nat): seq<string> {
    Others(Entries(members), skip)
  }

  function StartCommand(e: Setting, i: nat): Command
    requires i < |e.members|
  {
    StartNode(NodeProcess(e.members[i].id, e.members[i].port, e.cluster, HostOf(e.members[i]),
                          Join(PeerEntries(e.members, i), ","), e.cpHost, e.cpPort))
  }

  const STARTING: seq<string> := ["Starting", "cluster", "members"]

  function Starting(): string {
    Join(STARTING, " ")
  }

  function StartCommands(e: Setting): seq<Command> {
    [CreateCluster(e.cluster, "gossip"),
     LogLifecycle(e.cluster, "SYSTEM", "NODE_JOIN", Starting())] +
    seq(|e.members|, i requires 0 <= i < |e.members| => StartCommand(e, i))
  }

  function SplittingWords(n: nat): seq<string> {
    ["Splitting", "cluster", "into", Itoa(n), "partitions"]
  }

  function Splitting(n: nat): string {
    Join(SplittingWords(n), " ")
  }

  const HEALING: seq<string> := ["Healing", "all", "network", "partitions"]

  function Healing(): string {
    Join(HEALING, " ")
  }

  function PartitionCommands(e: Setting, groups: seq<seq<string>>, enabled: bool): Option<seq<Command>> {
    if |groups| < 2 || !AllResolve(CrossPairs(groups), e.members) then None
    else Some([if enabled then LogLifecycle(e.cluster, "SYSTEM", "PARTITION", Splitting(|groups|))
               else LogLifecycle(e.cluster, "SYSTEM", "HEAL", Healing())] +
              Partitions(e.cluster, CrossPairs(groups), enabled))
  }

  function Writes(cluster: string, nodes: seq<string>, key: string, value: string): (r: seq<Command>)
    ensures |r| == |nodes| && forall i :: 0 <= i < |r| ==> r[i] == KVPut(cluster, nodes[i], key, value)
  {
    seq(|nodes|, i requires 0 <= i < |nodes| => KVPut(cluster, nodes[i], key, value))
  }

  function Reads(cluster: string, members: seq<ClusterMember>, key: string): (r: seq<Command>)
    ensures |r| == |members| && forall i :: 0 <= i < |r| ==> r[i] == KVGet(cluster, members[i].id, key)
  {
    seq(|members|, i requires 0 <= i < |members| => KVGet(cluster, members[i].id, key))
  }

  /** The commands a timeline step stands for; None where compilation fails. */
  function StepCommands(s: TimelineStep, e: Setting): Option<seq<Command>> {
    var action := TrimSpace(s.action);
    if action == "start_cluster" then Some(StartCommands(e))
    else if action == "start_metrics_collection" then Some([MetricsStart(e.cluster, 0)])
    else if action == "partition" then PartitionCommands(e, s.groups, true)
    else if action == "heal_partition" then PartitionCommands(e, s.groups, false)
    else if action == "write" then
      var nodes := WriteTargets(s.target, s.groups, e.members);
      if nodes.None? then None
      else Some(Writes(e.cluster, nodes.value, s.key, s.value))
    else if action == "read_all" then
      Some(Reads(e.cluster, e.members, s.key))
    else None
  }

  function PrintAll(cmds: seq<Command>): (r: seq<string>)
    ensures |r| == |cmds| && forall i :: 0 <= i < |r| ==> r[i] == Print(cmds[i])
  {
    seq(|cmds|, i requires 0 <= i < |cmds| => Print(cmds[i]))
  }

  function Texts(cmds: Option<seq<Command>>): Option<seq<string>> {
    if cmds.None? then None else Some(PrintAll(cmds.value))
  }

  /******* The compiler's loops *******/

  lemma OthersNext(xs: seq<string>, skip: nat, i: nat)
    requires i < |xs|
    ensures Others(xs[..i+1], skip) == Others(xs[..i], skip) + if i == skip then [] else [xs[i]]
  {
    assert xs[..i+1] == xs[..i] + [xs[i]];
    if skip < i {
      assert xs[..i+1][..skip] == xs[..i][..skip] && xs[..i+1][skip+1..] == xs[..i][skip+1..] + [xs[i]];
    }
  }

  lemma AppendParts(a: seq<string>, b: seq<string>, c: seq<string>)
    ensures a + (b + c) == (a + b) + c
  {
  }

  method BuildPeerList(skip: nat, members: seq<ClusterMember>) returns (r: string)
    ensures r == Join(PeerEntries(members, skip), ",")
  {
    var peers: seq<string> := [];
    ghost var entries := Entries(members);
    for i := 0 to |members|
      invariant peers == Others(entries[..i], skip)
    {
      OthersNext(entries, skip, i);
      if i != skip {
        peers := peers + [PeerEntry(members[i])];
      }
    }
    assert entries[..|members|] == entries;
    r := Join(peers, ",");
  }

  function StartText(e: Setting, i: nat): string
    requires i < |e.members|
  {
    Print(StartCommand(e, i))
  }

  /** The text creating the cluster and the text announcing its members. */
  function Preamble(e: Setting): seq<string> {
    [Print(CreateCluster(e.cluster, "gossip")),
     Print(LogLifecycle(e.cluster, "SYSTEM", "NODE_JOIN", Starting()))]
  }

  function StartTexts(e: Setting): seq<string> {
    seq(|e.members|, i requires 0 <= i < |e.members| => StartText(e, i))
  }

  lemma StartTextsPrinted(e: Setting)
    ensures StartTexts(e) == PrintAll(seq(|e.members|, i requires 0 <= i < |e.members| => StartCommand(e, i)))
  {
  }

  lemma PreambleFirst(a: string, b: string, rest: seq<string>)
    ensures [a, b] + rest == [a] + ([b] + rest)
  {
  }

  lemma StartPrinted(e: Setting)
    ensures Preamble(e) + StartTexts(e) == PrintAll(StartCommands(e))
  {
    var create := CreateCluster(e.cluster, "gossip");
    var note := LogLifecycle(e.cluster, "SYSTEM", "NODE_JOIN", Starting());
    var starts := seq(|e.members|, i requires 0 <= i < |e.members| => StartCommand(e, i));
    StartTextsPrinted(e);
    PrintAllCons(note, starts);
    PrintAllCons(create, [note] + starts);
    assert StartCommands(e) == [create] + ([note] + starts);
    PreambleFirst(Print(create), Print(note), StartTexts(e));
  }

  lemma TakeNext(all: seq<string>, i: nat)
    requires i < |all|
    ensures all[..i+1] == all[..i] + [all[i]]
  {
  }

  lemma StartTextsNext(e: Setting, i: nat, done: seq<string>)
    requires i < |e.members|
    ensures done + StartTexts(e)[..i+1] == (done + StartTexts(e)[..i]) + [StartText(e, i)]
  {
    TakeNext(StartTexts(e), i);
    AppendParts(done, StartTexts(e)[..i], [StartText(e, i)]);
  }

  method CompileStartCluster(e: Setting) returns (texts: seq<string>)
    ensures texts == PrintAll(StartCommands(e))
  {
    texts := Preamble(e);
    for i := 0 to |e.members|
      invariant texts == Preamble(e) + StartTexts(e)[..i]
    {
      var text := CompileStartNode(e, i);
      StartTextsNext(e, i, Preamble(e));
      texts := texts + [text];
    }
    assert StartTexts(e)[..|e.members|] == StartTexts(e);
    StartPrinted(e);
  }

  method CompileStartNode(e: Setting, i: nat) returns (text: string)
    requires i < |e.members|
    ensures text == StartText(e, i)
  {
    var m := e.members[i];
    var peers := BuildPeerList(i, e.members);
    text := Print(StartNode(NodeProcess(m.id, m.port, e.cluster, HostOf(m), peers, e.cpHost, e.cpPort)));
  }

  /** Texts of a list of pairs; None if one of the names does not resolve. */
  function Compiled(e: Setting, pairs: Pairs, enabled: bool): Option<seq<string>> {
    if AllResolve(pairs, e.members) then Some(PrintAll(Partitions(e.cluster, pairs, enabled))) else None
  }

  function Both(a: Option<seq<string>>, b: Option<seq<string>>): Option<seq<string>> {
    if a.None? || b.None? then None else Some(a.value + b.value)
  }

  lemma ResolveParts(members: seq<ClusterMember>, a: Pairs, b: Pairs)
    ensures AllResolve(a + b, members) <==> AllResolve(a, members) && AllResolve(b, members)
  {
    assert forall p :: p in a + b <==> p in a || p in b;
  }

  lemma PrintedParts(cluster: string, a: Pairs, b: Pairs, enabled: bool)
    ensures PrintAll(Partitions(cluster, a + b, enabled)) ==
            PrintAll(Partitions(cluster, a, enabled)) + PrintAll(Partitions(cluster, b, enabled))
  {
  }

  lemma CompiledParts(e: Setting, a: Pairs, b: Pairs, enabled: bool)
    ensures Compiled(e, a + b, enabled) == Both(Compiled(e, a, enabled), Compiled(e, b, enabled))
  {
    ResolveParts(e.members, a, b);
    PrintedParts(e.cluster, a, b, enabled);
  }

  lemma BothParts(a: Option<seq<string>>, b: Option<seq<string>>, c: Option<seq<string>>)
    ensures Both(a, Both(b, c)) == Both(Both(a, b), c)
  {
    if a.Some? && b.Some? && c.Some? {
      AppendParts(a.value, b.value, c.value);
    }
  }

  /** What is still to come decides together with what is done. */
  lemma CompiledNext(e: Setting, done: Option<seq<string>>, piece: Pairs, rest: Pairs, enabled: bool)
    ensures Both(done, Compiled(e, piece + rest, enabled)) ==
            Both(Both(done, Compiled(e, piece, enabled)), Compiled(e, rest, enabled))
  {
    CompiledParts(e, piece, rest, enabled);
    BothParts(done, Compiled(e, piece, enabled), Compiled(e, rest, enabled));
  }

  lemma CompiledEmpty(e: Setting, texts: Option<seq<string>>, enabled: bool)
    ensures Both(texts, Compiled(e, [], enabled)) == texts && Both(Some([]), texts) == texts
  {
    assert PrintAll(Partitions(e.cluster, [], enabled)) == [];
    if texts.Some? {
      assert texts.value + [] == texts.value && [] + texts.value == texts.value;
    }
  }

  lemma CompiledPair(e: Setting, left: string, right: string, enabled: bool)
    ensures
      var l, r := ResolveGroupNodeID(left, e.members), ResolveGroupNodeID(right, e.members);
      Compiled(e, [(left, right)], enabled) ==
        if l.None? || r.None? then None else Some([Print(SetPartition(e.cluster, l.value, r.value, enabled))])
  {
    var pairs := [(left, right)];
    assert pairs[0] in pairs;
    var cmds := Partitions(e.cluster, pairs, enabled);
    assert cmds == [SetPartition(e.cluster, TrimSpace(left), TrimSpace(right), enabled)];
    assert PrintAll(cmds) == [Print(cmds[0])];
  }

  /** Innermost loop: one left node with every node of a right group. */
  method CompileWithEach(e: Setting, left: string, rights: seq<string>, enabled: bool) returns (r: Option<seq<string>>)
    ensures r == Compiled(e, WithEach(left, rights), enabled)
  {
    var texts: seq<string> := [];
    ghost var all := Compiled(e, WithEach(left, rights), enabled);
    CompiledEmpty(e, all, enabled);
    for j := 0 to |rights|
      invariant Both(Some(texts), Compiled(e, WithEach(left, rights[j..]), enabled)) == all
    {
      assert rights[j..][1..] == rights[j+1..];
      CompiledNext(e, Some(texts), [(left, rights[j])], WithEach(left, rights[j+1..]), enabled);
      CompiledPair(e, left, rights[j], enabled);
      var l := ResolveGroupNodeID(left, e.members);
      if l.None? {
        return None;
      }
      var x := ResolveGroupNodeID(rights[j], e.members);
      if x.None? {
        return None;
      }
      texts := texts + [Print(SetPartition(e.cluster, l.value, x.value, enabled))];
    }
    CompiledEmpty(e, Some(texts), enabled);
    return Some(texts);
  }

  method CompileBetween(e: Setting, lefts: seq<string>, rights: seq<string>, enabled: bool)
    returns (r: Option<seq<string>>)
    ensures r == Compiled(e, Between(lefts, rights), enabled)
  {
    var texts: seq<string> := [];
    ghost var all := Compiled(e, Between(lefts, rights), enabled);
    CompiledEmpty(e, all, enabled);
    for i := 0 to |lefts|
      invariant Both(Some(texts), Compiled(e, Between(lefts[i..], rights), enabled)) == all
    {
      assert lefts[i..][1..] == lefts[i+1..];
      CompiledNext(e, Some(texts), WithEach(lefts[i], rights), Between(lefts[i+1..], rights), enabled);
      var more := CompileWithEach(e, lefts[i], rights, enabled);
      if more.None? {
        return None;
      }
      texts := texts + more.value;
    }
    CompiledEmpty(e, Some(texts), enabled);
    return Some(texts);
  }

  method CompileAgainst(e: Setting, group: seq<string>, groups: seq<seq<string>>, enabled: bool)
    returns (r: Option<seq<string>>)
    ensures r == Compiled(e, Against(group, groups), enabled)
  {
    var texts: seq<string> := [];
    ghost var all := Compiled(e, Against(group, groups), enabled);
    CompiledEmpty(e, all, enabled);
    for j := 0 to |groups|
      invariant Both(Some(texts), Compiled(e, Against(group, groups[j..]), enabled)) == all
    {
      assert groups[j..][1..] == groups[j+1..];
      CompiledNext(e, Some(texts), Between(group, groups[j]), Against(group, groups[j+1..]), enabled);
      var more := CompileBetween(e, group, groups[j], enabled);
      if more.None? {
        return None;
      }
      texts := texts + more.value;
    }
    CompiledEmpty(e, Some(texts), enabled);
    return Some(texts);
  }

  /** compilePartitionCommands: every group against every later group. */
  method CompilePartition(e: Setting, groups: seq<seq<string>>, enabled: bool) returns (r: Option<seq<string>>)
    ensures r == if |groups| < 2 then None else Compiled(e, CrossPairs(groups), enabled)
  {
    if |groups| < 2 {
      return None;
    }
    var texts: seq<string> := [];
    ghost var all := Compiled(e, CrossPairs(groups), enabled);
    CompiledEmpty(e, all, enabled);
    for i := 0 to |groups|
      invariant Both(Some(texts), Compiled(e, CrossPairs(groups[i..]), enabled)) == all
    {
      assert groups[i..][1..] == groups[i+1..];
      CompiledNext(e, Some(texts), Against(groups[i], groups[i+1..]), CrossPairs(groups[i+1..]), enabled);
      var more := CompileAgainst(e, groups[i], groups[i+1..], enabled);
      if more.None? {
        return None;
      }
      texts := texts + more.value;
    }
    CompiledEmpty(e, Some(texts), enabled);
    return Some(texts);
  }

  method CompileWrites(cluster: string, nodes: seq<string>, key: string, value: string) returns (texts: seq<string>)
    ensures texts == PrintAll(Writes(cluster, nodes, key, value))
  {
    texts := [];
    for i := 0 to |nodes|
      invariant |texts| == i && forall j :: 0 <= j < i ==> texts[j] == Print(KVPut(cluster, nodes[j], key, value))
    {
      texts := texts + [Print(KVPut(cluster, nodes[i], key, value))];
    }
  }

  method CompileReads(cluster: string, members: seq<ClusterMember>, key: string) returns (texts: seq<string>)
    ensures texts == PrintAll(Reads(cluster, members, key))
  {
    texts := [];
    for i := 0 to |members|
      invariant |texts| == i && forall j :: 0 <= j < i ==> texts[j] == Print(KVGet(cluster, members[j].id, key))
    {
      texts := texts + [Print(KVGet(cluster, members[i].id, key))];
    }
  }

  lemma PrintAllCons(cmd: Command, cmds: seq<Command>)
    ensures PrintAll([cmd] + cmds) == [Print(cmd)] + PrintAll(cmds)
  {
    var all := [cmd] + cmds;
    forall i | 0 <= i < |all| ensures PrintAll(all)[i] == ([Print(cmd)] + PrintAll(cmds))[i] {
      assert i > 0 ==> all[i] == cmds[i-1];
    }
  }

  /** A partition or heal step: a lifecycle note, then the commands. */
  method CompilePartitionStep(e: Setting, groups: seq<seq<string>>, enabled: bool) returns (r: Option<seq<string>>)
    ensures r == Texts(PartitionCommands(e, groups, enabled))
  {
    var cmds := CompilePartition(e, groups, enabled);
    if cmds.None? {
      return None;
    }
    var note := if enabled then LogLifecycle(e.cluster, "SYSTEM", "PARTITION", Splitting(|groups|))
                else LogLifecycle(e.cluster, "SYSTEM", "HEAL", Healing());
    ghost var rest := Partitions(e.cluster, CrossPairs(groups), enabled);
    assert PartitionCommands(e, groups, enabled) == Some([note] + rest);
    PrintAllCons(note, rest);
    return Some([Print(note)] + cmds.value);
  }

  /** compileCommands prints exactly the commands the step stands for. */
  method CompileCommands(s: TimelineStep, e: Setting) returns (r: Option<seq<string>>)
    ensures r == Texts(StepCommands(s, e))
  {
    var action := TrimSpace(s.action);
    if action == "start_cluster" {
      var texts := CompileStartCluster(e);
      return Some(texts);
    } else if action == "start_metrics_collection" {
      var cmds := [MetricsStart(e.cluster, 0)];
      assert PrintAll(cmds) == [Print(cmds[0])];
      return Some([Print(cmds[0])]);
    } else if action == "partition" {
      r := CompilePartitionStep(e, s.groups, true);
    } else if action == "heal_partition" {
      r := CompilePartitionStep(e, s.groups, false);
    } else if action == "write" {
      var nodes := WriteTargets(s.target, s.groups, e.members);
      if nodes.None? {
        return None;
      }
      var texts := CompileWrites(e.cluster, nodes.value, s.key, s.value);
      return Some(texts);
    } else if action == "read_all" {
      var texts := CompileReads(e.cluster, e.members, s.key);
      return Some(texts);
    } else {
      return None;
    }
  }

  /******* What steps name *******/

  lemma {:induction false} LowerOfDigits(s: string)
    requires forall i :: 0 <= i < |s| ==> '0' <= s[i] <= '9'
    ensures Lower(s) == s
    decreases |s|
  {
    if s != "" {
      LowerOfDigits(s[1..]);
    }
  }

  lemma {:induction false} LowerParts(a: string, b: string)
    ensures Lower(a + b) == Lower(a) + Lower(b)
    decreases |a|
  {
    if a == "" {
      assert a + b == b;
    } else {
      assert (a + b)[0] == a[0] && (a + b)[1..] == a[1..] + b;
      LowerParts(a[1..], b);
    }
  }

  lemma GroupName(i: nat)
    requires i <= MAX_INT
    ensures var t := "group" + Itoa(i);
      TrimSpace(t) == t && Lower(t) == t && "group" <= t && t[5..] == Itoa(i) && Lower(t) != "all"
  {
    GroupTrimmed(i);
    LowerOfDigits(Itoa(i));
    LowerOfGroup();
    LowerParts("group", Itoa(i));
    SuffixOfGroup(Itoa(i));
  }

  lemma GroupTrimmed(i: nat)
    requires i <= MAX_INT
    ensures TrimSpace("group" + Itoa(i)) == "group" + Itoa(i)
  {
    LowerOfGroup();
    AtoiOfItoa(i);
    TrimOfWord("group" + Itoa(i));
  }

  lemma SuffixOfGroup(s: string)
    ensures "group" <= "group" + s && ("group" + s)[5..] == s && "group" + s != "all"
  {
    assert ("group" + s)[0] == 'g' && "all"[0] == 'a';
  }

  lemma LowerOfGroup()
    ensures Lower("group") == "group" && NoSpace("group")
  {
    LowerParts("gro", "up");
    assert Lower("gro") == "gro" && Lower("up") == "up" && "gro" + "up" == "group";
  }

  /** The target group i names the first node of the i-th group, counted from one, if there is such
      a group and its first entry resolves. */
  lemma GroupTarget(i: nat, groups: seq<seq<string>>, members: seq<ClusterMember>)
    requires i <= MAX_INT
    ensures WriteTargets("group" + Itoa(i), groups, members) ==
              if 1 <= i <= |groups| && groups[i-1] != [] && ResolveGroupNodeID(groups[i-1][0], members).Some?
              then Some([TrimSpace(groups[i-1][0])])
              else None
  {
    GroupName(i);
    AtoiOfItoa(i);
    LeaderOf("group" + Itoa(i), i, groups, members);
    LeaderMeans(i, groups, members);
  }

  lemma LeaderMeans(i: int, groups: seq<seq<string>>, members: seq<ClusterMember>)
    ensures var leader := LeaderAt(Some(i), groups, members);
      && (leader.Some? <==>
            1 <= i <= |groups| && groups[i-1] != [] && ResolveGroupNodeID(groups[i-1][0], members).Some?)
      && (leader.Some? ==> leader.value == TrimSpace(groups[i-1][0]))
  {
  }

  lemma LeaderOf(t: string, i: int, groups: seq<seq<string>>, members: seq<ClusterMember>)
    requires TrimSpace(t) == t && Lower(t) == t && "group" <= t && Atoi(t[5..]) == Some(i) && t != "all"
    ensures var leader := LeaderAt(Some(i), groups, members);
      WriteTargets(t, groups, members) == if leader.None? then None else Some([leader.value])
  {
    FirstOfGroup(t, i, groups, members);
    OnlyLeader(t, groups, members);
  }

  lemma FirstOfGroup(t: string, i: int, groups: seq<seq<string>>, members: seq<ClusterMember>)
    requires TrimSpace(t) == t && Lower(t) == t && "group" <= t && Atoi(t[5..]) == Some(i)
    ensures GroupLeader(t, groups, members) == LeaderAt(Some(i), groups, members)
  {
  }

  lemma OnlyLeader(t: string, groups: seq<seq<string>>, members: seq<ClusterMember>)
    requires TrimSpace(t) == t && Lower(t) == t && "group" <= t && t != "all"
    ensures WriteTargets(t, groups, members) ==
              if GroupLeader(t, groups, members).None? then None else Some([GroupLeader(t, groups, members).value])
  {
    assert t != "";
  }

  /** The target all names every member, in the order of the members; a cluster has to have some. */
  lemma AllTarget(groups: seq<seq<string>>, members: seq<ClusterMember>)
    ensures var r := WriteTargets("all", groups, members);
      && (r.None? <==> members == [])
      && (r.Some? ==> |r.value| == |members| && forall i :: 0 <= i < |members| ==> r.value[i] == members[i].id)
  {
    assert NoSpace("all");
    TrimOfWord("all");
    assert Lower("all") == "all";
  }

  /** Any other target is the id of a member, or fails. */
  lemma NodeTarget(t: string, groups: seq<seq<string>>, members: seq<ClusterMember>)
    requires t != "" && NoSpace(t) && Lower(t) != "all" && !("group" <= Lower(t))
    ensures WriteTargets(t, groups, members) ==
              if exists i :: 0 <= i < |members| && members[i].id == t then Some([t]) else None
  {
    TrimOfWord(t);
  }

  /** Compiling a partition fails exactly with fewer than two groups or if a name of two different
      groups does not resolve. */
  lemma PartitionFailsExactly(e: Setting, groups: seq<seq<string>>, enabled: bool)
    ensures PartitionCommands(e, groups, enabled).None? <==>
              || |groups| < 2
              || exists l, r :: Crosses(groups, l, r) && !(Resolves(l, e.members) && Resolves(r, e.members))
  {
    forall l, r ensures (l, r) in CrossPairs(groups) <==> Crosses(groups, l, r) {
      CrossPairsMean(groups, l, r);
    }
    if !AllResolve(CrossPairs(groups), e.members) {
      var p :| p in CrossPairs(groups) && !(Resolves(p.0, e.members) && Resolves(p.1, e.members));
      assert Crosses(groups, p.0, p.1);
    }
    if exists l, r :: Crosses(groups, l, r) && !(Resolves(l, e.members) && Resolves(r, e.members)) {
      var l, r :| Crosses(groups, l, r) && !(Resolves(l, e.members) && Resolves(r, e.members));
      assert (l, r) in CrossPairs(groups);
    }
  }

  /** The name, trimmed, is the id of a member and not empty. */
  predicate Resolves(name: string, members: seq<ClusterMember>)
    ensures Resolves(name, members) <==> ResolveGroupNodeID(name, members).Some?
  {
    TrimSpace(name) != "" && exists i :: 0 <= i < |members| && members[i].id == TrimSpace(name)
  }

  /** A member's peers are all other members, in their order. */
  lemma PeerEntriesMean(members: seq<ClusterMember>, i: nat, j: nat)
    requires i < |members| && j < |members| - 1
    ensures |PeerEntries(members, i)| == |members| - 1
    ensures var m := members[if j < i then j else j + 1]; PeerEntries(members, i)[j] == m.id + ":" + Digits(m.port)
  {
  }

  /******* What steps stand for *******/

  /** The commands that start a cluster: create it, announce its members, start each of them with
      all others as peers, on its own host or localhost. */
  lemma StartCommandsMean(e: Setting)
    ensures var cmds := StartCommands(e);
      && |cmds| == |e.members| + 2 && cmds[0] == CreateCluster(e.cluster, "gossip")
      && cmds[1] == LogLifecycle(e.cluster, "SYSTEM", "NODE_JOIN", "Starting" + " " + "cluster" + " " + "members")
      && forall i :: 0 <= i < |e.members| ==>
           && cmds[i+2].StartNode? && cmds[i+2].process.node == e.members[i].id
           && cmds[i+2].process.port == e.members[i].port && cmds[i+2].process.cluster == e.cluster
           && cmds[i+2].process.host ==
                (if TrimSpace(e.members[i].host) == "" then "localhost" else TrimSpace(e.members[i].host))
           && cmds[i+2].process.peersCSV == Join(PeerEntries(e.members, i), ",")
           && cmds[i+2].process.cpHost == e.cpHost && cmds[i+2].process.cpPort == e.cpPort
  {
    JoinThree("Starting", "cluster", "members");
  }

  /** The texts of the notes. */
  lemma NotesMean(n: nat)
    ensures Splitting(n) == "Splitting" + " " + "cluster" + " " + "into" + " " + Itoa(n) + " " + "partitions"
    ensures Healing() == "Healing" + " " + "all" + " " + "network" + " " + "partitions"
  {
    JoinFive("Splitting", "cluster", "into", Itoa(n), "partitions");
    JoinFour("Healing", "all", "network", "partitions");
  }

  function Note(cluster: string, n: nat, enabled: bool): Command {
    if enabled then LogLifecycle(cluster, "SYSTEM", "PARTITION", Splitting(n))
    else LogLifecycle(cluster, "SYSTEM", "HEAL", Healing())
  }

  lemma NotedFirst(e: Setting, groups: seq<seq<string>>, enabled: bool)
    requires PartitionCommands(e, groups, enabled).Some?
    ensures PartitionCommands(e, groups, enabled).value ==
              [Note(e.cluster, |groups|, enabled)] + Partitions(e.cluster, CrossPairs(groups), enabled)
  {
  }

  lemma ConsAt(cmd: Command, cmds: seq<Command>)
    ensures ([cmd] + cmds)[0] == cmd && forall i :: 0 <= i < |cmds| ==> ([cmd] + cmds)[i+1] == cmds[i]
  {
  }

  /** A partition or heal step is announced, and then each cross-group pair is set. */
  lemma PartitionNoted(e: Setting, groups: seq<seq<string>>, enabled: bool)
    requires PartitionCommands(e, groups, enabled).Some?
    ensures
      var cmds, pairs := PartitionCommands(e, groups, enabled).value, CrossPairs(groups);
      && |cmds| == |pairs| + 1 && cmds[0] == Note(e.cluster, |groups|, enabled)
      && forall i :: 0 <= i < |pairs| ==>
           cmds[i+1] == SetPartition(e.cluster, TrimSpace(pairs[i].0), TrimSpace(pairs[i].1), enabled)
  {
    NotedFirst(e, groups, enabled);
    ConsAt(Note(e.cluster, |groups|, enabled), Partitions(e.cluster, CrossPairs(groups), enabled));
  }

  /** Which action stands for what; any other does not compile. */
  lemma ActionsMean(s: TimelineStep, e: Setting)
    ensures s.action == "start_cluster" ==> StepCommands(s, e) == Some(StartCommands(e))
    ensures s.action == "start_metrics_collection" ==> StepCommands(s, e) == Some([MetricsStart(e.cluster, 0)])
    ensures s.action == "partition" ==> StepCommands(s, e) == PartitionCommands(e, s.groups, true)
    ensures s.action == "heal_partition" ==> StepCommands(s, e) == PartitionCommands(e, s.groups, false)
    ensures s.action == "write" ==>
              var nodes := WriteTargets(s.target, s.groups, e.members);
              && (StepCommands(s, e).None? <==> nodes.None?)
              && (nodes.Some? ==> |StepCommands(s, e).value| == |nodes.value| && forall i :: 0 <= i < |nodes.value| ==>
                    StepCommands(s, e).value[i] == KVPut(e.cluster, nodes.value[i], s.key, s.value))
    ensures s.action == "read_all" ==>
              var cmds := StepCommands(s, e);
              && cmds.Some? && |cmds.value| == |e.members|
              && forall i :: 0 <= i < |e.members| ==> cmds.value[i] == KVGet(e.cluster, e.members[i].id, s.key)
    ensures StepCommands(s, e).Some? ==>
              TrimSpace(s.action) in
                {"start_cluster", "start_metrics_collection", "partition", "heal_partition", "write", "read_all"}
  {
    ActionsTrimmed();
  }

  lemma ActionsTrimmed()
    ensures TrimSpace("start_cluster") == "start_cluster" && TrimSpace("partition") == "partition"
    ensures TrimSpace("start_metrics_collection") == "start_metrics_collection"
    ensures TrimSpace("heal_partition") == "heal_partition"
    ensures TrimSpace("write") == "write" && TrimSpace("read_all") == "read_all"
  {
    ShortActionsTrimmed();
    LongActionsTrimmed();
  }

  lemma LongActionsTrimmed()
    ensures TrimSpace("start_metrics_collection") == "start_metrics_collection"
    ensures TrimSpace("heal_partition") == "heal_partition"
  {
    LongActionsClean();
    TrimOfWord("start_metrics_collection");
    TrimOfWord("heal_partition");
  }

  lemma LongActionsClean()
    ensures NoSpace("start_metrics_collection") && NoSpace("heal_partition")
  {
  }

  lemma ShortActionsTrimmed()
    ensures TrimSpace("start_cluster") == "start_cluster" && TrimSpace("partition") == "partition"
    ensures TrimSpace("write") == "write" && TrimSpace("read_all") == "read_all"
  {
    assert NoSpace("start_cluster") && NoSpace("partition") && NoSpace("write") && NoSpace("read_all");
    TrimOfWord("start_cluster");
    TrimOfWord("partition");
    TrimOfWord("write");
    TrimOfWord("read_all");
  }
}
