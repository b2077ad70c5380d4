/** Every text a clean experiment compiles to is accepted and decodes to the command the
    step stands for. */
module ExperimentRoundTrip {
  import opened Options
  import opened Text
  import opened Commands
  import opened CommandText
  import opened Experiment

  predicate CleanMember(m: ClusterMember) {
    Clean(m.id) && Port(m.port) && NoSpace(m.host)
  }

  /** Ids are non-empty, and nothing contains white space; a blank host means localhost. */
  predicate CleanSetting(e: Setting) {
    && Clean(e.cluster) && Clean(e.cpHost) && Port(e.cpPort)
    && forall i :: 0 <= i < |e.members| ==> CleanMember(e.members[i])
  }

  ghost predicate AllPrintable(cmds: seq<Command>) {
    forall i :: 0 <= i < |cmds| ==> Printable(cmds[i])
  }

  /** Each text decodes to its command. */
  ghost predicate AllReadBack(cmds: seq<Command>) {
    forall i :: 0 <= i < |cmds| ==> Decoded(PrintAll(cmds)[i]) == Some(cmds[i])
  }

  lemma PrintableReadsBack(cmds: seq<Command>)
    requires AllPrintable(cmds)
    ensures AllReadBack(cmds)
  {
    forall i | 0 <= i < |cmds| ensures Decoded(PrintAll(cmds)[i]) == Some(cmds[i]) {
      ReadBack(cmds[i]);
    }
  }

  lemma KnownIsClean(id: string, e: Setting)
    requires CleanSetting(e) && Known(id, e.members)
    ensures Clean(id)
  {
  }

  /******* Lifecycle notes *******/

  lemma NotePrintable(cluster: string, kind: string, words: seq<string>)
    requires Clean(cluster) && Clean(kind) && AllClean(words) && |words| >= 2
    requires words[0][0] != '"' && words[|words|-1][|words[|words|-1]|-1] != '"'
    ensures Printable(LogLifecycle(cluster, "SYSTEM", kind, Join(words, " ")))
  {
    var d := Join(words, " ");
    FieldsOfClean(words);
    assert Clean("SYSTEM");
    assert d[0] == words[0][0];
    JoinLastChar(words);
  }

  lemma {:induction false} JoinLastChar(words: seq<string>)
    requires words != [] && AllClean(words)
    ensures Join(words, " ") != ""
    ensures Join(words, " ")[|Join(words, " ")|-1] == words[|words|-1][|words[|words|-1]|-1]
    decreases |words|
  {
    if |words| > 1 {
      JoinLastChar(words[1..]);
    }
  }

  lemma StartingClean()
    ensures AllClean(STARTING)
  {
    assert Clean("Starting") && Clean("cluster") && Clean("members");
  }

  lemma ItoaClean(n: nat)
    requires n <= MAX_INT
    ensures Clean(Itoa(n))
  {
    AtoiOfItoa(n);
  }

  lemma SplittingLiteralsClean()
    ensures Clean("Splitting") && Clean("cluster") && Clean("into") && Clean("partitions")
  {
  }

  lemma SplittingClean(n: nat)
    requires n <= MAX_INT
    ensures AllClean(SplittingWords(n))
  {
    ItoaClean(n);
    SplittingLiteralsClean();
  }

  lemma HealingClean()
    ensures AllClean(HEALING)
  {
    assert Clean("Healing") && Clean("all") && Clean("network") && Clean("partitions");
  }

  lemma KindsClean()
    ensures Clean("NODE_JOIN") && Clean("PARTITION") && Clean("HEAL")
  {
  }

  lemma JoinNotePrintable(cluster: string)
    requires Clean(cluster)
    ensures Printable(LogLifecycle(cluster, "SYSTEM", "NODE_JOIN", Starting()))
  {
    KindsClean();
    StartingClean();
    NotePrintable(cluster, "NODE_JOIN", STARTING);
  }

  lemma SplitNotePrintable(cluster: string, n: nat)
    requires Clean(cluster) && n <= MAX_INT
    ensures Printable(LogLifecycle(cluster, "SYSTEM", "PARTITION", Splitting(n)))
  {
    KindsClean();
    SplittingClean(n);
    NotePrintable(cluster, "PARTITION", SplittingWords(n));
  }

  lemma HealNotePrintable(cluster: string)
    requires Clean(cluster)
    ensures Printable(LogLifecycle(cluster, "SYSTEM", "HEAL", Healing()))
  {
    KindsClean();
    HealingClean();
    NotePrintable(cluster, "HEAL", HEALING);
  }

  /******* Start commands *******/

  lemma EntryClean(m: ClusterMember)
    requires CleanMember(m)
    ensures Clean(PeerEntry(m))
  {
    NumberReadBack(m.port);
  }

  lemma PeersClean(members: seq<ClusterMember>, skip: nat)
    requires forall i :: 0 <= i < |members| ==> CleanMember(members[i])
    ensures AllClean(PeerEntries(members, skip))
  {
    forall j | 0 <= j < |PeerEntries(members, skip)| ensures Clean(PeerEntries(members, skip)[j]) {
      EntryClean(members[if skip >= |members| || j < skip then j else j + 1]);
    }
  }

  lemma {:induction false} JoinClean(words: seq<string>, sep: string)
    requires words != [] && AllClean(words) && NoSpace(sep)
    ensures Clean(Join(words, sep))
    decreases |words|
  {
    if |words| > 1 {
      JoinClean(words[1..], sep);
    }
  }

  lemma HostClean(m: ClusterMember)
    requires CleanMember(m)
    ensures Clean(HostOf(m))
  {
    TrimOfWord(m.host);
    assert Clean("localhost");
  }

  /** A member's start command has peers to list exactly when it has company. */
  lemma StartCommandPrintable(e: Setting, i: nat)
    requires CleanSetting(e) && i < |e.members|
    ensures |e.members| >= 2 ==> Printable(StartCommand(e, i))
    ensures |e.members| == 1 ==> Decoded(Print(StartCommand(e, i))).None?
  {
    var m := e.members[i];
    var peers := PeerEntries(e.members, i);
    assert CleanMember(m);
    HostClean(m);
    PeersClean(e.members, i);
    if |e.members| >= 2 {
      JoinClean(peers, ",");
    } else {
      assert peers == [];
      LonelyNodeRejected(StartCommand(e, i).process);
    }
  }

  lemma AllPrintableCons(cmd: Command, cmds: seq<Command>)
    requires Printable(cmd) && AllPrintable(cmds)
    ensures AllPrintable([cmd] + cmds)
  {
  }

  lemma StartsPrintable(e: Setting)
    requires CleanSetting(e) && |e.members| != 1
    ensures AllPrintable(seq(|e.members|, i requires 0 <= i < |e.members| => StartCommand(e, i)))
  {
    forall i | 0 <= i < |e.members| ensures Printable(StartCommand(e, i)) {
      StartCommandPrintable(e, i);
    }
  }

  lemma StartPrintable(e: Setting)
    requires CleanSetting(e) && |e.members| != 1
    ensures AllPrintable(StartCommands(e))
  {
    var create := CreateCluster(e.cluster, "gossip");
    var note := LogLifecycle(e.cluster, "SYSTEM", "NODE_JOIN", Starting());
    var starts := seq(|e.members|, i requires 0 <= i < |e.members| => StartCommand(e, i));
    StartsPrintable(e);
    JoinNotePrintable(e.cluster);
    AllPrintableCons(note, starts);
    AllPrintableCons(create, [note] + starts);
    assert StartCommands(e) == [create] + ([note] + starts);
  }

  lemma LonelyStartFails(e: Setting)
    requires CleanSetting(e) && |e.members| == 1
    ensures !AllReadBack(StartCommands(e))
  {
    StartCommandPrintable(e, 0);
    var cmds := StartCommands(e);
    assert cmds[2] == StartCommand(e, 0);
    assert Decoded(PrintAll(cmds)[2]).None?;
  }

  /** Starting a cluster compiles to texts that are all read back as meant, unless the cluster
      has exactly one member: its start-node text is then rejected. */
  lemma StartClusterReadBackExactly(e: Setting)
    requires CleanSetting(e)
    ensures AllReadBack(StartCommands(e)) <==> |e.members| != 1
  {
    if |e.members| == 1 {
      LonelyStartFails(e);
    } else {
      StartPrintable(e);
      PrintableReadsBack(StartCommands(e));
    }
  }

  /******* All steps *******/

  lemma PartitionPrintable(e: Setting, groups: seq<seq<string>>, enabled: bool)
    requires CleanSetting(e) && |groups| <= MAX_INT && PartitionCommands(e, groups, enabled).Some?
    ensures AllPrintable(PartitionCommands(e, groups, enabled).value)
  {
    var cmds, pairs := PartitionCommands(e, groups, enabled).value, CrossPairs(groups);
    SplitNotePrintable(e.cluster, |groups|);
    HealNotePrintable(e.cluster);
    forall i | 0 <= i < |cmds| ensures Printable(cmds[i]) {
      if i > 0 {
        assert cmds[i] == Partitions(e.cluster, pairs, enabled)[i-1];
        var p := pairs[i-1];
        assert p in pairs;
        KnownIsClean(TrimSpace(p.0), e);
        KnownIsClean(TrimSpace(p.1), e);
      }
    }
  }

  lemma TargetsKnown(s: TimelineStep, e: Setting, i: nat)
    requires var t := WriteTargets(s.target, s.groups, e.members); t.Some? && i < |t.value|
    ensures Known(WriteTargets(s.target, s.groups, e.members).value[i], e.members)
  {
  }

  /** For every clean experiment of at least two members: whatever step compiles, each of its
      texts is accepted and decodes to the command type and fields the step meant. */
  lemma StepReadBack(s: TimelineStep, e: Setting)
    requires CleanSetting(e) && |e.members| >= 2 && |s.groups| <= MAX_INT
    requires TrimSpace(s.action) == "write" ==> Clean(s.key) && Clean(s.value)
    requires TrimSpace(s.action) == "read_all" ==> Clean(s.key)
    requires StepCommands(s, e).Some?
    ensures AllReadBack(StepCommands(s, e).value)
  {
    var cmds, action := StepCommands(s, e).value, TrimSpace(s.action);
    if action == "start_cluster" {
      StartClusterReadBackExactly(e);
    } else {
      if action == "partition" {
        PartitionPrintable(e, s.groups, true);
      } else if action == "heal_partition" {
        PartitionPrintable(e, s.groups, false);
      } else if action == "write" {
        forall i | 0 <= i < |cmds| ensures Printable(cmds[i]) {
          TargetsKnown(s, e, i);
          KnownIsClean(WriteTargets(s.target, s.groups, e.members).value[i], e);
        }
      } else if action == "read_all" {
        forall i | 0 <= i < |cmds| ensures Printable(cmds[i]) {
          assert CleanMember(e.members[i]);
        }
      }
      PrintableReadsBack(cmds);
    }
  }
}
