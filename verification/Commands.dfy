/** The control plane's command language, for the commands an experiment compiles to. */
module Commands {
  import opened Options
  import opened Text

  datatype NodeProcess = NodeProcess(
    node: string, port: int, cluster: string, host: string, peersCSV: string, cpHost: string, cpPort: int)

  datatype Command =
    | CreateCluster(cluster: string, protocol: string)
    | StartNode(process: NodeProcess)
    | MetricsStart(cluster: string, intervalMs: int)
    | SetPartition(cluster: string, node: string, peer: string, enabled: bool)
    | KVPut(cluster: string, node: string, key: string, value: string)
    | KVGet(cluster: string, node: string, key: string)
    | LogLifecycle(cluster: string, node: string, eventType: string, details: string)
    | Other(parts: seq<string>)

  /** Verbs of the language that no experiment emits, by the number of words they need.  Their
      words are passed on once they have been checked. */
  const BARE_VERBS: set<string> := {"help", "list-node-procs", "list-clusters"}
  const ONE_ARGUMENT: set<string> :=
    {"stop-node", "list-nodes", "run-hypothesis", "run-experiment", "kill-cluster", "stop-cluster", "metrics-stop",
     "metrics-show"}
  const TWO_ARGUMENTS: set<string> :=
    {"remove-node", "fault-crash", "fault-recover", "set-protocol", "metrics-watch-key"}

  /** The argument checks of those verbs, but for the drop rate of set-fault and fault-drop. */
  predicate OtherAccepted(parts: seq<string>)
    requires parts != []
  {
    || parts[0] in BARE_VERBS
    || (parts[0] in ONE_ARGUMENT && |parts| >= 2)
    || (parts[0] in TWO_ARGUMENTS && |parts| >= 3)
    || (parts[0] == "fault-drop" && |parts| >= 4)
    || (parts[0] == "fault-delay" && |parts| >= 4 && Atoi(parts[3]).Some?)
    || (parts[0] == "add-node" && |parts| >= 5 && Atoi(parts[4]).Some?)
    || (parts[0] == "set-fault" && |parts| >= 6 && ParseBool(parts[3]).Some? && Atoi(parts[5]).Some?)
  }

  /******* Option lists *******/

  /** One `--option value` of start-node; None when the option is unknown or its value bad. */
  function SetOption(cmd: NodeProcess, option: string, value: string): Option<NodeProcess> {
    if option == "--cluster-id" then Some(cmd.(cluster := value))
    else if option == "--host" then Some(cmd.(host := value))
    else if option == "--peers" then Some(cmd.(peersCSV := value))
    else if option == "--cp-host" then Some(cmd.(cpHost := value))
    else if option == "--cp-port" && Atoi(value).Some? then Some(cmd.(cpPort := Atoi(value).value))
    else None
  }

  /** start-node options: names and values alternate to the end of the line. */
  function SetOptions(cmd: NodeProcess, args: seq<string>): Option<NodeProcess>
    decreases |args|
  {
    if args == [] then Some(cmd)
    else if |args| == 1 then None
    else
      var next := SetOption(cmd, args[0], args[1]);
      if next.None? then None else SetOptions(next.value, args[2..])
  }

  method ParseStartNode(parts: seq<string>) returns (r: Option<Command>)
    requires parts != []
    ensures r == StartNodeOf(parts)
  {
    if |parts| < 3 {
      return None;
    }
    var port := Atoi(parts[2]);
    if port.None? {
      return None;
    }
    var cmd := NodeProcess(parts[1], port.value, "default", "localhost", "", "", 0);
    var i := 3;
    while i < |parts|
      invariant 3 <= i <= |parts|
      invariant Started(SetOptions(cmd, parts[i..])) == StartNodeOf(parts)
    {
      if i + 1 >= |parts| {
        return None;
      }
      var next := SetOption(cmd, parts[i], parts[i+1]);
      if next.None? {
        return None;
      }
      assert parts[i..][2..] == parts[i+2..];
      cmd := next.value;
      i := i + 2;
    }
    return Some(StartNode(cmd));
  }

  function Started(process: Option<NodeProcess>): Option<Command> {
    if process.None? then None else Some(StartNode(process.value))
  }

  function StartNodeOf(parts: seq<string>): Option<Command>
    requires parts != []
  {
    if |parts| < 3 || Atoi(parts[2]).None? then None
    else Started(SetOptions(NodeProcess(parts[1], Atoi(parts[2]).value, "default", "localhost", "", "", 0), parts[3..]))
  }

  /** new-cluster options from position `i` on; a bare protocol is allowed right after the id. */
  function ProtocolFrom(protocol: string, parts: seq<string>, i: nat): Option<string>
    decreases |parts| - i
  {
    if i >= |parts| then Some(protocol)
    else if parts[i] in {"--protocol", "-protocol", "-p"} then
      if i + 1 >= |parts| then None else ProtocolFrom(parts[i+1], parts, i + 2)
    else if i == 2 && !("-" <= parts[i]) then ProtocolFrom(parts[i], parts, i + 1)
    else None
  }

  method ParseNewCluster(parts: seq<string>) returns (r: Option<Command>)
    requires parts != []
    ensures r == NewClusterOf(parts)
  {
    if |parts| < 2 {
      return None;
    }
    var protocol := "gossip";
    var i := 2;
    while i < |parts|
      invariant 2 <= i && ProtocolFrom(protocol, parts, i) == ProtocolFrom("gossip", parts, 2)
    {
      if parts[i] in {"--protocol", "-protocol", "-p"} {
        if i + 1 >= |parts| {
          return None;
        }
        protocol := parts[i+1];
        i := i + 2;
      } else if i == 2 && !("-" <= parts[i]) {
        protocol := parts[i];
        i := i + 1;
      } else {
        return None;
      }
    }
    return Some(CreateCluster(parts[1], protocol));
  }

  function NewClusterOf(parts: seq<string>): Option<Command>
    requires parts != []
  {
    if |parts| < 2 then None
    else
      var p := ProtocolFrom("gossip", parts, 2);
      if p.None? then None else Some(CreateCluster(parts[1], p.value))
  }

  /******* Parse *******/

  /** What the fields of a line mean; None stands for every error return. */
  function Meaning(parts: seq<string>): Option<Command> {
    if parts == [] then None
    else if parts[0] == "start-node" then StartNodeOf(parts)
    else if parts[0] == "new-cluster" then NewClusterOf(parts)
    else if parts[0] == "fault-partition" then
      if |parts| < 5 || ParseBool(parts[4]).None? then None
      else Some(SetPartition(parts[1], parts[2], parts[3], ParseBool(parts[4]).value))
    else if parts[0] == "kv-put" then
      if |parts| < 5 then None else Some(KVPut(parts[1], parts[2], parts[3], parts[4]))
    else if parts[0] == "kv-get" then
      if |parts| < 4 then None else Some(KVGet(parts[1], parts[2], parts[3]))
    else if parts[0] == "metrics-start" then
      if |parts| < 2 then None
      else if |parts| == 2 then Some(MetricsStart(parts[1], 0))
      else if Atoi(parts[2]).None? then None
      else Some(MetricsStart(parts[1], Atoi(parts[2]).value))
    else if parts[0] == "log-lifecycle" then
      if |parts| < 5 then None
      else Some(LogLifecycle(parts[1], parts[2], parts[3], TrimQuotes(Join(parts[4..], " "))))
    else if OtherAccepted(parts) then Some(Other(parts))
    else None
  }

  method Parse(input: string) returns (r: Option<Command>)
    ensures r == Meaning(Fields(input))
  {
    var parts := Fields(input);
    if parts == [] {
      return None;
    }
    if parts[0] == "start-node" {
      r := ParseStartNode(parts);
    } else if parts[0] == "new-cluster" {
      r := ParseNewCluster(parts);
    } else {
      r := Meaning(parts);
    }
  }

  /** ExecuteRuntimeCommand up to the submission: an optional `cp` word is dropped. */
  method Decode(raw: string) returns (r: Option<Command>)
    ensures r == Decoded(raw)
  {
    var trimmed := TrimSpace(raw);
    FieldsOfTrimmed(raw);
    if trimmed == "" {
      assert Fields(trimmed) == [];
      return None;
    }
    var parts := Fields(trimmed);
    if |parts| > 0 && parts[0] == "cp" {
      TrimStartsClean(raw);
      DropFirstField(trimmed);
      var remainder := TrimSpace(trimmed[2..]);
      FieldsOfTrimmed(trimmed[2..]);
      if remainder == "" {
        assert Fields(remainder) == [];
        return None;
      }
      trimmed := remainder;
    }
    r := Parse(trimmed);
  }

  /** The command a text stands for, read off its fields. */
  function Decoded(raw: string): Option<Command> {
    var parts := Fields(raw);
    if parts != [] && parts[0] == "cp" then Meaning(parts[1..]) else Meaning(parts)
  }

  /** Dropping a leading word drops the first field. */
  lemma DropFirstField(s: string)
    requires s != "" && !IsSpace(s[0]) && Fields(s)[0] == "cp"
    ensures |s| >= 2 && s[..2] == "cp" && Fields(s[2..]) == Fields(s)[1..]
  {
    FirstFieldIsWord(s);
  }

  lemma FirstFieldIsWord(s: string)
    requires s != "" && !IsSpace(s[0])
    ensures Fields(s) == [Word(s)] + Fields(s[|Word(s)|..])
  {
    assert DropSpaces(s) == s;
  }

  lemma TrimStartsClean(s: string)
    requires TrimSpace(s) != ""
    ensures !IsSpace(TrimSpace(s)[0])
  {
    assert DropTrailing(DropSpaces(s)) <= DropSpaces(s);
  }

  /******* Particular lines *******/

  /** The protocol of a new cluster: gossip unless it is named, by option or right after the id. */
  lemma NewClusterProtocol(c: string, option: string, p: string)
    requires option in {"--protocol", "-protocol", "-p"}
    ensures Meaning(["new-cluster", c]) == Some(CreateCluster(c, "gossip"))
    ensures Meaning(["new-cluster", c, option, p]) == Some(CreateCluster(c, p))
    ensures Meaning(["new-cluster", c, option]) == None
    ensures p != "" && p[0] != '-' ==> Meaning(["new-cluster", c, p]) == Some(CreateCluster(c, p))
    ensures p != "" && p[0] == '-' ==> Meaning(["new-cluster", c, p]) == None
  {
    var named := ["new-cluster", c, option, p];
    assert ProtocolFrom(p, named, 4) == Some(p);
    assert "--protocol" != "-protocol" && "-" <= "--protocol" && "-" <= "-protocol" && "-" <= "-p";
    var bare := ["new-cluster", c, p];
    assert p != "" ==> ("-" <= p <==> p[0] == '-');
    assert ProtocolFrom(p, bare, 3) == Some(p);
  }

  /** Without options a node is started on localhost, in the cluster named default. */
  lemma StartNodeDefaults(n: string, port: string)
    requires Atoi(port).Some?
    ensures Meaning(["start-node", n, port]) ==
              Some(StartNode(NodeProcess(n, Atoi(port).value, "default", "localhost", "", "", 0)))
  {
    assert ["start-node", n, port][3..] == [];
  }

  lemma MetricsInterval(c: string, interval: string)
    ensures Meaning(["metrics-start", c]) == Some(MetricsStart(c, 0))
    ensures Meaning(["metrics-start", c, interval]) ==
              if Atoi(interval).Some? then Some(MetricsStart(c, Atoi(interval).value)) else None
  {
  }

  /** How many words the verbs no experiment emits need, and which of them must be numbers or flags. */
  lemma OtherVerbs(parts: seq<string>)
    requires parts != []
    ensures parts[0] in {"help", "list-node-procs", "list-clusters"} ==> OtherAccepted(parts)
    ensures parts[0] in {"stop-node", "list-nodes", "run-hypothesis", "run-experiment", "kill-cluster"} ==>
              (OtherAccepted(parts) <==> |parts| >= 2)
    ensures parts[0] in {"stop-cluster", "metrics-stop", "metrics-show"} ==> (OtherAccepted(parts) <==> |parts| >= 2)
    ensures parts[0] in {"remove-node", "fault-crash", "fault-recover", "set-protocol", "metrics-watch-key"} ==>
              (OtherAccepted(parts) <==> |parts| >= 3)
    ensures parts[0] == "fault-drop" ==> (OtherAccepted(parts) <==> |parts| >= 4)
    ensures parts[0] == "fault-delay" ==> (OtherAccepted(parts) <==> |parts| >= 4 && Atoi(parts[3]).Some?)
    ensures parts[0] == "add-node" ==> (OtherAccepted(parts) <==> |parts| >= 5 && Atoi(parts[4]).Some?)
    ensures parts[0] == "set-fault" ==>
              (OtherAccepted(parts) <==> |parts| >= 6 && ParseBool(parts[3]).Some? && Atoi(parts[5]).Some?)
  {
  }
}
