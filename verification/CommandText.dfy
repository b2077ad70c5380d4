/** The text an experiment prints for a command, and that the parser reads it back. */
module CommandText {
  import opened Options
  import opened Text
  import opened Commands

  /** The words of the text; the details of a lifecycle event are printed in quotes. */
  function Words(cmd: Command): seq<string> {
    match cmd
    case CreateCluster(c, _) => ["cp", "new-cluster", c]
    case StartNode(p) =>
      ["start-node", p.node, Digits(p.port), "--cluster-id", p.cluster, "--host", p.host, "--peers", p.peersCSV,
       "--cp-host", p.cpHost, "--cp-port", Digits(p.cpPort)]
    case MetricsStart(c, _) => ["metrics-start", c]
    case SetPartition(c, n, p, on) => ["fault-partition", c, n, p, FormatBool(on)]
    case KVPut(c, n, k, v) => ["kv-put", c, n, k, v]
    case KVGet(c, n, k) => ["kv-get", c, n, k]
    case LogLifecycle(c, n, t, details) => ["log-lifecycle", c, n, t, "\"" + details + "\""]
    case Other(parts) => parts
  }

  function Digits(n: int): string {
    if n < 0 then "-" + Itoa(-n) else Itoa(n)
  }

  function Print(cmd: Command): string {
    Join(Words(cmd), " ")
  }

  predicate Clean(s: string) {
    s != "" && NoSpace(s)
  }

  predicate Port(n: int) {
    0 <= n <= MAX_INT
  }

  /** Commands an experiment emits when its ids, hosts, keys and values are clean. */
  predicate Printable(cmd: Command) {
    match cmd
    case CreateCluster(c, protocol) => Clean(c) && protocol == "gossip"
    case StartNode(p) =>
      && Clean(p.node) && Port(p.port) && Clean(p.cluster) && Clean(p.host) && Clean(p.peersCSV)
      && Clean(p.cpHost) && Port(p.cpPort)
    case MetricsStart(c, interval) => Clean(c) && interval == 0
    case SetPartition(c, n, p, _) => Clean(c) && Clean(n) && Clean(p)
    case KVPut(c, n, k, v) => Clean(c) && Clean(n) && Clean(k) && Clean(v)
    case KVGet(c, n, k) => Clean(c) && Clean(n) && Clean(k)
    case LogLifecycle(c, n, t, details) =>
      Clean(c) && Clean(n) && Clean(t) && SingleSpaced(details) && details[0] != '"' && details[|details|-1] != '"'
    case Other(_) => false
  }

  /** Words separated by single blanks. */
  predicate SingleSpaced(s: string) {
    s != "" && Join(Fields(s), " ") == s
  }

  predicate AllClean(words: seq<string>) {
    forall i :: 0 <= i < |words| ==> Clean(words[i])
  }

  lemma FieldsOfClean(words: seq<string>)
    requires AllClean(words)
    ensures Fields(Join(words, " ")) == words
  {
    FieldsOfJoin(words);
    NonEmptyIsAll(words);
  }

  /******* Quoted details *******/

  lemma {:induction false} FieldsAreClean(s: string)
    ensures forall i :: 0 <= i < |Fields(s)| ==> Clean(Fields(s)[i])
    decreases |s|
  {
    var t := DropSpaces(s);
    if t != "" {
      FieldsAreClean(t[|Word(t)|..]);
    }
  }

  /** Words with a quote before the first and after the last. */
  function Quoted(words: seq<string>): (r: seq<string>)
    requires words != []
    ensures |r| == |words|
  {
    if |words| == 1 then ["\"" + words[0] + "\""]
    else ["\"" + words[0]] + words[1..|words|-1] + [words[|words|-1] + "\""]
  }

  lemma {:induction false} JoinEnd(words: seq<string>, suffix: string)
    requires words != []
    ensures Join(words[..|words|-1] + [words[|words|-1] + suffix], " ") == Join(words, " ") + suffix
    decreases |words|
  {
    var w' := words[..|words|-1] + [words[|words|-1] + suffix];
    if |words| > 1 {
      JoinEnd(words[1..], suffix);
      assert w'[1..] == words[1..][..|words|-2] + [words[|words|-1] + suffix];
      assert w'[0] == words[0];
    }
  }

  lemma JoinOfQuoted(words: seq<string>)
    requires words != []
    ensures Join(Quoted(words), " ") == "\"" + Join(words, " ") + "\""
  {
    var open := ["\"" + words[0]] + words[1..];
    assert Join(open, " ") == "\"" + Join(words, " ");
    JoinEnd(open, "\"");
    assert Quoted(words) == open[..|open|-1] + [open[|open|-1] + "\""];
  }

  lemma {:induction false} JoinParts(a: seq<string>, b: seq<string>)
    requires b != []
    ensures Join(a + b, " ") == Join(a + [Join(b, " ")], " ")
    decreases |a|
  {
    if a == [] {
      assert a + b == b && a + [Join(b, " ")] == [Join(b, " ")];
    } else {
      JoinParts(a[1..], b);
      assert (a + b)[1..] == a[1..] + b && (a + [Join(b, " ")])[1..] == a[1..] + [Join(b, " ")];
    }
  }

  /** The details, quoted word by word, are clean words. */
  lemma QuotedClean(words: seq<string>)
    requires words != [] && AllClean(words)
    ensures AllClean(Quoted(words))
  {
    var q := Quoted(words);
    forall i | 0 <= i < |q| ensures Clean(q[i]) {
      assert Clean(words[i]);
    }
  }

  lemma HeadClean(c: string, n: string, t: string, q: seq<string>)
    requires Clean(c) && Clean(n) && Clean(t) && AllClean(q)
    ensures AllClean(["log-lifecycle", c, n, t] + q)
  {
    var head := ["log-lifecycle", c, n, t];
    assert Clean("log-lifecycle");
    forall i | 0 <= i < |head + q| ensures Clean((head + q)[i]) {
      if i >= 4 {
        assert (head + q)[i] == q[i-4];
      }
    }
  }

  lemma LifecycleReadBack(cmd: Command)
    requires cmd.LogLifecycle? && Printable(cmd)
    ensures Decoded(Print(cmd)) == Some(cmd)
  {
    var LogLifecycle(c, n, t, details) := cmd;
    var head, dw := ["log-lifecycle", c, n, t], Fields(details);
    assert dw != [] by { assert Join([], " ") == ""; }
    var q := Quoted(dw);
    FieldsAreClean(details);
    QuotedClean(dw);
    HeadClean(c, n, t, q);
    FieldsOfClean(head + q);
    JoinOfQuoted(dw);
    JoinParts(head, q);
    assert Words(cmd) == head + [Join(q, " ")];
    LifecycleMeaning(head, q, details);
  }

  lemma LifecycleMeaning(head: seq<string>, q: seq<string>, details: string)
    requires |head| == 4 && head[0] == "log-lifecycle" && q != [] && Join(q, " ") == "\"" + details + "\""
    requires details != "" && details[0] != '"' && details[|details|-1] != '"'
    ensures Meaning(head + q) == Some(LogLifecycle(head[1], head[2], head[3], details))
  {
    assert (head + q)[4..] == q;
    TrimQuotesOfQuoted(details);
  }

  /******* The other commands *******/

  lemma NumberReadBack(n: int)
    requires Port(n)
    ensures Clean(Digits(n)) && Atoi(Digits(n)) == Some(n)
  {
    AtoiOfItoa(n);
  }

  lemma ClusterVerbsClean()
    ensures Clean("cp") && Clean("new-cluster") && Clean("start-node") && Clean("metrics-start")
  {
  }

  lemma VerbsClean()
    ensures AllClean(["cp", "new-cluster", "start-node", "metrics-start", "fault-partition", "kv-put", "kv-get"])
  {
    ClusterVerbsClean();
    assert Clean("fault-partition") && Clean("kv-put") && Clean("kv-get");
  }

  lemma NodeOptionsClean()
    ensures Clean("--cluster-id") && Clean("--host") && Clean("--peers")
  {
  }

  lemma OptionsClean()
    ensures AllClean(["--cluster-id", "--host", "--peers", "--cp-host", "--cp-port", "true", "false"])
  {
    NodeOptionsClean();
    assert Clean("--cp-host") && Clean("--cp-port");
  }

  lemma LiteralClean(w: string)
    requires w in {"cp", "new-cluster", "start-node", "metrics-start", "fault-partition", "kv-put", "kv-get",
                   "--cluster-id", "--host", "--peers", "--cp-host", "--cp-port", "true", "false"}
    ensures Clean(w)
  {
    VerbsClean();
    OptionsClean();
    var a := ["cp", "new-cluster", "start-node", "metrics-start", "fault-partition", "kv-put", "kv-get"];
    var b := ["--cluster-id", "--host", "--peers", "--cp-host", "--cp-port", "true", "false"];
    assert w in a || w in b;
  }

  lemma StartWordsClean(p: NodeProcess)
    requires Clean(p.node) && Port(p.port) && Clean(p.cluster) && Clean(p.host) && Clean(p.cpHost) && Port(p.cpPort)
    ensures AllClean(["start-node", p.node, Digits(p.port), "--cluster-id", p.cluster, "--host", p.host, "--peers"])
    ensures AllClean(["--cp-host", p.cpHost, "--cp-port", Digits(p.cpPort)])
  {
    NumberReadBack(p.port);
    NumberReadBack(p.cpPort);
    LiteralClean("start-node");
    LiteralClean("--cluster-id");
    LiteralClean("--host");
    LiteralClean("--peers");
    LiteralClean("--cp-host");
    LiteralClean("--cp-port");
  }

  lemma AllCleanJoin(a: seq<string>, b: seq<string>)
    requires AllClean(a) && AllClean(b)
    ensures AllClean(a + b)
  {
  }

  /** The fields of a clean command are its words. */
  lemma FieldsOfPrinted(cmd: Command)
    requires Printable(cmd) && !cmd.LogLifecycle?
    ensures Fields(Print(cmd)) == Words(cmd)
  {
    if cmd.StartNode? {
      var p := cmd.process;
      var a := ["start-node", p.node, Digits(p.port), "--cluster-id", p.cluster, "--host", p.host, "--peers"];
      var b := ["--cp-host", p.cpHost, "--cp-port", Digits(p.cpPort)];
      StartWordsClean(p);
      AllCleanJoin([p.peersCSV], b);
      AllCleanJoin(a, [p.peersCSV] + b);
      assert Words(cmd) == a + ([p.peersCSV] + b);
    } else {
      ShortWordsClean(cmd);
    }
    FieldsOfClean(Words(cmd));
  }

  lemma ShortWordsClean(cmd: Command)
    requires Printable(cmd) && !cmd.LogLifecycle? && !cmd.StartNode?
    ensures AllClean(Words(cmd))
  {
    match cmd
    case CreateCluster(_, _) => LiteralClean("cp"); LiteralClean("new-cluster");
    case MetricsStart(_, _) => LiteralClean("metrics-start");
    case SetPartition(_, _, _, on) => LiteralClean("fault-partition"); LiteralClean(FormatBool(on));
    case KVPut(_, _, _, _) => LiteralClean("kv-put");
    case KVGet(_, _, _) => LiteralClean("kv-get");
  }

  lemma OptionsReadBack(p: NodeProcess, c: NodeProcess)
    requires Port(p.cpPort)
    ensures SetOptions(c, ["--cluster-id", p.cluster, "--host", p.host, "--peers", p.peersCSV,
                           "--cp-host", p.cpHost, "--cp-port", Digits(p.cpPort)])
         == Some(p.(node := c.node, port := c.port))
  {
    NumberReadBack(p.cpPort);
    var a1 := ["--cluster-id", p.cluster, "--host", p.host, "--peers", p.peersCSV,
               "--cp-host", p.cpHost, "--cp-port", Digits(p.cpPort)];
    var a2 := ["--host", p.host, "--peers", p.peersCSV, "--cp-host", p.cpHost, "--cp-port", Digits(p.cpPort)];
    var a3 := ["--peers", p.peersCSV, "--cp-host", p.cpHost, "--cp-port", Digits(p.cpPort)];
    var a4 := ["--cp-host", p.cpHost, "--cp-port", Digits(p.cpPort)];
    var a5 := ["--cp-port", Digits(p.cpPort)];
    assert a1[2..] == a2 && a2[2..] == a3 && a3[2..] == a4 && a4[2..] == a5 && a5[2..] == [];
    var c4 := c.(cluster := p.cluster, host := p.host, peersCSV := p.peersCSV, cpHost := p.cpHost);
    assert SetOptions(c4, a5) == Some(c4.(cpPort := p.cpPort));
    var c3 := c.(cluster := p.cluster, host := p.host, peersCSV := p.peersCSV);
    assert SetOptions(c3, a4) == SetOptions(c4, a5);
    var c2 := c.(cluster := p.cluster, host := p.host);
    assert SetOptions(c2, a3) == SetOptions(c3, a4);
    var c1 := c.(cluster := p.cluster);
    assert SetOptions(c1, a2) == SetOptions(c2, a3);
  }

  lemma StartNodeReadBack(cmd: Command)
    requires cmd.StartNode? && Printable(cmd)
    ensures Decoded(Print(cmd)) == Some(cmd)
  {
    var p, w := cmd.process, Words(cmd);
    FieldsOfPrinted(cmd);
    NumberReadBack(p.port);
    OptionsReadBack(p, NodeProcess(p.node, p.port, "default", "localhost", "", "", 0));
    assert w[3..] == ["--cluster-id", p.cluster, "--host", p.host, "--peers", p.peersCSV,
                      "--cp-host", p.cpHost, "--cp-port", Digits(p.cpPort)];
  }

  lemma CreateReadBack(cmd: Command)
    requires cmd.CreateCluster? && Printable(cmd)
    ensures Decoded(Print(cmd)) == Some(cmd)
  {
    FieldsOfPrinted(cmd);
    assert Words(cmd)[1..] == ["new-cluster", cmd.cluster];
  }

  lemma PlainReadBack(cmd: Command)
    requires cmd.MetricsStart? || cmd.SetPartition? || cmd.KVPut? || cmd.KVGet?
    requires Printable(cmd)
    ensures Decoded(Print(cmd)) == Some(cmd)
  {
    FieldsOfPrinted(cmd);
    PlainMeaning(cmd);
  }

  lemma PlainMeaning(cmd: Command)
    requires cmd.MetricsStart? || cmd.SetPartition? || cmd.KVPut? || cmd.KVGet?
    requires Printable(cmd)
    ensures Words(cmd)[0] != "cp" && Meaning(Words(cmd)) == Some(cmd)
  {
  }

  /** Every command an experiment may emit is read back exactly. */
  lemma ReadBack(cmd: Command)
    requires Printable(cmd)
    ensures Decoded(Print(cmd)) == Some(cmd)
  {
    match cmd
    case StartNode(_) => StartNodeReadBack(cmd);
    case LogLifecycle(_, _, _, _) => LifecycleReadBack(cmd);
    case CreateCluster(_, _) => CreateReadBack(cmd);
    case _ => PlainReadBack(cmd);
  }

  /** A start-node text without peers is rejected: the parser takes the next option for the
      peer list and is left with an odd number of words. */
  lemma LonelyNodeRejected(p: NodeProcess)
    requires Clean(p.node) && Port(p.port) && Clean(p.cluster) && Clean(p.host) && Clean(p.cpHost) && Port(p.cpPort)
    requires p.peersCSV == ""
    ensures Decoded(Print(StartNode(p))).None?
  {
    LonelyPrinted(p);
    LonelyMeaning(p, Fields(Print(StartNode(p))));
  }

  lemma LonelyPrinted(p: NodeProcess)
    requires Clean(p.node) && Port(p.port) && Clean(p.cluster) && Clean(p.host) && Clean(p.cpHost) && Port(p.cpPort)
    requires p.peersCSV == ""
    ensures Fields(Print(StartNode(p))) ==
              ["start-node", p.node, Digits(p.port), "--cluster-id", p.cluster, "--host", p.host, "--peers"] +
              ["--cp-host", p.cpHost, "--cp-port", Digits(p.cpPort)]
  {
    var a := ["start-node", p.node, Digits(p.port), "--cluster-id", p.cluster, "--host", p.host, "--peers"];
    var b := ["--cp-host", p.cpHost, "--cp-port", Digits(p.cpPort)];
    StartWordsClean(p);
    LonelyFields(a, b);
    assert Words(StartNode(p)) == a + [""] + b;
  }

  lemma LonelyMeaning(p: NodeProcess, parts: seq<string>)
    requires Port(p.port)
    requires parts == ["start-node", p.node, Digits(p.port), "--cluster-id", p.cluster, "--host", p.host, "--peers"] +
                      ["--cp-host", p.cpHost, "--cp-port", Digits(p.cpPort)]
    ensures parts[0] == "start-node" && Meaning(parts).None?
  {
    NumberReadBack(p.port);
    assert parts[3..] == ["--cluster-id", p.cluster, "--host", p.host, "--peers",
                          "--cp-host", p.cpHost, "--cp-port", Digits(p.cpPort)];
    LonelyOptions(p, NodeProcess(p.node, p.port, "default", "localhost", "", "", 0));
  }

  lemma LonelyFields(a: seq<string>, b: seq<string>)
    requires AllClean(a) && AllClean(b)
    ensures Fields(Join(a + [""] + b, " ")) == a + b
  {
    var w := a + [""] + b;
    forall i | 0 <= i < |w| ensures NoSpace(w[i]) {
      assert w[i] == "" || (i < |a| && Clean(a[i])) || (i > |a| && Clean(b[i-|a|-1]));
    }
    FieldsOfJoin(w);
    NonEmptySkips(a, b);
  }

  lemma LonelyOptions(p: NodeProcess, c: NodeProcess)
    ensures SetOptions(c, ["--cluster-id", p.cluster, "--host", p.host, "--peers",
                           "--cp-host", p.cpHost, "--cp-port", Digits(p.cpPort)]).None?
  {
    var a1 := ["--cluster-id", p.cluster, "--host", p.host, "--peers",
               "--cp-host", p.cpHost, "--cp-port", Digits(p.cpPort)];
    var a2 := ["--host", p.host, "--peers", "--cp-host", p.cpHost, "--cp-port", Digits(p.cpPort)];
    var a3 := ["--peers", "--cp-host", p.cpHost, "--cp-port", Digits(p.cpPort)];
    var a4 := [p.cpHost, "--cp-port", Digits(p.cpPort)];
    assert a1[2..] == a2 && a2[2..] == a3 && a3[2..] == a4 && |a4[2..]| == 1;
    var c3 := c.(cluster := p.cluster, host := p.host, peersCSV := "--cp-host");
    assert SetOptions(c3, a4).None?;
    var c2 := c.(cluster := p.cluster, host := p.host);
    assert SetOptions(c2, a3).None?;
    assert SetOptions(c.(cluster := p.cluster), a2).None?;
  }

  lemma {:induction false} NonEmptySkips(a: seq<string>, b: seq<string>)
    requires (forall i :: 0 <= i < |a| ==> a[i] != "") && (forall i :: 0 <= i < |b| ==> b[i] != "")
    ensures NonEmpty(a + [""] + b) == a + b
    decreases |a|
  {
    var w := a + [""] + b;
    if a == [] {
      assert w[0] == "" && w[1..] == b && a + b == b;
      NonEmptyIsAll(b);
    } else {
      assert w[0] == a[0] && w[1..] == a[1..] + [""] + b;
      NonEmptySkips(a[1..], b);
      assert a + b == [a[0]] + (a[1..] + b);
    }
  }

  /******* The printed forms *******/

  lemma JoinTwo(a: string, b: string)
    ensures Join([a, b], " ") == a + " " + b
  {
    assert [a, b][1..] == [b];
  }

  lemma JoinMore(words: seq<string>, w: string)
    requires words != []
    ensures Join(words + [w], " ") == Join(words, " ") + " " + w
    decreases |words|
  {
    if |words| == 1 {
      assert words + [w] == [words[0], w];
      JoinTwo(words[0], w);
    } else {
      assert (words + [w])[0] == words[0] && (words + [w])[1..] == words[1..] + [w];
      JoinMore(words[1..], w);
    }
  }

  lemma JoinThree(a: string, b: string, c: string)
    ensures Join([a, b, c], " ") == a + " " + b + " " + c
  {
    JoinTwo(a, b);
    JoinMore([a, b], c);
    assert [a, b] + [c] == [a, b, c];
  }

  lemma JoinFour(a: string, b: string, c: string, d: string)
    ensures Join([a, b, c, d], " ") == a + " " + b + " " + c + " " + d
  {
    JoinThree(a, b, c);
    JoinMore([a, b, c], d);
    assert [a, b, c] + [d] == [a, b, c, d];
  }

  lemma JoinFive(a: string, b: string, c: string, d: string, e: string)
    ensures Join([a, b, c, d, e], " ") == a + " " + b + " " + c + " " + d + " " + e
  {
    JoinFour(a, b, c, d);
    JoinMore([a, b, c, d], e);
    assert [a, b, c, d] + [e] == [a, b, c, d, e];
  }

  /** The texts of the short commands, as the compiler formats them. */
  lemma PrintedForms(c: string, n: string, p: string, k: string, v: string, on: bool, t: string, details: string)
    ensures Print(CreateCluster(c, "gossip")) == "cp" + " " + "new-cluster" + " " + c
    ensures Print(MetricsStart(c, 0)) == "metrics-start" + " " + c
    ensures Print(SetPartition(c, n, p, on)) ==
              "fault-partition" + " " + c + " " + n + " " + p + " " + (if on then "true" else "false")
    ensures Print(KVPut(c, n, k, v)) == "kv-put" + " " + c + " " + n + " " + k + " " + v
    ensures Print(KVGet(c, n, k)) == "kv-get" + " " + c + " " + n + " " + k
    ensures Print(LogLifecycle(c, n, t, details)) ==
              "log-lifecycle" + " " + c + " " + n + " " + t + " " + ("\"" + details + "\"")
  {
    JoinThree("cp", "new-cluster", c);
    JoinTwo("metrics-start", c);
    JoinFive("fault-partition", c, n, p, FormatBool(on));
    JoinFive("kv-put", c, n, k, v);
    JoinFour("kv-get", c, n, k);
    JoinFive("log-lifecycle", c, n, t, "\"" + details + "\"");
  }

  /** The text that starts a node. */
  lemma StartForm(p: NodeProcess)
    ensures Print(StartNode(p)) ==
              ("start-node" + " " + p.node + " " + Digits(p.port) + " " + "--cluster-id" + " " + p.cluster) + " " +
              "--host" + " " + p.host + " " + "--peers" + " " + p.peersCSV + " " +
              "--cp-host" + " " + p.cpHost + " " + "--cp-port" + " " + Digits(p.cpPort)
  {
    var w5 := ["start-node", p.node, Digits(p.port), "--cluster-id", p.cluster];
    JoinFive("start-node", p.node, Digits(p.port), "--cluster-id", p.cluster);
    var w6 := w5 + ["--host"];
    JoinMore(w5, "--host");
    var w7 := w6 + [p.host];
    JoinMore(w6, p.host);
    var w8 := w7 + ["--peers"];
    JoinMore(w7, "--peers");
    var w9 := w8 + [p.peersCSV];
    JoinMore(w8, p.peersCSV);
    var w10 := w9 + ["--cp-host"];
    JoinMore(w9, "--cp-host");
    var w11 := w10 + [p.cpHost];
    JoinMore(w10, p.cpHost);
    var w12 := w11 + ["--cp-port"];
    JoinMore(w11, "--cp-port");
    JoinMore(w12, Digits(p.cpPort));
    assert Words(StartNode(p)) == w12 + [Digits(p.cpPort)];
  }
}
