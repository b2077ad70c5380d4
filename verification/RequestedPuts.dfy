/** What is stored and sent was asked for: the history of a run holds exactly the data and
    timestamps its Put steps asked for, in their order. */
module RequestedPuts {
  import opened Options
  import opened GossipValues
  import opened GossipCluster

  datatype Request = Request(data: string, timestamp: int)

  /** What the Put steps at node `n` asked to store under `k`, in order. */
  function Requests(steps: seq<Step>, n: string, k: string): seq<Request>
    decreases |steps|
  {
    if steps == [] then [] else RequestOf(steps[0], n, k) + Requests(steps[1..], n, k)
  }

  function RequestOf(s: Step, n: string, k: string): seq<Request> {
    if s.Put? && s.node == n && s.key == k then [Request(s.data, s.timestamp)] else []
  }

  ghost predicate Granted(writes: seq<Value>, requests: seq<Request>) {
    && |writes| == |requests|
    && forall i :: 0 <= i < |writes| ==> Request(writes[i].data, writes[i].timestamp) == requests[i]
  }

  lemma StepGrants(c: Cluster, s: Step, n: string, k: string, before: seq<Request>)
    requires Enabled(c, s) && Granted(Writes(c.puts, n, k), before)
    ensures Granted(Writes(Apply(c, s).puts, n, k), before + RequestOf(s, n, k))
  {
    if s.Put? {
      assert Apply(c, s).puts == Append(c.puts, s.node, s.key, Latest(c, s));
    } else {
      assert Apply(c, s).puts == c.puts && before + [] == before;
    }
  }

  lemma RequestsParts(steps: seq<Step>, n: string, k: string, before: seq<Request>)
    requires steps != []
    ensures before + RequestOf(steps[0], n, k) + Requests(steps[1..], n, k) == before + Requests(steps, n, k)
  {
  }

  lemma {:induction false} RunGrants(c: Cluster, steps: seq<Step>, n: string, k: string, before: seq<Request>)
    requires ValidRun(c, steps) && Granted(Writes(c.puts, n, k), before)
    ensures Granted(Writes(After(c, steps).puts, n, k), before + Requests(steps, n, k))
    decreases |steps|
  {
    if steps == [] {
      assert before + [] == before;
    } else {
      StepGrants(c, steps[0], n, k, before);
      RunGrants(Apply(c, steps[0]), steps[1..], n, k, before + RequestOf(steps[0], n, k));
      RequestsParts(steps, n, k, before);
    }
  }

  /** In every run the i-th write of a node under a key has the data and the timestamp that the
      i-th Put step of that node and key asked for, and there are as many of one as of the other. */
  lemma HistoryIsRequests(c: Cluster, steps: seq<Step>, n: string, k: string)
    requires Init(c) && ValidRun(c, steps)
    ensures Granted(Writes(After(c, steps).puts, n, k), Requests(steps, n, k))
  {
    RunGrants(c, steps, n, k, []);
    assert [] + Requests(steps, n, k) == Requests(steps, n, k);
  }

  ghost predicate AskedFor(steps: seq<Step>, n: string, k: string, data: string, timestamp: int) {
    exists j :: 0 <= j < |steps| && steps[j] == Put(n, k, data, timestamp)
  }

  lemma {:induction false} RequestIsStep(steps: seq<Step>, n: string, k: string, i: nat)
    requires i < |Requests(steps, n, k)|
    ensures AskedFor(steps, n, k, Requests(steps, n, k)[i].data, Requests(steps, n, k)[i].timestamp)
    decreases |steps|
  {
    var r, first := Requests(steps, n, k)[i], RequestOf(steps[0], n, k);
    if i < |first| {
      assert steps[0] == Put(n, k, r.data, r.timestamp);
    } else {
      RequestIsStep(steps[1..], n, k, i - |first|);
      var j :| 0 <= j < |steps[1..]| && steps[1..][j] == Put(n, k, r.data, r.timestamp);
      assert steps[j+1] == Put(n, k, r.data, r.timestamp);
    }
  }

  lemma WriteWasAsked(c: Cluster, steps: seq<Step>, n: string, k: string, i: nat)
    requires Init(c) && ValidRun(c, steps) && i < |Writes(After(c, steps).puts, n, k)|
    ensures var w := Writes(After(c, steps).puts, n, k)[i]; AskedFor(steps, n, k, w.data, w.timestamp)
  {
    HistoryIsRequests(c, steps, n, k);
    RequestIsStep(steps, n, k, i);
  }

  lemma GenuineWasAsked(c: Cluster, steps: seq<Step>, k: string, v: Value)
    requires Init(c) && ValidRun(c, steps) && Genuine(After(c, steps).puts, k, v)
    ensures AskedFor(steps, v.origin, k, v.data, v.timestamp)
  {
    var h := After(c, steps).puts;
    var i :| 0 <= i < At(v.clock, v.origin) <= |Writes(h, v.origin, k)| && SameWrite(Writes(h, v.origin, k)[i], v);
    WriteWasAsked(c, steps, v.origin, k, i);
  }

  /** In every reachable state each stored value carries the data and the timestamp of a Put its
      origin was asked to do in the run. */
  lemma StoredWasAsked(c: Cluster, steps: seq<Step>, n: string, k: string)
    requires Init(c) && ValidRun(c, steps) && n in After(c, steps).stores && k in After(c, steps).stores[n]
    ensures var v := After(c, steps).stores[n][k]; AskedFor(steps, v.origin, k, v.data, v.timestamp)
  {
    InitInv(c);
    RunKeepsInv(c, steps);
    assert GenuineStore(After(c, steps).puts, After(c, steps).stores[n]);
    GenuineWasAsked(c, steps, k, After(c, steps).stores[n][k]);
  }

  /** And so does each value in a STATE that was ever sent. */
  lemma SentWasAsked(c: Cluster, steps: seq<Step>, e: Envelope, k: string)
    requires Init(c) && ValidRun(c, steps) && e in After(c, steps).sent && e.message.State? && k in e.message.state
    ensures var v := e.message.state[k]; AskedFor(steps, v.origin, k, v.data, v.timestamp)
  {
    InitInv(c);
    RunKeepsInv(c, steps);
    assert GenuineMessage(After(c, steps).puts, e.message);
    GenuineWasAsked(c, steps, k, e.message.state[k]);
  }

  /******* The gates of the senders *******/

  /** No step puts an envelope on the wire that its sender's gate refuses. */
  lemma StepSendsOpenly(c: Cluster, s: Step, e: Envelope)
    requires Enabled(c, s) && e in Apply(c, s).sent && e !in c.sent
    ensures e.from in c.faults && !c.faults[e.from].crashed && e.to !in c.faults[e.from].partitions
  {
  }

  /** A node whose engine stays crashed, or partitioned from a peer, sends nothing new (to it). */
  lemma {:induction false} RefusedIsSilent(c: Cluster, steps: seq<Step>, n: string, m: string, e: Envelope)
    requires ValidRun(c, steps) && n in c.faults && (c.faults[n].crashed || m in c.faults[n].partitions)
    requires forall s :: s in steps ==> !(s.SetFaults? && s.node == n)
    requires e in After(c, steps).sent && e.from == n && e.to == m
    ensures e in c.sent
    decreases |steps|
  {
    if steps != [] {
      assert steps[0] in steps;
      RefusedIsSilent(Apply(c, steps[0]), steps[1..], n, m, e);
      if e !in c.sent {
        StepSendsOpenly(c, steps[0], e);
        assert false;
      }
    }
  }

  /** Nothing enters a node's queue past its gate: not while it is crashed, nor from a node it is
      partitioned from. */
  lemma StepReceivesOpenly(c: Cluster, s: Step, e: Envelope)
    requires Enabled(c, s) && e in Apply(c, s).inbox && e !in c.inbox
    ensures e in c.sent && e.to in c.faults && !c.faults[e.to].crashed && e.from !in c.faults[e.to].partitions
  {
  }
}
