# Verification of the faultlab node protocols, metrics and partition control

faultlab runs small clusters of replicas under injected faults and measures how they
converge. This project models the parts of it whose behaviour is hard to see from one
function at a time, and proves properties of them over every input and every run:

- **Gossip replication.** Each node stores a value per key with a version, an origin, a wall
  clock timestamp and a vector clock. DIGEST and STATE messages spread the values; conflicts
  are decided by vector clock first and by (timestamp, origin, version) otherwise. The node
  is a class (`GossipProtocol.Protocol`), proved against pure functions (`GossipValues`), and
  those functions are the steps of a transition system (`GossipCluster`) in which messages may
  be lost, duplicated, delayed and reordered. The theorems are in `LastWriterWins`,
  `RequestedPuts`, `SkewedRuns`, `Convergence`, `QuietRuns`, `ExchangeRuns`, `TickedRuns`
  and `Isolation`.
- **The baseline failure detector.** Alive, Suspect and Dead, driven by ticks and messages
  (`BaselineProtocol.Protocol` against `FailureDetector`, runs of one node in
  `FailureDetectorRuns` and of the cluster in `ClusterTiming` and `HeartbeatRuns`).
- **Metrics.** The reduction of snapshots to divergence, staleness and agreement
  (`MostCommon`, `Metrics`, `ComputeMetrics`, `MetricsMeaning`, `MapOrder`), and what is recorded of the
  replicas (`Sampling`).
- **Partition control.** A timeline step of an experiment is compiled to command texts
  (`Experiment`), the texts are parsed (`Commands`, `CommandText`, `ExperimentRoundTrip`), the
  control plane records the partition symmetrically and pushes it to the nodes
  (`PartitionControl`, `ControlPlane`), and each node reconciles its fault engine
  (`FaultEngine`). `PartitionedRuns` joins this chain to the gossip cluster: the texts of a
  partition step, executed while the replicas go on gossiping, isolate them.

## How the model is set up

- A loop over a Go map becomes a loop that picks some remaining key, so that every iteration
  order is covered. Random choices (the peer to gossip with, whether an envelope is dropped)
  are parameters or nondeterminism.
- In the cluster, `sent` only grows and an envelope in it may arrive any number of times or
  never. An arriving envelope passes the receiver's gates and then waits in the event queue
  until it is handled; steps are atomic because the reactor handles one event at a time.
  A node may send a digest to anybody at any time there, which covers more runs than the code
  has; `TickedRuns` adds tick counters, peer lists and forced-sync marks, shows that its runs
  are runs of the cluster, and states what the nodes can bring about under these limits.
  `puts` is history: the n-th Put of a key at a node identifies a write, since versions can
  go down after another origin's value has been adopted.
- **Timestamps.** `docs/CONFLICT_RESOLUTION.md:58` calls the timestamp a logical tick; the
  code reads the wall clock (`internal/node/protocol/gossip/crud.go:7`), which can go back. The
  model follows the code: a Put may draw any timestamp. Results that need more assume
  `LastWriterWins.Monotone`: a Put's stamp (timestamp, origin, version) is newer than the
  stamp of the value it overwrites at that node. A strictly greater timestamp implies it, and
  `LwwRefinement` shows that last-writer-wins holds in all states of a run if and only if every
  Put meets it. Clock authority, provenance, digest fidelity, the bound on digest answers and
  isolation need no such assumption. For the independence of delivery order the condition is
  one-way: `OrderMattersInRuns` gives, in every cluster with three nodes that reach each other,
  a run with one clock going back in which the order decides, but a run without a second writer
  or without a replica that hears of both stays independent whatever its clocks do.
- **Iteration order of maps.** The mode of a snapshot is *not* independent of the order in
  which Go yields the nodes: two states that differ only in whether the key exists can tie.
  `OrderIndependentExactly` and `DeterminedExactly` give the exact conditions. Snapshots
  recorded from gossip replicas never have such a tie, because every stored value carries
  metadata; `SampledDetermined` states that their metrics have one result.
- **A cluster of one.** The start-node text compiled for the only member of a cluster has no
  peer list, and the parser rejects it; `StartClusterReadBackExactly` states this both ways.

## Model

| member | source | states |
|---|---|---|
| GossipValues.CompareClocks | internal/node/protocol/gossip/conflict_resolution.go:49-82 | 1, -1 and 0 exactly for causally after, causally before, and equal or concurrent, with missing entries read as zero |
| GossipValues.Merge | internal/node/protocol/gossip/conflict_resolution.go:19-35 | pointwise maximum of two clocks |
| Ordering.LessIsLexicographic | internal/node/protocol/gossip/conflict_resolution.go:102-107 | the order of ids and values is the dictionary order: the strings agree up to a position where the first one ends or has the smaller character |
| GossipValues.OlderIsTotal | internal/node/protocol/gossip/conflict_resolution.go:86-109 | (timestamp, origin, version) is a strict total order |
| GossipValues.OlderMeans | internal/node/protocol/gossip/conflict_resolution.go:93-108 | timestamps decide first, then origins in dictionary order, then versions |
| GossipValues.OlderTransitive | internal/node/protocol/gossip/conflict_resolution.go:86-109 | that order is transitive |
| GossipValues.NewerMeans | internal/node/protocol/gossip/conflict_resolution.go:86-109 | an incoming value is newer exactly if it is strictly later by clock, or equal or concurrent by clock with the greater stamp |
| GossipValues.DigestFidelity | internal/node/protocol/gossip/propagation.go:239-279 | comparing with a digest entry is negative exactly when the full value would be accepted, positive exactly when the local value would be accepted in return, and zero only for equal stamps |
| GossipValues.StateForIsExactlyWhatIsAccepted | internal/node/protocol/gossip/propagation.go:114-127 | the STATE answering a digest holds exactly the keys whose value the unchanged sender accepts; applying it installs each of them and touches nothing else |
| GossipValues.NotBehindAfterState | internal/node/protocol/gossip/propagation.go:122-184 | for all timestamps, a node that handled the STATE sent with a reverse DIGEST is not behind that DIGEST |
| GossipValues.NoDigestPingPong | internal/node/protocol/gossip/propagation.go:122-184 | with every message handled one at a time in the order it was sent, the replies to one DIGEST and the answers to them are at most three messages, no DIGEST is among the answers, and nothing answers them |
| GossipCluster.StepKeepsInv | internal/node/protocol/gossip/crud.go:6-34 | every step keeps: own clock entries exact, all stored and sent values genuine; history only grows |
| GossipCluster.RunKeepsInv | internal/node/protocol/gossip/crud.go:6-34 | the same over every run |
| GossipCluster.ClockAuthority | internal/node/protocol/gossip/crud.go:10-29 | in every reachable state, for arbitrary timestamps, a node's own entry equals its number of Puts of the key, no store shows a larger entry, and every stored value is an actual Put by its origin |
| GossipCluster.InFlightProvenance | internal/node/protocol/gossip/conflict_resolution.go:19-35 | the same bounds and provenance for every message ever sent |
| RequestedPuts.HistoryIsRequests | internal/node/protocol/gossip/crud.go:6-34 | in every run the i-th write of a node under a key carries the data and timestamp its i-th Put of that key was asked for |
| RequestedPuts.StoredWasAsked | internal/node/protocol/gossip/crud.go:23-29 | in every reachable state each stored value has the data and timestamp of a Put its origin was asked to do in the run |
| RequestedPuts.SentWasAsked | internal/node/protocol/gossip/conflict_resolution.go:19-35 | and so has each value of every STATE ever sent |
| RequestedPuts.StepSendsOpenly | internal/node/session/node.go:100-117 | no step puts an envelope on the wire whose sender is crashed or partitioned from the addressee |
| RequestedPuts.RefusedIsSilent | internal/fault/decision.go:7-25 | a node that stays crashed, or partitioned from a peer, sends nothing new, or nothing new to that peer |
| RequestedPuts.StepReceivesOpenly | internal/node/server.go:82-102 | nothing enters the queue of a crashed node, or from a node the receiver is partitioned from |
| LastWriterWins.StampIsUnique | internal/node/protocol/gossip/crud.go:6-34 | with monotone Puts, the stamp identifies the write |
| LastWriterWins.SameStampSameWrite | internal/node/protocol/gossip/crud.go:6-34 | equal stamps of genuine values mean equal data |
| LastWriterWins.MonotoneMeans | internal/node/protocol/gossip/crud.go:6-34 | a Put is monotone exactly if the key is new at the node, or its timestamp is greater than the overwritten one, or equal to it while the overwritten value's origin is not above the node's id: a test the caller can make beforehand |
| LastWriterWins.ResolveIsLww | internal/node/protocol/gossip/conflict_resolution.go:6-44 | resolving two sound values gives a sound value that only grows in clock and stamp and settles the incoming one for good |
| LastWriterWins.StepKeepsLww | internal/node/protocol/gossip/conflict_resolution.go:6-109 | every step with monotone Puts keeps: each stored or sent value is newest among the Puts its clock covers |
| LastWriterWins.StalePutLoses | internal/node/protocol/gossip/crud.go:6-34 | a Put with an older stamp stores a value that is not the winner |
| LastWriterWins.LwwRefinement | internal/node/protocol/gossip/conflict_resolution.go:6-109 | in every run under arbitrary loss, duplication, delay and reordering, every replica always holds the greatest of the Puts its clock covers, if and only if all Puts are monotone |
| LastWriterWins.ClockGoingBackBreaksLww | internal/node/protocol/gossip/crud.go:7-29 | a concrete run with a wall clock going back ends with the older write |
| LastWriterWins.EntriesNeverGoBack | internal/node/protocol/gossip/conflict_resolution.go:6-44 | over every run with monotone Puts neither clock nor stamp of any entry decreases |
| LastWriterWins.NoResurrection | internal/node/protocol/gossip/conflict_resolution.go:6-44 | a STATE value handled once, accepted or rejected, never changes that entry again whatever happened in between |
| LastWriterWins.DeliveryOrderIrrelevant | internal/node/protocol/gossip/conflict_resolution.go:6-44 | any two delivery sequences over the same set of STATEs, in any order with any repeats, end with the same data, version, origin and timestamp per key |
| LastWriterWins.DeliveryOrderIrrelevantInRuns | internal/node/protocol/gossip/conflict_resolution.go:86-109 | the same for any STATEs sent so far in any run with monotone Puts |
| LastWriterWins.MergedClocksMayDiffer | internal/node/protocol/gossip/conflict_resolution.go:38-40 | the merged clocks may differ between delivery orders |
| LastWriterWins.OrderMattersWhenClocksGoBack | internal/node/protocol/gossip/conflict_resolution.go:86-109 | for every causally later value with an older stamp and every concurrent value stamped in between, the delivery order decides the outcome |
| SkewedRuns.OrderMattersInRuns | internal/node/protocol/gossip/crud.go:6-34 | every cluster with three nodes that reach each other has a run, not monotone, after which the order of delivering the STATEs sent to one node decides what it holds |
| Convergence.PairwiseJoin | internal/node/protocol/gossip/propagation.go:114-194 | an undisturbed exchange leaves both replicas with the same write for every key either held, the newer of the two, including the tie where nothing is sent |
| Convergence.ExchangeIsMeet | internal/node/protocol/gossip/propagation.go:114-194 | per key, an exchange is the join of the two stamps and leaves all other replicas alone |
| ViewGossip.MeetMeasure | internal/node/protocol/gossip/propagation.go:114-194 | the number of replicas without the greatest stamp drops by one at an exchange between a holder and a non-holder and otherwise stays |
| Convergence.NoLaggardsMeansAgreement | internal/node/protocol/gossip/conflict_resolution.go:6-44 | no replica lags exactly when all agree on data, version, origin and timestamp |
| Convergence.ConvergenceAccounting | internal/node/protocol/gossip/propagation.go:114-194 | over any schedule of exchanges, laggards left plus productive exchanges equals the laggards at the start; all agree exactly when as many productive exchanges happened |
| Convergence.TwoSweepsConverge | internal/node/protocol/gossip/propagation.go:114-194 | two sweeps of any hub over the others bring every key to agreement |
| Convergence.ReachableIsSound | internal/node/protocol/gossip/crud.go:6-34 | every state reached with monotone Puts meets the hypotheses of the convergence results |
| ExchangeRuns.ExchangeIsARun | internal/node/server.go:78-108 | between nodes with open gates there is a cluster run of one digest and deliveries performing exactly the exchange and putting at most three further envelopes on the wire |
| QuietRuns.NewestIsStable | internal/node/protocol/gossip/conflict_resolution.go:6-44 | over every run without Puts, however interleaved, the newest view of a key is the same in all states and the replicas without it only become fewer |
| QuietRuns.CompletedExchangeSpreads | internal/node/protocol/gossip/propagation.go:114-194 | in every run without Puts, a replica that handles a DIGEST of a holder showing the newest write ends up holding it, provided the reverse DIGEST and the STATE it asks for are handled some time later, whatever is handled in between |
| QuietRuns.QuietRunsConverge | internal/node/protocol/gossip/propagation.go:114-194 | every run without Puts in which a holder completes such an exchange with each other replica, in whatever interleaving, ends with all replicas agreeing on the key |
| TickedRuns.RunsProject | internal/node/runtime/reactor.go:11-57 | every run of nodes with tick counters, peer lists and marks is a run of the cluster |
| TickedRuns.NodesMean | internal/node/protocol/gossip/propagation.go:79-92 | what each step does to a node's tick, peers and marks; steps at other nodes do nothing to it |
| TickedRuns.CanReach | internal/node/protocol/gossip/propagation.go:14-47 | a node that goes on ticking can reach every peer it lists with its digest, after the marked peers have had theirs |
| TickedRuns.ClusterCanConverge | internal/node/protocol/gossip/propagation.go:14-194 | from every state reached with monotone Puts, with open gates and one node listing all others, the nodes can go on ticking and delivering without Puts, each digest at a gossip tick to a peer that may be picked then, until all replicas agree on every key |
| Isolation.PartitionIsolates | internal/fault/decision.go:28-42 | from any reachable state whose groups refuse each other, with no cross-group envelope queued and no later fault change, no replica ever shows a clock entry for, or holds, a Put made later in another group |
| GossipProtocol.VectorClockCompare | internal/node/protocol/gossip/conflict_resolution.go:49-82 | the two-flag loop over the union of nodes decides the causal comparison in every iteration order |
| GossipProtocol.MergeClocks | internal/node/protocol/gossip/conflict_resolution.go:19-35 | copying and raising entries in a loop is the pointwise maximum |
| GossipProtocol.Protocol.constructor | internal/node/protocol/gossip/gossip.go:62-72 | a new node has no peers, no values and nothing to sync |
| GossipProtocol.Protocol.Start | internal/node/protocol/gossip/gossip.go:75-80 | sets the id and resets the tick, keeping values and peers |
| GossipProtocol.Protocol.SetPeers | internal/node/protocol/gossip/gossip.go:83-110 | peers are the non-empty, non-self entries in order and with repetitions; exactly the newly added ones are marked for a forced sync |
| GossipProtocol.KeptParts | internal/node/protocol/gossip/gossip.go:84-92 | each entry of the list is kept or left out on its own, and order is preserved |
| GossipProtocol.Protocol.Put | internal/node/protocol/gossip/crud.go:6-34 | the entry gets the data, this node as origin, the clock reading, one version more than before or 1, its own clock entry one higher and the others unchanged; no other entry moves |
| GossipProtocol.Protocol.Get | internal/node/protocol/gossip/crud.go:37-43 | found exactly if stored, with its data |
| GossipProtocol.Protocol.GetWithMetadata | internal/node/protocol/gossip/crud.go:45-51 | data, version and origin of the stored value, or zero values |
| GossipProtocol.Protocol.HandleState | internal/node/protocol/gossip/conflict_resolution.go:6-44 | in every iteration order the store becomes the key-wise resolution of the old store with the message |
| GossipProtocol.Protocol.HandleDigest | internal/node/protocol/gossip/propagation.go:114-194 | replies with the STATE of what the sender lacks, if any, then a reverse DIGEST exactly if behind |
| GossipProtocol.Protocol.Tick | internal/node/protocol/gossip/propagation.go:14-76 | exactly every third tick with somebody to send to sends the digest of the whole store: to a marked peer, which is then unmarked, if there is one, else to some peer |
| GossipProtocol.Protocol.OnMessage | internal/node/protocol/gossip/propagation.go:79-112 | the sender becomes a peer once; undecodable and unknown messages change nothing else; DIGEST and STATE act as in the cluster model |
| GossipProtocol.SenderIdRoundTrip | internal/node/protocol/gossip/propagation.go:79-83 | a message is ascribed to the id put in front of its address if and only if that id is not empty and contains no @ |
| GossipProtocol.BeatMeans | internal/node/protocol/gossip/propagation.go:14-47 | a tick may send exactly if it is a third one and there is somebody to send to: to a marked peer, then unmarked, else to a listed one |
| GossipProtocol.ForcedTargets | internal/node/protocol/gossip/propagation.go:29-42 | as long as marks suffice, the peers sent to and the peers still marked together are exactly the peers marked |
| GossipProtocol.ForcedSyncDrains | internal/node/protocol/gossip/propagation.go:14-47 | any 3 times as many ticks as marked peers send exactly one digest to each marked peer and to nobody else, in every map order |
| Addresses.SenderRoundTrip | internal/node/session/node.go:140-141 | the id put in front of the sender address is read back if and only if it contains no @; otherwise it is cut there |
| FailureDetector.ScanIsPerPeer | internal/node/protocol/baseline/baseline.go:89-153 | scanning a peer list moves each peer as one look at it would, whatever else is listed and however often, and declares it dead at most once |
| FailureDetectorRuns.HearMeans | internal/node/protocol/baseline/baseline.go:175-197 | a message marks its sender as heard of now and alive; a new sender is added at the end of the peers with incarnation zero; nothing else moves |
| FailureDetectorRuns.EventMeans | internal/node/protocol/baseline/baseline.go:199-225 | only an event with a higher incarnation counts: its status and incarnation are adopted, or, for this node declared dead, answered with a broadcast of being alive in the next incarnation |
| FailureDetectorRuns.PeersMean | internal/node/protocol/baseline/baseline.go:236-249 | the list is the given one and only peers never seen before are entered |
| FailureDetectorRuns.StartMeans | internal/node/protocol/baseline/baseline.go:71-87 | the clock is zero, listed peers are seen at tick 0, alive and in incarnation zero, and other entries stay |
| HeartbeatRuns.HeartbeatsMean | internal/node/protocol/baseline/baseline.go:95-121 | every fifth tick sends each listed peer that is not Dead a heartbeat for each time it is listed, and no other tick sends any |
| HeartbeatRuns.FiveTicksBeat | internal/node/protocol/baseline/baseline.go:95-121 | any five consecutive ticks, whatever comes between them, send a heartbeat to every peer listed and not Dead throughout |
| HeartbeatRuns.HealthyPair | internal/node/protocol/baseline/baseline.go:89-197 | in every run of the cluster two nodes that list each other, whose clocks drift apart by at most d ticks and whose heartbeats arrive within D ticks, never suspect each other if d + D is at most 16: ticking in turn, heartbeats may take 15 ticks |
| FailureDetectorRuns.IncarnationsStayZero | internal/node/protocol/baseline/baseline.go:199-225 | in every cluster run all incarnation entries and all events in flight stay zero |
| FailureDetectorRuns.BroadcastsChangeNothing | internal/node/protocol/baseline/baseline.go:155-228 | in every reachable state delivering any envelope does what a heartbeat from its sender would do: no status but the sender's changes and nothing is answered |
| FailureDetectorRuns.NoUnderflow | internal/node/protocol/baseline/baseline.go:124-148 | the unsigned tick subtractions never underflow |
| FailureDetectorRuns.StepKeepsRegular | internal/node/protocol/baseline/baseline.go:89-228 | every event keeps: listed peers have entries, timers never lie in the future, suspicion follows a full timeout of silence |
| FailureDetectorRuns.ReachableIsRegular | internal/node/protocol/baseline/baseline.go:71-87 | every node of every run meets the hypotheses of the timing results |
| FailureDetectorRuns.SilenceTiming | internal/node/protocol/baseline/baseline.go:89-153 | under silence of a listed peer its status is a function of the ticks since its last message, whatever else happens, with one DEAD broadcast at tick 42 |
| FailureDetectorRuns.ExactTiming | internal/node/protocol/baseline/baseline.go:192-197 | after a message: Alive through 20 ticks, Suspect through 41, Dead from 42, exactly one DEAD broadcast from then on |
| FailureDetectorRuns.NoFalseSuspicion | internal/node/protocol/baseline/baseline.go:89-153 | gaps of at most 20 ticks never cause suspicion or a broadcast |
| FailureDetectorRuns.DeadCastsApart | internal/node/protocol/baseline/baseline.go:89-153 | two DEAD broadcasts about one peer are at least 42 ticks apart |
| ClusterTiming.NodeRun | internal/node/protocol/baseline/baseline.go:89-228 | what a run of the cluster does to a node is what the events meant for that node do |
| ClusterTiming.ClusterTiming | internal/node/protocol/baseline/baseline.go:89-197 | in every run of the cluster, after a delivered message of a listed peer and nothing of it since, the peer is Alive through 20 ticks of the receiver, Suspect through 41 and Dead from 42, with exactly one DEAD broadcast, whatever else happens |
| ClusterTiming.ClusterDeadCastsApart | internal/node/protocol/baseline/baseline.go:89-153 | in every run of the cluster two DEAD broadcasts of a node about one peer are at least 42 of its ticks apart |
| ClusterTiming.CastsAreSent | internal/node/protocol/baseline/baseline.go:140-147 | the DEAD broadcasts counted are those among the envelopes the tick sends |
| BaselineProtocol.Protocol.constructor | internal/node/protocol/baseline/baseline.go:57-68 | a new detector lists its peers and knows nothing else |
| BaselineProtocol.Protocol.Start | internal/node/protocol/baseline/baseline.go:71-87 | every listed peer is entered as seen at tick 0, Alive, incarnation 0 |
| BaselineProtocol.Protocol.Tick | internal/node/protocol/baseline/baseline.go:89-153 | the whole new state and the envelopes, heartbeats before announcements, are those of the model |
| BaselineProtocol.Protocol.OnMessage | internal/node/protocol/baseline/baseline.go:155-228 | the whole new state and the reply are those of the model, including discovery, revival, refutation and adoption |
| BaselineProtocol.Protocol.SetPeers | internal/node/protocol/baseline/baseline.go:236-249 | the list is replaced and only unknown peers get new entries |
| MostCommon.LessStateTotal | internal/metrics/metrics.go:162-176 | lessState is a strict order whose ties are exactly the states equal on all compared fields |
| MostCommon.LessStateMeans | internal/metrics/metrics.go:162-176 | values decide first in dictionary order, then versions, then origins in dictionary order, then presence of metadata |
| MostCommon.ModeIsMode | internal/metrics/metrics.go:141-160 | in every iteration order the loop returns a state of maximal count, its exact count, and none of that count is below it |
| MostCommon.OrderIndependentExactly | internal/metrics/metrics.go:141-160 | the answer is the same for all iteration orders if and only if no two different states tie on count and all compared fields |
| MostCommon.ExistenceDetermined | internal/metrics/metrics.go:141-176 | it is enough that states equal on the compared fields agree on Exists |
| MostCommon.TieOnExistence | internal/metrics/metrics.go:162-176 | two nodes differing only in Exists are ambiguous |
| Sampling.ReachableHasMetadata | internal/node/runtime/action.go:49-65 | in every reachable state a stored entry is recorded with its data, version, origin and metadata, and a missing one as the zero state |
| Sampling.SampledDetermined | internal/controlplane/service/service.go:305-332 | metrics of snapshots recorded from gossip replicas at distinct times, each node read in some reachable state, have one result over all permutations and iteration orders |
| Metrics.MostCommonState | internal/metrics/metrics.go:141-160 | the counting loop returns the model's answer for some visiting order of all nodes |
| Metrics.ModeCountExact | internal/metrics/metrics.go:141-160 | count of the mode plus number of nodes differing from it is the number of nodes |
| Metrics.ModeUnique | internal/metrics/metrics.go:141-160 | the count never depends on the order, the mode does not if unambiguous |
| Metrics.AllNodesExist | internal/metrics/metrics.go:129-139 | true exactly if there are nodes and all of them have the key |
| Metrics.MarkStale | internal/metrics/metrics.go:116-120 | exactly the nodes differing from the mode gain the gap, in every iteration order |
| Metrics.StableSortSorts | internal/metrics/metrics.go:76-80 | sorting gives a permutation ordered by time that keeps the order of equal times |
| ComputeMetrics.Turn | internal/metrics/metrics.go:82-121 | one turn of the loop extends the reduction by one snapshot |
| MetricsMeaning.QuorumMeans | internal/metrics/metrics.go:102-108 | the quorum test holds exactly if some state is held by more than half of the nodes |
| MetricsMeaning.AgreementTimeMeans | internal/metrics/metrics.go:102-108 | FirstAgreementTime is the time of the first snapshot in which more than half of the nodes hold one state, and unset exactly if there is none |
| MetricsMeaning.PeakMeans | internal/metrics/metrics.go:82-93 | PeakDivergence is the largest number of nodes outside a largest group of equal states, attained by a snapshot |
| MetricsMeaning.SeriesMeans | internal/metrics/metrics.go:82-89 | the series holds each snapshot's time and the number of nodes outside a largest group |
| MetricsMeaning.FinalMeans | internal/metrics/metrics.go:124-126 | FinalConsistent exactly if in the latest snapshot all nodes exist and hold one state |
| MetricsMeaning.OutcomeMeans | internal/metrics/metrics.go:68-127 | all of these hold of the result for every permutation of the snapshots and every iteration order of the node maps |
| MetricsMeaning.Compute | internal/metrics/metrics.go:68-127 | the result is the reduction of the sorted snapshots for some iteration orders; its fields mean what the rows above say, area and staleness agree, and agreement is not later than convergence |
| ComputeMetrics.Conservation | internal/metrics/metrics.go:76-122 | for every list of snapshots the area under divergence equals the sum of all stale durations and is at most peak divergence times the time span |
| ComputeMetrics.ConvergenceTimeMeans | internal/metrics/metrics.go:95-100 | ConvergenceTime is the time of the first snapshot in which all nodes exist and hold one state, and unset exactly if there is none |
| ComputeMetrics.AgreementFirst | internal/metrics/metrics.go:95-108 | FirstAgreementTime is set and not later whenever ConvergenceTime is set |
| ComputeMetrics.OnlyStalenessDepends | internal/metrics/metrics.go:82-121 | iteration order can change nothing but the split of staleness among nodes, and not that if modes are unambiguous |
| ComputeMetrics.ComputeDetermined | internal/metrics/metrics.go:68-127 | one result for every permutation and iteration order if equal times mean equal snapshots and modes are unambiguous |
| MapOrder.StaleDurationMeans | internal/metrics/metrics.go:110-120 | each node's stale duration is the sum of exactly those gaps before which it differed from the mode |
| MapOrder.QualifiedMayBeMode | internal/metrics/metrics.go:141-160 | every state that qualifies as mode is returned for some iteration order of the node map |
| MapOrder.DeterminedExactly | internal/metrics/metrics.go:68-127 | for snapshots at distinct times, Compute has one result over all permutations and iteration orders if and only if no snapshot but the latest has an ambiguous mode |
| Text.FieldsOfJoin | internal/controlplane/parser.go:9-16 | splitting words joined by single blanks gives back the non-empty words |
| Text.FieldsOfTrimmed | internal/controlplane/runtime_commands.go:32-38 | trimming a text does not change its fields |
| Text.AtoiOfItoa | internal/controlplane/parser.go:22-80 | a printed number is read back |
| Text.ItoaDecimal | internal/experiment/command_parser.go:209-222 | numbers are printed in base ten |
| Commands.ParseStartNode | internal/controlplane/parser.go:22-80 | the index-advancing option loop reads alternating names and values to the end of the line or fails |
| Commands.ParseNewCluster | internal/controlplane/parser.go:94-124 | the option loop of new-cluster, with a bare protocol allowed right after the id |
| Commands.NewClusterProtocol | internal/controlplane/parser.go:94-124 | a new cluster runs gossip unless a protocol is named by option or right after the id; an option without a value, or an unknown one, fails |
| Commands.StartNodeDefaults | internal/controlplane/parser.go:32-36 | without options a node starts on localhost in the cluster default |
| Commands.MetricsInterval | internal/controlplane/parser.go:307-320 | the interval is zero unless a number is given; anything else fails |
| Commands.OtherVerbs | internal/controlplane/parser.go:82-345 | how many words each verb no experiment emits needs, and which of them must be numbers or flags |
| Commands.Parse | internal/controlplane/parser.go:9-364 | the command of a line is a function of its fields; verbs no experiment emits are passed on after their argument checks |
| Commands.Decode | internal/controlplane/runtime_commands.go:32-50 | trimming and dropping an optional leading cp word decodes the fields without it |
| CommandText.ReadBack | internal/controlplane/parser.go:9-364 | every command an experiment may emit, with clean fields, is read back exactly, including the cp prefix and the quoted log-lifecycle text |
| CommandText.PrintedForms | internal/experiment/command_parser.go:48-90 | the texts of the short commands, word by word, as the compiler formats them |
| CommandText.StartForm | internal/experiment/command_parser.go:98-107 | the text that starts a node, option by option |
| CommandText.LonelyNodeRejected | internal/controlplane/parser.go:38-80 | a start-node text with an empty peer list is rejected |
| Experiment.CrossPairsMean | internal/experiment/command_parser.go:119-142 | the nested loops visit exactly the pairs of names from an earlier and a later group |
| Experiment.GroupTarget | internal/experiment/command_parser.go:181-207 | the target group i names the first node of the i-th group counted from one, and fails if there is none or it does not resolve |
| Experiment.AllTarget | internal/experiment/command_parser.go:153-163 | the target all names every member in order, and fails without members |
| Experiment.NodeTarget | internal/experiment/command_parser.go:173-179 | any other target is the id of a member or fails |
| Experiment.PartitionFailsExactly | internal/experiment/command_parser.go:114-131 | compiling a partition fails exactly with fewer than two groups or if a name of two different groups does not resolve |
| Experiment.PeerEntriesMean | internal/experiment/command_parser.go:209-222 | a member's peers are all other members in their order, as id:port |
| Experiment.StartCommandsMean | internal/experiment/command_parser.go:87-112 | a cluster is created and announced, then every member is started on its host or localhost with all others as peers |
| Experiment.NotesMean | internal/experiment/command_parser.go:59-65 | the texts of the notes of partition and heal steps |
| Experiment.PartitionNoted | internal/experiment/command_parser.go:54-65 | a partition or heal step is announced as such, and then each cross-group pair is set |
| Experiment.ActionsMean | internal/experiment/command_parser.go:48-85 | which action stands for which commands, and that no other compiles |
| Experiment.BuildPeerList | internal/experiment/command_parser.go:209-222 | id:port of all members but the one skipped, in order, comma separated |
| Experiment.CompileStartCluster | internal/experiment/command_parser.go:87-112 | prints the commands that create the cluster and start every member |
| Experiment.CompilePartition | internal/experiment/command_parser.go:114-145 | fails exactly with fewer than two groups or an unresolved name, else prints one command per cross-group pair |
| Experiment.CompilePartitionStep | internal/experiment/command_parser.go:54-65 | a lifecycle note followed by the partition commands, or failure |
| Experiment.CompileCommands | internal/experiment/command_parser.go:48-85 | the texts are the printed commands the step stands for, and it fails exactly when the step has no meaning |
| ExperimentRoundTrip.StartClusterReadBackExactly | internal/experiment/command_parser.go:87-112 | for clean settings all start texts decode to what was meant if and only if the cluster does not have exactly one member |
| ExperimentRoundTrip.StepReadBack | internal/experiment/command_parser.go:48-112 | for every clean experiment of at least two members every compiled text of every step is accepted and decodes to the command meant |
| PartitionControl.ReconciledExactly | internal/node/runtime/rpc.go:71-98 | the engine ends with exactly the desired set if and only if it held nothing beyond current peers and desired ids |
| PartitionControl.ReconciledMeans | internal/node/runtime/rpc.go:71-98 | an id is refused after reconciliation exactly if it is listed, not empty and not the node itself, or was refused before and is not a current peer |
| PartitionControl.UpdatedListMeans | internal/controlplane/actor.go:344-365 | only the membership of the named peer changes in a recorded list |
| PartitionControl.WithoutParts | internal/controlplane/actor.go:350-361 | each entry is kept or dropped on its own, and order is preserved |
| PartitionControl.SetPairCuts | internal/controlplane/actor.go:342-382 | the command changes exactly the two directed pairs |
| PartitionControl.SetPairAgrees | internal/controlplane/actor.go:342-382 | engines that agreed with the records keep agreeing while both nodes are peers |
| PartitionControl.ExecutePairs | internal/controlplane/runtime_commands.go:32-60 | executing the texts of a list of pairs is executing the pairs |
| PartitionControl.PartitionStepCorrect | internal/experiment/command_parser.go:114-145 | executing a compiled partition step adds exactly all cross-group pairs in both directions to the recorded relation, a heal step removes exactly those, and engines keep agreeing with the records |
| FaultEngine.Engine.constructor | internal/fault/engine.go:19-23 | a new engine is up, partitioned from nobody, without drops or delay |
| FaultEngine.Engine.Crash | internal/fault/engine.go:26-30 | only the crash flag is set |
| FaultEngine.Engine.Recover | internal/fault/engine.go:32-36 | only the crash flag is cleared |
| FaultEngine.Engine.Partition | internal/fault/engine.go:82-86 | the peer is added to the refused set, nothing else changes |
| FaultEngine.Engine.Heal | internal/fault/engine.go:88-92 | the peer is removed from the refused set, nothing else changes |
| FaultEngine.BeforeSend | internal/fault/decision.go:7-25 | allowed exactly without an engine or if up, not partitioned and not dropped; crash is reported before partition and partition before drop; exactly allowed envelopes carry the engine's delay |
| FaultEngine.BeforeReceive | internal/fault/decision.go:28-42 | allowed exactly without an engine or if up and not partitioned from the sender; never dropped at random, never delayed |
| FaultEngine.BeforeTick | internal/fault/decision.go:62-72 | a crashed engine refuses, any other allows, with its delay, and so does an absent one |
| FaultEngine.Runtime.SetFaultParams | internal/node/runtime/rpc.go:39-103 | accepted exactly for a request with a matching or empty node id, a drop rate in [0,1] and a non-negative delay; a refused one changes nothing, an accepted one installs the parameters and reconciles the partitions |
| FaultEngine.Runtime.CollectDesired | internal/node/runtime/rpc.go:71-78 | the desired set is the listed ids without empty ones and the node itself |
| FaultEngine.Runtime.Reconcile | internal/node/runtime/rpc.go:80-98 | the two loops together are the reconciliation, in every order of the desired set |
| ControlPlane.Manager.SetFaultParams | internal/cluster/manager/manager.go:62-98 | unknown nodes change nothing; for known ones parameters and status are recorded first; without a node session that succeeds alone, otherwise a push the node refuses fails and leaves its engine alone |
| ControlPlane.Manager.NextList | internal/controlplane/actor.go:349-365 | one pass rebuilds the list with the peer present once if enabled and absent otherwise |
| ControlPlane.Manager.UpdateNodePartition | internal/controlplane/actor.go:344-367 | records and pushes one node's new list; succeeds exactly for a known node that takes its parameters or, without a node session, for any known node |
| ControlPlane.Manager.SetPartition | internal/controlplane/actor.go:342-382 | the exact new state for every combination of success and failure of the two halves, which is the symmetric update when neither push is refused |
| PartitionedRuns.StepSplits | internal/experiment/command_parser.go:114-145 | executing a compiled partition step whose groups cover the cluster makes every engine refuse all nodes of other groups |
| PartitionedRuns.TextsAreHalves | internal/controlplane/actor.go:342-382 | executing texts is pushing their halves one by one, first the named node, then its peer |
| PartitionedRuns.JointControl | internal/node/runtime/rpc.go:71-98 | while pushes and gossip steps interleave in any way, every engine stays what the control plane has set, and the control plane ends where the pushes alone would take it |
| PartitionedRuns.CompiledPartitionIsolates | internal/node/server.go:90-102 | end to end: the texts of a partition step are executed half by half while the replicas gossip; once the last half is installed and no cross-group envelope is queued, no replica ever learns of a later Put of another group until faults change |

## Left out

- The frontend, the REST and command-listener layers, cpcli, gRPC and generated protobuf code, dialing, handshakes, processes: input and output only.
- JSON encoding: messages are datatypes, and an undecodable payload is a case of its own.
- Logging, timeline events and file logs: no effect on replica state. The Timeline and ConvergenceCurve fields of a metrics result are not filled by Compute.
- Goroutines, mutexes and channels: steps are atomic, as the reactor takes one event at a time.
- Probabilities: drops, delays and random peers are nondeterministic.
- Delete, protocol swap and mixed protocols: Delete is not reachable from the reactor, and a swap discards the store.
- The raft option: named in the control plane without an implementation.
- The session manager, health counters and BeforeProbe: they carry no replica or partition state. The callback on discovering a peer, which adds it to the runtime's configuration: the model keeps the protocol's own peer list.
- Experiment validation and normalisation, YAML and INI loading, batches and their times: steps are taken as they reach compileCommands, apart from the clean-field hypotheses.
- Commands.Parse: does not check the drop rate of set-fault and fault-drop, because floating-point texts are not modelled; verbs that experiments never emit keep their words instead of named fields. An empty line counts as no command.
- Formatting of command texts: a Sprintf format is modelled as its words joined by single blanks. Numbers are printed in decimal with their sign; the round trips are stated for non-negative ports.
- Unicode: white space is that of the Go library; lower case is that of ASCII letters, which is all the target names need.
- Integer widths of clocks, versions, ticks and durations: unbounded, except that the failure detector's unsigned subtraction wraps and is shown never to.
- Not-a-number drop rates: rates are reals.
- Failing RPCs other than a refused request: every registered node is reachable by the control plane.
- ComputeMetrics.ComputeDetermined: one direction only, for snapshots that may share a time; MapOrder.DeterminedExactly has both directions for distinct times.
- Clusters other than the one addressed and the registration of nodes: the manager of the model holds one cluster whose set of nodes is fixed.
- LastWriterWins.DeliveryOrderIrrelevantInRuns: one direction only, since what a clock going back does to delivery order depends on which other replicas exist and write; SkewedRuns.OrderMattersInRuns shows the failure in every cluster of three.
