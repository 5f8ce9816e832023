# A verified model of Pedis

Pedis is a clustered Redis server in C++. This project models the parts of it whose correctness is hard to see
from any one function, and proves what they promise over every input, run or reachable state. It is written in
Dafny 4.11; `dafny verify dfyconfig.toml` checks all of it.

**Gossip (`gms/`).** Every node owns a versioned state and keeps copies of the others' states. Three messages
reconcile copies: SYN carries one pair (generation, max version) per endpoint, ACK and ACK2 carry "everything
above version v".

- `EndpointState.dfy`: a state, the cut above a version, the overlay of a cut on an older copy, and the history
  of an owner.
- `GossipNode.dfy`: one gossiper as a value and each atomic step as a function on it. `Gossiper.dfy` is the
  same gossiper as a class with mutable fields and loops; each of its methods is proved to do the step of the same
  meaning in `GossipNode.dfy`.
- `Snapshot.dfy`: a cluster and a network that loses, duplicates, delays and reorders. Every stored copy is a state
  the owner really had. `TornCopies.dfy`: complete runs in which one is not, which is what the theorem's provisos exclude.
- `Convergence.dfy`, `Quiescence.dfy`: what one round does to two nodes, and how rounds bring a whole
  cluster to agreement.
- `Membership.dfy`: what one node keeps through every run, whatever the messages contain. `Liveness.dfy`: which
  endpoints a message, an echo, a conviction and a status check bring up, take down and forget, and when.
- `Isolation.dfy`: nodes of differently named clusters never learn of each other.
- `FailureDetector.dfy`, `Shards.dfy`: bounded detection; copying CPU 0's state to the other shards.

**Storage (`store/`).** `Coding.dfy` (fixed-width, varint and length-prefixed encodings), `LogReader.dfy` (the log
record reader on logs cut at any byte), `LogIntegrity.dfy` (the same reader on damaged logs and on arbitrary bytes), `InternalKeys.dfy` (key order and snapshot lookup), `VersionEdit.dfy` (the
manifest codec).

**The rest.** `Resp.dfy` (the request parser against the array printer), `RespGrammar.dfy` (exactly which buffers it
accepts and how it refuses the others), `RespSplit.dfy` (requests that arrive in pieces), `Ring.dfy` (the consistent-hash ring and its
caches), `Bits.dfy` (bitmaps), `DependencySort.dfy` (type ordering in the IDL compiler), `Wrappers.dfy` (Option and
Result).

## What turned out false

The first seven have a lemma that exhibits the failure on given values and one that says exactly when the property
holds; the last three are if-and-only-ifs from which both can be read off.

- A copy can be a state its owner never had when an owner's generation changes while a request for its old
  generation is in flight: the answer is cut at the requested version without comparing generations
  (gms/gossiper.cc:246). `TornCopies.GenerationChangeTearsCopy`, `TornCopies.LostStaysLost`; exactly when:
  `Snapshots.SnapshotExact`.
- A copy can also be a state its owner never had when the owner announces its shutdown: a node to which that is a new
  endpoint or a newer generation forces the heartbeat version to the maximum (gms/gossiper.cc:1246-1248), so two nodes
  do not converge and nobody agrees with the owner until it restarts. `TornCopies.ShutdownTearsCopy`,
  `TornCopies.ForcedVersionStays`; exactly when: `GossipNodes.MajorChangeKeepsContent`, `Rounds.RoundConverges`.
- `add_saved_endpoint` on a live endpoint leaves it both live and unreachable. `Membership.SavingALivePeer`; exactly
  when: `Membership.AddSavedMembers`.
- The doubled quarantine of a replaced endpoint is cut short by a later removal. `Membership.ReplacedReturnsEarly`;
  exactly when: `Membership.RemovalShortensReplacement`.
- `version_edit::clear` keeps the compaction pointers, so decoding into a used object is not exact.
  `VersionEdits.UsedObjectKeepsPointer`; exactly when: `VersionEdits.DecodeEncodeExact`.
- The shipped bytewise comparator answers a < b as 1 or 0, and internal keys compared with it are not ordered.
  `InternalKeys.ShippedComparatorFails`; exactly when: `InternalKeys.ShippedComparatorExact`.
- With a clock that goes back, a silent endpoint may never be convicted. `FailureDetectors.SteppedClockNeverConvicts`;
  exactly when: `FailureDetectors.DetectsIffMeanNotNegative`.

- A printed request does not come back from the parser when it is a command alone or holds an empty string; exactly
  when: `RespGrammar.RoundTripExact`.
- A part of a request is not always waited for: when it ends inside a string it is refused; exactly when:
  `RespSplit.SplitExact`.
- A byte range of a bitmap that ends before the first byte still counts the first byte; exactly when: `Bits.RangeExact`.

## Modelling decisions

- The asynchronous mark_alive is cut in two at its echo request. A handler of a cluster run that waits there is a step
  for the entries before the wait, one for those after it and one for its reply (`HearPartStep`, `ReplyStep`).
- The shutdown that ends a major state change follows the echo in the source. The model takes it at once, which
  `GossipNodes.ShutdownAfterEcho` justifies: apart from the expiry entry the echo's answer makes no difference.
- A status check takes part in cluster runs when it forgets nobody.
- Clocks, the failure detector's verdicts inside a status check, ring membership, random peer choice and the iteration
  order of hash containers are parameters; theorems hold for all of them.
- Version counters are 32-bit. A step that would overflow one is not enabled.
- `Endpoint` and ring tokens are integers; only equality of the former and the order of the latter matter.
- Integers read by the request parser follow atoi, cut to 32 bits, and then 32-bit unsigned arithmetic. A read past the end of the
  buffer is the explicit outcome `Overrun`.
- CRC32C is an arbitrary function of the checked bytes.

## Model

| member | source | states |
|---|---|---|
| `EndpointStates.DeltaKey` | gms/gossiper.cc:1071-1104 | the cut above v exists iff the state holds something newer than v, and summarises to the same (generation, max version) as the whole state |
| `EndpointStates.MergeDelta` | gms/gossiper.cc:1276-1304 | laying a later state's cut over any earlier state that covers its floor rebuilds the later state exactly |
| `EndpointStates.OwnerStepAdvances` | gms/version_generator.cc:45-50 | every update an owner makes to itself is strictly newer and keeps the earlier state readable inside the later one |
| `EndpointStates.HistoryAdvances` | gms/version_generator.cc:45-50 | any later state of an owner is strictly newer than any earlier one |
| `EndpointStates.KeyDeterminesContent` | gms/gossip_digest.hh:83-95 | two states of one owner with the same (generation, max version) are the same state, which is why a digest may stand for a state |
| `EndpointStates.DeltaFromZero` | gms/gossiper.cc:1085-1092 | a cut above zero is the whole state, or nothing for a state without versions |
| `GossipNodes.ApplyEntryEffect` | gms/gossiper.cc:410-464 | one received entry changes the stored content of that endpoint alone, to what Learn says, unless the node ignores it |
| `GossipNodes.ApplyMessageEffect` | gms/gossiper.cc:1117-1121 | hearing a whole message changes each stored content independently, whatever order its entries are taken in |
| `GossipNodes.MajorChangeKeepsContent` | gms/gossiper.cc:1202-1249 | a major state change stores what was received iff in a shadow round, or the status is not shutdown, or the version is the highest anyway |
| `GossipNodes.ShutdownAfterEcho` | gms/gossiper.cc:1231-1248 | marking alive, the echo and its outcome, and then the shutdown leave the same as the shutdown alone, up to the expiry entry of an answered echo |
| `GossipNodes.ShutdownStops` | gms/gossiper.cc:1677-1686 | convict, mark_as_shutdown and the forced conviction end after one turn, because the alive flag is already cleared |
| `GossipNodes.CheckAllKeeps` | gms/gossiper.cc:493-528 | without shutdown statuses a status check rewrites no stored content; it can only forget endpoints |
| `GossipNodes.DigestsOfStates` | gms/gossiper.cc:811-830 | a node's digests are exactly the summaries of what it stores, one per endpoint |
| `GossipNodes.ExamineEffect` | gms/gossiper.cc:1337-1399 | every request and every state in an ACK answers some digest of the SYN, and each state is a cut of what the node stores from that digest's floor |
| `GossipNodes.RepliesEffect` | gms/gossiper.cc:242-251 | every state in an ACK2 is a cut of a stored state from the version some requested digest names |
| `EndpointStates.FirstPieceExact` | gms/gossiper.cc:1696-1708 | the status text of a value is what stands before its first comma, and nothing else |
| `Gossipers.GetMaxVersion` | gms/gossiper.cc:772-779 | the loop finds the greatest version of the heartbeat and all values |
| `Gossipers.GetStateAbove` | gms/gossiper.cc:1071-1104 | the loop builds exactly the cut above v, and nothing when there is nothing newer |
| `Gossipers.Gossiper.constructor` | gms/gossiper.hh:121-215 | a new gossiper knows nobody and is disabled |
| `Gossipers.Gossiper.MakeRandomDigests` | gms/gossiper.cc:811-830 | one digest per known endpoint, in some order |
| `Gossipers.Gossiper.SortByGap` | gms/gossiper.cc:163-173 | the result is a permutation of the digests, ascending by (generation, version difference) |
| `Gossipers.Gossiper.DoSort` | gms/gossiper.cc:152-182 | the list is the digests by descending gap, each replaced by the first digest of its endpoint |
| `Gossipers.Gossiper.ExamineDigests` | gms/gossiper.cc:1337-1399 | the in-place loops produce the ACK of the specification |
| `Gossipers.Gossiper.HandleSynMsg` | gms/gossiper.cc:186-212 | an ACK for a sorted list iff enabled and cluster and partitioner agree; an empty SYN asks for everything |
| `Gossipers.Gossiper.MarkAlivePending` | gms/gossiper.cc:1124-1140 | the part of mark_alive before the echo is answered |
| `Gossipers.Gossiper.EchoAnswered` | gms/gossiper.cc:1141-1162 | the part after it, for an answered and a failed echo |
| `Gossipers.Gossiper.RealMarkAliveNow` | gms/gossiper.cc:1165-1185 | the endpoint becomes live, just added once, and leaves unreachable and expiring |
| `Gossipers.Gossiper.MarkDeadNow` | gms/gossiper.cc:1188-1199 | the endpoint leaves live and just-added and becomes unreachable since now |
| `Gossipers.Gossiper.GossipToLiveMember` | gms/gossiper.cc:946-959 | the SYN goes to one of the live endpoints, or to the longest waiting newly added one, which is taken off the list |
| `Gossipers.Gossiper.MajorStateChange` | gms/gossiper.cc:1202-1249 | the received state replaces the stored one; outside a shadow round the endpoint is marked dead, forced and marked dead if shut down, or pending alive |
| `Gossipers.Gossiper.ApplyNewStates` | gms/gossiper.cc:1276-1304 | the heartbeat and the received values are overlaid, and the generation-mismatch throw is unreachable |
| `Gossipers.Gossiper.ApplyEntryLocally` | gms/gossiper.cc:412-463 | all branches of one entry: self, quarantine, generation too far ahead, newer, older, same |
| `Gossipers.Gossiper.ApplyStateLocally` | gms/gossiper.cc:410-464 | the loop applies each entry of the message once |
| `Gossipers.Gossiper.NotifyDetector` | gms/gossiper.cc:375-408 | exactly the known endpoints with news get a new timestamp and are reported, and of those the dead ones with a newer generation are cleared first |
| `Gossipers.Gossiper.ReplyDeltas` | gms/gossiper.cc:242-251 | the first requested digest of an endpoint that has an answer decides its cut |
| `Gossipers.Gossiper.HandleAckMsg` | gms/gossiper.cc:220-257 | states applied first, then the reply cut from the updated states; nothing is sent from a shadow round or when disabled |
| `Gossipers.Gossiper.HandleAck2Msg` | gms/gossiper.cc:265-274 | states applied iff enabled |
| `Gossipers.Gossiper.UpdateHeartBeat` | gms/gossiper.cc:553-555 | the own heartbeat takes the next version |
| `Gossipers.Gossiper.AddLocalState` | gms/gossiper.cc:1514-1541 | the value is published under a version drawn at publication, or an error if the node does not know itself |
| `Gossipers.Gossiper.Remove` | gms/gossiper.cc:467-490 | the endpoint leaves live, just-added and unreachable and is quarantined from now |
| `Gossipers.Gossiper.EvictFromMembership` | gms/gossiper.cc:781-788 | the state is forgotten and quarantined from now |
| `Gossipers.Gossiper.Replaced` | gms/gossiper.cc:805-809 | forgotten and quarantined for twice the delay |
| `Gossipers.Gossiper.AddSaved` | gms/gossiper.cc:1491-1509 | a placeholder with generation 0 that keeps known values, marked unreachable |
| `Gossipers.Gossiper.AddExpireTimeFor` | gms/gossiper.cc:1625-1635 | the endpoint's expiry is set |
| `Gossipers.Gossiper.ConvictEndpoint` | gms/gossiper.cc:745-762 | a live endpoint is marked dead, through shutdown if its status says so |
| `Gossipers.Gossiper.Shutdown` | gms/gossiper.cc:1677-1686 | heartbeat forced to the maximum, marked dead, conviction forced |
| `Gossipers.Gossiper.CheckOne` | gms/gossiper.cc:496-528 | conviction, fat-client removal and expiry of one endpoint, with the alive flag read before conviction |
| `Gossipers.Gossiper.DoStatusCheck` | gms/gossiper.cc:493-539 | every endpoint known at the start is checked once, then quarantines older than the delay are lifted |
| `Snapshots.NextKeepsInv` | gms/gossiper.cc:186-274 | the protocol invariant about nodes, copies and every message in flight survives every step, under any loss, duplication, delay or reordering, with handlers interrupted at any entry and status checks in between |
| `Snapshots.SnapshotTheorem` | gms/gossiper.cc:220-464 | in every run whose answered digests are of the current generation and in which no owner announces its shutdown, every stored copy is a state the owner had at some earlier moment |
| `Snapshots.EqualDigestsEqualCopies` | gms/gossip_digest.hh:83-95 | in every such run two copies with the same digest are identical, wherever they are stored |
| `Snapshots.FixedGenerationsAreSafe` | gms/gossiper.cc:1688-1694 | the generation proviso is automatic in every run in which no owner changes its generation |
| `Snapshots.SnapshotWithFixedGenerations` | gms/gossiper.cc:220-464 | the snapshot theorem without proviso for runs with fixed generations |
| `Snapshots.SnapshotExact` | gms/gossiper.cc:242-251 | a delivered cut leaves a state the owner had iff it announces no shutdown to a node taking it by a major change, and none of its values lies above what the receiver covers and at or below the cut's floor |
| `TornCopies.GenerationChangeTearsCopy` | gms/gossiper.cc:246-246 | a complete run in which a generation change during an exchange leaves a copy the owner never had, under the owner's own digest |
| `TornCopies.LostStaysLost` | gms/gossiper.cc:1337-1399 | a value such a copy lacks stays lost through every later exchange, until the owner publishes it again or restarts |
| `TornCopies.ShutdownTearsCopy` | gms/gossiper.cc:1246-1248 | a complete run without generation changes in which announcing a shutdown leaves a copy the owner never had, ahead of the owner |
| `TornCopies.ForcedVersionStays` | gms/gossiper.cc:441-455 | nothing said about that generation or an earlier one replaces the forced copy |
| `Rounds.RoundUsesHandlers` | gms/gossiper.cc:186-257 | the round is what the three handlers exchange |
| `Rounds.SortKeepsDigests` | gms/gossiper.cc:152-182 | sorting neither loses nor invents a digest when endpoints are distinct |
| `Rounds.RoundResult` | gms/gossiper.cc:186-274 | what each node stores after one uninterrupted round, for every endpoint the initiator knew and all orders |
| `Rounds.RoundConverges` | gms/gossiper.cc:186-274 | both then hold the state with the larger (generation, max version) iff it is not a shutdown announcement that is new to the node behind |
| `Rounds.RoundLeavesUnknown` | gms/gossiper.cc:186-274 | an endpoint the initiator never heard of is untouched on both sides |
| `Rounds.ScheduleExists` | gms/gossiper.cc:186-274 | any two enabled nodes of one cluster can hold a round, so the statements about rounds are never empty |
| `Quiescence.OwnerIsNewest` | gms/gossiper.cc:410-464 | in every reachable cluster nobody is ahead of an owner about the owner |
| `Quiescence.SettledMeets` | gms/gossiper.cc:410-464 | reachable settled clusters meet the premises of round convergence for every pair and endpoint |
| `Quiescence.BehindShrinks` | gms/gossiper.cc:220-274 | no round adds to the (node, endpoint) pairs that lag behind their owner |
| `Quiescence.ChangeIsProgress` | gms/gossiper.cc:220-274 | a round that changes any stored content strictly reduces the owner states still unlearned |
| `Quiescence.DifferenceIsProgress` | gms/gossiper.cc:220-274 | a round between nodes that differ on something the initiator knows makes such progress |
| `Quiescence.QuiescenceIsAgreement` | gms/gossiper.cc:220-274 | if no ordered pair's round changes anything, all nodes store the same, and of each node what it says itself |
| `Quiescence.RoundIsFourSteps` | gms/gossiper.cc:186-274 | a round is four consecutive protocol steps and keeps the protocol invariant |
| `Quiescence.RoundStaysSettled` | gms/gossiper.cc:186-274 | rounds keep the standing assumptions |
| `Quiescence.RoundsAreBounded` | gms/gossiper.cc:186-274 | in any sequence of rounds that each change something, there are at most as many rounds as owner states to learn at the start |
| `Quiescence.DisagreementIsNotTheEnd` | gms/gossiper.cc:186-274 | as long as two nodes of a settled cluster store different things, some round is possible that changes something |
| `Quiescence.StuckIsAgreement` | gms/gossiper.cc:186-274 | a settled cluster in which no possible round changes anything agrees everywhere, so with RoundsAreBounded every maximal sequence of changing rounds is finite and ends in agreement |
| `Quiescence.ConvergenceIsReachable` | gms/gossiper.cc:186-274 | from every settled cluster a finite sequence of rounds, no longer than the owner states to learn, leaves every node with what each owner said at the start |
| `Quiescence.CurrentStays` | gms/gossiper.cc:410-464 | a copy that is what its owner says stays so under every step but the owner's own, however stale the delivered message |
| `Quiescence.AgreementLasts` | gms/gossiper.cc:410-464 | once up to date about an endpoint, a node stays so through every safe run in which the endpoint says nothing new |
| `Membership.AddSavedMembers` | gms/gossiper.cc:1491-1509 | add_saved_endpoint keeps the membership invariant iff the endpoint is the node itself or not live |
| `Membership.SavingALivePeer` | gms/gossiper.cc:1491-1509 | a node with one live peer, before and after saving it |
| `Membership.StepKeepsMembers` | gms/gossiper.cc:467-490 | every operation keeps live and unreachable disjoint, just-added a duplicate-free part of live, and unreachable endpoints known |
| `Membership.MembershipInvariant` | gms/gossiper.cc:1124-1199 | so it holds throughout every run of a node, for arbitrary messages |
| `Membership.LearnNeverOlder` | gms/gossiper.cc:427-456 | no received content, however ill-formed, lowers the stored (generation, max version) |
| `Membership.HeartBeatMayGoBack` | gms/gossiper.cc:1202-1212 | the heartbeat version alone can go back |
| `Membership.MonotoneKnowledge` | gms/gossiper.cc:427-456 | over any run that does not forget the endpoint, what a node stores of a peer never gets older |
| `Membership.CheckLiftsQuarantine` | gms/gossiper.cc:530-538 | a status check lifts a quarantine iff more than the delay has passed, and does not bring the endpoint back |
| `Membership.QuarantineSafety` | gms/gossiper.cc:410-420 | a quarantined endpoint stays out of the map through every run until a status check later than its time plus the delay |
| `Membership.RemovalQuarantines` | gms/gossiper.cc:781-809 | eviction quarantines from now, replacement from now plus the delay, so for twice the delay |
| `Membership.RemovalShortensReplacement` | gms/gossiper.cc:790-809 | after a replacement, a removal of the same endpoint keeps the doubled quarantine iff it comes after the first delay |
| `Membership.ReplacedReturnsEarly` | gms/gossiper.cc:790-809 | a run: replaced, removed soon after, checked within the doubled quarantine, and the next message brings the endpoint back |
| `Liveness.JoiningEndpoint` | gms/gossiper.cc:1202-1249 | an endpoint that a message makes new or of a newer generation is down and unreachable since now if its status text says it left, hibernates or has shut down; otherwise it waits for an echo, and an answered echo brings it up |
| `Liveness.KnownEndpoint` | gms/gossiper.cc:410-464 | news within a generation leaves an endpoint as alive, live and reachable as it was, and it waits for an echo iff it did before, or was dead and its status is then not that of a node that left or hibernates |
| `Liveness.UnmentionedEndpoint` | gms/gossiper.cc:410-464 | an endpoint that a message does not mention, or that the node ignores, keeps everything kept about it but the time of the last news |
| `Liveness.ShadowRoundOnlyStores` | gms/gossiper.cc:1215-1218 | in a shadow round a new endpoint is stored and nothing else happens to it |
| `Liveness.AnsweredEcho` | gms/gossiper.cc:1141-1185 | an answered echo leaves the endpoint up: alive since now with the same content, live, waiting to be gossiped to, not unreachable, not expiring, not pending |
| `Liveness.FailedEcho` | gms/gossiper.cc:1141-1162 | a failed echo, or one about an endpoint forgotten meanwhile, changes nothing but that it is no longer pending |
| `Liveness.LastNewsExact` | gms/gossiper.cc:375-408 | a message counts as a sign of life of a known endpoint iff it speaks of a newer generation, believed or not, or of something newer in the same one; of an endpoint the node does not listen about only the heartbeat counts |
| `Liveness.FarGenerationIsRefused` | gms/gossiper.cc:433-437 | a generation more than a year of seconds ahead of a known one changes nothing |
| `Liveness.NewcomersInTurn` | gms/gossiper.cc:946-959 | endpoints that just came up are gossiped to one after the other in the order they came up |
| `Liveness.FarthestFirst` | gms/gossiper.cc:152-182 | with one digest per endpoint, those of newer generations are examined first, and within a generation those whose version is farthest from the stored one |
| `Liveness.RepliesExact` | gms/gossiper.cc:242-251 | an ACK2 carries an endpoint iff some digest asks for something the node has of it, and the first such digest decides the cut |
| `Liveness.AckIsAnswered` | gms/gossiper.cc:220-257 | an ACK ends a shadow round without an answer, and is otherwise answered iff the node is enabled |
| `Liveness.ConvictionTakesDown` | gms/gossiper.cc:745-762 | a convicted endpoint that was taken for alive is down and unreachable since now, its content as before or with the version forced if its status is shutdown; a dead or unknown one, and every other endpoint, is left alone |
| `Liveness.ConvictionKeepsRest` | gms/gossiper.cc:745-762 | conviction keeps quarantines, expiry times, the time of the last news and the status |
| `Liveness.StatusCheckExact` | gms/gossiper.cc:493-539 | a status check forgets an endpoint iff it is a silent non-member without a dead status that is not quarantined, or a member that was dead already and whose expiry has passed; it quarantines those it forgets from now, takes down exactly the convicted endpoints taken for alive, and leaves the rest |
| `Liveness.StatusCheckSparesSelf` | gms/gossiper.cc:493-498 | it leaves the node's own entry alone and adds no endpoint |
| `Liveness.ExpiryForgets` | gms/gossiper.cc:521-527 | a dead member given an expiry time is forgotten by a status check iff it comes later than that time |
| `Liveness.RemovedEndpoint` | gms/gossiper.cc:467-490 | a removed endpoint is neither live, nor waiting to be gossiped to, nor unreachable, but quarantined; its state and all other endpoints stay |
| `Liveness.ResetKnowsNobody` | gms/gossiper.cc:1039-1044 | after a reset nobody is known, and quarantines stay |
| `Liveness.SavedGivesWay` | gms/gossiper.cc:1491-1509 | a saved endpoint is down and keeps the values known of it, and any real generation replaces it, however far ahead |
| `Isolation.SynIsAnswered` | gms/gossiper.cc:186-212 | a SYN is answered iff the node is enabled, the cluster names are equal and the partitioner is empty or the node's |
| `Isolation.ForeignSynIsDropped` | gms/gossiper.cc:190-203 | a SYN of another cluster gets no answer |
| `Isolation.ClustersStayApart` | gms/gossiper.cc:186-274 | in every run from nodes that know only themselves, no node ever stores an endpoint whose cluster name is not its own, under any loss, duplication, delay or reordering |
| `FailureDetectors.BoundedStatsDeque.constructor` | utils/bounded_stats_deque.hh:54-56 | an empty window of the given size |
| `FailureDetectors.BoundedStatsDeque.Add` | utils/bounded_stats_deque.hh:62-70 | the window is the newest samples up to its size, and the running sum is their sum |
| `FailureDetectors.BoundedStatsDeque.Mean` | utils/bounded_stats_deque.hh:76-78 | the mean of what is kept, 0 when empty |
| `FailureDetectors.ArrivalWindow.constructor` | gms/failure_detector.hh:72-74 | a window without samples |
| `FailureDetectors.ArrivalWindow.Add` | gms/failure_detector.cc:92-107 | first sample the initial value, later ones the interval unless it is above the maximum |
| `FailureDetectors.ArrivalWindow.IsOver` | gms/failure_detector.cc:113-121 | whether scaled phi exceeds the threshold, where the source's assertion holds |
| `FailureDetectors.HistoryIsOk` | gms/failure_detector.cc:92-107 | for every history under a clock that never goes back, every window is non-empty with intervals between 0 and the maximum |
| `FailureDetectors.BoundedDetection` | gms/failure_detector.cc:113-121 | the assertion in phi never fails, the mean is at most the maximum interval, and silence longer than threshold * max / PHI_FACTOR convicts |
| `FailureDetectors.WindowReflectsReports` | gms/failure_detector.cc:92-107 | in every history an endpoint has a window iff it reported since its last removal, and the window holds the last 1000 of: two seconds, then every gap between reports that is at most two seconds |
| `FailureDetectors.DefaultDetectionTime` | gms/failure_detector.hh:102-110 | with the default threshold 37 seconds of silence convict in every history, and 36 do not when the mean interval is the longest one |
| `FailureDetectors.ConvictsExactly` | gms/failure_detector.cc:256-260 | conviction is PHI_FACTOR * silence > threshold * mean, also for a zero mean |
| `FailureDetectors.DetectsIffMeanNotNegative` | gms/failure_detector.cc:113-121 | some silence convicts iff the mean is not negative |
| `FailureDetectors.SteppedClockNeverConvicts` | gms/failure_detector.cc:92-107 | two reports with the clock set back more than two seconds in between: no silence ever convicts |
| `FailureDetectors.FailureDetector.Report` | gms/failure_detector.cc:220-232 | a report starts a window or extends the existing one |
| `FailureDetectors.FailureDetector.Interpret` | gms/failure_detector.cc:235-268 | convicts iff the endpoint has a window, no pause guard applies and phi is above the threshold |
| `FailureDetectors.FailureDetector.Remove` | gms/failure_detector.cc:278-280 | the window is dropped |
| `Shards.ShardAgreement` | gms/gossiper.cc:544-654 | after every completed round, in every run, each other shard has CPU 0's live and unreachable sets and all states but the node's own, of which it can miss only heartbeats |
| `Shards.ShadowsAgree` | gms/gossiper.cc:556-561 | between rounds the shards agree in the same way with the shadow copies |
| `Shards.QuietRoundSendsNothing` | gms/gossiper.cc:556-561 | after any run, a round in which only the own heartbeat moved leaves every other shard as it was |
| `Shards.BeatExact` | gms/gossiper.cc:553-561 | a beat changes the version of the node's own heartbeat, equally in the map and its shadow, and nothing else |
| `Shards.Replicator.constructor` | gms/gossiper.hh:121-215 | all shards start with nothing |
| `Shards.Replicator.UpdateHeartBeat` | gms/gossiper.cc:553-561 | the new heartbeat goes to the map and the shadow map, inserting a blank entry where missing |
| `Shards.Replicator.PublishChanges` | gms/gossiper.cc:609-654 | only changed parts are copied, to the shadows and then to every other shard |
| `Logs.LogCutSafety` | store/log_reader.cc:56-153 | a log cut after any byte reads back as exactly the records that end at or before the cut, in order, then end of file |
| `Logs.CutHasCount` | store/log_reader.cc:56-153 | every cut determines such a number of records, so the theorem covers every cut |
| `Logs.WholeBeforeExact` | store/log_format.hh:23-33 | the count is of the records whose last byte lies before the cut |
| `Logs.SplitIsRecord` | store/log_format.hh:23-33 | every non-empty record has a well-formed FULL or FIRST MIDDLE* LAST fragmentation from every block offset, with the same content |
| `LogIntegrity.FragmentsStayInBlocks` | store/log_format.hh:31-33 | no fragment of a log crosses a boundary of 32 KiB, nor begins within seven bytes of one |
| `Logs.WriteIsLog` | store/log_format.hh:23-33 | any list of non-empty records can be laid out as a log |
| `Logs.CrashLosesSuffix` | store/log_reader.cc:56-153 | whatever was written, a crash at any byte loses a suffix of the records and nothing else, and no crash loses nothing |
| `LogIntegrity.PhysicalIsSourced` | store/log_reader.cc:170-245 | on arbitrary bytes and with checksums on, whatever one read returns is a fragment that stands in the file at or after the reader's position and whose stored checksum matches its contents |
| `LogIntegrity.RecordsAreChecked` | store/log_reader.cc:56-153 | on arbitrary bytes and with checksums on, every record read is the concatenation of such fragments, in file order over all records and without overlap |
| `LogIntegrity.ZerosEndBlock` | store/log_reader.cc:212-218 | a header of zeros ends its block, whatever follows it there |
| `LogIntegrity.UnknownKindStartsOver` | store/log_reader.cc:143-146 | a fragment of unknown kind makes the reader forget the record it was in and start over behind it |
| `LogIntegrity.AlteredRecordIsLost` | store/log_reader.cc:221-235 | a log with one fragment altered so that its checksum no longer matches reads back as the records before the one it belongs to and, iff a record starts at the first fragment of the next block, the records from there on |
| `Logs.LogReader.constructor` | store/log_reader.cc:18-30 | a reader at the start of a file |
| `Logs.LogReader.ReadPhysicalRecord` | store/log_reader.cc:170-245 | block refill, short header, bad length, zero record and checksum branches, as the specification the theorem is about |
| `Logs.LogReader.ReadNextRecord` | store/log_reader.cc:56-153 | the fragment state machine as the specification the theorem is about |
| `Coding.FixedRoundTrip` | store/util/coding.cc:46-50 | decoding k little-endian bytes gives back every number that fits |
| `Coding.UnfixedRoundTrip` | store/util/coding.cc:46-50 | encoding what was decoded gives back the bytes |
| `Coding.FixedDigits` | store/util/coding.cc:14-44 | byte i is the digit of weight 256^i |
| `Coding.VarintDigits` | store/util/coding.cc:52-95 | byte i is the digit of weight 128^i, with the top bit set on all but the last |
| `Coding.VarintIsShort` | store/util/coding.cc:52-95 | no more bytes are written than the number needs |
| `Coding.VarintRoundTrip` | store/util/coding.cc:86-95 | a varint followed by anything decodes to the number and leaves exactly what followed |
| `Coding.Varint32RoundTrip` | store/util/coding.cc:117-146 | five bytes suffice for every 32-bit number |
| `Coding.Varint64RoundTrip` | store/util/coding.cc:148-175 | ten bytes suffice for every 64-bit number |
| `Coding.EncodeVarint` | store/util/coding.cc:86-95 | the loop writes the varint |
| `Coding.PrefixedRoundTrip` | store/util/coding.cc:186-196 | a length-prefixed string followed by anything is read back and leaves exactly what followed |
| `InternalKeys.ParseEncode` | store/dbformat.cc:12-21 | parsing inverts appending for every sequence number below 2^56 and both types |
| `InternalKeys.EncodeParse` | store/dbformat.hh:173-183 | whatever parses is the encoding of what it parses to |
| `InternalKeys.CompareIsTotalOrder` | store/dbformat.cc:50-66 | over any three-way total order of user keys, Compare is a total order of internal keys |
| `InternalKeys.ShippedComparatorExact` | store/comparator.cc:25-28 | with a comparator that answers a < b as 1 or 0, two keys compare oppositely both ways iff their user keys are equal or the smaller one has the smaller tag |
| `InternalKeys.ShippedComparatorFails` | store/comparator.cc:25-28 | two keys each of which then compares after the other |
| `InternalKeys.VisibleIffAfter` | store/dbformat.cc:121-138 | an entry sorts at or after the lookup key of its user key iff the snapshot sees it |
| `InternalKeys.SnapshotLookup` | store/dbformat.cc:121-138 | a seek to LookupKey(u, s) lands on the newest entry of u with sequence at most s iff there is one, and otherwise on no entry of u |
| `InternalKeys.MemtableKeyHoldsKey` | store/dbformat.cc:121-138 | the memtable key is the internal key with its own length in front |
| `InternalKeys.SeparatorSeparates` | store/dbformat.cc:68-85 | both assertions in FindShortestSeparator hold; the result is in [start, limit), and it is shorter than start iff the user comparator gives a shorter and larger user key, which it then carries with the highest sequence number |
| `VersionEdits.DecodeEncode` | store/version_edit.cc:41-210 | decoding an encoded edit succeeds and gives back every field, flag, pointer, deleted and new file, after the pointers the object already had |
| `VersionEdits.DecodeEncodeExact` | store/version_edit.cc:26-39 | it gives back exactly the edit iff the receiving object has no compaction pointers |
| `VersionEdits.UsedObjectKeepsPointer` | store/version_edit.cc:26-39 | an object holding one pointer still holds it after decoding the empty edit |
| `VersionEdits.DecodeSucceedsExactly` | store/version_edit.cc:109-210 | decoding succeeds iff the whole input is a sequence of entries, and then applies them in order |
| `VersionEdits.ReadLocal` | store/version_edit.cc:88-199 | reading an entry depends on that entry's bytes only |
| `VersionEdits.ReencodingIsFaithful` | store/version_edit.cc:41-210 | whatever bytes an edit came from, encoding and decoding it again gives the same edit |
| `VersionEdits.TagOnDisk` | store/version_edit.cc:14-24 | the first byte of every entry tells its kind: 1 to 7 and 9 |
| `VersionEdits.LevelOnDisk` | store/version_edit.cc:98-107 | a written level is read back iff it is below seven |
| `VersionEdits.EntriesAreRanked` | store/version_edit.cc:41-86 | the entries of an edit are written in the order comparator, log, previous log, next file, last sequence, pointers, deleted files, new files |
| `VersionEdits.InOrderIsSorted` | store/version_edit.cc:69-75 | deleted files are written each once, ascending by level and number |
| `VersionEdits.PutPointers` | store/version_edit.cc:63-67 | the loop writes one entry per compaction pointer, in order |
| `VersionEdits.PutDeleted` | store/version_edit.cc:69-75 | one entry per deleted file, in set order |
| `VersionEdits.PutFiles` | store/version_edit.cc:77-85 | one entry per new file, in order |
| `VersionEdits.VersionEdit.constructor` | store/version_edit.hh:28-28 | a new edit is empty |
| `VersionEdits.VersionEdit.Clear` | store/version_edit.cc:26-39 | everything but the compaction pointers is cleared |
| `VersionEdits.VersionEdit.EncodeTo` | store/version_edit.cc:41-86 | appends the encoding of the object's state |
| `VersionEdits.VersionEdit.TakeEntry` | store/version_edit.cc:123-198 | one turn of the switch: a field set, or its error message and no change |
| `VersionEdits.VersionEdit.DecodeFrom` | store/version_edit.cc:109-210 | the loop leaves the decoded state and the error message of the specification |
| `Resp.Build` | reply_builder.hh:335-350 | the loop prints the array of bulk strings |
| `Resp.RequestRead` | native_protocol_parser.cc:136-204 | a printed request of two or more non-empty strings parses back unchanged and consumes exactly its own bytes, whatever follows and whatever bytes the payloads hold |
| `Resp.PipelineRoundTrip` | native_protocol_parser.cc:136-204 | any list of printed requests in one buffer is recovered in order and used up |
| `RespGrammar.ScanExact` | native_protocol_parser.cc:143-147 | the scan stops at the first CRLF; without one the outcome depends on the buffer's size and last two bytes |
| `RespGrammar.AcceptsExactly` | native_protocol_parser.cc:136-204 | the parser accepts iff the buffer begins with a header of n > 1 and n non-empty bulk strings, and then yields exactly those strings and consumes exactly those bytes |
| `RespGrammar.FirstLine` | native_protocol_parser.cc:148-170 | how every first line that is no header is refused |
| `RespGrammar.RefusesExactly` | native_protocol_parser.cc:144-196 | after the header and any number of its strings, what is no string is refused by its first byte, or waited for if its line has no end |
| `RespGrammar.UsedParserRefuses` | native_protocol_parser.cc:153-153 | a parser that still holds the arguments of an earlier request fails the source's assertion on the next header |
| `RespGrammar.RoundTripExact` | native_protocol_parser.cc:136-204 | a printed request is read back iff it has an argument and no empty string |
| `RespGrammar.SignedNumber` | native_protocol_parser.cc:117-124 | atoi reads a decimal number behind white space and a sign |
| `RespSplit.SplitExact` | native_protocol_parser.cc:172-204 | a proper part of a printed request is refused iff it ends inside a string, and otherwise the parser asks for more, up to its limit |
| `Resp.NativeParser.constructor` | native_protocol_parser.cc:109-115 | a parser with an empty request |
| `Resp.NativeParser.Init` | native_protocol_parser.cc:109-115 | the request is emptied |
| `Resp.NativeParser.ConvertToNumber` | native_protocol_parser.cc:117-124 | atoi with blanks, sign and digits as 32 unsigned bits; zero is the source's exception, and a read past the buffer is its own outcome |
| `Resp.NativeParser.FindFirstNonNumeric` | native_protocol_parser.cc:126-134 | the first index that is not a digit |
| `Resp.NativeParser.ParseLine` | native_protocol_parser.cc:144-196 | the star and dollar branches with all their errors |
| `Resp.NativeParser.ParseBuffer` | native_protocol_parser.cc:136-204 | the loop ends in the outcome of the specification the round trip is about |
| `Rings.LowerBound` | ring.cc:39-39 | the first position whose token is not below t |
| `Rings.FirstIsNearest` | ring.cc:36-44 | a key's token is the one met first going up from the key and round the ring, and no other |
| `Rings.MinimalMovement` | ring.cc:36-44 | when a token joins, each key moves to it iff it is met before the key's old token, and otherwise stays, including past the last token |
| `Rings.ReadIsHeadOfWrite` | ring.cc:73-84 | the read target is the first write target |
| `Rings.SameFirstSameReplicas` | ring.cc:46-53 | a cache entry answers every key that shares its first token |
| `Rings.ReplicasAreConsecutive` | ring.cc:46-65 | the write targets are the owners of the tokens met from the key's own token on, round the ring, one after the other |
| `Rings.TurnedIsNearest` | ring.cc:36-65 | going once round the ring from a key's token, each token is met before those after it |
| `Rings.WriteIsDirect` | ring.cc:46-65 | a write lookup answers what would be computed without the cache, and leaves both caches coherent |
| `Rings.ReadIsDirect` | ring.cc:73-84 | the same for a read lookup |
| `Rings.CachesAreInvisible` | ring.cc:46-92 | any interleaving of lookups and token changes is answered as if there were no caches |
| `Rings.Ring.constructor` | ring.hh:34-34 | an empty ring |
| `Rings.Ring.Collect` | ring.cc:54-61 | the owners of consecutive positions, at least one, with missing owners inserted as the default address |
| `Rings.Ring.WriteTargets` | ring.cc:46-65 | cached or computed targets and the caches after it |
| `Rings.Ring.ReadTarget` | ring.cc:73-84 | cached or computed target and the caches after it |
| `Rings.Ring.SetSortedTokens` | ring.cc:86-92 | tokens and owners replaced, both caches emptied |
| `Bits.GetSet` | structures/bits_operation.cc:32-63 | the written bit is read back and every other bit, in the same byte or not, is as before |
| `Bits.GetIsShift` | structures/bits_operation.cc:53-63 | bit 0 is the most significant bit of the first byte, and so on down |
| `Bits.RangeExact` | structures/bits_operation.cc:65-72 | the bytes counted are those from start to end, counted from the end when negative, except that an end before the first byte is taken for the first byte |
| `Bits.SetChangesCount` | structures/bits_operation.cc:32-51 | setting a bit changes the number of ones by the new bit minus the old one |
| `Bits.ByteOnes` | structures/bits_operation.cc:74-83 | the ones of a byte are the bits get reports in it |
| `Bits.TableCountsOnes` | structures/bits_operation.cc:74-83 | each of the 256 entries of bits_in_byte is the number of bits set in its index |
| `Bits.Count` | structures/bits_operation.cc:65-132 | over a normalised byte range, empty or not, both loops together count the bits get reports there |
| `Bits.SetBit` | structures/bits_operation.cc:43-50 | the byte is updated in place and the old bit returned |
| `DependencySort.SortDependencies` | idl-compiler.py:693-709 | ends with each type once, after everything it depends on, iff the dependencies are acyclic and closed |
| `DependencySort.SomeReady` | idl-compiler.py:699-701 | an acyclic, closed map always has a type ready to be emitted |
| `DependencySort.OrderIsRank` | idl-compiler.py:693-709 | a complete order shows the map acyclic and closed |
| `DependencySort.Append` | idl-compiler.py:701-702 | the types found in one turn extend the order, whatever order they are taken in |

## Left out

- Snapshots.SnapshotTheorem: does not cover steps that forget an endpoint or force its version (eviction, reset, add_saved_endpoint, announced shutdowns) or shadow rounds, because the theorem is false with them; Snapshots.SnapshotExact says when a delivery is harmless, and those steps are in the node-level theorems.
- Rounds.RoundConverges: assumes no quarantine, generations within the limit, versions of at least 1 and nobody ahead of an owner about itself; Quiescence.SettledMeets derives the latter for reachable clusters.
- Snapshots.SnapshotExact: assumes heartbeat versions below the highest possible one, so that a forced version is never one the owner reached by itself.
- GossipNodes.ShutdownAfterEcho: the model keeps the expiry entry that an answered echo would drop before a shutdown.
- Gossipers.Gossiper.ApplyStateLocally: leaves out the report of a new endpoint to the failure detector.
- Logs.LogCutSafety: covers readers that start at offset 0; resynchronisation from another offset is unfinished in the source.
- Logs.WriteIsLog: the writer is not part of the repository; the layout is stated from the block format.
- RespSplit.SplitExact: covers the first piece of a request; what the connection does with the next piece is not modelled.
- RespGrammar.RoundTripExact: leaves out lengths beyond 31 bits, where atoi is undefined.
- Bits.Count: leaves out ranges that end more than one byte before their start after normalisation, where the loop's counter wraps.
- Bits.SetBit: leaves out offsets past the end, where the growth of the value is commented out.
- Rings.FirstIsNearest: takes tokens from a total order; the shipped token comparisons are constants.
- FailureDetectors.FailureDetector.Interpret: takes the pause guards as one input, since their bookkeeping assigns through an empty optional; reals stand for doubles.
- InternalKeys.SeparatorSeparates: takes the user comparator's own separator as any function with its documented contract, since the shipped comparator has none.
- DependencySort.SortDependencies: returns None where the source's loop never ends.
- Advertising removal and token state, assassination, feature negotiation, seeds and subscriber notifications of the gossiper.
- The commit log, column families, tables, the cache and the Redis commands.
- Networking, RPC, configuration, metrics and logging.
