# Naabu scan engine: a verified model

This project models the scan engine of the Naabu port scanner in Dafny and proves what it
promises: what is probed and in which order, with which bytes, and what is recorded. Each
module follows one component of the program; mutable objects are classes, loops are loops, and
a pure module beside each states what the loops are proved against.

| module | component |
|---|---|
| `QueueOrder`, `QueueSpec`, `PortQueue` | the smart-scan priority queue: heap order, its meaning as a port-to-priority map, and the heap of mutable items with its position index |
| `Schedule`, `Repetition`, `Enumeration` | the shuffled scan loop with its resume file, as a state machine whose every step may be followed by a kill and a restart; what a kill costs; and the imperative loops refining the machine |
| `Probes`, `SmartScan` | the bag of probes a retry considers, and the smart scan's loops |
| `Targets`, `Ipv4Text`, `SynSender` | address picking (plain walk and uint32 table), the IPv4 printer and parser, the SYN template with its incremental checksum |
| `Correlations`, `Prediction` | the correlation model: scores, merging, training, and the mutable model |
| `Results`, `Recording` | the result store, and the callback, queues, phases and workers that fill it |
| `Routing`, `Ports`, `Upload` | longest-prefix route choice, port lists with exclusion and the popularity rank, the upload buffer |
| `PortTypes`, `Text`, `Bags` | the port record, decimal text and splitting, sequences as bags |

The main results:

- **Smart scan = plain scan.** Whatever boosts arrive and whatever order the queue yields, one
  smart-scan retry considers the same bag of probes as one retry of the shuffled loop; over
  disjoint targets that is each target address with each port entry exactly once
  (`SmartScan.ScanRetry`, `Probes.SmartAgreesWithPlain`, `Probes.ExactlyOnce`).
- **Resume coverage.** For any number of interruptions at any step, a run that reaches the end
  has dispatched every pair in every retry unless its address is excluded or was found over the
  port threshold, and has never dispatched an excluded one (`Schedule.ResumeCoverage`,
  `Enumeration.ScanToTheEnd`). As long as a kill only happens while a seed is saved, at most one
  dispatch is repeated per kill (`Repetition.RepeatsBounded`).
- **Queue refinement.** Under any interleaving of pops and boosts the heap yields exactly the
  pops of a plain map (`PortQueue.Interleave`), for port lists with distinct numbers; entries
  are conserved for every list.
- **Recording.** Every recorded port stems from a received SYN-ACK or UDP datagram in range, and a
  run that scans throughout loses none (`Recording.RecordAll`, `Recording.AnswerIsRecorded`).
- **Checksum.** Every packet that ever leaves the reused template is a well-formed SYN whose
  checksum the receiver accepts, as section 3.1 of RFC 9293 and section 1 of RFC 1071 require
  (`SynSender.SYNSender.Send`).

## Assumptions

- For a fixed seed the shuffle is a permutation of 0 .. range - 1, and the range fits in 64 bits.
- Targets are aligned networks. Disjointness is assumed only where a statement says so.
- The wall clock is after 1970 (`Schedule.ClockPositive`): a saved seed is recognised by being positive.
- Probabilities and priorities are real numbers instead of floating point.
- A method holding a lock is one atomic step.
- The saved resume file reads back as written; a run ends at the saved snapshot.
- "Dispatched" means handed to the sending path, not answered.

## Where the code falls short of its own description

Each of these is kept as the code has it and stated with its exact condition or a concrete input.

- Merging port lists does not remove duplicates: the ports are distinct exactly when no two
  sources share a number (`Ports.ChosenDistinctIff`, `Ports.OverlappingOptionsRepeat`). A queue
  has an exact index exactly when its port numbers are distinct (`PortQueue.NewPortQueue`). With
  a repeated number a boost can miss an entry (`SmartScan.OverlappingOptionsMissBoost`); one
  correlated port is brought up everywhere exactly when no entry of its number but the indexed
  one is below the correlation (`PortQueue.PortQueue.Promote`).
- Of `53,u:53` only the first entry survives, because duplicates are found by printed number
  (`Ports.SecondProtocolOf53`). A list keeps all it writes exactly when it writes no number with
  two protocols (`Ports.ParsedKeepsAllIff`).
- The fast path of the smart scan probes excluded and skipped IPv6 addresses: an excluded address
  is probed exactly there (`SmartScan.SmartDispatchSafety`).
- Training divides by listings, so a host listing a port twice lowers the stored probability
  (`Correlations.TrainedIsConditionalFrequency`, `Correlations.DoubleListingHalves`).
- A result line that overflows the upload buffer is counted but never uploaded
  (`Upload.SecondLineIsLost`, `Upload.OverlongIsNeverAccepted`); nothing is lost exactly when every
  line fits on the buffer it meets (`Upload.NothingLostIffAllFit`).
- A kill after a retry has ended and before the next has saved its seed repeats the finished retry
  (`Probes.KilledBetweenRetriesStartsOver`, `Repetition.KilledBetweenRetriesRepeatsAll`). A killed
  scan walks the saved shuffle again exactly when a seed was saved (`Repetition.KilledPicksUp`).
- The IPv4 parser reads empty fields as 0 (`Ipv4Text.EmptyFieldsReadAsZero`).

## Model

| member | source | states |
|---|---|---|
| `QueueOrder.RootIsBest` | pkg/runner/smartscan.go:311-318 | the root of the heap has the highest priority of all entries and, among equals, the lowest port number |
| `QueueOrder.SinkStep` | pkg/runner/smartscan.go:313-325 | one turn of sift-down moves the only out-of-order place to the exchanged child |
| `QueueOrder.RiseStep` | pkg/runner/smartscan.go:313-325 | one turn of sift-up moves the only out-of-order place to the parent |
| `QueueOrder.ChangeLeavesHole` | pkg/runner/smartscan.go:400-403 | changing one priority leaves a heap but for that entry, which is what heap.Fix needs |
| `QueueSpec.BestPortIsUnique` | pkg/runner/smartscan.go:313-318 | with distinct port numbers the next port to pop is determined |
| `QueueSpec.BoostAlgebra` | pkg/runner/smartscan.go:383-405 | boosting is idempotent and any two boosts commute |
| `QueueSpec.BuildThenBoost` | pkg/runner/smartscan.go:343-371 | knowing one more open port while building the queue gives the priorities of building without it and boosting afterwards, whatever the order or repetition of the known ports |
| `QueueSpec.LiftedIsMaximum` | pkg/runner/smartscan.go:351-365 | an initial priority is the larger of the rank priority and every stored correlation from a known-open port |
| `QueueSpec.AloneIsReciprocal` | pkg/runner/smartscan.go:351-356 | with no known-open port the priority of a ranked port times its rank is 1, and of an unranked one times 100000 plus its number |
| `QueueSpec.InitialRange` | pkg/runner/smartscan.go:351-365 | initial priorities lie in (0, 1] when the stored numbers are at most 1 |
| `QueueSpec.Boosted` | pkg/runner/smartscan.go:395-404 | a boost keeps the set of queued ports and lowers no priority |
| `QueueSpec.RunConserves` | pkg/runner/smartscan.go:104-114 | over any interleaving nothing is popped twice, popped and remaining ports are the initial ones, and the queue empties at exactly the pop numbered by its length |
| `QueueSpec.RunPriorities` | pkg/runner/smartscan.go:386-405 | at any moment of a run a waiting port has the larger of its initial priority and its correlations with every port found open so far |
| `QueueSpec.RunPopsBest` | pkg/runner/smartscan.go:373-381 | each pop of a run takes, of the ports then waiting, one of the highest priority, and among equals the lowest number |
| `PortQueue.PortQueue.Less` | pkg/runner/smartscan.go:313-318 | compares two positions by priority descending, then port number ascending |
| `PortQueue.PortQueue.Swap` | pkg/runner/smartscan.go:319-325 | exchanges two entries, keeps every heapIdx and the index consistent, and keeps an exact index exact |
| `PortQueue.PortQueue.Push` | pkg/runner/smartscan.go:326-331 | appends an item with its position in heapIdx and index, and leaves the other index entries alone |
| `PortQueue.PortQueue.Pop` | pkg/runner/smartscan.go:332-341 | removes the last item, marks it with heapIdx -1 and removes its number from the index |
| `PortQueue.PortQueue.HeapPush` | pkg/runner/smartscan.go:367 | adds one entry and restores heap order |
| `PortQueue.PortQueue.HeapPop` | pkg/runner/smartscan.go:379 | removes exactly the root and restores heap order |
| `PortQueue.PortQueue.HeapFix` | pkg/runner/smartscan.go:402 | restores heap order after one entry changed, as a permutation of the entries |
| `PortQueue.NewPortQueue` | pkg/runner/smartscan.go:343-371 | for every list the queue holds each input entry with its initial priority, as a heap; its index is exact if and only if the port numbers are distinct |
| `PortQueue.ListedAreInitial` | pkg/runner/smartscan.go:351-367 | every entry of a fresh queue is a listed port whose priority is the reciprocal of its place in the popularity order unless a known correlation above that is stored, and then the largest such |
| `PortQueue.MostPopularFirst` | pkg/runner/smartscan.go:351-367 | with no known-open port the best entry of a fresh queue has the smallest rank if any port is ranked, else the smallest number |
| `PortQueue.PortQueue.PopPort` | pkg/runner/smartscan.go:373-381 | none exactly when empty; otherwise the best entry leaves and everything else stays |
| `PortQueue.PortQueue.BoostCorrelated` | pkg/runner/smartscan.go:386-405 | whatever order the correlations are walked in, heap order holds and some entries, at most one of each number, are raised to their correlation and no other changes; with an exact index every queued port gets the larger of its priority and its correlation |
| `PortQueue.PortQueue.Promote` | pkg/runner/smartscan.go:395-404 | for every queue exactly the entry the index names is raised, or nothing without one; afterwards all entries of the number reach the correlation if and only if none but the indexed one was below it |
| `PortQueue.BoostMissesDuplicate` | pkg/runner/smartscan.go:395-404 | of two entries of one number below its correlation a boost leaves one below, whatever the order of the walk |
| `PortQueue.Interleave` | pkg/runner/smartscan.go:61-71 | any interleaving of pops and boosts conserves entries and, with an exact index, refines the plain map: same pops, same remaining priorities |
| `Schedule.ResumeCoverage` | pkg/runner/runner.go:598-708 | however often and wherever interrupted, a run that finishes has in every retry dispatched every explicit target, and every pair whose address is neither excluded nor found over the port threshold |
| `Schedule.VerdictsAreGrounded` | pkg/runner/runner.go:625-654 | in every run a pair is turned away as excluded if and only if its address is excluded, as skipped if and only if the same process has turned its address away at the threshold before, and otherwise as over the threshold only with a count that reaches it and dispatched only with one that does not |
| `Schedule.CoverageWithoutThreshold` | pkg/runner/runner.go:625-660 | without a port threshold a covered retry dispatched exactly the pairs of addresses that are not excluded |
| `Schedule.ExecKeepsInv` | pkg/runner/runner.go:604-664 | from any state with the invariant, every run keeps it: all retries before the saved one are decided, and all indices before the saved index under the saved seed |
| `Schedule.RestartKeepsInv` | pkg/runner/resume.go:32-37 | losing everything but (Retry, Seed, Index) keeps that invariant |
| `Schedule.ExcludedNeverDispatched` | pkg/runner/runner.go:625-654 | no run dispatches an excluded address, or one whose count read at that moment has reached the threshold |
| `Schedule.SkippedNeverDispatched` | pkg/runner/runner.go:644-652 | once an address is marked skipped no later step of that process dispatches it, at any index of any retry and whatever the workers record |
| `Schedule.OverThresholdEndsAddress` | pkg/runner/runner.go:644-652 | once a process has turned an address away at the threshold, every later entry of that process for the address says skipped, in any retry and whatever the workers record |
| `Schedule.SkippedHasReason` | pkg/runner/runner.go:644-652 | an address is skipped only if the same process has turned it away at the threshold |
| `Repetition.RepeatsBounded` | pkg/runner/runner.go:598-664 | over whole runs in which the process is killed only while a seed is saved, the logged dispatches exceed the different (retry, pair) combinations dispatched by at most the number of kills; likewise from any later moment without a saved seed |
| `Repetition.UninterruptedNeverRepeats` | pkg/runner/runner.go:598-664 | without a kill no pair is dispatched twice in one retry |
| `Repetition.DispatchesAreSent` | pkg/runner/runner.go:654-660 | the dispatches counted are exactly the dispatched entries of the log |
| `Repetition.KilledPicksUp` | pkg/runner/runner.go:598-616 | killed in any reachable state, the scan is after saved retry + 1 steps at the first index of the saved retry with the saved index to skip to, and walks the same shuffle if and only if a seed was saved |
| `Repetition.KilledBetweenRetriesRepeatsAll` | pkg/runner/runner.go:699-708 | a run of two pairs killed once, after its retry has forgotten the seed, dispatches each pair twice |
| `Enumeration.Runner.VisitIndex` | pkg/runner/runner.go:619-664 | one turn of the index loop, killed anywhere, is a sequence of machine steps from the state before it |
| `Enumeration.Runner.StartRetry` | pkg/runner/runner.go:604-616 | a retry keeps the saved seed or draws a new one, and saves retry and seed |
| `Enumeration.Runner.FinishRetry` | pkg/runner/runner.go:699-707 | a finished retry forgets seed and index |
| `Enumeration.Runner.RunEnumeration` | pkg/runner/runner.go:598-709 | a process, killed anywhere, is a sequence of machine steps; when it completes, every pair of every retry is covered by it and its interrupted predecessors, and every logged verdict is the outcome of its check |
| `Enumeration.ScanToTheEnd` | pkg/runner/resume.go:61-76 | any number of interrupted processes followed by a completed one covers every retry, with every logged verdict the outcome of its check, so that no excluded address is dispatched |
| `Probes.CellIsPicked` | pkg/runner/runner.go:620-629 | the probe of a shuffled number is the address and port its quotient and remainder pick |
| `Probes.HitsOnce` | pkg/runner/runner.go:831-841 | over disjoint blocks the numbers name every target address exactly once and no other address |
| `Probes.GridCount` | pkg/runner/runner.go:618-629 | splitting numbers by quotient and remainder covers the product of addresses and port entries |
| `Probes.PlainCoversProduct` | pkg/runner/runner.go:618-629 | one retry under any permutation considers the product space, with multiplicities |
| `Probes.UninterruptedRetry` | pkg/runner/runner.go:618-664 | a fresh, uninterrupted retry decides exactly the probes of its permutation, in that order |
| `Probes.UnthrottledRetry` | pkg/runner/runner.go:618-664 | without a port threshold such a retry dispatches exactly the probes whose address is not excluded |
| `Probes.ExplicitInOrder` | pkg/runner/runner.go:666-697 | without a kill the explicit targets are dispatched one by one, each once, in order |
| `Probes.KilledBetweenRetriesStartsOver` | pkg/runner/runner.go:604-629 | killed while no seed is saved, the scan considers every probe of the saved retry again, under a new shuffle |
| `Probes.SmartAgreesWithPlain` | pkg/runner/smartscan.go:104-114 | any order of the ports and any address permutations give the same bag of probes as the plain loop |
| `Probes.ExactlyOnce` | pkg/runner/smartscan.go:156-170 | over disjoint targets each target address meets each port entry exactly once, and nothing else is considered |
| `SmartScan.ScanSinglePort` | pkg/runner/smartscan.go:151-248 | fast path or not, one port meets the address of every permuted number, in order, and each is stopped by the first of the exclusion, skip, threshold, open-port and CDN checks that holds, save IPv6 targets on the fast path, which meet none |
| `SmartScan.ScanRetry` | pkg/runner/smartscan.go:92-114 | whatever boosts arrive, a retry considers the bag of probes of the plain loop, turns once per port entry, gives each port the next seed, and takes every probe through the checks |
| `SmartScan.FatesAreExact` | pkg/runner/smartscan.go:184-245 | each fate of a checked probe holds if and only if its check is the first to stop it: excluded, skipped before, count at a positive threshold, number already open, held for a CDN; sent if and only if none does |
| `SmartScan.RunPredictiveScan` | pkg/runner/smartscan.go:92-124 | over all retries each considers the bag of probes of a plain retry, with the skip list and the seeds carried over |
| `SmartScan.SmartDispatchSafety` | pkg/runner/smartscan.go:172-197 | an excluded or skipped address is probed if and only if it is an IPv6 target on the fast path |
| `SmartScan.UnthrottledSmartScan` | pkg/runner/smartscan.go:172-245 | without a threshold, and with nothing recorded or held back, the smart scan probes all but the excluded addresses, as the plain loop does, and the unchecked targets |
| `SmartScan.OverlappingOptionsMissBoost` | pkg/runner/smartscan.go:395-404 | with port 80 listed in a ports file and on the command line, a boost above its first priority leaves one of its two entries below the correlation |
| `Targets.PickIP` | pkg/runner/runner.go:831-852 | finds the block of a number by subtracting block sizes, and the offset in it |
| `Targets.PickedInTargets` | pkg/runner/runner.go:831-841 | a number below the total, and no other, picks an address, which lies in a target block |
| `Targets.PickedReaches` | pkg/runner/runner.go:831-841 | every address of every block has a number that picks it |
| `Targets.PickedIsInjective` | pkg/runner/runner.go:831-841 | over disjoint blocks different numbers pick different addresses |
| `Targets.PickedAt` | pkg/runner/runner.go:831-852 | numbers follow the blocks in order and the addresses of each block upwards from its base |
| `Targets.BlockIsPrefix` | pkg/runner/runner.go:843-852 | a target block is the set of addresses that share its leading bits |
| `Targets.BuildTargetIndex` | pkg/runner/fastsend.go:178-194 | the table has one entry per block, with its base as uint32, its size, and the total |
| `Targets.NoWrap` | pkg/runner/fastsend.go:212 | inside an aligned IPv4 block the uint32 addition never wraps |
| `Targets.PickIPv4` | pkg/runner/fastsend.go:205-223 | answers IPv4 exactly when the plain walk lands in an IPv4 block, and then with the bytes and the text of the same address |
| `Ipv4Text.FormatIPv4` | pkg/runner/fastsend.go:227-250 | prints the four decimals joined by dots, within 15 bytes |
| `Ipv4Text.ParseIPv4Fast` | pkg/runner/fastsend.go:130-156 | succeeds exactly on four dot-separated fields of digits, each at most 255, and yields their values |
| `Ipv4Text.PrintedReadsBack` | pkg/runner/fastsend.go:130-156 | parsing a printed address gives it back, for all addresses |
| `Ipv4Text.PrintingIsInjective` | pkg/runner/fastsend.go:227-250 | different addresses print differently |
| `Ipv4Text.RoundTrip` | pkg/runner/fastsend.go:227-250 | the printer and parser methods compose to the identity |
| `Ipv4Text.EmptyFieldsReadAsZero` | pkg/runner/fastsend.go:140-146 | the text of three dots reads as address zero |
| `SynSender.TwoFolds` | pkg/runner/fastsend.go:110-112 | below 2^20 the two folds and the 16-bit cut equal folding to the end |
| `SynSender.ComplementCloses` | pkg/runner/fastsend.go:112 | adding the complement of a folded positive sum folds to all ones |
| `SynSender.FastChecksum` | pkg/runner/fastsend.go:82-112 | the checksum derived from the base sum makes pseudo-header and all 24 bytes fold to 0xFFFF, and the running sum stays below 2^20 |
| `SynSender.SYNSender.constructor` | pkg/runner/fastsend.go:68-92 | builds the template and the base sum |
| `SynSender.SYNSender.Send` | pkg/runner/fastsend.go:97-118 | hands over one well-formed SYN with the next wrapping sequence number to the asked destination and a checksum its receiver accepts, leaving all earlier datagrams as they were |
| `SynSender.SendAll` | pkg/runner/fastsend.go:97-118 | after any sequence of sends every datagram handed over is such a SYN, in the order asked for |
| `SynSender.SegmentFields` | pkg/runner/fastsend.go:74-80 | a receiver reads every field back from its place: ports, sequence number, no acknowledgment, data offset 6 with SYN alone, window 1024, checksum, no urgent pointer, maximum segment size 1460 |
| `SynSender.ChecksumIsOverBytes` | pkg/runner/fastsend.go:82-92 | the check a receiver makes is on the bytes of the pseudo-header, with protocol 6 and the segment's length, followed by the whole segment |
| `Correlations.ScoreIsMaximum` | pkg/prediction/model.go:58-73 | a score is the largest stored probability over the open ports, and 0 when none is positive |
| `Correlations.PredictionDependsOnOpenSet` | pkg/prediction/model.go:49-90 | a prediction depends only on the set of open ports, not on order, repetition or map iteration |
| `Correlations.RankingAgreesWithPrediction` | pkg/prediction/model.go:166-199 | Prioritize and Predict give a non-open port the same score |
| `Correlations.RankingIsUnique` | pkg/prediction/model.go:171-199 | a ranking depends only on the candidates' multiplicities and the set of open ports |
| `Correlations.MergeIsPointwiseMaximum` | pkg/prediction/model.go:135-164 | on non-negative tables merging is the pointwise maximum |
| `Correlations.MergeNeverLowers` | pkg/prediction/model.go:158-162 | merging keeps every stored entry and never lowers it |
| `Correlations.MergeStores` | pkg/prediction/model.go:150-163 | merging stores what the first table stores and the positive entries of the second |
| `Correlations.MergeIsJoin` | pkg/prediction/model.go:135-164 | on positive tables merging is idempotent, commutative and associative |
| `Correlations.MergedScore` | pkg/prediction/model.go:58-73 | a port's score under the merged table is the larger of its two scores, for every open set and any signs |
| `Correlations.TrainedInRange` | pkg/prediction/model.go:124-131 | what training stores lies in (0, 1] and never divides by zero |
| `Correlations.ListingsVersusHosts` | pkg/prediction/model.go:101-106 | counting listings counts hosts exactly when no host lists the port twice |
| `Correlations.TrainedIsConditionalFrequency` | pkg/prediction/model.go:92-95 | the stored number is hosts with both over hosts with the given port if and only if no host lists the given port twice |
| `Correlations.DoubleListingHalves` | pkg/prediction/model.go:101-106 | one host listing port 80 twice halves the stored probability |
| `Prediction.Model.Set` | pkg/prediction/model.go:29-37 | changes one entry |
| `Prediction.Model.GetCorrelations` | pkg/prediction/model.go:203-216 | yields the row of a given port, or none |
| `Prediction.Model.Predict` | pkg/prediction/model.go:49-90 | returns exactly the non-open ports whose score is positive and reaches the threshold, strictly sorted, for every map order |
| `Prediction.Model.Prioritize` | pkg/prediction/model.go:171-199 | returns the candidates with their multiplicities and scores, sorted |
| `Prediction.Model.Train` | pkg/prediction/model.go:95-133 | stores for every pair some host has open exactly hosts-with-both over listings, for every map order, and touches nothing else |
| `Prediction.TrainKeepsProbabilities` | pkg/prediction/model.go:95-133 | training on any observations keeps every stored number in (0,1], so trained tables have the positive entries under which merging is a join |
| `Prediction.CountHosts` | pkg/prediction/model.go:96-119 | the two counters end up counting listings and hosts with both |
| `Prediction.Model.Merge` | pkg/prediction/model.go:139-164 | replaces the table by the merge of the two, also when both are the same model |
| `Results.Result.AddPort` | pkg/result/results.go:120-130 | records a port under its number, makes the address known, changes nothing else |
| `Results.Result.SetPorts` | pkg/result/results.go:133-145 | records a list of ports in order and makes the address known |
| `Results.WithPortsKeeps` | pkg/result/results.go:133-145 | setting ports keeps keys equal to numbers, touches one address, and keeps the last port of a number |
| `Results.WithPortsOpens` | pkg/result/results.go:141-143 | setting ports opens exactly the listed numbers besides those already open |
| `Results.Result.IPHasPort` | pkg/result/results.go:148-159 | true exactly when a port of that number, of any protocol, is recorded |
| `Results.Result.AddIp` | pkg/result/results.go:162-167 | makes an address known and changes nothing else |
| `Results.Result.AddSkipped` | pkg/result/results.go:235-240 | marks an address skipped and changes nothing else |
| `Results.Result.GetOpenPortNumbers` | pkg/result/results.go:193-208 | lists exactly the open numbers, without repetition |
| `Results.Result.GetHostCountForPort` | pkg/result/results.go:212-224 | counts the addresses at which the number is open |
| `Results.CountsAgree` | pkg/result/results.go:193-232 | summing host counts over open numbers equals summing port counts over addresses |
| `Results.Result.Totals` | pkg/result/results.go:193-232 | the query methods agree on that total |
| `Recording.ListenHandler.Deliver` | pkg/scan/scan_raw.go:640-659 | one handler's queues grow by exactly what phase, port and flags of the packet dictate; what waits in them stems from a SYN-ACK to its TCP port or a non-empty datagram to its UDP port |
| `Recording.TransportReaderCallback` | pkg/scan/scan_raw.go:639-660 | every handler sees every packet and keeps that provenance |
| `Recording.Scanner.Settle` | pkg/scan/scan.go:312-328 | an in-range packet is entered exactly where the phase reads say, as a discovered host in phase HostDiscovery, else as a result in phase Scan or when streaming, also when the phase changes between the two reads; nothing else changes in either store, known addresses and skip lists included |
| `Recording.Scanner.TCPResultWorkerTurn` | pkg/scan/scan.go:289-331 | takes one queued packet; both stores change by exactly that packet's addresses and port, and only if it is in range and in phase; every recorded port stays justified |
| `Recording.Scanner.UDPResultWorkerTurn` | pkg/scan/scan.go:334-367 | the same for the UDP queue |
| `Recording.Scanner.ICMPResultWorkerTurn` | pkg/scan/scan.go:269-286 | takes one queued packet and adds exactly its addresses to the discovered hosts, only in phase HostDiscovery; never a port |
| `Recording.HandleEvent` | pkg/scan/scan.go:269-367 | while scanning no event loses an in-range item from a queue without entering it in the results, and a packet read is queued; likewise for discovered hosts |
| `Recording.RecordAll` | pkg/scan/scan.go:211-225 | in every interleaving of packets, worker turns and phase changes each recorded port and each known address of the results is justified by a packet received before; a run never in phase Scan leaves the results alone unless it streams, one never in phase HostDiscovery the discovered hosts; and a run that scans (discovers) throughout has every in-range answer it received recorded (found) or still queued |
| `Recording.AnswerIsRecorded` | pkg/scan/scan_raw.go:654-657 | after such a run with drained queues each in-range source address of a SYN-ACK to the handler's port has the packet's source port open, and likewise for non-empty UDP datagrams |
| `Recording.AnswerIsFound` | pkg/scan/scan_raw.go:648-653 | after a run that discovers hosts throughout, with a drained queue, the source of every packet to the handler's port is a discovered host |
| `Recording.RecordedStemsFromPacket` | pkg/scan/scan_raw.go:654-657 | a recorded port is the source port of a received SYN-ACK to the handler's TCP port, or of a non-empty datagram to its UDP port, from that address |
| `Recording.RecordedAddressInRange` | pkg/scan/scan.go:295-301 | for packets with one source address the recorded address, alone or with its port, is in range |
| `Routing.FindRouteForIp` | pkg/routing/router.go:110-164 | the earliest match of maximal prefix length; else the first default of the family; an error exactly when neither exists |
| `Routing.ContainsIsBlock` | pkg/routing/router.go:139-141 | a network contains the addresses of the aligned block its base lies in, and no others |
| `Routing.HostIsMostSpecific` | pkg/routing/router.go:126-136 | a bare host address counts as /32 or /128, as specific as any matching network |
| `Routing.EqualLengthSameNetwork` | pkg/routing/router.go:126-149 | two matches of equal length denote the same network and match the same addresses |
| `Routing.OrderIrrelevant` | pkg/routing/router.go:115-154 | reordering the table cannot change whether a match is chosen nor its network |
| `Ports.SingleReadsBack` | pkg/runner/ports.go:179-186 | a written number reads back exactly when it is at most 65535, and is malformed otherwise |
| `Ports.RangeReadsBack` | pkg/runner/ports.go:155-178 | a written range reads back exactly when it runs upwards and ends at most at 65535 |
| `Ports.TwoDashesAreMalformed` | pkg/runner/ports.go:155-162 | a segment with more than one dash is malformed |
| `Ports.MissingBoundIsMalformed` | pkg/runner/ports.go:155-172 | a range with a bound missing, and so a negative number, is malformed |
| `Ports.BlankWritesNothing` | pkg/runner/ports.go:144-149 | a segment of blanks writes no port |
| `Ports.SegmentProtocol` | pkg/runner/ports.go:144-153 | the prefix u: selects UDP, its absence TCP, and blanks around a segment are ignored |
| `Ports.ParsePortsSlice` | pkg/runner/ports.go:140-202 | yields the first occurrences of the written ports, or an error exactly when a segment is malformed |
| `Ports.ParsedMeaning` | pkg/runner/ports.go:140-202 | a successful parse has distinct numbers from 0 to 65535, exactly the written ones, in first-occurrence order |
| `Ports.ParsePortsList` | pkg/runner/ports.go:204-206 | splitting on commas beforehand changes nothing |
| `Ports.SecondProtocolIsLost` | pkg/runner/ports.go:190-199 | of any number written for TCP and then for UDP both entries are read and only the first is returned |
| `Ports.ParsedKeepsAllIff` | pkg/runner/ports.go:140-202 | a successful parse returns every port written if and only if no number is written with two protocols |
| `Ports.SecondProtocolOf53` | pkg/runner/ports.go:190-199 | the list 53,u:53 yields the TCP port alone |
| `Ports.ExcludePorts` | pkg/runner/ports.go:112-138 | removes exactly the entries equal in number and protocol to an exclusion entry; errors exactly when the exclusion list is malformed |
| `Ports.WithoutMeaning` | pkg/runner/ports.go:125-136 | what remains is what was listed and not excluded, and distinct numbers stay distinct |
| `Ports.ParsePorts` | pkg/runner/ports.go:24-109 | yields the merged sources or the fallback list, and rewrites the options only from "-" to the full range |
| `Ports.TopListMeaning` | pkg/runner/ports.go:41-78 | full, 100 and 1000, in any case, name the full range and the two built-in lists, and nothing else is a name |
| `Ports.ChosenContents` | pkg/runner/ports.go:24-109 | the ports returned are exactly those the file, the command line or the named list writes and the exclusion list does not; the top 100 take over only when there are none |
| `Ports.ChosenFails` | pkg/runner/ports.go:24-109 | parsing fails exactly when a source that is needed, or the exclusion list applied to it, is malformed, or no list has the name |
| `Ports.ChosenRespectsExclusion` | pkg/runner/ports.go:92-108 | on every path, the fallback included, no port returned matches an exclusion entry |
| `Ports.ChosenDistinctIff` | pkg/runner/ports.go:92-108 | the ports returned have distinct numbers if and only if no two of the file, command line and top-port sources share one after exclusion |
| `Ports.OverlappingOptionsRepeat` | pkg/runner/ports.go:208-214 | port 80 in a ports file and on the command line is returned twice |
| `Ports.BuildPopularityRank` | pkg/runner/smartscan.go:413-439 | a number's rank is the position of its last listing, counted from 1 |
| `Ports.NumberRanksItself` | pkg/runner/smartscan.go:428-436 | a written number ranks itself |
| `Ports.RangeRanksUpwards` | pkg/runner/smartscan.go:418-428 | a written range ranks its numbers upwards |
| `Ports.RankOrderConcat` | pkg/runner/smartscan.go:413-439 | segments rank in the order they are written |
| `Ports.RankIsPosition` | pkg/runner/smartscan.go:413-439 | in a list without repetitions the rank is the position |
| `Upload.UploadConserves` | internal/pdcp/writer.go:134-191 | uploaded chunks followed by the buffer are the accepted lines in order, the buffer exceeds the limit by at most one byte, and the counter is accepted plus dropped lines, wrapping at 32 bits |
| `Upload.FinalFlush` | internal/pdcp/writer.go:136-159 | the loop flushes before it returns: if that upload succeeds all accepted lines are uploaded and nothing waits, and text is held back only if it failed |
| `Upload.TickFlushes` | internal/pdcp/writer.go:144-150 | a tick whose upload succeeds leaves nothing waiting; one whose upload fails changes nothing |
| `Upload.LineOutcome` | internal/pdcp/writer.go:168-176 | a line is accepted if and only if it fits on the buffer within the limit; otherwise it is dropped and the buffer flushed |
| `Upload.CounterIsExact` | internal/pdcp/writer.go:166 | below 2^31 lines the counter is the number of lines offered |
| `Upload.NothingLostIffAllFit` | internal/pdcp/writer.go:168-176 | the accepted lines are all lines offered if and only if every line fitted on the buffer it met |
| `Upload.OverlongIsNeverAccepted` | internal/pdcp/writer.go:168-176 | a line longer than the limit is dropped in every run that is offered it |
| `Upload.SecondLineIsLost` | internal/pdcp/writer.go:160-179 | two lines that fit singly but not together: the second is counted and never uploaded |
| `Upload.UploadWriter.UploadChunk` | internal/pdcp/writer.go:182-191 | empties the buffer exactly when the upload succeeds |
| `Upload.UploadWriter.AutoCommit` | internal/pdcp/writer.go:118-179 | the event loop does what the conserved run does, up to the event that stops it, and if the upload at that event succeeds it leaves nothing in the buffer |

## Left out

- Sockets, packet capture and decoding, ARP, ICMP and NDP sending, raw sending and rate limiting: input and output.
- The shuffle, CIDR coalescing, IP ranger, network policy and CDN check: external code, taken as parameters.
- DNS resolution, target loading, nmap integration, MAC lookup and reading the system's routing tables: external commands.
- The filters inside the plain loop's sending path (CDN, already recorded port): the model follows a pair up to the decision the loop itself makes.
- Explicit ip:port targets bypass the filters of the range loop: they are logged as dispatched, without a verdict.
- The callback a worker makes on each open port, inside the recording state machine; its effect on the smart scan, the priority boost, is modelled in `PortQueue` and `SmartScan`.
- Cancellation inside a smart-scan retry and the connect scan's own result recording.
- Banner grabbing, vulnerability signatures, terminal and file output, option validation and cloud credentials: flat code without deep invariants.
- Floating-point rounding, sleeping and timeouts.
- IPv4-mapped IPv6 networks in route tables and target lists, and the textual form of IPv6 addresses.
- The contents of the built-in top-100 and top-1000 port lists: parameters of the port parser.
- Non-ASCII white space and letters beyond Latin-1 in port lists.
- Pointer identity of shared port records: a port is a value, and TLS, banner and service details are omitted.
- Upload.UploadConserves: does not model a server that keeps part of a failed upload, because the upload is an oracle that succeeds or fails.
