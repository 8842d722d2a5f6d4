# Accelerator fabric scheduler: a verified model

The system schedules pods onto nodes whose accelerators are joined by PCIe, NVLink, HCCS or
XGMI links. Node agents discover each node's topology and publish it as an API object. A
controller validates the object and refreshes its heartbeat. A scheduler plugin caches
validated snapshots, filters and scores nodes, chooses concrete devices and reserves them in
a ledger. A DRA driver on the node prepares the allocated devices, and survives crashes by
means of a state file.

This project models that core in Dafny and proves what it promises:

- **Snapshots.** `Topology`, `SnapshotProperties`: acceptance of a spec, canonical form,
  indexes, symmetric adjacency.
- **Selection and scoring.** `Cliques`, `Connectivity`, `SearchOrder`, `Groups`, `Selection`,
  `NumaSelection`, `RootSelection`, `Scoring`, `ScoreProperties`: the searches are exact, which
  set they return is determined, best-fit is best, scores need no clamp.
- **Reservation protocol.** `Cache`, `Ledger`, `Scheduling`, `SchedulingRuns`,
  `FilterProperties`: safety over every interleaving of scheduling cycles with topology
  deliveries, and what Filter and Reserve answer.
- **DRA driver.** `Driver`, `DriverRuns`, `ClaimIdentity`: ownership and all-or-nothing
  behaviour over every run with failing file operations, crashes and restarts.
- **Discovery.** `CliqueDiscovery`, `NvidiaTopology`: naming of complete NVLink components, and
  what a discovered topology means to `Build` and to fabric policies.
- **Policy to DRA.** `Translation`, `TranslationProperties`, `ParallelLinks`: published attributes
  and generated selectors against the scheduler's own tests.
- **API object.** `Protocol`, `ProtocolRuns`: agents, the controller and other clients under
  optimistic concurrency.

`Orders`, `GoIntegers`, `Decimals` and `Paths` hold shared vocabulary: Go's string order,
`sort.Slice` as any sorted permutation, fixed-width integers, decimal texts, graph paths.
`Api` holds the API types.

Code that loops or updates state is a method, in a class where the source has an object with
fields, and is proved against a specification function or relation. Runs are sequences of
steps of those specifications.

Time, the contents of API reads, the fate of each API request and file operation, the order in
which a map is iterated, the error texts of `Build` and the selector passed to the ledger are
parameters or non-deterministic choices. Bandwidths are real numbers. Go's `int32` and `int64`
wrap-around is written out where a caller can observe it: percentages, the sum of weights, and
the observed generation.

Some properties that one would expect do not hold of the code. Each is stated with the exact
condition under which it holds; the members named show the failing inputs too:

| expected | holds exactly when | members |
|---|---|---|
| same-root selections are on one PCIe root | the label `~unknown` does not mix roots | `SelectionsShareRoot`, `OneRootUnlessBoth`, `ReservedRootCounterexample` |
| same-root selection agrees with the reported maximum | the label `~unknown` is harmless | `RootSelectionMatchesMaximum`, `ReservedRootCounterexample` |
| accepted weights add up to 100 | each weight is at most 100 | `WeightsDecideTheClamp`, `WrappedWeightsAccepted` |
| the state file written by prepare can be loaded | the claim names no device twice | `RestartableIffNoRepeat`, `EveryRunLoadable`, `RepeatedDeviceAccepted` |
| the container sees the allocated device IDs | no ID contains a comma | `SplitInvertsJoin`, `IdentityPreserved` |
| an allocation of the fabric-clique template is a clique | `LinkBetween` reports a healthy fabric link for each pair | `AllocationIsCliqueWhenLinked`, `PcieLinkHidesFabricLink`, `AllocationNeedNotBeClique` |
| an unchanged topology keeps its observed generation | the provider reports some link or a nil list | `UnchangedTopologyKeepsNumber`, `SingleGpuLooksChanged` |
| a change of content raises the observed generation | it is not the largest `int64` | `NextGenerationGrows` |

Where code and documentation disagree the model follows the code. Decision record
`docs/adr/0009-node-local-topology-discovery.md` (line 16) says that the observed generation
grows only when content changes. `specContentEqual` compares with `reflect.DeepEqual`, so an
empty link list that is not nil counts as a change on every pass; the NVIDIA provider reports
such a list for a host with one GPU.

## Model

| member | source | states |
|---|---|---|
| `Topology.Build` | pkg/topology/snapshot.go:26-99 | Succeeds exactly on acceptable specs, an order-free condition on devices and links; the snapshot holds the sorted devices, the canonical sorted links, exact indexes and the adjacency of the last link per pair; each rejection is true of the spec. |
| `Topology.IndexDevices` | pkg/topology/snapshot.go:51-71 | The device loop accepts only valid, distinct devices and leaves every index listing exactly the matching positions; an error names a real fault. |
| `Topology.ConnectDevices` | pkg/topology/snapshot.go:73-96 | The link loop accepts only valid links with distinct keys, turns each into canonical direction, and fills both adjacency entries with the last link that joins the pair. |
| `SnapshotProperties.BuildIsCanonical` | pkg/topology/snapshot.go:26-99 | Permuting devices or links, or reversing any links, gives the same snapshot, or a rejection in both cases. |
| `SnapshotProperties.IndexesAreScans` | pkg/topology/snapshot.go:121-135 | The NUMA, unknown-NUMA, PCIe-root and fabric-group accessors equal linear scans of the devices, for every key. |
| `SnapshotProperties.NumaIndexesPartition` | pkg/topology/snapshot.go:60-64 | Each device is filed under its own NUMA node or as unknown, and nowhere else. |
| `SnapshotProperties.LinkBetweenSymmetric` | pkg/topology/snapshot.go:137-144 | `LinkBetween` is symmetric up to the direction in which the link is written. |
| `SnapshotProperties.LinkBetweenGreatest` | pkg/topology/snapshot.go:137-144 | It finds a link exactly when the spec has one between the devices, and then the one whose type name is greatest. |
| `SnapshotProperties.BuiltDevices` | pkg/topology/snapshot.go:37-71 | Devices of every built snapshot are valid and strictly increasing by ID. |
| `SnapshotProperties.ValidationByField` | pkg/topology/snapshot.go:154-202 | Which fields make a device or a link acceptable, and nothing else. |
| `SnapshotProperties.BuiltDeviceFields` | pkg/topology/snapshot.go:154-177 | Every device of a built snapshot has an ID, a product, a prefixed resource name, a known vendor and health, and no negative memory or NUMA node. |
| `SnapshotProperties.BuiltLinkFields` | pkg/topology/snapshot.go:179-202 | Every link of a built snapshot runs from a smaller to a greater listed ID, with known type and health and no negative bandwidth or hops. |
| `Cliques.SelectFabricClique` | pkg/plugin/topologyfit/selection.go:85-119 | Returns the first clique of the reference search that never gives up early. |
| `Cliques.Search` | pkg/plugin/topologyfit/selection.go:92-117 | The recursive closure with its early exit returns the same as the reference search from any chosen prefix. |
| `Cliques.CliqueSearchExact` | pkg/plugin/topologyfit/selection.go:85-119 | A result is k distinct listed devices, pairwise linked; there is none exactly when no such set exists; every such set in device order is the result or lexicographically after it. |
| `Connectivity.SelectFabricConnected` | pkg/plugin/topologyfit/selection.go:121-157 | The queue, selected list and visited map compute the reference breadth-first search from each start in turn, and the loops terminate. |
| `Connectivity.ConnectedSearchExact` | pkg/plugin/topologyfit/selection.go:121-157 | A result is k distinct listed devices each of whose prefixes is connected; there is none exactly when every component has fewer than k devices. |
| `Connectivity.ConnectedSearchFindsSets` | pkg/plugin/topologyfit/selection.go:121-157 | It succeeds exactly when some connected set holds at least k of the devices. |
| `SearchOrder.SearchIsBreadthFirst` | pkg/plugin/topologyfit/selection.go:121-157 | A result starts at the first listed device whose component holds at least k devices, and each next device is, of all devices not yet listed, the smallest ID linked to the earliest possible listed one. |
| `SearchOrder.OrderDetermines` | pkg/plugin/topologyfit/selection.go:121-157 | That order and the first device determine the whole list. |
| `SearchOrder.NearestFirst` | pkg/plugin/topologyfit/selection.go:121-157 | No device of the list is farther from the first one, in links, than a listed device that comes later or is left out. |
| `SearchOrder.SiblingsInIdOrder` | pkg/plugin/topologyfit/selection.go:139-149 | Devices stand in the order of the devices they are first met from, and those met from one device in ID order. |
| `Groups.SelectDeviceGroup` | pkg/plugin/topologyfit/selection.go:54-83 | The grouping, sorting and picking yield the best-fit selection, for any map iteration order. |
| `Groups.GroupSelectionBestFit` | pkg/plugin/topologyfit/selection.go:54-83 | The selection is the first k devices of the smallest group with at least k members, ties broken by key; such a best-fit group exists whenever the selection is not empty, and it is empty exactly when no group is large enough. |
| `Groups.MaxNumaGroup` | pkg/plugin/topologyfit/evaluate.go:122-142 | Returns the size of the largest NUMA group, unknown nodes being a group only when allowed. |
| `Groups.MaxStringGroup` | pkg/plugin/topologyfit/evaluate.go:144-162 | Returns the size of the largest group by a string key, the empty key counting only when allowed. |
| `Groups.NumaSelectionMatchesMaximum` | pkg/plugin/topologyfit/selection.go:23-29 | Single-NUMA selection succeeds exactly for requests up to the maximum that scoring reports. |
| `NumaSelection.LowestNodeWins` | pkg/plugin/topologyfit/selection.go:23-29 | Single-NUMA selection takes the first k devices of the node with the smallest sufficient group, the lowest node number among equals. |
| `NumaSelection.UnknownNodesLast` | pkg/plugin/topologyfit/selection.go:23-29 | Devices of unknown node are taken when they are allowed and every sufficient known node is strictly larger. |
| `Groups.RootSelectionMatchesMaximum` | pkg/plugin/topologyfit/selection.go:30-36 | Same-root selection agrees with the reported maximum for every request if and only if no device carries the reserved label harmfully. |
| `Groups.ReservedRootCounterexample` | pkg/plugin/topologyfit/selection.go:30-36 | A device without a root and a device whose root is `~unknown` are selected together although the maximum is 1. |
| `Selection.SelectDeviceIds` | pkg/plugin/topologyfit/selection.go:11-44 | The dispatch over modes and the guard on the request compute the specified selection. |
| `Selection.SelectionSound` | pkg/plugin/topologyfit/selection.go:11-44 | A selection has the requested size, no repetition, only offered devices, and meets the policy's mode on the snapshot: one NUMA node, one PCIe root or only unknown roots when those are allowed, a clique, or a connected set. |
| `Selection.EdgesAreQualifyingLinks` | pkg/plugin/topologyfit/evaluate.go:164-173 | Two devices are an edge of the fabric exactly if the link of greatest type between them is a fabric link, healthy or of allowed unknown health, within the bandwidth and hop limits. |
| `Selection.SelectionComplete` | pkg/plugin/topologyfit/selection.go:11-44 | In every mode a positive request is served exactly if some set of that many offered devices meets the mode. |
| `Selection.SmallestIdsChosen` | pkg/plugin/topologyfit/selection.go:46-83 | Best-effort and group selections take the smallest IDs: a chosen device precedes every offered one, or every one of its group, that is left out. |
| `Selection.OneNumaNode` | pkg/plugin/topologyfit/selection.go:23-29 | Sharing a group label means being on one NUMA node, or all on unknown nodes when that is allowed. |
| `Selection.OneRootLabel` | pkg/plugin/topologyfit/selection.go:30-36 | Sharing a root label means being on one PCIe root, or, when unknown roots are allowed, having only roots that are empty or `~unknown`. |
| `Selection.OneRootUnlessBoth` | pkg/plugin/topologyfit/selection.go:30-36 | A choice that meets same-root mode is on one root exactly when it does not hold both a device without a root and a device on root `~unknown`. |
| `RootSelection.SelectionsShareRoot` | pkg/plugin/topologyfit/selection.go:30-83 | For every request the same-root selection is on one root, if and only if unknown roots are not allowed, one kind of unknown root is absent, or a group of the same size with a smaller name is preferred to the mixed one. |
| `Selection.FeasibilityMonotone` | pkg/plugin/topologyfit/selection.go:11-44 | In every mode a smaller request over no fewer devices stays feasible. |
| `Selection.ModesWeaken` | pkg/plugin/topologyfit/selection.go:20-43 | A feasible clique request is feasible as a connected one, and that as a best-effort one. |
| `Scoring.PercentageUnclamped` | pkg/plugin/topologyfit/evaluate.go:212-221 | Up to its denominator a percentage is at most 100 even when the int64 product wraps, and is the exact quotient when it does not. |
| `Scoring.EdgesBounded` | pkg/plugin/topologyfit/evaluate.go:194-203 | Qualified edges never exceed n(n-1)/2, and reach it exactly when every pair qualifies. |
| `Scoring.CountEdges` | pkg/plugin/topologyfit/evaluate.go:194-203 | The nested loops count the unordered pairs with a qualifying link. |
| `Scoring.ScoreFeatures` | pkg/plugin/topologyfit/evaluate.go:182-210 | The four features are the percentages of the largest locality group, qualified edges, request size and remaining headroom. |
| `Scoring.FeaturesDetermined` | pkg/plugin/topologyfit/evaluate.go:182-210 | The inputs determine all four features, so a node has one score. |
| `Scoring.Score` | pkg/plugin/topologyfit/evaluate.go:182-235 | The score is the clamped weighted mean of the four features. |
| `ScoreProperties.EachWeightItsFeature` | pkg/plugin/topologyfit/evaluate.go:223-235 | Raising one feature by hundreds raises the score by that many times the weight of this feature, and no features score 0. |
| `ScoreProperties.SoleWeight` | pkg/plugin/topologyfit/evaluate.go:223-235 | With the whole weight on one feature the score is that feature. |
| `ScoreProperties.FeatureExtremes` | pkg/plugin/topologyfit/evaluate.go:182-221 | Locality is 100 exactly if all offered devices share a NUMA node or PCIe root, fragmentation exactly if the request takes all of them; headroom is 0 if it takes the last capacity, and never 100. |
| `Scoring.ScoreNeedsNoUpperClamp` | pkg/plugin/topologyfit/evaluate.go:182-235 | For a fitting request and weights that add up to 100, the four features are the bare quotients of the largest locality group, qualified edges, request and headroom, and the raw score is at most 100; without int64 overflow the features lie in 0..100 and the lower clamp is idle too. |
| `Scoring.FullFabricScore` | pkg/plugin/topologyfit/evaluate.go:194-203 | With two or more devices the fabric feature is 100 exactly when all pairs qualify, and then every clique request up to that number of devices is feasible. |
| `Scoring.ValidatePolicy` | pkg/plugin/topologyfit/plugin.go:357-398 | Accepts exactly the policies that meet the stated conditions, the weight sum being an int32. |
| `Scoring.PolicyRefusals` | pkg/plugin/topologyfit/plugin.go:357-398 | A policy is refused for exactly the listed reasons. |
| `Scoring.WeightsDecideTheClamp` | pkg/plugin/topologyfit/plugin.go:357-398 | For accepted weights, adding up to 100, being at most 100 each, and never scoring above 100 are equivalent. |
| `Scoring.WrappedWeightsAccepted` | pkg/plugin/topologyfit/plugin.go:357-398 | A policy whose weights pass the int32 test without adding up to 100, and a raw score above 100. |
| `Cache.Store.Upsert` | pkg/topology/cache/store.go:56-95 | Stores the snapshot unless the object is nil, unbuildable or older than the cached generation pair; each result says exactly which, and refusals change nothing. |
| `Cache.Store.Delete` | pkg/topology/cache/store.go:97-108 | Removes exactly the node's entry. |
| `Cache.Store.Get` | pkg/topology/cache/store.go:110-124 | Serves the entry, Missing without one, Stale when a Ready entry's heartbeat is absent or too old. |
| `Cache.DeliveryServed` | pkg/topology/cache/store.go:56-124 | An object that is not older than the cached one is served from then on with its own snapshot and versions, as Ready exactly if its condition is true for its generation and its heartbeat is present and young. |
| `Cache.GoneIsMissing` | pkg/topology/cache/store.go:97-124 | After a deletion the node is reported missing and all others are served as before. |
| `Cache.ServedVersionsNeverDecrease` | pkg/topology/cache/store.go:83-94 | Whatever the delivery order, the generation pair served for a node never decreases until the node is deleted. |
| `Ledger.CheckSelection` | pkg/plugin/topologyfit/ledger.go:58-70 | Finds no fault exactly when the IDs are non-empty, distinct and unowned; a fault is a real one. |
| `Ledger.ReservationLedger.Reserve` | pkg/plugin/topologyfit/ledger.go:30-81 | New state and success are determined by the old state and the selector's answer on the blocked devices; each refusal is justified. |
| `Ledger.ReservationLedger.Release` | pkg/plugin/topologyfit/ledger.go:83-97 | Removes the reservation, its owners and an emptied node map. |
| `Ledger.ReservationLedger.ReservedDeviceIds` | pkg/plugin/topologyfit/ledger.go:106-116 | Returns exactly the devices of the node owned by other pods. |
| `Ledger.NotShared` | pkg/plugin/topologyfit/ledger.go:17-21 | In a consistent ledger two pods never hold the same device of a node. |
| `Ledger.ReserveKeepsConsistent` | pkg/plugin/topologyfit/ledger.go:30-81 | Reserve keeps the two maps mutual inverses, and a refusal changes nothing. |
| `Ledger.ReleasedConsistent` | pkg/plugin/topologyfit/ledger.go:83-97 | Release keeps the two maps mutual inverses without empty inner maps. |
| `Ledger.ReleaseUndoesReserve` | pkg/plugin/topologyfit/ledger.go:30-97 | Release restores the exact ledger from before a Reserve that created the reservation. |
| `Ledger.NothingHeldAfterRelease` | pkg/plugin/topologyfit/ledger.go:83-97 | After Release the pod holds nothing on any node. |
| `Scheduling.EligibleDevices` | pkg/plugin/topologyfit/evaluate.go:82-110 | Keeps, in order, exactly the devices that match resource, health, vendor, product and memory. |
| `Scheduling.ExcludeReservedDevices` | pkg/plugin/topologyfit/evaluate.go:69-80 | Keeps, in order, exactly the devices that are not reserved. |
| `SchedulingRuns.AvailableExact` | pkg/plugin/topologyfit/evaluate.go:69-110 | Exactly the devices of the snapshot are offered that have the requested resource name, an admitted vendor, product and memory, good or tolerated health, and are not blocked. |
| `SchedulingRuns.ResourcesApart` | pkg/plugin/topologyfit/evaluate.go:82-110 | Requests for different resources are never offered a common device. |
| `Scheduling.Plugin.Evaluate` | pkg/plugin/topologyfit/evaluate.go:35-67 | Feasible exactly when the node exists and offers, on a Ready snapshot, enough devices, scalar capacity and a selection, or the policy tolerates unavailable topology; the score is that of the offered devices. |
| `Scheduling.Plugin.Commit` | pkg/plugin/topologyfit/plugin.go:257-263 | Chooses among the devices not blocked in the ledger of the moment and reserves them; status and new ledger are functions of that ledger, the request and the snapshot looked up. |
| `Scheduling.Plugin.Reserve` | pkg/plugin/topologyfit/plugin.go:237-266 | Without interference, status and new ledger are functions of the old ledger, the cache, the request and the time. |
| `Scheduling.Plugin.Unreserve` | pkg/plugin/topologyfit/plugin.go:268-283 | Releases the pod of an active cycle, and changes nothing otherwise. |
| `Scheduling.Plugin.PreBind` | pkg/plugin/topologyfit/plugin.go:289-313 | Without interference, status is a function of ledger, cache, request and time; nothing changes. |
| `Scheduling.Plugin.PostBind` | pkg/plugin/topologyfit/plugin.go:315-330 | Releases the pod of an active cycle, and changes nothing otherwise. |
| `SchedulingRuns.EveryRunIsSafe` | pkg/plugin/topologyfit/plugin.go:237-330 | Over every interleaving of cycles with topology updates and deletions, also between the lookup and the commit of a Reserve: the maps stay inverse, a device is held once, and each reservation consists of as many devices as requested, each of the requested resource and suiting the policy field by field, that meet the mode on a snapshot looked up for the node. |
| `SchedulingRuns.HeldUntilReleased` | pkg/plugin/topologyfit/ledger.go:30-97 | A reservation stays as it is until its own pod releases it, whatever else happens. |
| `SchedulingRuns.ReserveIsLookupThenCommit` | pkg/plugin/topologyfit/plugin.go:237-266 | Without interference, lookup followed by commit is Reserve as the plugin computes it. |
| `SchedulingRuns.ReserveGuaranteesPreBind` | pkg/plugin/topologyfit/plugin.go:237-313 | A pod whose commit succeeded passes PreBind on that node at any later point of any run that does not release it, whatever the cache then says, and still holds exactly what was committed, justified by the snapshot of the reservation. |
| `SchedulingRuns.PreBindMeansHeld` | pkg/plugin/topologyfit/plugin.go:289-313 | In every run, with any steps between PreBind's two reads: a pod that passes holds on the node devices that are its own and met its request, or owns no device anywhere while its policy tolerates the unavailable topology; a pod that fails owns nothing on the node. |
| `SchedulingRuns.NothingHeldAfterCycle` | pkg/plugin/topologyfit/plugin.go:268-330 | After Unreserve or PostBind, wherever in a run, the pod holds nothing. |
| `SchedulingRuns.ChoiceIsGrantable` | pkg/plugin/topologyfit/ledger.go:58-70 | For built snapshots the ledger's complaints about empty, repeated or owned IDs are unreachable. |
| `SchedulingRuns.FilterIsAPromise` | pkg/plugin/topologyfit/evaluate.go:35-67 | If Filter finds a Ready node feasible and ledger and snapshot are unchanged, Reserve succeeds there unless the pod is reserved elsewhere. |
| `FilterProperties.UnavailableTopology` | pkg/plugin/topologyfit/evaluate.go:44-48 | While the cache does not report Ready, a pod passes Filter and Reserve exactly if its policy tolerates missing topology, and nothing is reserved. |
| `FilterProperties.FailClosedNeedsReady` | pkg/plugin/topologyfit/plugin.go:249-255 | Under FailClosed whatever passes Filter or Reserve was judged on a Ready snapshot of that node. |
| `FilterProperties.FeasibleHasCapacity` | pkg/plugin/topologyfit/evaluate.go:112-120 | A feasible node has room for the request beside what is requested already. |
| `FilterProperties.FeasibleExactly` | pkg/plugin/topologyfit/evaluate.go:51-65 | A node is feasible exactly if the request is positive, it has room, and some set of suitable free devices of that size meets the mode. |
| `FilterProperties.BlockedMeansHeld` | pkg/plugin/topologyfit/ledger.go:106-116 | Filter leaves out exactly the devices that some other pod holds on the node, and Reserve those that any pod holds. |
| `FilterProperties.DiscoveredDevicesSuit` | pkg/discovery/nvidia.go:61-90 | Which requests a discovered GPU suits; none whose policy can be compiled to a DRA template. |
| `SchedulingRuns.FeasibleScoreUnclamped` | pkg/plugin/topologyfit/evaluate.go:35-67 | The score of a feasible Ready node is made of the bare features of the devices it offers, with a raw score of at most 100; without int64 overflow it is exactly their weighted mean. |
| `Driver.FileSystem.AtomicWrite` | pkg/dra/driver.go:353-363 | Readers see the old content or the new and nothing else, whether the write succeeds, fails or is cut short. |
| `Driver.ReadAllocation` | pkg/dra/driver.go:135-169 | Yields the driver's own results, sorted, all in this node's pool and not empty; each refusal is true of the claim. |
| `Driver.DraDriver.Persist` | pkg/dra/driver.go:276-289 | The state file becomes what is prepared, or stays as it was. |
| `Driver.DraDriver.WriteCdi` | pkg/dra/driver.go:291-315 | The claim's CDI file carries the claim's devices afterwards, or stays as it was. |
| `Driver.DraDriver.PrepareClaim` | pkg/dra/driver.go:135-213 | Every outcome fixes memory and files: prepared, refused with memory and state file as before, or cut short in one of two states; refusals are explained; without a file fault it never halts. |
| `Driver.DraDriver.UnprepareClaim` | pkg/dra/driver.go:215-240 | Every outcome fixes memory and files, including the restore when persisting fails; without a file fault it succeeds. |
| `Driver.TakeOwnership` | pkg/dra/driver.go:261-267 | Succeeds exactly when no device of the claim repeats or has an owner, and then adds exactly those owners. |
| `Driver.Load` | pkg/dra/driver.go:242-274 | Loading yields exactly the saved claims with inverse ownership and rewritten CDI files, or a rejection that is true of the state file; only CDI files change. |
| `DriverRuns.EveryRunKeepsOwnership` | pkg/dra/driver.go:135-289 | Over every run with faults, crashes and restarts, whatever the claims name: no pool and device has two claims, memory equals the state file, owners is the exact inverse, and CDI files present are accurate. |
| `DriverRuns.EveryRunLoadable` | pkg/dra/driver.go:242-274 | At every point of every run some start from the files succeeds, and only file faults can fail one, if and only if no saved claim names a device twice. |
| `DriverRuns.OperationsAreAtomic` | pkg/dra/driver.go:135-240 | Prepare and Unprepare leave the state file as it was or as intended, where only a claim that is not yet prepared can be added; a live driver agrees with the file. |
| `DriverRuns.FailureChangesNothing` | pkg/dra/driver.go:135-240 | A refused prepare or failed unprepare leaves memory and the saved claims as they were. |
| `DriverRuns.PrepareAccomplishes` | pkg/dra/driver.go:135-213 | After a successful prepare the claim is in memory and in the state file, owns its devices, has its CDI file, and no other claim has changed. |
| `DriverRuns.UnprepareAccomplishes` | pkg/dra/driver.go:215-240 | After a successful unprepare nothing of the claim is left in memory, ownership or files, and every other claim keeps all it had. |
| `DriverRuns.StartsKeepState` | pkg/dra/driver.go:242-274 | No number of failed or interrupted starts changes the saved claims. |
| `DriverRuns.AcknowledgedIsDurable` | pkg/dra/driver.go:135-289 | Whatever a running driver holds is exactly what the first successful start after any kills and failed starts brings back. |
| `DriverRuns.RecoveryIsBeforeOrAfter` | pkg/dra/driver.go:135-274 | After an interrupted operation and any failed restarts, the first successful one brings back exactly the memory before or exactly the intended one, with CDI files written; after an operation that returned, exactly the memory it returned with. |
| `DriverRuns.StartNeedsOnlyFiles` | pkg/dra/driver.go:242-274 | With a state file that a run can leave behind and no claim that repeats a device, a start fails only because a file operation failed or crashed. |
| `DriverRuns.RestartableIffNoRepeat` | pkg/dra/driver.go:135-274 | If no claim prepared before repeats a device, then from the files that a successful prepare of a new claim leaves some start succeeds, and only file faults can fail one, if and only if the new claim names no device twice. |
| `DriverRuns.RepeatedDeviceAccepted` | pkg/dra/driver.go:135-213 | A claim with one device under two requests is prepared successfully. |
| `ClaimIdentity.SplitInvertsJoin` | cmd/synthetic-dra-workload/main.go:22 | Splitting the joined ID list gives it back exactly when no ID contains a comma. |
| `ClaimIdentity.IdentityPreserved` | pkg/dra/driver.go:135-213 | Allocation results, kubelet response and, exactly when no ID contains a comma, the container's environment carry the same sorted ID list. |
| `ClaimIdentity.ResponseNamesCdiDevice` | pkg/dra/driver.go:189-213 | In every run, also after restarts, the response names one CDI device, on its first entry: exactly the one that the claim's CDI file defines, whose environment carries the claim's UID. |
| `ClaimIdentity.ResponseMatchesAllocation` | pkg/dra/driver.go:317-335 | Every entry of the response reports request, pool, device and share of a result of the claim for this driver and node. |
| `ClaimIdentity.EveryResultAnswered` | pkg/dra/driver.go:142-161 | Every result for this driver is reported, and there are no more entries than results. |
| `ClaimIdentity.PreparingAgainIsIdempotent` | pkg/dra/driver.go:173-181 | Preparing the same allocation again, listed in any order, answers with the same devices and changes no ownership. |
| `CliqueDiscovery.GrowComponent` | pkg/discovery/nvidia.go:154-163 | The growing list ends as exactly the connected component of its start. |
| `CliqueDiscovery.IsComplete` | pkg/discovery/nvidia.go:164-169 | True exactly for components of two or more devices whose pairs are all linked. |
| `CliqueDiscovery.CompleteNVLinkGroups` | pkg/discovery/nvidia.go:146-179 | Two devices share a non-empty name exactly when they lie in one component that is a complete graph; all other devices have the empty name. |
| `NvidiaTopology.ParseTopology` | pkg/discovery/nvidia.go:107-144 | Succeeds exactly on readable matrices and yields one link per unordered pair, with a shared group name exactly for devices of one complete NVLink component and the empty name for all others; each refusal is true of the matrix. |
| `NvidiaTopology.CodesClassified` | pkg/discovery/nvidia.go:122-138 | Codes that start with NV are NVLinks of one hop, the five PCIe codes are PCIe links of 1 to 5 hops in order of distance, and no other code is accepted. |
| `NvidiaTopology.DiscoveredLinkIsCode` | pkg/discovery/nvidia.go:107-144 | Every two GPUs, grouped or not, are joined by exactly the link that their code stands for, of unknown health and bandwidth 0. |
| `NvidiaTopology.DiscoveredPairsQualify` | pkg/discovery/nvidia.go:107-144 | Two GPUs, grouped or not, qualify exactly if their code is an NVLink code and the policy allows unknown topology, asks for no bandwidth and admits a hop. |
| `NvidiaTopology.ParsedLinksAccepted` | pkg/discovery/nvidia.go:107-144 | Parsed links pass all of Build's link checks. |
| `NvidiaTopology.DiscoveredLinksExist` | pkg/discovery/nvidia.go:107-144 | A discovered topology has links exactly when the host has two GPUs or more. |
| `NvidiaTopology.DiscoveredTopologyAccepted` | pkg/discovery/nvidia.go:35-90 | Build accepts a discovered topology exactly when node name, generation, products and memories are proper. |
| `NvidiaTopology.DiscoveredGroupsQualify` | pkg/discovery/nvidia.go:107-179 | Devices of one discovered group qualify pairwise under exactly the policies that allow unknown topology, ask for no bandwidth and admit a hop. |
| `Translation.FabricFacts` | pkg/dra/resources.go:39-59 | Per device, the facts bound every healthy fabric link inside its group and are attained, and the type is that of the last such link. |
| `Translation.ResourcesForTopology` | pkg/dra/resources.go:26-92 | Succeeds exactly on acceptable topologies and publishes, in one pool named after the node, each device with its attributes and fabric facts. |
| `Translation.ResourceClaimTemplateForPolicy` | pkg/controller/policy/transform.go:23-108 | Succeeds exactly on translatable policies; the template carries the policy's name, labels and ownership, and one request of the device class with the policy's count and selectors, constrained by its match attribute. |
| `TranslationProperties.AdmittedMeansTranslatable` | pkg/plugin/topologyfit/plugin.go:357-366 | The scheduler admits a policy with DRA parameters exactly if it is sound without them and can be compiled. |
| `TranslationProperties.DeviceSelectorsExact` | pkg/controller/policy/transform.go:34-47 | Health, vendor, product and memory selectors keep exactly the devices the scheduler finds eligible for their own resource. |
| `TranslationProperties.FabricSelectorsConservative` | pkg/controller/policy/transform.go:55-60 | A healthy fabric link inside a group whose devices pass the selectors satisfies the policy's own link test. |
| `TranslationProperties.FabricSelectorsExact` | pkg/controller/policy/transform.go:55-60 | The fabric selectors let through exactly the devices that have a healthy fabric link inside their group and all of whose such links keep to the hop limit and reach the bandwidth limit rounded up. |
| `TranslationProperties.AllocationIsCliqueWhenLinked` | pkg/controller/policy/transform.go:49-72 | A fabric-clique allocation is a clique for the scheduler exactly when the reported link of each pair is a healthy fabric link. |
| `TranslationProperties.LinkedAllocationIsClique` | pkg/controller/policy/transform.go:49-72 | With one link per pair, an allocation joined pairwise by healthy fabric links is a clique. |
| `TranslationProperties.PcieLinkHidesFabricLink` | pkg/topology/snapshot.go:73-96 | A PCIe link hides an NVLink or HCCS link between the same devices, so that no policy accepts the pair. |
| `ParallelLinks.AllocationNeedNotBeClique` | pkg/controller/policy/transform.go:49-72 | A concrete host with an NVLink and a PCIe link between two devices: Build accepts it, both devices are an allocation of the template, their NVLink qualifies, and yet they are no clique on any snapshot of the host. |
| `TranslationProperties.MatchConstraintsExact` | pkg/controller/policy/transform.go:49-72 | The same-NUMA and same-root constraints are exactly the scheduler's topology modes. |
| `TranslationProperties.BestEffortAllocations` | pkg/controller/policy/transform.go:61 | The allocations of a best-effort template are exactly the sets of devices that pass the device selectors. |
| `Protocol.Reconcile` | pkg/discovery/agent.go:44-123 | The world afterwards is reached by steps of the protocol, also when a read or write fails or its answer is lost; on success the stored object has the discovered content and this agent's stamp, a refusal names a version it may not write, and it gives up on conflicts exactly after five. |
| `ProtocolRuns.AgentsRespectOwners` | pkg/discovery/agent.go:88-101 | In every run an agent changes the stored object only if it carries no other manager and no other provider, and adopts an unmanaged one only with equal content. |
| `ProtocolRuns.FirstDiscoveryStored` | pkg/discovery/agent.go:55-66 | A first discovery is stored as found, with generation and number 1, the agent's marks, and neither Ready nor heartbeat. |
| `ProtocolRuns.AgentNumbersPositive` | pkg/discovery/agent.go:73-85 | While only agents write, every version ever stored carries a positive number and the agents' mark. |
| `Protocol.Sync` | pkg/controller/topology/controller.go:95-129 | One status write from the cached version, skipped when it is up to date, refused when it is not the stored version, and possibly lost. |
| `ProtocolRuns.ReadyMeansAcceptable` | pkg/controller/topology/controller.go:104-127 | Across all interleavings, any version that is Ready for its own generation has a spec that Build accepts. |
| `ProtocolRuns.NextGenerationGrows` | pkg/discovery/agent.go:75-79 | The increment raises the number exactly when it is not the largest int64, and then starts again at 1. |
| `ProtocolRuns.UnchangedTopologyKeepsNumber` | pkg/discovery/agent.go:115-123 | An unchanged topology keeps its number exactly when the provider reports some link or a nil list. |
| `ProtocolRuns.HeartbeatIsSyncTime` | pkg/controller/topology/controller.go:109-127 | A sync leaves a heartbeat of its own time, to the second, or one that is less than 30 seconds old. |
| `ProtocolRuns.SingleGpuLooksChanged` | pkg/discovery/agent.go:115-123 | On a refresh from the NVIDIA provider an unchanged topology keeps its number exactly when the host has two GPUs or more. |
| `ProtocolRuns.FaithfulVersionNumber` | pkg/discovery/agent.go:73-85 | While only agents write the spec: equal numbers mean equal specs, later versions have no smaller number, and a change of content raises it, short of int64 overflow. |
| `ProtocolRuns.CacheOrderIsTimeOrder` | pkg/topology/cache/store.go:83-94 | Under the same assumptions, what the cache refuses as older is older in time, and equal generations carry equal snapshots. |
| `ProtocolRuns.NeverStaleBetweenSyncs` | pkg/controller/topology/controller.go:104-127 | Syncs at most 90 s and 1 ns apart keep a valid, unchanged topology Ready in the cache at every moment in between. |
| `ProtocolRuns.StaleBeyondTheBound` | pkg/topology/cache/store.go:110-124 | One nanosecond more, and a schedule of syncs exists after which the cache reports Stale. |

## Left out

- frontend/, cmd/ entry points, cmd/demo-console, generated clients and deep copies, metrics and logging: they hold none of the core logic.
- pkg/deviceplugin and pkg/dra/publisher.go: gRPC registration and publication loops, which would only add easy members.
- Informers, work queues and rate limits: a delivery may be any stored version in any order, and a sync may happen at any time.
- pkg/controller/policy/controller.go: it applies the modelled template to the server and adds no decision of its own on devices.
- PodGroup coscheduling and Kubernetes' own DRA allocator: an allocation is any choice that passes the selectors and the match constraint.
- PreFilter's lookup of policies, unreadable cycle state and SignPod: the cycle data are an input.
- Raw text: nvidia-smi output is modelled from the row matrix on, CEL expressions are syntax trees, and JSON and CSV encoding are not modelled.
- Floating point: bandwidths are real numbers, without rounding, NaN, infinities or the range of the conversion to int64.
- Messages of errors and conditions: errors are constructors, and the controller's message is a parameter.
- Go string enumerations: each is a datatype with one constructor for all other strings.
- Mutexes: each locked section is one atomic step; Reserve and PreBind, which take two locks in turn, are split accordingly.
- Changes to cache or ledger during one Filter call: feasibility is stated for a cache and a ledger that stay as they are meanwhile.
- The kind, API version and allocation mode of the generated template: they are constants.
- Errors of the topology controller's lister other than not found: sync returns them without any effect.
- Slices that are local to Build, ParseTopology and CompleteNVLinkGroups: they are sequences that are reassigned, so aliasing is not modelled.
- File modes, directory creation, real path strings and argument checks of NewDriver: a path is the state file, a claim's CDI file or a temporary file.
- Equality of the CDI files present with the claims prepared: a crash may leave an extra CDI file or remove one early, so only the accuracy of those present is stated.
- Schema validation by the API server, and status conditions other than Ready.
- The timestamp of discovery that stamp writes: it takes part in no decision.
