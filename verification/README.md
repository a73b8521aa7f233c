# A verified model of the loom control plane

Loom places P4 network functions on programmable targets and wires them together. This project
models the parts of it whose correctness depends on interleavings, on unbounded state or on
arithmetic, and proves what they are meant to guarantee. Each module follows one component.

| module | component |
|---|---|
| `Scheduler` | the operator's binding of NetworkFunctions to P4Targets, as atomic steps of any number of workers and processes against a versioned API server |
| `SchedulerRace` | when that binding respects the capacity of the targets |
| `NfManager` | the BMv2 network-function manager: callers, cancellations and goroutines over shared maps, and the phase machine of a handle |
| `NfForwarding` | the NFs whose forwarding is set up in runs of that manager |
| `NfOutcome` | what the goroutines of that manager report, and how operations are replaced |
| `ConnectionCache` | the driver-connection cache of the data-plane control service, whose lock is released in the middle of a lookup |
| `VrfWalk` | the breadth-first walk over network links that gives the order in which a VRF is torn down |
| `Ip`, `Broadcast`, `AddrPool`, `Allocators` | addresses and prefixes, the broadcast bit loop, the address pool and the two allocators that only move forward |
| `ServicePool` | the rebuild of the Service address pool after a restart |
| `RollingUpdate` | one rolling-update pass over the old replica sets of a deployment |
| `SlowStart` | the creation of replicas in doubling batches, and the expectations left behind |
| `Checksum` | the recomputation of the transport checksum of an inner IPv6 packet |
| `Corefile` | the managed section of the CoreDNS Corefile |
| `P4Write` | table writes to a P4Runtime switch, with the retry of refused insertions |
| `Encoding` | the encoding of field values as big-endian bytes |
| `Basics`, `Decimal` | shared types and the decimal spelling of numbers |

`dafny verify dfyconfig.toml` checks everything.

## How to read the model

Protocols are state machines: a `Step` is one API call, one locked section or one map access; a
`Trace` is any sequence of enabled steps; the theorems are about every state of every trace. Code
that changes fields or arrays in place is a class or a method with loops, proved against a
specification on values; the theorems are about that specification. Calls into code outside the
model (the API server, the kernel, the switch, parsers of the standard library) are parameters: an
arbitrary function says which writes fail, which calls succeed, or what parsing gave.

Six promises turn out not to hold in general. For each there is a counterexample and the exact
condition under which it holds.

* A rolling update is documented to keep at most `maxUnavailable` replicas unavailable
  (`api/scheduling/v1alpha1/networkfunctiondeployment_types.go:48-55`). `MaxUnavailable` in
  `operator/internal/controller/scheduling/networkfunctiondeployment/util/nf_util.go:108-115` returns
  the surge instead. `RollingUpdate.DocumentedBoundIff` gives the exact condition; the bound with the
  number the code uses always holds (`PassKeepsAvailability`).
* A target is never given more NFs than slots, in every run from a start, exactly if all scheduler
  workers belong to one process: `SchedulerRace.CapacityIffOneProcess`.
* The slots of a BMv2 target bound the NFs tracked as ready (`NfManager.SlotsNeverExceeded`), but not
  the NFs whose forwarding is still set up, because an operation is replaced before the deletion gets
  the lock: those stay within the slots in every run exactly if there are no slots at all
  (`NfForwarding.WiredWithinSlotsIff`).
* An NF whose forwarding is set up is tracked, at rest, in every run exactly if there are no slots at
  all (`NfForwarding.NothingLeaksIff`): the deletion of an NF that was marked present again drops the
  new deployment and tears nothing down. It holds of every run in which an operation is replaced only
  while no goroutine of its NF waits for the lock, and by a deployment only while none runs either
  (`NfForwarding.OrderlyNeverLeaks`).
* The prefix allocator stops early at the IPv4-mapped block (section 2.5.5.2 of RFC 4291), because
  the broadcast address is unmapped: `Allocators.AllocatesAllPrefixes`, `MappedBlockStopsAllocation`.
* External IPs win over the status when the pool is rebuilt, in whatever order the objects are listed,
  exactly if no status of another Service claims the address: `ServicePool.ExternalIPAlwaysWinsIff`.

Three smaller findings: a replica set that is cleaned up in a pass is written again against the old
version if the scale-down reaches it, so that write is refused, the rest of the pass is skipped and no
change is reported (`RollingUpdate.PassRemoves`); the retry of refused insertions can undo a later
update of the same entry (`P4Write.ApplyUpdatesIsUpsertIff`); and a creation given up because its
namespace is terminating still counts as an expected creation (`SlowStart.ManageReplicas`).

## Model

| member | source | states |
|---|---|---|
| Scheduler.CountUsedSlots | operator/internal/controller/core/networkfunction/networkfunction_controller.go:249-261 | the counter of every target is the number of listed NFs that name it, and unbound NFs are not counted |
| Scheduler.FilterFeasible | operator/internal/controller/core/networkfunction/networkfunction_controller.go:263-285 | exactly the listed targets without a forbidding taint that have slots and more of them than are used; the first one is the first such target of the list, and there is none exactly if no target is such |
| Scheduler.StepLawful | operator/internal/controller/core/networkfunction/networkfunction_controller.go:376-382 | no step of anybody rebinds a bound NF: the optimistic lock lets a patch through only against the unbound version it was decided on |
| Scheduler.ConsistentStep | operator/internal/controller/core/networkfunction/networkfunction_controller.go:158-198 | every step keeps versions identifying contents, cached copies genuine and unbound, and the mutex with its holder |
| Scheduler.BindingIsPermanent | operator/internal/controller/core/networkfunction/networkfunction_controller.go:165-173 | in every run of any number of processes with stale caches, a bound NF names the same target for as long as it exists |
| Scheduler.PatchBindsFirstFit | operator/internal/controller/core/networkfunction/networkfunction_controller.go:187-198 | in every run a patch at the stored version binds the NF to the first listed target without a forbidding taint and with more slots than counted, or writes nothing if there is none; at another version it writes nothing |
| Scheduler.DecidesOnLiveData | operator/internal/controller/core/networkfunction/networkfunction_controller.go:165-185 | in every run whoever is past the live read has found its NF unbound in the store, and whoever has counted has counted a complete list of the store |
| Scheduler.TallyIsBound | operator/internal/controller/core/networkfunction/networkfunction_controller.go:249-261 | counting a live list gives the number of stored NFs bound to a target |
| Scheduler.MutualExclusion | operator/internal/controller/core/networkfunction/networkfunction_controller.go:162-163 | in one process at most one worker is between taking and releasing the mutex |
| Scheduler.PatchFits | operator/internal/controller/core/networkfunction/networkfunction_controller.go:187-198 | after a patch, the chosen target still has no more NFs than slots |
| Scheduler.CountsStep | operator/internal/controller/core/networkfunction/networkfunction_controller.go:181-198 | no step makes the count of a worker in the critical section too low |
| Scheduler.OneProcessStep | operator/internal/controller/core/networkfunction/networkfunction_controller.go:158-198 | every step of one process or of the environment keeps the invariant that implies capacity |
| Scheduler.NeverOverbooked | operator/internal/controller/core/networkfunction/networkfunction_controller.go:158-198 | in every reachable state of one scheduler process, no target has more NFs bound to it than slots |
| SchedulerRace.TwoProcessesCanOverbook | operator/internal/controller/core/networkfunction/networkfunction_controller.go:158-198 | from every start with workers in two processes there is a run that binds more NFs to a target than it has slots |
| SchedulerRace.CapacityIffOneProcess | operator/internal/controller/core/networkfunction/networkfunction_controller.go:158-198 | every run from a start keeps all targets within their slots exactly if the workers belong to one process |
| SchedulerRace.CapacityIsReached | operator/internal/controller/core/networkfunction/networkfunction_controller.go:158-198 | from every start with a worker a run fills a target, so the bound is reached |
| NfManager.DeploymentHandle.Finish | targets/bmv2/managers/nf/nf_mgr_types.go:146-151 | closes done and events, the first time only |
| NfManager.DeploymentHandle.Transition | targets/bmv2/managers/nf/nf_mgr_types.go:111-129 | a terminal phase is never left; entering one closes done; done is closed exactly in terminal phases |
| NfManager.DeploymentHandle.Cancel | targets/bmv2/managers/nf/nf_mgr_types.go:105-109 | ends in the terminal phase there was or else in Canceled, with done closed once |
| NfManager.VisitCounts | targets/bmv2/managers/nf/nf_mgr.go:230-247 | the pre-check loop has counted every ready operation that it has passed, whatever changes behind it |
| NfManager.NextStageOk | targets/bmv2/managers/nf/nf_mgr.go:154-199 | a goroutine past the pre-check has a free slot |
| NfManager.SlotsStep | targets/bmv2/managers/nf/nf_mgr.go:83-127 | every step, including the unlocked replacement of operations, keeps the ready operations within the slots |
| NfManager.HandleStep | targets/bmv2/managers/nf/nf_mgr_types.go:105-151 | every step keeps each handle closed at most once, only in a terminal phase, and any missing closing owed by a thread |
| NfManager.InvStep | targets/bmv2/managers/nf/nf_mgr.go:328-397 | every step, deletion included, keeps the whole invariant |
| NfManager.SlotsNeverExceeded | targets/bmv2/managers/nf/nf_mgr.go:83-127 | over all interleavings, the tracked Present operations in phase Ready never outnumber the slots |
| NfManager.TerminalIsForever | targets/bmv2/managers/nf/nf_mgr_types.go:111-151 | over all interleavings, a handle in a terminal phase stays in that phase |
| NfManager.DoneClosesOnce | targets/bmv2/managers/nf/nf_mgr_types.go:105-151 | over all interleavings, done and events close together, at most once and only in a terminal phase, and exactly then once no thread is in between |
| NfManager.ReadyAndDeployingFit | targets/bmv2/managers/nf/nf_mgr.go:154-199 | over all interleavings, the ready NFs and the one being deployed right now fit into the slots |
| NfForwarding.WiredWithinSlotsIff | targets/bmv2/managers/nf/nf_mgr.go:107-127 | every run keeps the NFs set up and not torn down within the slots exactly if there are no slots |
| NfForwarding.OrderlyNeverLeaks | targets/bmv2/managers/nf/nf_mgr.go:366-397 | in every run that replaces operations in order, every NF set up is tracked and has its program |
| NfForwarding.LeakingRun | targets/bmv2/managers/nf/nf_mgr.go:366-386 | from every start with a caller and a slot, a run ends at rest with an NF set up that is not tracked |
| NfForwarding.NothingLeaksIff | targets/bmv2/managers/nf/nf_mgr.go:366-397 | at rest every NF set up is tracked, in every run, exactly if there are no slots |
| NfOutcome.DeploymentOutcome | targets/bmv2/managers/nf/nf_mgr.go:154-199 | in every run a deployment reports Ready exactly if no call failed, the pre-check met fewer ready operations than slots and it did not panic, having then compiled, deployed and set up its NF; otherwise Failed |
| NfOutcome.DeletionOutcome | targets/bmv2/managers/nf/nf_mgr.go:328-397 | in every run a deletion reports Deleted exactly if no call failed and it did not panic, otherwise Failed; a deletion with forwarding to tear down has then torn it down and reset the pipeline |
| NfOutcome.ReportTakesEffect | targets/bmv2/managers/nf/nf_mgr_types.go:111-129 | the reported phase becomes that of the handle unless it was terminal already |
| NfOutcome.EnsureAgain | targets/bmv2/managers/nf/nf_mgr.go:86-90 | asking again for what is tracked changes nothing |
| NfOutcome.FoundHandleIsTerminal | targets/bmv2/managers/nf/nf_mgr.go:107-124 | in every run a caller that finds an operation of the other kind has made its handle terminal before it stores its own |
| NfOutcome.ReplacedIsTerminal | targets/bmv2/managers/nf/nf_mgr.go:107-124 | an operation that is replaced by a caller that found it is terminal |
| NfOutcome.OverlapReplacesLive | targets/bmv2/managers/nf/nf_mgr.go:83-127 | two overlapping callers can replace an operation that is not terminal |
| ConnectionCache.InvStep | dpcs/internal/server/server.go:176-219 | every locked section, dial and close keeps the invariant about open, cached and held connections |
| ConnectionCache.OpenConnectionsAccountedFor | dpcs/internal/server/server.go:176-219 | over all interleavings, the open connections are exactly the cached and the held ones, none is closed twice, and no cached one is closed |
| ConnectionCache.NoLeakAtRest | dpcs/internal/server/server.go:245-252 | when no thread holds a connection, no device has two open ones |
| ConnectionCache.CachedAddressIsRight | dpcs/internal/server/server.go:204-218 | in every run the cached connection of a device was dialled for it to the cached address |
| ConnectionCache.LookupsAreAnsweredRight | dpcs/internal/server/server.go:188-219 | in every run a lookup is answered with an open connection dialled for its device to the address it resolved: at once if that is cached, else after dialling; a matching cached connection is never replaced |
| ConnectionCache.StaleIsClosed | dpcs/internal/server/server.go:194-200 | in every run a lookup that finds another address has closed the connection it found before it dials |
| VrfWalk.Reversed | daemon/pkg/dataplane/vrf/appsubnet.go:435-441 | the elements in opposite order |
| VrfWalk.GroupByMaster | daemon/pkg/dataplane/vrf/targetvrf.go:169-174 | each enslaved link is in the list of its master and of no other |
| VrfWalk.VisitSlaves | daemon/pkg/dataplane/vrf/targetvrf.go:183-191 | all slaves of the current link have been found, each once, one level deeper |
| VrfWalk.VrfDescendants | daemon/pkg/dataplane/vrf/targetvrf.go:168-194 | terminates even with master cycles; the reachable non-root indices, each once, every link before its master, deepest first |
| VrfWalk.TeardownIsExact | daemon/pkg/dataplane/vrf/targetvrf.go:168-194 | with distinct indices the result is exactly the set of reachable non-root links |
| Ip.ContainsIsLead | operator/pkg/ipam/pool.go:49-54 | an address is in a prefix exactly if it has the prefix's leading bits |
| Broadcast.FillBits | operator/pkg/ipam/allocator.go:96-102 | setting the trailing bits of a number with those bits clear adds 2^h - 1 |
| Broadcast.SetHostBits | operator/pkg/ipam/allocator.go:96-102 | the in-place loop sets exactly the host bits of the 16 bytes |
| Broadcast.BroadcastAddr | operator/pkg/ipam/allocator.go:87-104 | network + 2^hostBits - 1, in IPv4 form if that is an IPv4-mapped address |
| AddrPool.AddressPool.constructor | operator/pkg/ipam/pool.go:28-41 | a new pool is empty and valid |
| AddrPool.AddressPool.Contains | operator/pkg/ipam/pool.go:49-57 | in numbers: the unmapped address has the family of the prefix and lies strictly above the network address and, for IPv4, strictly below the last one |
| AddrPool.AddressPool.Allocate | operator/pkg/ipam/pool.go:59-78 | terminates with the owner's address, else the cyclically first free address after the last one, else exhaustion if none is free |
| AddrPool.AddressPool.Reserve | operator/pkg/ipam/pool.go:80-99 | moves the owner to a free usable address, and else changes nothing and fails unless the owner has it |
| AddrPool.AddressPool.Release | operator/pkg/ipam/pool.go:101-126 | frees the owner's address and nothing else |
| AddrPool.StepKeepsValid | operator/pkg/ipam/pool.go:49-126 | every operation keeps the two maps inverse and held addresses usable |
| AddrPool.StepKeepsOthers | operator/pkg/ipam/pool.go:49-126 | an operation changes only its own owner's holding |
| AddrPool.PoolsStayValid | operator/pkg/ipam/pool.go:49-126 | over every run the two maps stay inverse and every held address is usable |
| AddrPool.HoldingSurvives | operator/pkg/ipam/pool.go:59-126 | over every run an owner keeps its address until it releases or re-reserves, and nobody else is given it |
| AddrPool.AllocateDeterministic | operator/pkg/ipam/pool.go:59-78 | the stated result of Allocate is the only possible one |
| AddrPool.ExhaustedIffFull | operator/pkg/ipam/pool.go:59-78 | exhaustion is reported exactly when every allocatable address is taken |
| AddrPool.AllocatesNextNumber | operator/pkg/ipam/pool.go:59-78 | in numbers: the least free number above the last one assigned, else the least free one; failure exactly if no number inside is free |
| AddrPool.ReserveAccepts | operator/pkg/ipam/pool.go:80-99 | in numbers: accepted exactly if inside and not held by another, and then held by the owner |
| AddrPool.HeldAreInside | operator/pkg/ipam/pool.go:49-126 | over every run all held addresses are strictly inside the range |
| AddrPool.NextFit | operator/pkg/ipam/pool.go:59-78 | an address allocated and released is reused next only if no other is free |
| Allocators.PrefixAllocator.Next | operator/pkg/ipam/allocator.go:69-85 | the sub-prefix after the last one if it lies in the base; a failure changes nothing |
| Allocators.CallsInOrder | operator/pkg/ipam/allocator.go:69-85 | call n returns the n-th sub-prefix as long as none before it ends in the IPv4-mapped block |
| Allocators.KthFits | operator/pkg/ipam/allocator.go:69-85 | the k-th sub-prefix starts at base + k·2^(bits−len) and lies inside the base |
| Allocators.FailureIsPermanent | operator/pkg/ipam/allocator.go:69-85 | after a failed call every later one fails |
| Allocators.AllocatesAllPrefixes | operator/pkg/ipam/allocator.go:69-104 | all 2^(len−baseBits) sub-prefixes are handed out in order exactly if no sub-prefix but the last ends in the IPv4-mapped block |
| Allocators.FailsAfterwards | operator/pkg/ipam/allocator.go:69-85 | after that many calls every call fails |
| Allocators.UnblockedOutsideMapped | operator/pkg/ipam/allocator.go:87-104 | a base apart from the IPv4-mapped block meets the condition |
| Allocators.MappedBlockStopsAllocation | operator/pkg/ipam/allocator.go:69-104 | splitting ::/64 into /96 prefixes does not hand out all of them |
| Allocators.SubPrefixesDisjoint | operator/pkg/ipam/allocator.go:69-85 | the sub-prefixes lie in the base and are pairwise disjoint |
| Allocators.AddrAllocator.Next | operator/pkg/ipam/allocator.go:16-47 | the next address unless it or its successor is outside the network; a failure changes nothing |
| Allocators.AddressesInOrder | operator/pkg/ipam/allocator.go:34-47 | call n returns network + n + 1 as long as that is not the last address, and from then on every call fails, for both families |
| ServicePool.Reconciler.ReserveServiceIPs | operator/internal/controller/core/service/service_controller.go:174-187 | reserves the listed pool addresses in order, ignoring malformed and foreign ones |
| ServicePool.Reconciler.EnsurePoolSynced | operator/internal/controller/core/service/service_controller.go:141-172 | rebuilds once, status first and external IPs last; a failed listing keeps what was reserved and leaves the pool unsynced |
| ServicePool.ExternalIPWins | operator/internal/controller/core/service/service_controller.go:154-168 | an owner holds the external IP that only it records, whatever its status says |
| ServicePool.StatusIPKept | operator/internal/controller/core/service/service_controller.go:149-152 | an owner without other external IPs keeps the status IP that only it records |
| ServicePool.ExternalIPAlwaysWinsIff | operator/internal/controller/core/service/service_controller.go:154-168 | in every order of listing an owner gets the external IP that only it records, exactly if no status of another owner claims it |
| ServicePool.ExternalIPWinsIff | operator/internal/controller/core/service/service_controller.go:154-168 | in one order, with arbitrary records of the others, an owner gets its external IP exactly if nobody else holds it when its turn comes |
| ServicePool.StaleStatusBeatsExternalIP | operator/internal/controller/core/service/service_controller.go:154-168 | a stale status of one Service can cost another its external IP |
| ServicePool.ExternalIPSurvivesRestart | operator/internal/controller/core/service/service_controller.go:80-112 | after any failed attempts and one successful rebuild, in every later run an allocation returns that IP exactly if it is for its owner, until released |
| RollingUpdate.ScaleReplicaSet | operator/internal/controller/scheduling/networkfunctiondeployment/replicas.go:246-277 | writes a copy under the version read, and returns the unchanged set and no scaling |
| RollingUpdate.CleanupUnhealthyReplicas | operator/internal/controller/scheduling/networkfunctiondeployment/rolling.go:33-72 | the loop over the sorted sets does what the specification Cleanup says, with the stale sets handed back |
| RollingUpdate.ScaleDownOldReplicaSets | operator/internal/controller/scheduling/networkfunctiondeployment/rolling.go:169-217 | the loop does what the specification ScaleDownOld says |
| RollingUpdate.ReconcileOldReplicaSets | operator/internal/controller/scheduling/networkfunctiondeployment/rolling.go:95-167 | the pass does what the specification Pass says, errors being swallowed |
| RollingUpdate.SortedByCreation | operator/internal/controller/scheduling/networkfunctiondeployment/util/nf_util.go:457-467 | the sorted list holds the same sets, ascending by creation time and then by name |
| RollingUpdate.OldestSetsFirst | operator/internal/controller/scheduling/networkfunctiondeployment/rolling.go:37-70 | without write errors and clashes, no set is cleaned up while one created earlier has unavailable replicas, and none is scaled down while one created earlier has any |
| RollingUpdate.CleanupEffect | operator/internal/controller/scheduling/networkfunctiondeployment/rolling.go:41-71 | whether writes are refused or take effect unreported, every target is between available and desired, and the replicas removed are at least those reported and at most the limit |
| RollingUpdate.ScaleDownEffect | operator/internal/controller/scheduling/networkfunctiondeployment/rolling.go:187-216 | whether writes are refused or take effect unreported, no more available replicas go than the limit; without an error no more than reported |
| RollingUpdate.CleanupExact | operator/internal/controller/scheduling/networkfunctiondeployment/rolling.go:41-71 | without write errors exactly min(limit, unavailable) replicas are removed |
| RollingUpdate.ScaleDownExact | operator/internal/controller/scheduling/networkfunctiondeployment/rolling.go:174-216 | after any cleanup and without write errors the scale-down ends ok exactly if it reaches no set that the cleanup wrote; then it removes min(old replicas, available − minimum) if positive, else all of the sets before the first such set |
| RollingUpdate.PassRemoves | operator/internal/controller/scheduling/networkfunctiondeployment/rolling.go:95-167 | what a whole pass without write errors removes and reports, with and without such a clash |
| RollingUpdate.ClashInPass | operator/internal/controller/scheduling/networkfunctiondeployment/rolling.go:141-158 | in a pass, a clash is a set with unavailable replicas that is reached before the spare replicas are used up |
| RollingUpdate.PassKeepsAvailability | operator/internal/controller/scheduling/networkfunctiondeployment/rolling.go:95-217 | one pass, whatever writes are refused or take effect unreported, leaves at least min(availability before, replicas − MaxUnavailable) available |
| RollingUpdate.DocumentedBoundIff | operator/internal/controller/scheduling/networkfunctiondeployment/util/nf_util.go:75-115 | every pass respects the documented maxUnavailable exactly if the surge is not larger than it, or it covers all replicas |
| RollingUpdate.Scaled | operator/internal/controller/scheduling/networkfunctiondeployment/util/nf_util.go:75-85 | percentages are rounded up for the surge and down for the unavailable allowance |
| RollingUpdate.ResolveFenceposts | operator/internal/controller/scheduling/networkfunctiondeployment/util/nf_util.go:75-96 | the surge first, then the unavailable allowance, and not both zero |
| RollingUpdate.DocumentedBoundInNumbers | operator/internal/controller/scheduling/networkfunctiondeployment/util/nf_util.go:75-115 | for a rolling update the allowance used is the surge, and the documented bound holds exactly if the surge is at most the unavailable allowance or that covers all replicas |
| RollingUpdate.DocumentedBoundBroken | operator/internal/controller/scheduling/networkfunctiondeployment/util/nf_util.go:108-115 | otherwise the first pass with one healthy old set breaks it |
| SlowStart.SlowStartBatch | operator/internal/controller/scheduling/networkfunctionreplicaset/replicas.go:217-241 | terminates; the sizes of its batches, its successes and its failure are those of the specification |
| SlowStart.AllSucceedInLogBatches | operator/internal/controller/scheduling/networkfunctionreplicaset/replicas.go:37-41 | without failures exactly N calls in 1+floor(log2(ceil(N/initial))) batches |
| SlowStart.DoomedCalls | operator/internal/controller/scheduling/networkfunctionreplicaset/replicas.go:37-39 | if every call fails, exactly min(N, initial) calls are made |
| SlowStart.FailingBatchIsBounded | operator/internal/controller/scheduling/networkfunctionreplicaset/replicas.go:217-241 | in every run the successes are those of the calls made, at most N; only the last batch fails, and it is at most the successes before it plus initial |
| SlowStart.SuccessesAreCreations | operator/internal/controller/scheduling/networkfunctionreplicaset/replicas.go:127-137 | the reported successes are the creations plus those given up because of a terminating namespace |
| SlowStart.ManageReplicas | operator/internal/controller/scheduling/networkfunctionreplicaset/replicas.go:106-150 | at most 500 creations, without failures exactly min(missing, 500); the outstanding expectations equal the reported successes |
| Checksum.PseudoHeaderSum | daemon/ebpf/src/recalc_csum.c:75-85 | the 64-bit sum cannot overflow and equals the pseudo-header's 16-bit sum modulo 65535 |
| Checksum.FoldedIs | daemon/ebpf/src/recalc_csum.c:93-99 | the four folds give a 16-bit number congruent modulo 65535, zero only for zero |
| Checksum.FoldAndComplement | daemon/ebpf/src/recalc_csum.c:93-104 | the unique complement: congruent to minus the sum, in 0..0xfffe, or in 1..0xffff for UDP |
| Checksum.ByteOrder | daemon/ebpf/src/recalc_csum.c:77-91 | summing in the other byte order multiplies the sum by 256 modulo 65535 |
| Checksum.OnesSumIs | daemon/ebpf/src/recalc_csum.c:91-104 | the receiver's end-around-carry sum is the 16-bit residue of the plain sum, zero only for zero |
| Checksum.ReceiverAccepts | daemon/ebpf/src/recalc_csum.c:100-108 | with the complement stored, the receiver's sum in network order is 0xffff on any machine |
| Checksum.Recalculate | daemon/ebpf/src/recalc_csum.c:38-108 | packets of other protocols or lengths are left alone; else only bytes 16-17, 6-7 or 2-3 change, for TCP, UDP and ICMPv6: to zero if summing fails, and otherwise to a checksum the receiver accepts, not zero for UDP |
| Checksum.Pseudo | daemon/ebpf/src/recalc_csum.c:77-85 | both addresses, the length in 32 bits and the protocol in 32 bits, in network byte order |
| Corefile.RemoveSection | dns/internal/coredns/corefile.go:46-72 | accepts exactly texts with no marker or with one begin marker before one end marker, and returns the other lines |
| Corefile.MarkerIff | dns/internal/coredns/corefile.go:51-58 | a line is a marker exactly if after white space it starts with the marker's text |
| Corefile.Upsert | dns/internal/coredns/corefile.go:32-44 | the text outside the section, without trailing newlines, then the block; reports a change exactly if the text differs |
| Corefile.LinesOfJoin | dns/internal/coredns/corefile.go:48-48 | a text has only one division into lines |
| Corefile.SectionIsBlock | dns/internal/coredns/corefile.go:46-72 | a text ending with a managed block has that block as its section exactly if the body has no marker |
| Corefile.LastBlockWins | dns/internal/coredns/corefile.go:32-72 | if the body has no marker, a later Upsert gives what it alone would have given and the lines outside survive; otherwise every later Upsert is refused |
| Corefile.UpsertIdempotent | dns/internal/coredns/corefile.go:32-44 | repeating an Upsert changes nothing, exactly if the body has no marker |
| Corefile.Block | dns/internal/coredns/corefile.go:16-30 | the text of the block, line by line, with the cache line only for a positive ttl |
| Corefile.DotIsTrimmed | dns/internal/coredns/corefile.go:21-21 | one dot at the end of the zone is taken off |
| Corefile.LoomBlockReplaced | dns/internal/coredns/corefile.go:16-44 | for the loom block with newline-free zone and IP this holds exactly if the zone line is no marker, and for a domain name it is none |
| P4Write.P4Switch.Write | targets/bmv2/pkg/p4switch/client.go:216-222 | the switch applies updates one by one with a code for each, going on after errors |
| P4Write.ModifyRetriesForExistingEntries | targets/bmv2/pkg/p4switch/client.go:224-254 | exactly if all errors are refused insertions and there is one, the modifications for them in order |
| P4Write.ApplyUpdates | targets/bmv2/pkg/p4switch/client.go:204-214 | the state and the outcome of the first write and the retry |
| P4Write.ApplyUpdatesIsUpsert | targets/bmv2/pkg/p4switch/client.go:204-254 | whatever faults occur, success on distinct targets, or without a retry, is sequential application with insertion read as upsert |
| P4Write.ApplyUpdatesIsUpsertIff | targets/bmv2/pkg/p4switch/client.go:204-254 | with any repetition of targets, success is sequential upsert exactly if of every target the last insertion that finds its entry carries the action of the last update |
| P4Write.DistinctAgree | targets/bmv2/pkg/p4switch/client.go:204-254 | distinct targets meet that condition |
| P4Write.ApplyUpdatesSucceeds | targets/bmv2/pkg/p4switch/client.go:204-254 | without other errors it succeeds on distinct targets exactly if what is modified or deleted exists and default actions are only modified |
| P4Write.RepeatedTargetDiffers | targets/bmv2/pkg/p4switch/client.go:233-253 | inserting an existing entry and then modifying it ends with the inserted action |
| P4Write.FilterTableEntries | targets/bmv2/pkg/p4rutils/p4rutils.go:269-277 | the entries that satisfy the filter, in order |
| P4Write.EditTableEntries | targets/bmv2/pkg/p4switch/client.go:270-285 | the tables and the outcome of one write of all edits, also if it fails |
| P4Write.EditedMeans | targets/bmv2/pkg/p4switch/client.go:270-285 | success means that all edits took effect; insertions then had distinct targets |
| P4Write.ClearAllTableEntries | targets/bmv2/pkg/p4switch/client.go:162-171 | the tables and the outcome, also if reading or deleting fails |
| P4Write.ClearMeans | targets/bmv2/pkg/p4switch/client.go:162-171 | with a complete listing success leaves the default actions only; without other errors an exact listing suffices |
| P4Write.ClearLeavesDefaults | targets/bmv2/pkg/p4switch/client.go:162-171 | with a complete listing only the default actions remain |
| P4Write.SetAllTableEntries | targets/bmv2/pkg/p4switch/client.go:173-202 | the tables and the outcome of its writes, which stop at the first failure |
| P4Write.AllSetIsExact | targets/bmv2/pkg/p4switch/client.go:173-202 | success means the tables hold exactly the given entries, each target once, and only the given default actions changed |
| P4Write.AllSetSucceeds | targets/bmv2/pkg/p4switch/client.go:173-202 | without other errors, an exact listing and distinct targets suffice for success |
| P4Write.AllSetKeepsOthers | targets/bmv2/pkg/p4switch/client.go:173-202 | also on failure, default actions that are not given and entries neither listed nor given keep their values |
| P4Write.AllSetFailure | targets/bmv2/pkg/p4switch/client.go:173-202 | the tables after each point of failure, target by target: no entry is inserted after a failed change of default actions |
| P4Write.ReplacedExactly | targets/bmv2/pkg/p4switch/client.go:173-202 | then an entry that is no default action is there exactly if it was given |
| Encoding.PadToWidth | targets/bmv2/pkg/p4rutils/p4rutils.go:257-267 | the same number in the given width, leading bytes being cut off or zero |
| Encoding.BigEndianUnique | targets/bmv2/pkg/p4rutils/p4rutils.go:257-267 | these are the only bytes of that length for the number modulo 256^length |
| Encoding.EncodeHexString | targets/bmv2/pkg/p4rutils/p4rutils.go:244-255 | the value of the digits after the prefixes, of odd or even number, in the given width, or an error for any other character |
| Encoding.EncodeValue | targets/bmv2/pkg/p4rutils/p4rutils.go:206-242 | the first field that is set decides; decimal and hexadecimal numbers are encoded by value in the least number of bytes for the width |
| Encoding.SpellingsAgree | targets/bmv2/pkg/p4rutils/p4rutils.go:207-219 | for every number and width the decimal and hexadecimal spellings encode to the same, unique bytes |
| Encoding.CaseDoesNotMatter | targets/bmv2/pkg/p4rutils/p4rutils.go:244-255 | upper- and lower-case digits denote the same number |
| Encoding.SignIsDropped | targets/bmv2/pkg/p4rutils/p4rutils.go:213-219 | a signed number is encoded by its magnitude |

## Left out

Assumptions about the environment:

- Scheduler.NeverOverbooked: assumes one scheduler process, capacities that do not shrink, NFs created unbound, and target names that are not empty; lists are consistent snapshots and patches atomic.
- RollingUpdate.PassKeepsAvailability: assumes that the sets were read up to date with 0 ≤ available ≤ desired, that nobody else writes them during the pass, and that unavailable replicas are shed first.
- SlowStart.ManageReplicas: models the create branch without observations of the informer in between; the delete branch is not modelled.
- Checksum.Recalculate: takes the result of the kernel's bpf_csum_diff as given, congruent to the payload's sum when it succeeds; the receiver's acceptance is stated for payloads that contain the checksum field.
- Corefile.LoomBlockReplaced: is stated for a zone and an IP without newlines.
- P4Write.AllSetIsExact: assumes a complete listing of the tables and no other writer.
- ServicePool.ExternalIPAlwaysWinsIff: assumes that no two loom Services have the same name, that no status records two addresses of the pool, and that the address is the external IP of one owner only.
- NfManager.SlotsNeverExceeded: each map access is one atomic step; effects of Go's memory model on unlocked maps are not modelled, nor are the messages sent on the events channel.
- Encoding.EncodeValue: the results of parsing IPv4, IPv6 and MAC addresses are parameters; the sign of an integer is dropped, as the code does.

Not modelled:

- 32-bit overflow of replica counts, and percentages beyond the rounding of the two fenceposts.
- Prefixes with host bits set, and address zones.
- The way from Reconcile to the rolling-update pass: the pass is taken as the unit. As written, ensureUpdatedReplicaSet returns true on every path without an error (operator/internal/controller/scheduling/networkfunctiondeployment/replicas.go:99, 109, 212), so Reconcile returns before it reaches applyRollingUpdate.
- The scaling of the new replica set, surge, the Recreate strategy, and the deletion of old replica sets.
- Finding the packet headers in the eBPF program, beyond the length and protocol checks.
- netlink, iptables, namespaces and eBPF loading of the daemon; only the walk over links is modelled.
- API types, webhooks, HTTP, gRPC and DNS servers, lease timers, compilation and logging, which are plumbing.
- The copies of the IPAM package in the daemon and the BMv2 target, which repeat the operator's.
