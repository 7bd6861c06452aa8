# A verified model of the vLLM Ascend plugin's stateful core

This project models the parts of the plugin whose correctness depends on state, on arithmetic or on
several processes agreeing, and proves what every run of them keeps.

* **Host mapping registry** (`HostRanges`, `Registry`, `RegistryInvariant`, `RegistrySteps`,
  `RegistryRelease`, `RegistryRuns`, `RegistryStable`, `RegistryLimits`, `MappedHostPools`,
  `GatherProtocol`, `GatherLimits`). CPU memory pools are registered with the device driver so that a
  gather kernel can read them. A request is expanded to whole pages, mapped once, shared by lease
  counting, and unmapped after the last lease has fenced the device. `Register` and `Unregister` are a
  state machine over 64-bit words; the class `HostMappingRegistry` changes its fields in place and is
  proved against it. `GatherProtocol` splits a gather into its locked resolve and its unlocked enqueue,
  and a release into its fence and its unmap, and covers all interleavings in which a caller keeps its
  own lease until it has enqueued.
* **CPU binding** (`CpuSlices`, `CpuTopology`, `CpuSharing`, `CpuFill`, `CpuLimits`, `CpuBinding`, `CpuMask`).
  Worker processes that share a cpuset each work out, on their own, which CPUs belong to which NPU and
  role. Dictionaries keep their insertion order, an error leaves behind what was filled before it, and
  looking up an unknown NUMA node inserts it, as in the program.
* **Compressed positions and NZ layouts** (`CompressedPositions`, `NzLayout`). The vectorised position
  computation against a per-request reference and over whole scheduling histories; the three tensor
  layout routines against each other and against one index map.
* **MoE communication** (`MoeComm`, `Mc2Padding`). The choice of communication method, the rule that
  lets data-parallel ranks skip their all-reduce, the MC2 capacity, the padding of a forward pass and
  the shared token mask.
* **Span benchmark** (`BlockSpans`, `FragmentedMappings`). Coalescing of block copies and the generator
  of fragmented mappings.
* **QoS tool** (`QosState`, `QosHardware`, `QosTables`, `QosSnapshots`, `QosRuns`, `QosCycles`, `AiQos`).
  Applying priorities saves a baseline in a JSON state file; undoing validates the file and restores.

Where the code does less than its comments or its users might expect, the project says exactly when:

* Running out of handles leaves a mapping and its ACL registration behind (`RegistryRuns.LeakLeaves`,
  reached by the run in `RegistryLimits.LeakIsReachable`), and owned mappings that make up the whole
  address space wrap the byte counter (`RegistryLimits.FillingWrapsTheCounter`); every other registration
  keeps the registry consistent (`RegistryRuns.RegisterKeepsInv`, an equivalence). Ids cannot run out
  before handles do (`RegistryStable.HandlesRunOutFirst`, `RegistryStable.IdsNeverRunOut`).
* A request in the last page of the address space is registered but cannot be looked up again
  (`RegistryRuns.FreshOwnedResolvesIff`, `RegistryLimits.LastPageIsNotFound`). While it is registered,
  every request that cannot share a mapping is refused (`RegistryRuns.WrappedBlocksAll`), with the
  overflow error unless an older mapping overlaps the request (`RegistryRuns.RefusalsAre`,
  `RegistryLimits.OlderOverlapComesFirst`). `RegistryRuns.CreatesIff` is the exact condition for a mapping
  of one's own.
* A borrowed mapping may lie inside a later owned one, so a view into a lease can resolve to an older
  borrowed mapping (`RegistryLimits.OverlapAndShadowedView`; `RegistryRuns.ViewResolves` says when not).
  A caller that holds its lease until it has enqueued can then still read a mapping that is gone
  (`GatherLimits.ShadowedReadIsLost`). A resolved view is safe to read on every continuation if and only
  if no older borrowed mapping covers it (`GatherLimits.ViewIsSafeIff`; `GatherLimits.ResolvedIsSafeIff`
  is the condition in every state a process can reach).
* The bound used by the skip rule counts at most 512 decode tokens without capture sizes, and with
  capture sizes it leaves out decode requests of their own (`MoeComm.BoundCoversDecodeIff`,
  `MoeComm.CappedBoundIsTooSmall`, `MoeComm.CaptureBoundIsTooSmall`). With the recompute scheduler the
  prefill bound is not looked at (`MoeComm.SkippingIsSafe`, `MoeComm.RecomputeRanksDisagree`).
* Ranks of a dense model with counts on both sides of 1000 are not padded alike
  (`Mc2Padding.GroupIsPaddedAlikeIff`, `Mc2Padding.DenseGroupSplits`).
* In topology mode, processes that build and allocate without an error can give one CPU to two NPUs:
  where pools overlap after the extension by a neighbouring NUMA node
  (`CpuLimits.NeighbouringPoolsOverlap`), and where a cut of a shared pool falls between two mentions of
  one CPU (`CpuLimits.RepeatedCpuIsSplit`). Pools without either are safe for any processes; when every
  candidate NPU is visible to some process the condition is exact (`CpuFill.MachineIsDisjointIff`), and
  otherwise it need not be (`CpuLimits.UnseenNpuTakesNothing`). `CpuFill.NoneTwiceIff` is exact for all
  machines.
* With gaps in the numbers of the NUMA nodes an NPU's pool depends on the candidates before it
  (`CpuLimits.GapShiftsPool`); without gaps it does not (`CpuSharing.NoNodesAdded`).
* A device without all registers is saved again at every apply, so that after two applies its first
  values are lost (`QosCycles.PartialDeviceIsLost`; `QosRuns.UndoRestoresIff` is the exact condition).
* The layout routine for batches raises on shapes it does not divide instead of padding
  (`NzLayout.TransSucceedsIff`, `NzLayout.OddRowIsRefused`), although it computes padded sizes.

## Model

| member | source | states |
|---|---|---|
| `HostRanges.RoundUpIsCeiling` | csrc/kv_cache_block_gather_binding.cpp:168-175 | rounding up to an alignment succeeds exactly when the sum fits 64 bits, and then gives the one multiple less than a step above, although the addition in between may wrap |
| `HostRanges.HostRangeIsExact` | csrc/kv_cache_block_gather_binding.cpp:177-196 | exactly which requests are accepted; an accepted one gets a non-empty page-aligned range around it, less than a page too long, that ends within 2^64 |
| `HostRanges.HostRangeIsLeast` | csrc/kv_cache_block_gather_binding.cpp:177-196 | every page-aligned range around the request contains the computed one |
| `RegistrySteps.ExpansionAvoidsOwned` | csrc/kv_cache_block_gather_binding.cpp:234-267 | an owned mapping that the unexpanded request avoids is also avoided by the expanded range |
| `RegistrySteps.OwnedBytesFit` | csrc/kv_cache_block_gather_binding.cpp:384-389 | owned mappings are disjoint, so their total size is at most 2^64 |
| `RegistrySteps.ReuseKeepsInv` | csrc/kv_cache_block_gather_binding.cpp:392-419 | a lease on the first mapping that holds the range keeps every registry invariant |
| `RegistryRuns.InitKeepsInv` | csrc/kv_cache_block_gather_binding.cpp:82-96 | the registry of a new process is consistent |
| `RegistryRuns.RegisterKeepsInv` | csrc/kv_cache_block_gather_binding.cpp:324-420 | a registration keeps the registry consistent if and only if it neither runs out of handles after it has pushed a mapping, nor makes the owned mappings fill the address space |
| `RegistryRuns.LeakBreaksInv` | csrc/kv_cache_block_gather_binding.cpp:392-395 | a registration that runs out of handles after it has pushed a mapping leaves an inconsistent registry |
| `RegistryRuns.LeakLeaves` | csrc/kv_cache_block_gather_binding.cpp:354-395 | what it leaves: all old mappings, one more that no handle holds, and its ACL registration unless it is borrowed |
| `RegistryRuns.IdsAreLeft` | csrc/kv_cache_block_gather_binding.cpp:139-146 | in a consistent registry at least as many handles as ids are used up, so ids are left |
| `RegistryRuns.CreatesIff` | csrc/kv_cache_block_gather_binding.cpp:234-267 | a request gets a mapping of its own if and only if it is accepted, no mapping ends with the address space, and none shares an address with it |
| `RegistryRuns.RefusalsAre` | csrc/kv_cache_block_gather_binding.cpp:234-267 | exactly which requests are refused with the overflow error and which with the overlap error: none of the mappings covers the request, and the first one in the way ends with the address space, or overlaps it |
| `RegistryRuns.WrappedBlocksAll` | csrc/kv_cache_block_gather_binding.cpp:234-250 | while a mapping ends with the address space, every accepted request that no other mapping covers is refused with one of the two errors |
| `RegistryRuns.FillBreaksInv` | csrc/kv_cache_block_gather_binding.cpp:384-389 | owned mappings that make up the whole address space leave a byte counter that is not their size |
| `RegistryRuns.ReleaseTargetIs` | csrc/kv_cache_block_gather_binding.cpp:612-630 | in a consistent registry a release finds the mapping of its handle, the two internal error checks never fire, and an unknown handle is the only inactive one |
| `RegistryRuns.UnregisterKeepsInv` | csrc/kv_cache_block_gather_binding.cpp:612-676 | every release, successful or not, keeps lease counts, counters, disjointness and the pairing of ACL calls |
| `RegistryRuns.FailedReleaseChangesNothing` | csrc/kv_cache_block_gather_binding.cpp:612-651 | a release that does not succeed changes nothing but at most one fence |
| `RegistryRuns.StepKeepsInv` | csrc/kv_cache_block_gather_binding.cpp:324-676 | a registration or release keeps the registry consistent if and only if it is not a registration that leaks or fills the address space |
| `RegistryRuns.RunKeepsInv` | csrc/kv_cache_block_gather_binding.cpp:324-676 | every run whose registrations neither leak nor fill the address space keeps the registry consistent: each count is the number of handles and at least one, every handle's mapping exists and holds its range, owned mappings are page aligned and disjoint, ACL registrations are undone once and only for owned mappings, counters add up |
| `RegistryRuns.LeaseResolves` | csrc/kv_cache_block_gather_binding.cpp:211-232 | looking up the range of any lease finds the leased mapping and the device address recorded for it, unless the mapping ends with the address space: then it finds nothing |
| `RegistryRuns.ViewResolves` | csrc/kv_cache_block_gather_binding.cpp:211-232 | part of a leased range resolves to the leased mapping if and only if no older borrowed mapping covers that part and the mapping does not end with the address space; for borrowed leases always |
| `RegistryRuns.FreshOwnedResolvesIff` | csrc/kv_cache_block_gather_binding.cpp:362-391 | a newly registered range can be looked up if and only if it does not reach into the last page of the address space |
| `RegistryRuns.HandlesNeverReused` | csrc/kv_cache_block_gather_binding.cpp:392-397 | of two registrations in a run, the later one returns the larger handle |
| `RegistryRuns.NoLeaseNoMapping` | csrc/kv_cache_block_gather_binding.cpp:653-674 | a registry without handles has no mappings, no registered bytes and no open ACL registration |
| `RegistryRuns.ReleaseAllEmptiesRegistry` | csrc/kv_cache_block_gather_binding.cpp:612-676 | releasing all handles, in any order, empties the registry and undoes every ACL registration |
| `RegistryStable.RunKeepsWeak` | csrc/kv_cache_block_gather_binding.cpp:324-676 | in every run without exception, also after ids or handles ran out and whatever ACL answers, lease counts are exact, ids increase, and every handle is active and has its mapping |
| `RegistryStable.HandlesRunOutFirst` | csrc/kv_cache_block_gather_binding.cpp:139-146 | in every run of a process ids run out, or a mapping is left without a lease, only after the handles ran out, and every lease records the process |
| `RegistryStable.IdsNeverRunOut` | csrc/kv_cache_block_gather_binding.cpp:139-146 | in every run that neither leaks nor fills the address space ids never run out |
| `RegistryStable.StableResolution` | csrc/kv_cache_block_gather_binding.cpp:211-322 | after any run at all that does not release it, a lease is unchanged, and every range that resolved to its mapping still finds that mapping and resolves to the same device address |
| `RegistryStable.StepBytes` | csrc/kv_cache_block_gather_binding.cpp:384-389 | a step leaves the byte counter equal to the owned sizes and at most the peak if and only if it does not fill the address space; the peak is the maximum of the old peak and the new counter |
| `RegistryStable.PeakIsHistoricalMaximum` | csrc/kv_cache_block_gather_binding.cpp:384-389 | after every run that never fills the address space, leaks included, the peak counter is the largest number of registered bytes that any prefix of the run reached |
| `RegistryLimits.OverlapAndShadowedView` | csrc/kv_cache_block_gather_binding.cpp:211-267 | three calls after which two mappings overlap and part of a lease resolves to the older, borrowed mapping |
| `RegistryLimits.LastPageIsNotFound` | csrc/kv_cache_block_gather_binding.cpp:211-250 | after a process has registered a pool in the last page, no accepted range resolves, and every registration of one fails with the overflow error |
| `RegistryLimits.OlderOverlapComesFirst` | csrc/kv_cache_block_gather_binding.cpp:234-250 | with an older mapping that a request overlaps, the same request fails with the overlap error |
| `RegistryLimits.FillingWrapsTheCounter` | csrc/kv_cache_block_gather_binding.cpp:384-389 | two pools that make up the address space leave a byte counter of zero, and releasing one leaves it above the peak |
| `RegistryLimits.LeakIsReachable` | csrc/kv_cache_block_gather_binding.cpp:392-395 | a run of registrations and releases after which the next registration fails and leaves a mapping without a lease |
| `GatherProtocol.BeginThenEndIsUnregister` | csrc/kv_cache_block_gather_binding.cpp:612-676 | the release split at its fence does what the whole release does |
| `GatherProtocol.NextIsSafe` | csrc/kv_cache_block_gather_binding.cpp:309-322 | every event keeps the protocol invariant: reads through the caller's own mapping lie in present mappings, and none of a fenced mapping is pending |
| `GatherProtocol.TraceIsSafe` | csrc/kv_cache_block_gather_binding.cpp:309-442 | the invariant holds after every interleaving of registrations, resolves, enqueues, completions and releases |
| `GatherProtocol.PendingReadsStayMapped` | csrc/kv_cache_block_gather_binding.cpp:432-442 | after every interleaving, a gather that is enqueued and not finished and resolved to its caller's leased mapping reads inside a mapping that is still there, on its device, and still registered if owned |
| `GatherLimits.SafeIffOwn` | csrc/kv_cache_block_gather_binding.cpp:211-322 | a resolved source is present whenever it is read, on every continuation in which its caller keeps the lease until it has enqueued, if and only if the lookup found the caller's leased mapping or one that nobody leases |
| `GatherLimits.ResolvedIsSafeIff` | csrc/kv_cache_block_gather_binding.cpp:211-322 | the same of every resolve that any interleaving of a process can reach, also after handles ran out |
| `GatherLimits.OwnViewIs` | csrc/kv_cache_block_gather_binding.cpp:211-232 | among views that resolve, those that find the leased mapping are those that no older borrowed mapping covers |
| `GatherLimits.ViewIsSafeIff` | csrc/kv_cache_block_gather_binding.cpp:211-322 | in a consistent registry a view into the caller's lease is safe to read on every continuation if and only if no older borrowed mapping covers it when it is resolved |
| `GatherLimits.ShadowedReadIsLost` | csrc/kv_cache_block_gather_binding.cpp:211-322 | seven events, for every process id, at whose end a device reads a mapping that is gone although the caller's lease is still active |
| `MappedHostPools.HostMappingRegistry.constructor` | csrc/kv_cache_block_gather_binding.cpp:82-96 | a new registry is empty and consistent, and its first handle carries the process id |
| `MappedHostPools.HostMappingRegistry.FindHostMapping` | csrc/kv_cache_block_gather_binding.cpp:211-232 | the first mapping that holds the range, on the right device, or the error |
| `MappedHostPools.HostMappingRegistry.FindOverlapping` | csrc/kv_cache_block_gather_binding.cpp:234-267 | the first mapping the range overlaps; none exactly when no mapping overlaps |
| `MappedHostPools.HostMappingRegistry.FindById` | csrc/kv_cache_block_gather_binding.cpp:422-430 | the first mapping with an id; none exactly when no mapping has it |
| `MappedHostPools.HostMappingRegistry.GetMappedDevicePtr` | csrc/kv_cache_block_gather_binding.cpp:309-322 | the device address of a range; for the range of any active lease, the address recorded in it, or nothing when its mapping ends with the address space |
| `MappedHostPools.HostMappingRegistry.RegisterPool` | csrc/kv_cache_block_gather_binding.cpp:324-420 | the new state and outcome are those of the specification, and the registry stays consistent if and only if nothing leaks and the address space is not filled |
| `MappedHostPools.HostMappingRegistry.UnregisterPool` | csrc/kv_cache_block_gather_binding.cpp:612-676 | the registry stays consistent; success removes exactly the handle, anything else changes no field, and an unknown handle is reported as not active |
| `MappedHostPools.HostMappingRegistry.EraseMapping` | csrc/kv_cache_block_gather_binding.cpp:653-674 | removes the mapping with an id and keeps the order of the others |
| `MappedHostPools.HostMappingRegistry.Inspect` | csrc/kv_cache_block_gather_binding.cpp:581-610 | the lease of a handle with all it recorded, its process included, or none exactly when the handle is unknown; a lease is active and is owned or already mapped, not both |
| `MappedHostPools.HostMappingRegistry.Stats` | csrc/kv_cache_block_gather_binding.cpp:522-566 | all fifteen statistics of the current state, the counters as signed 64-bit numbers |
| `MappedHostPools.StatsAreConsistent` | csrc/kv_cache_block_gather_binding.cpp:522-566 | while the registry is consistent, owned mappings are register minus unregister calls, mapped bytes are the byte counter when nothing is borrowed, all stored handles are active and are the registrations minus the explicit releases, total bytes are those of the ACL registrations |
| `MappedHostPools.LargestIsAttained` | csrc/kv_cache_block_gather_binding.cpp:532-537 | the reported largest region bounds every mapping and is the size of one, or zero |
| `CompressedPositions.VectorIsPerRequest` | vllm_ascend/utils.py:1746-1766 | the vectorised repeat and prefix-offset computation equals the ranges of the requests one after another, also with requests that add nothing and with none at all |
| `CompressedPositions.GetCompressedPositions` | vllm_ascend/utils.py:1701-1767 | exactly which inputs fail and how; otherwise, for each compression ratio, positions, request indices and lengths of all requests, segment by segment, also for one request with several ids or none |
| `CompressedPositions.CompressIs` | vllm_ascend/utils.py:1745-1752 | compressed counts are quotients rounded down for ratios above one, and the counts themselves otherwise |
| `CompressedPositions.SelectFromBatch` | vllm_ascend/utils.py:1746-1766 | picking one request's entries out of a batch gives exactly its range of positions |
| `CompressedPositions.StepEmitsRange` | vllm_ascend/utils.py:1746-1766 | one step emits for a request the positions from its old to its new compressed length |
| `CompressedPositions.HistoryEmitsEveryPositionOnce` | vllm_ascend/utils.py:1746-1767 | over any history of steps, each with its own batch of requests in any rows, a request's positions are emitted once each and in order, however its tokens were divided into steps |
| `CompressedPositions.RowIsItsRequest` | vllm_ascend/utils.py:1701-1716 | in a batch that names each request once, a request gets the tokens of its own row |
| `NzLayout.NdToNz2dAt` | vllm_ascend/utils.py:305-324 | shape and every element of the NZ tensor: element (i, j) is at (0, j/16, i, j mod 16), zero outside the matrix |
| `NzLayout.NdToNzSpec` | vllm_ascend/utils.py:327-337 | copying into a zero buffer and rearranging it gives the tensor of the padding routine, for every shape |
| `NzLayout.NzMapIsBijection` | vllm_ascend/utils.py:305-337 | the index map and its inverse undo each other and keep within the tiles |
| `NzLayout.TilesKeepContents` | vllm_ascend/utils.py:305-324 | cutting rows into tiles keeps the row-major contents |
| `NzLayout.TransTilesAt` | vllm_ascend/utils.py:1671-1692 | each tile row of the batched layout is the corresponding slice of a matrix row |
| `NzLayout.TransSucceedsIff` | vllm_ascend/utils.py:1671-1692 | the batched layout succeeds if and only if there is no matrix, no row or no column, or the shape divides into tiles |
| `NzLayout.OddRowIsRefused` | vllm_ascend/utils.py:1671-1692 | a matrix of 17 rows is refused |
| `NzLayout.TransMatchesNz2d` | vllm_ascend/utils.py:1671-1692 | for aligned inputs that are not int8 it has the row-major contents of the NZ tensor, matrix by matrix |
| `MoeComm.Mc2IsDownwardClosed` | vllm_ascend/ascend_forward_context.py:242-339 | on every device, if a token count needs MC2 then all smaller counts choose the same method |
| `MoeComm.AgreementIff` | vllm_ascend/utils.py:1316-1329 | when decode needs MC2, all counts up to the larger bound agree if and only if prefill needs it too |
| `MoeComm.SkippingIsSafe` | vllm_ascend/utils.py:1284-1329 | whenever the all-reduce of a mixture-of-experts model is skipped, all ranks choose alike up to the decode bound, and up to the prefill bound too unless the recompute scheduler skipped that test |
| `MoeComm.RecomputeRanksDisagree` | vllm_ascend/utils.py:1316-1329 | a decode node with the recompute scheduler that skips the all-reduce although a prefill batch selects another method than a decode batch |
| `MoeComm.BoundCoversDecodeIff` | vllm_ascend/utils.py:1224-1260 | exactly when the decode bound covers the largest decode batch: with capture sizes, when decode has no more requests of its own, or the batched-token limit comes first, or the largest capture size is enough; without, when that batch has at most 512 tokens |
| `MoeComm.CaptureBoundIsTooSmall` | vllm_ascend/utils.py:1240-1247 | a configuration with 256 decode requests whose bound is the capture size of 64 |
| `MoeComm.CappedBoundIsTooSmall` | vllm_ascend/utils.py:1258-1259 | a configuration without capture sizes whose 1024 decode tokens exceed the bound of 512 |
| `Mc2Padding.CapacityIsCapped` | vllm_ascend/ascend_forward_context.py:208-219 | the capacity is the largest batch padded to the tensor-parallel size, cut off at 512 tokens per rank |
| `Mc2Padding.PaddedBatchFits` | vllm_ascend/ascend_forward_context.py:204-219 | a batch fits the capacity if and only if its padded size does |
| `Mc2Padding.RoundUpIsLeast` | vllm_ascend/ascend_forward_context.py:170-187 | padding gives no more than any multiple of the tensor-parallel size that holds the batch |
| `Mc2Padding.OwnPadding` | vllm_ascend/ascend_forward_context.py:143-146 | the rank's own pad size leads to the same multiple as rounding up |
| `Mc2Padding.RankIsPadded` | vllm_ascend/ascend_forward_context.py:143-174 | a rank that pads ends at the least multiple holding the largest batch of the group, another one at its own count |
| `Mc2Padding.GroupIsPaddedAlikeIff` | vllm_ascend/ascend_forward_context.py:127-174 | all ranks end at one common multiple if and only if each of them pads or has that length |
| `Mc2Padding.DenseGroupSplits` | vllm_ascend/ascend_forward_context.py:135-136 | a dense model with counts 900 and 1101 in which one rank pads and the other does not |
| `Mc2Padding.Mc2State.SetCapacity` | vllm_ascend/ascend_forward_context.py:204-219 | the first call decides the capacity, at most 512 tokens per rank; later calls change nothing |
| `Mc2Padding.Mc2State.SetMask` | vllm_ascend/ascend_forward_context.py:226-235 | the mask is allocated once, all false, for mixture-of-experts models only |
| `Mc2Padding.Mc2State.UpdateMask` | vllm_ascend/ascend_forward_context.py:188-193 | the view is true exactly on the actual tokens whatever was there before, and the rest of the mask is untouched |
| `Mc2Padding.Mc2State.EnterForward` | vllm_ascend/ascend_forward_context.py:127-193 | padding and mask of a forward pass, with and without data parallelism, with a count of its own, with one from the attention metadata, and without any |
| `CpuSlices.IncreasingIsUnique` | vllm_ascend/cpu_binding.py:314 | sorted distinct CPUs do not depend on the order they were listed in, so processes with one cpuset slice one list |
| `CpuSlices.PoolsPartitionTheCpuset` | vllm_ascend/cpu_binding.py:327-368 | every allowed CPU is in the pool of exactly one NPU id, pools hold allowed CPUs only, and sizes differ by at most one |
| `CpuSlices.EveryCpuHasOneHolder` | vllm_ascend/cpu_binding.py:327-451 | every allowed CPU is given to exactly one NPU in exactly one of the roles IRQ, main, acl and release |
| `CpuSlices.RoleCpusAreInPool` | vllm_ascend/cpu_binding.py:434-451 | roles come out of the pool, main is never empty, acl and release have one CPU each |
| `CpuFill.ProcessesDoNotCollide` | vllm_ascend/cpu_binding.py:296-368 | two processes with one cpuset and one NPU map give no CPU to two devices or roles, whichever NPUs each sees; the tables are as the program reads them |
| `CpuFill.CountIsMapped` | vllm_ascend/cpu_binding.py:133-181 | a visible NPU is always a mapped one, so slicing counts the NPU map and never its fallbacks |
| `CpuFill.BuiltPoolsDoNotCollide` | vllm_ascend/cpu_binding.py:296-451 | the same of the pools two processes really build: every visible NPU has enough CPUs, and no CPU has two holders |
| `CpuFill.SlicedIsPools` | vllm_ascend/cpu_binding.py:364-368 | slicing that does not raise gives every visible NPU its slice |
| `CpuFill.AssignIsRoles` | vllm_ascend/cpu_binding.py:434-451 | allocation that does not raise found enough CPUs in every pool and gave each NPU its roles |
| `CpuTopology.GroupDividesItsPool` | vllm_ascend/cpu_binding.py:257-266 | NPUs with equal pools are given every mention of every CPU of the pool once; they share no CPU if and only if no cut falls between two mentions of one CPU, which holds when the pool names every CPU once |
| `CpuTopology.ExtendAddsNextNode` | vllm_ascend/cpu_binding.py:268-280 | CPUs of one node are joined by exactly the allowed CPUs of the next node, CPUs of several nodes stay as they are, and an unknown CPU is an error |
| `CpuTopology.SortKeeps` | vllm_ascend/cpu_binding.py:260 | sorting a shared pool loses and repeats no CPU |
| `CpuTopology.GroupsAreMembers` | vllm_ascend/cpu_binding.py:421-423 | the groups filled one NPU at a time are the NPUs of each pool in candidate order |
| `CpuSharing.PoolsAreAllowed` | vllm_ascend/cpu_binding.py:412-419 | every pool holds allowed CPUs only, all allowed CPUs near its NPU, and each once when the affinity list names it once |
| `CpuSharing.ProcessesAgree` | vllm_ascend/cpu_binding.py:402-419 | processes that do not raise compute the same candidates and the same pools, whichever NPUs each sees |
| `CpuSharing.DisjointIffPoolsApart` | vllm_ascend/cpu_binding.py:402-432 | no CPU is in two NPUs' shares if and only if different pools have no CPU in common and no cut falls between two mentions of one CPU |
| `CpuSharing.PoolsAreNodePools` | vllm_ascend/cpu_binding.py:268-280 | every pool follows from the affinity lists and the NUMA nodes: the allowed CPUs near the NPU and, when they are on one node, those of the next node in the table as the look-ups before it left it |
| `CpuSharing.SameLists` | vllm_ascend/cpu_binding.py:268-280 | a look-up only ever adds nodes without CPUs |
| `CpuSharing.NoNodesAdded` | vllm_ascend/cpu_binding.py:268-280 | with NUMA nodes numbered without gaps no look-up adds a node, and no pool depends on another NPU |
| `CpuFill.NoneTwiceIff` | vllm_ascend/cpu_binding.py:385-432 | the processes of a machine give no CPU to two NPUs if and only if the shares of the visible NPUs in the one plan they all compute are disjoint |
| `CpuFill.MachineIsDisjointIff` | vllm_ascend/cpu_binding.py:385-432 | processes of a machine that all build without an error, whatever NPUs they see, give no CPU to two NPUs if pools that differ have no CPU in common and no cut falls between two mentions of one CPU; only if, when every candidate is visible to some process |
| `CpuFill.ApartOnNodes` | vllm_ascend/cpu_binding.py:268-280 | the first half of that condition is one on affinity lists and NUMA nodes |
| `CpuFill.TopoRolesDoNotCollide` | vllm_ascend/cpu_binding.py:385-451 | under that condition no CPU is given to two NPUs in any roles, by any processes, nor to one NPU in two roles unless its pool names the CPU twice |
| `CpuFill.BuildRaisesWithPlan` | vllm_ascend/cpu_binding.py:402-432 | for tables as the program reads them, a topology build raises exactly when working out the pools does |
| `CpuLimits.NeighbouringPoolsOverlap` | vllm_ascend/cpu_binding.py:268-280 | with three NUMA nodes of five or more CPUs and two NPUs, build and allocation succeed and one CPU runs the main threads of both NPUs |
| `CpuLimits.RepeatedCpuIsSplit` | vllm_ascend/cpu_binding.py:257-266 | with an affinity list that names a CPU twice, build and allocation succeed and one CPU runs the release thread of one NPU and the main threads of another |
| `CpuLimits.UnseenNpuTakesNothing` | vllm_ascend/cpu_binding.py:403-432 | a process that sees one of two NPUs with overlapping pools gives no CPU twice |
| `CpuLimits.GapShiftsPool` | vllm_ascend/cpu_binding.py:268-280 | with nodes 0 and 2 the pool of the second NPU has a CPU that it does not have when it is the only candidate |
| `CpuFill.TopoBuildIsShares` | vllm_ascend/cpu_binding.py:421-432 | a topology build that does not raise keeps exactly the visible NPUs, each with its share of the common plan |
| `CpuFill.TopoProcessesDoNotCollide` | vllm_ascend/cpu_binding.py:385-432 | two processes give allowed CPUs only, give an NPU both see the same CPUs, and give no CPU to two NPUs with equal pools unless a cut falls between two mentions of it |
| `CpuFill.AllGroupsShare` | vllm_ascend/cpu_binding.py:425-430 | going through the groups reaches every candidate and gives it its share |
| `CpuBinding.CpuAlloc.constructor` | vllm_ascend/cpu_binding.py:207-215 | an allocator starts with empty dictionaries |
| `CpuBinding.CpuAlloc.BuildGlobalSlice` | vllm_ascend/cpu_binding.py:296-368 | pools, their order and the error are those of the specification, also when an invalid NPU stops it halfway |
| `CpuBinding.CpuAlloc.ExtendNuma` | vllm_ascend/cpu_binding.py:268-280 | the extended list and the NUMA dictionary after it, including the entry a failed look-up inserts |
| `CpuBinding.CpuAlloc.AverageDistribute` | vllm_ascend/cpu_binding.py:257-266 | each NPU of a group gets its cut of the sorted pool, the last one what is left over |
| `CpuBinding.CpuAlloc.BuildPools` | vllm_ascend/cpu_binding.py:412-419 | pools and NUMA dictionary of the candidates up to the first error |
| `CpuBinding.CpuAlloc.GroupByPool` | vllm_ascend/cpu_binding.py:421-423 | the groups of NPUs with equal pools |
| `CpuBinding.CpuAlloc.Distribute` | vllm_ascend/cpu_binding.py:425-430 | every candidate's share, group by group |
| `CpuBinding.CpuAlloc.KeepVisible` | vllm_ascend/cpu_binding.py:431-432 | the visible NPUs keep their shares; one that is not a candidate is an error that leaves the pools as they were |
| `CpuBinding.CpuAlloc.BuildCpuPools` | vllm_ascend/cpu_binding.py:385-432 | slicing or topology by mode, slicing when no topology is known, and an error without NUMA nodes |
| `CpuBinding.CpuAlloc.Allocate` | vllm_ascend/cpu_binding.py:434-451 | role dictionaries filled in insertion order up to the first pool that is too small |
| `CpuMask.CpuToMask` | vllm_ascend/cpu_binding.py:217-225 | the mask text, parsed as comma-separated groups of eight hexadecimal digits, is two to the power of the CPU number |
| `CpuMask.OneBit` | vllm_ascend/cpu_binding.py:217-225 | that number selects the CPU and no other |
| `BlockSpans.Coalesce` | tools/benchmark_kv_gather_vs_span.py:55-73 | expanding the spans gives the pairs back, and no two neighbouring spans could be joined |
| `BlockSpans.CoalesceIsInverseIff` | tools/benchmark_kv_gather_vs_span.py:55-73 | a span list survives expansion and coalescing if and only if it has no empty and no joinable spans |
| `BlockSpans.CoalesceIsShortest` | tools/benchmark_kv_gather_vs_span.py:55-73 | no span list with the same expansion is shorter |
| `BlockSpans.CoalescedCopyIsBlockCopy` | tools/benchmark_kv_gather_vs_span.py:386-394 | copying the coalesced spans in order leaves what copying pair by pair leaves, also with repeated destinations |
| `BlockSpans.SpanCopy` | tools/benchmark_kv_gather_vs_span.py:386-394 | every part of the destination is overwritten in place, span after span |
| `BlockSpans.CopyMapping` | tools/benchmark_kv_gather_vs_span.py:386-394 | coalescing and span copies together move every pair of the mapping in every part |
| `FragmentedMappings.RunLengthsShape` | tools/benchmark_kv_gather_vs_span.py:90-95 | run lengths add up to the selection, are full except the last, and there are as many as the selection divided by the length, rounded up |
| `FragmentedMappings.BuildFragmentedMapping` | tools/benchmark_kv_gather_vs_span.py:76-113 | which inputs fail; otherwise the selected number of pairs with distinct sources and destinations in range, which coalesce into exactly the requested runs |
| `FragmentedMappings.RunsAreFragmented` | tools/benchmark_kv_gather_vs_span.py:76-113 | runs laid out in separate slots, in any order, are distinct, in range and cannot be joined |
| `QosState.IntRoundTrip` | tools/ai_qos.py:72-88 | the text of a device number reads back as the number |
| `QosState.TruncateIsNearest` | tools/ai_qos.py:89-90 | a number with a fraction is read as the next one towards zero |
| `QosState.PlainTablesPass` | tools/ai_qos.py:71-119 | a table with distinct plain keys and good tuples passes the validator entry by entry |
| `QosState.StateFilesPass` | tools/ai_qos.py:56-121 | a state file of such tables is accepted and read back unchanged |
| `QosHardware.ApplyTouches` | tools/ai_qos.py:404-420 | an apply changes only the levels of four masters, the bandwidth under the SDMA id and the fuse, and adds no register |
| `QosHardware.ApplyWrites` | tools/ai_qos.py:404-420 | every master that reads gets the level of its kind beside its other values, the fuse is switched on, and the bandwidth under the SDMA id is reset |
| `QosHardware.LastApplyWins` | tools/ai_qos.py:404-420 | an apply leaves a device as if no earlier apply had been |
| `QosHardware.ApplyChangesNothingIff` | tools/ai_qos.py:404-420 | an apply leaves a device as it was if and only if the device already has its levels, fuse and bandwidth |
| `QosHardware.LevelsFollow` | tools/ai_qos.py:326-367 | a master serving two directions gets the level of the lower priority, and levels grow with priorities |
| `QosHardware.RegsComeBack` | tools/ai_qos.py:284-309 | writing a device's snapshot back restores all its registers, whatever applies wrote in between |
| `QosTables.CaptureHolds` | tools/ai_qos.py:178-221 | a captured table holds exactly the listed devices that could be read |
| `QosTables.MergeHolds` | tools/ai_qos.py:237-246 | merged entries are the new ones where there are any and the old ones elsewhere |
| `QosTables.RestoreWrites` | tools/ai_qos.py:284-309 | going through a table writes each device once, from its own entry |
| `QosSnapshots.ExtendedIsHeld` | tools/ai_qos.py:224-246 | extending a baseline keeps the first values of devices saved completely and captures the others now |
| `QosRuns.NextApplyTracks` | tools/ai_qos.py:340-436 | a later apply reads its own file back, keeps the baseline, and changes only registers the baseline restores |
| `QosRuns.UndoRestores` | tools/ai_qos.py:270-319 | the validator accepts every file an apply writes, and the undo gives every saved device its baseline and touches no other |
| `QosRuns.FreshFileIsDropped` | tools/ai_qos.py:270-283 | a file that an apply takes as none, garbled or without a QoS table, is removed by an undo without touching a device |
| `QosRuns.UndoRestoresIff` | tools/ai_qos.py:224-436 | from any file that counts as none, after any applies one undo restores the whole hardware if and only if each listed device could be saved completely, or is listed once, or already had what the listing before the last one writes |
| `QosRuns.RoundTrip` | tools/ai_qos.py:270-436 | from any file that counts as none, with devices that read completely, any applies followed by one undo restore everything and remove the file |
| `QosCycles.EveryUndoRestores` | tools/ai_qos.py:270-436 | from any file that counts as none, through any mix of applies and undos every undo leads back to the start |
| `QosCycles.PartialDeviceIsLost` | tools/ai_qos.py:224-246 | from any file that counts as none, a device without an SDMA master is not restored after two applies, for all priorities |
| `AiQos.QosTool.CaptureQos` | tools/ai_qos.py:178-192 | the table of all readable masters of the listed devices |
| `AiQos.QosTool.CaptureBw` | tools/ai_qos.py:195-210 | the table of SDMA bandwidths, for devices where both reads succeed |
| `AiQos.QosTool.CaptureFuse` | tools/ai_qos.py:213-221 | the table of fuse settings |
| `AiQos.QosTool.MergeBaseline` | tools/ai_qos.py:224-246 | the baseline extended by the devices missing from any of its tables |
| `AiQos.QosTool.WriteDevice` | tools/ai_qos.py:404-420 | fuse, bandwidth and levels of one device, each level beside the values just read |
| `AiQos.QosTool.ApplyPriorities` | tools/ai_qos.py:340-436 | registers and state file after an apply; a file whose root is no object is an error that changes nothing |
| `AiQos.QosTool.ParseState` | tools/ai_qos.py:56-121 | what the validator accepts and returns, including signs, surrounding spaces, underscores and fractions in numbers |
| `AiQos.QosTool.RunUnset` | tools/ai_qos.py:270-319 | registers and state file after an undo, also without a file and with one that is not accepted |

## Left out

- MachineIsDisjointIff: the converse needs every candidate NPU to be visible to some process; `UnseenNpuTakesNothing` shows why, and `NoneTwiceIff` is the exact condition without that.
- RunKeepsInv: runs in which a registration leaks or fills the address space are excluded, since that step breaks the invariant; `RunKeepsWeak` and `StableResolution` cover them.
- PeakIsHistoricalMaximum: runs in which owned mappings fill the address space are excluded; `FillingWrapsTheCounter` shows what happens there.
- PendingReadsStayMapped: a caller that releases its own lease between resolving and enqueueing is excluded, as in the binding's contract, and a gather that resolved to another mapping than its lease's is left to `ResolvedIsSafeIff`.
- BuildCpuPools: is called on a new allocator with distinct logical NPU ids, as its only caller does.
- ExtendNuma: group keys compare pools as lists where the program compares their printed form.
- UndoRestoresIff: starts from a state file that counts as none; a file with a baseline of an earlier start belongs to that start's run, and with a root that is no object every apply fails.
- HistoryEmitsEveryPositionOnce: scheduled tokens become computed tokens; tokens taken back after speculative decoding are not modelled.
- Validate: digits and spaces beyond ASCII, texts of thousands of digits, and the values NaN and Infinity are not modelled.
- NextIsSafe: the fence completes all earlier work of its device at once; streams and events are not modelled.
- Tensor checks, the tensor kept alive by a lease, dynamic loading and the pid check after a fork in the gather binding.
- ACL and driver calls: only success or failure and the sequence of calls are modelled.
- 32-bit overflow of compressed positions, and floating-point division in the ceiling of padded tokens.
- Reading npu-smi, lscpu and /proc, thread and memory binding, and writing IRQ files in CPU binding: the model starts from the parsed tables.
- Switch-side commands of the QoS tool beyond saving and returning their text, and the parsing of JSON text.
- QoS registers that read in one call and fail in the next: a register either exists or not throughout a run.
- Timing, statistics and output files of the span benchmark, and how its random orders are drawn.
- Device kernels, attention, model and platform configuration code, and the remaining tools.
