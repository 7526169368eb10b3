# Memory, caches and distributed sort of the BlazingSQL engine

A Dafny model of the layer of the C++ engine that keeps tables somewhere while a query runs: the pool
that hands out chunks of host memory, the packing of column buffers into those chunks, the waiting queue
between kernels, the cache machine that moves tables between GPU, host memory and disk, the monitor that
triggers those moves, the counters they consult, and the range partitioning that turns locally sorted
tables into one globally sorted result.

Each component has a specification on values (a state machine, or functions on sequences) about which the
theorems are proved, and, where the source updates things in place, a class or method proved against that
specification.

| file | what it holds |
|---|---|
| `AllocationPoolModel.dfy`, `AllocationPool.dfy` | the chunk pool: invariant, runs, the object |
| `Packing.dfy`, `HostMemory.dfy`, `HostTable.dfy` | packing against the flat layout, memory addresses, the loops that pack, copy in, copy out and return chunks |
| `WaitingQueue.dfy`, `QueueMonitor.dfy` | rotation lookup and the queue object; the monitor under every interleaving |
| `CacheData.dfy`, `CacheMachineModel.dfy`, `MessageIds.dfy`, `ArrayAccess.dfy`, `ConcatCacheModel.dfy`, `CacheMachine.dfy` | tiers, the refinement of a plain queue, array access, concatenation, the objects |
| `MemoryMonitor.dfy`, `DeviceMemory.dfy` | the concurrent walk over the kernel tree; the peak counter |
| `SortOrder.dfy`, `DistributedSort.dfy`, `PartitionPlan.dfy` | the order, pivots and cuts; nodes, output caches and the plan |
| `Collections.dfy` | sums, flattening, division |

## Main results

- **Pool.** In every run of `get_chunk`, `free_chunk` and `free_all`, all chunks, free or out, lie inside a
  live allocation and are pairwise disjoint, what the pool counts as out is exactly what the callers hold,
  no allocation is erased under a holder, indexes stay positions, and live chunks are bounded by
  N + outstanding * (N / 2). `get_chunk` throws exactly when nothing is free and the growth is zero, which for
  N >= 2 never happens. `free_all` is safe exactly when nothing is out.
- **Packing.** Byte k of the buffers laid end to end is in chunk k / S at offset k % S; exactly
  max(1, ceil(total / S)) chunks are taken; writing and reading back is the identity, also through physical
  addresses of a reachable pool, and no other table is disturbed.
- **Waiting queue.** In every interleaving no thread sleeps while what it waits for holds, whatever it waits
  for, although two operations rebuild the queue without notifying: taking a message away or downgrading it
  makes no condition true, not even a byte count, because a downgraded table is no larger than it was. Once
  the queue is finished only threads waiting for a count that was not reached can be asleep. Everything
  inserted is delivered or queued exactly once, and in order when nothing is looked up.
- **Cache machine.** Tiers and downgrades are invisible: a run answers like a plain queue with the downgrades
  erased. `addToCache` loses a table while reporting success exactly when no tier takes it.
- **Concatenation.** A pull takes the longest prefix that fits; lazy and eager pulls agree exactly when no
  prefix overflows, and the eager put-back conserves rows.
- **Memory monitor.** Every interleaving of the walk's threads ends, within a bound given by the tree, with
  memory within the limit or nothing on the GPU in any downgradable cache outside the output node.
- **Distributed sort.** With one merge per node it gives a sorted permutation for every number of partitions
  and nodes. The kernels merge once per output cache (`i % (parts / nodes)`), and then the result is sorted
  for all inputs exactly when parts % nodes == 0 or parts / nodes == 1. `generate_partition_plan` always
  asks for such a number.
- **Peak counter.** The maximum is at least the true peak and exceeds it by less than the largest single
  allocation. It is the true peak throughout a run exactly when every allocation that raises it starts with
  all of it in use; `DeviceMemory.MaximumCanOvershoot` is a run where one does not.

Where code and comments differ, the model follows the code: `downgradeCacheData` of a cache machine
moves every GPU message and not one; `put_all` adds the size of a moved-from vector to `processed`, which is
0; the overflow put-back counts messages in `processed` a second time; `buffer_counter` counts chunks created
since the last `free_all`.

## Model

| member | source | states |
|---|---|---|
| AllocationPoolModel.RunIsSafe | engine/src/bmr/BufferProvider.cpp:91-210 | Over every run from a new pool: chunks inside live allocations and pairwise disjoint, index equals position, N chunks in the first allocation and N / 2 in each later one, counter equals what callers hold, all chunks together at most N + out * (N / 2), one allocation left once all are back, and for N >= 2 the exception is unreachable |
| AllocationPoolModel.InvIsSafe | engine/src/bmr/BufferProvider.cpp:106-193 | The invariant implies every part of safety, among them the bound on live chunks and that the counter is the number of chunks out |
| AllocationPoolModel.GotInv | engine/src/bmr/BufferProvider.cpp:106-133 | get_chunk keeps the invariant and throws exactly when no chunk is free and growing would add none |
| AllocationPoolModel.GotOut | engine/src/bmr/BufferProvider.cpp:106-133 | get_chunk hands out exactly one chunk that nobody held, or nothing when it throws |
| AllocationPoolModel.FreedInv | engine/src/bmr/BufferProvider.cpp:161-193 | free_chunk keeps the invariant, erasing and renumbering included |
| AllocationPoolModel.FreedOut | engine/src/bmr/BufferProvider.cpp:161-193 | free_chunk takes back exactly that chunk; every other held chunk keeps its allocation, so none is erased under a holder |
| AllocationPoolModel.FreeAllIsSafe | engine/src/bmr/BufferProvider.cpp:196-210 | free_all takes no chunk away from a holder if and only if nothing is out; otherwise no live allocation is left under what the callers hold |
| AllocationPoolModel.ShapeErase | engine/src/bmr/BufferProvider.cpp:175-188 | Erasing an allocation and decrementing later indexes restores index equals position and keeps regions apart |
| AllocationPoolModel.CarveOk | engine/src/bmr/BufferProvider.cpp:146-154 | The chunks a growth carves lie inside the new region, are distinct and do not overlap |
| AllocationPoolModel.ChunksApart | engine/src/bmr/BufferProvider.cpp:137-159 | Any two chunks known to the pool, of any allocations, do not overlap |
| AllocationPoolModel.PoolBound | engine/src/bmr/BufferProvider.cpp:137-193 | Live chunks are at most N + outstanding * (N / 2) |
| AllocationPoolModel.ChunkTotal | engine/src/bmr/BufferProvider.cpp:144-155 | The set of all chunks, free and out, has as many members as the allocations were carved into |
| AllocationPoolModel.ReachableInv | engine/src/bmr/BufferProvider.cpp:91-210 | Every pool that some run produces satisfies the invariant |
| AllocationPoolModel.AllFreedReachable | engine/src/bmr/BufferProvider.cpp:196-210 | What free_all leaves is a pool that some well-behaved run leaves, so every result about reachable pools holds of it |
| AllocationPool.Pool.constructor | engine/src/bmr/BufferProvider.cpp:91-97 | The new object is reachable and is the pool after its first growth |
| AllocationPool.Pool.Grow | engine/src/bmr/BufferProvider.cpp:137-159 | Appends one allocation at a region that meets no live one, carved into N or N / 2 chunks |
| AllocationPool.Pool.Fill | engine/src/bmr/BufferProvider.cpp:144-155 | The loop carves exactly n chunks, the k-th at k chunk sizes from the base, that point back at their allocation, and counts them |
| AllocationPool.Pool.HasFreeChunk | engine/src/bmr/BufferProvider.cpp:110-115 | True exactly when some allocation has a free chunk |
| AllocationPool.Pool.GetChunk | engine/src/bmr/BufferProvider.cpp:106-133 | The object moves as the specification says, keeps every holder's chunk, returns a chunk nobody held, and None exactly when nothing is free and growth is zero |
| AllocationPool.Pool.MakeRoom | engine/src/bmr/BufferProvider.cpp:110-120 | Grows exactly when no allocation has a free chunk |
| AllocationPool.Pool.TakeFirst | engine/src/bmr/BufferProvider.cpp:121-129 | The chunk is popped from the first allocation that has one |
| AllocationPool.Pool.FreeChunk | engine/src/bmr/BufferProvider.cpp:161-193 | The chunk goes back to its allocation, found by its index; an allocation disappears only if nothing of it is out |
| AllocationPool.Pool.Return | engine/src/bmr/BufferProvider.cpp:173-190 | Push back, and erase when all chunks of an allocation other than the first are back |
| AllocationPool.Pool.EraseAt | engine/src/bmr/BufferProvider.cpp:181-187 | Erases one position and decrements the index of every later allocation, of no other |
| AllocationPool.Pool.FreeAll | engine/src/bmr/BufferProvider.cpp:196-210 | Empties the pool and its counters whatever is out; it stays reachable and counts nothing as out |
| Packing.CutIsFlat | engine/src/bmr/BufferProvider.cpp:270-294 | Byte k of the flat layout is at chunk k / S, offset k % S, and a buffer's slice sizes add up to use_size |
| Packing.CutFits | engine/src/bmr/BufferProvider.cpp:270-294 | Slices are non-empty, inside one chunk each, and only chunks that are needed are used |
| Packing.ChunkCount | engine/src/bmr/BufferProvider.cpp:272-276 | The number of chunks is the one whose last chunk is reached but not passed |
| Packing.WriteConsecutive | engine/src/communication/messages/GPUComponentMessage.cpp:135-142 | Writing a buffer through slices that follow one another is one write at its flat position |
| Packing.ReadConsecutive | engine/src/blazing_table/BlazingHostTable.cpp:86-94 | Reading through such slices is one read at the flat position |
| Packing.WriteAllIsFlat | engine/src/communication/messages/GPUComponentMessage.cpp:132-144 | Writing all buffers through their slices is one write of their concatenation into the flattened chunks, and nothing else changes |
| Packing.ReadAllIsFlat | engine/src/blazing_table/BlazingHostTable.cpp:84-96 | Reading through the slices returns the buffers whenever the flattened chunks hold their concatenation |
| Packing.RoundTrip | engine/src/blazing_table/BlazingHostTable.cpp:80-96 | For any buffers and any previous chunk contents, write then read is the identity |
| Packing.NeededHolds | engine/src/bmr/BufferProvider.cpp:264-299 | The chunks taken have room for everything |
| HostMemory.StoreAllIsWriteAll | engine/src/communication/messages/GPUComponentMessage.cpp:132-144 | Writing at physical addresses of disjoint chunks is chunk-wise writing |
| HostMemory.FetchAllIsReadAll | engine/src/blazing_table/BlazingHostTable.cpp:84-96 | Reading at physical addresses is chunk-wise reading |
| HostMemory.TableRoundTrip | engine/src/blazing_table/BlazingHostTable.cpp:80-96 | A table stored in chunks held from a pool that satisfies the invariant reads back byte for byte |
| HostMemory.TablesCoexist | engine/src/bmr/BufferProvider.cpp:253-302 | Writing a second table in other chunks of the pool leaves the first readable byte for byte |
| HostTable.TakeChunk | engine/src/bmr/BufferProvider.cpp:264-276 | Chunks taken so far stay held and distinct from everything else that is out |
| HostTable.Place | engine/src/bmr/BufferProvider.cpp:277-290 | Both branches yield the next slice of the flat layout |
| HostTable.RollOver | engine/src/bmr/BufferProvider.cpp:272-276 | A full chunk is set aside and a new one begun; the flat position is unchanged |
| HostTable.PackSlice | engine/src/bmr/BufferProvider.cpp:270-294 | One turn of the inner loop adds the next slice of the flat layout |
| HostTable.PackBuffer | engine/src/bmr/BufferProvider.cpp:270-294 | The inner loop ends and yields exactly the flat layout's slices of one buffer |
| HostTable.ConvertGpuBuffersToChunks | engine/src/bmr/BufferProvider.cpp:253-302 | The nested loops end, yield the flat layout of all buffers and take exactly max(1, ceil(total / S)) chunks, new and distinct; no exception for N >= 2 |
| HostTable.CopyBufferIn | engine/src/communication/messages/GPUComponentMessage.cpp:135-142 | The copy loop writes one buffer through its slices |
| HostTable.CopyIn | engine/src/communication/messages/GPUComponentMessage.cpp:132-144 | The copy loops write every buffer |
| HostTable.SerializeToHostTable | engine/src/communication/messages/GPUComponentMessage.cpp:118-150 | Afterwards get_gpu_table's copy returns the buffers, the chunks are new, and every chunk that was out before holds what it held |
| HostTable.CopiedTable | engine/src/communication/messages/GPUComponentMessage.cpp:118-150 | Copying into chunks taken from the pool makes the buffers readable and keeps all memory that was out before |
| HostTable.GetGpuBuffer | engine/src/blazing_table/BlazingHostTable.cpp:86-94 | The inner loop assembles one buffer from its slices |
| HostTable.GetGpuTable | engine/src/blazing_table/BlazingHostTable.cpp:80-98 | The loops assemble every buffer |
| HostTable.HostMemoryResource.Allocate | engine/src/bmr/BlazingMemoryResource.cpp:240-242 | Adds to the host counter |
| HostTable.HostMemoryResource.Deallocate | engine/src/bmr/BlazingMemoryResource.cpp:244-246 | Subtracts from the host counter, without a clamp |
| HostTable.BlazingHostTable.constructor | engine/src/blazing_table/BlazingHostTable.cpp:11-19 | Takes over the parts and adds the table's size to the host counter |
| HostTable.BlazingHostTable.SizeInBytes | engine/src/blazing_table/BlazingHostTable.cpp:60-66 | The loop sums the column sizes |
| HostTable.BlazingHostTable.Destroy | engine/src/blazing_table/BlazingHostTable.cpp:21-28 | Undoes the constructor's accounting and returns every chunk: what is out is exactly what was out before the table |
| HostTable.FreeChunks | engine/src/blazing_table/BlazingHostTable.cpp:24-27 | The loop returns every chunk, leaving out exactly what was out before the table |
| Rotation.IterateFinds | engine/src/cache_machine/WaitingQueue.h:329-340 | A present id is returned after exactly its position + 1 turns, leaving suffix ++ prefix |
| Rotation.IterateForever | engine/src/cache_machine/WaitingQueue.h:329-340 | With no match k turns only rotate a non-empty queue by k mod its length, and every length-many turns restore it |
| Rotation.LookupEnds | engine/src/cache_machine/WaitingQueue.h:329-340 | The loop on a non-empty queue ends if and only if a wanted id is present |
| WaitingQueue.WaitingQueue.Put | engine/src/cache_machine/WaitingQueue.h:59-64 | Appends and counts |
| WaitingQueue.WaitingQueue.PopOrWait | engine/src/cache_machine/WaitingQueue.h:140-166 | Takes the front, or null from an empty finished queue |
| WaitingQueue.WaitingQueue.PopBack | engine/src/cache_machine/WaitingQueue.h:172-181 | Takes the back, or null |
| WaitingQueue.WaitingQueue.GetOrWaitAny | engine/src/cache_machine/WaitingQueue.h:353-395 | Returns the first match and leaves suffix ++ prefix; null from an empty finished queue |
| WaitingQueue.WaitingQueue.GetOrWait | engine/src/cache_machine/WaitingQueue.h:307-340 | The same for one id |
| WaitingQueue.WaitingQueue.GetAllUnsafe | engine/src/cache_machine/WaitingQueue.h:471-478 | Returns all messages in order and leaves none |
| WaitingQueue.WaitingQueue.PutAllUnsafe | engine/src/cache_machine/WaitingQueue.h:484-488 | Appends all messages in order |
| WaitingQueue.WaitingQueue.PutAll | engine/src/cache_machine/WaitingQueue.h:491-496 | Appends all messages; processed does not grow |
| WaitingQueue.WaitingQueue.GetAllMessageIds | engine/src/cache_machine/WaitingQueue.h:423-432 | The ids in queue order |
| QueueMonitor.RunHasNoLostWakeup | engine/src/cache_machine/WaitingQueue.h:59-85 | In every interleaving no thread sleeps while its condition holds, for every wait, the byte count included |
| QueueMonitor.SleepersHaveReason | engine/src/cache_machine/WaitingQueue.h:103-395 | What is true, wait by wait, of the queue that any sleeper of any run sleeps on: empty and unfinished, id absent and unfinished, unfinished, count not reached, bytes not passed |
| QueueMonitor.CallSleeps | engine/src/cache_machine/WaitingQueue.h:103-395 | For each wait, exactly when a call goes to sleep |
| QueueMonitor.CallCompletes | engine/src/cache_machine/WaitingQueue.h:140-395 | What a call that does not sleep takes and leaves: the front, the first match with suffix ++ prefix left, everything, or nothing |
| QueueMonitor.ResumeIsCall | engine/src/cache_machine/WaitingQueue.h:140-166 | A woken thread does what a new call would |
| QueueMonitor.TakesOutcome | engine/src/cache_machine/CacheMachine.cpp:567-579 | pop_back takes the back, get_all everything, and the locked part of pullUnorderedFromCache the first GPU message, if any |
| QueueMonitor.HangsForever | engine/src/cache_machine/WaitingQueue.h:329-340 | The lookups that are not steps are exactly those on a finished, non-empty queue whose loop never returns |
| QueueMonitor.StepsEnabled | engine/src/cache_machine/WaitingQueue.h:59-496 | Only a second call by the same thread and a lookup that would hang are excluded from runs |
| QueueMonitor.RunCounts | engine/src/cache_machine/WaitingQueue.h:59-85 | Over every run processed counts the puts (and no put_all), finished says whether finish was called, and what was inserted is what the steps put, in order |
| QueueMonitor.StepIsNotMore | engine/src/cache_machine/CacheMachine.cpp:567-579 | Steps that take or downgrade without notifying make no sleeper's condition true |
| QueueMonitor.DowngradeIsRebuild | engine/src/cache_machine/CacheMachine.cpp:652-671 | What downgradeCacheData makes of a cache machine's queue is a rebuild step: same ids and tables in place, off the GPU, none larger |
| QueueMonitor.FinishedWakesEveryone | engine/src/cache_machine/WaitingQueue.h:81-85 | In a finished queue the only threads asleep wait for a count above the number processed |
| QueueMonitor.RunDeliversExactlyOnce | engine/src/cache_machine/WaitingQueue.h:140-181 | Over every run the multiset inserted equals delivered plus queued, lookups, drains and rebuilds included |
| QueueMonitor.RunIsFifo | engine/src/cache_machine/WaitingQueue.h:140-166 | Without takes by id, from the back or by tier, ids and tables delivered, then those queued, are those inserted, downgrades interleaved anywhere |
| CacheData.StoreHostLoads | engine/src/cache_machine/CacheData.cpp:34-40 | The host tier gives back exactly the table it was given, by the packing round trip |
| CacheData.DowngradeKeeps | engine/src/cache_machine/CacheData.cpp:20-80 | A downgraded table decaches to the same rows, and is in host memory exactly when that had room, else on disk; other data stays as it is |
| CacheData.Accounting | engine/src/cache_machine/ConcatCacheData.cpp:7-41 | Row count and size of any cached data, nested concatenations included, are those of what decache yields |
| CacheMachineModel.RunRefinesFifo | engine/src/cache_machine/CacheMachine.cpp:302-671 | Any run of adds, pulls, pulls by id and downgrades answers as the plain queue answers the run without downgrades, and ends in the same contents and counters |
| CacheMachineModel.RunDeliversInOrder | engine/src/cache_machine/CacheMachine.cpp:302-671 | Without array access or pulls by id, what was pulled followed by what is queued is exactly what the adds stored, in order, whatever the tiers and downgrades |
| CacheMachineModel.StepRefines | engine/src/cache_machine/CacheMachine.cpp:302-671 | Each operation commutes with forgetting tiers |
| CacheMachineModel.DowngradeRefines | engine/src/cache_machine/CacheMachine.cpp:652-671 | A downgrade keeps ids, order and tables, leaves no message on the GPU, and puts each in host memory exactly when that has room at its turn |
| CacheMachineModel.AddTableStores | engine/src/cache_machine/CacheMachine.cpp:302-416 | A table is dropped if and only if it is empty, something was added before and it need not be added always; otherwise it is queued, under its id or the cache's name when the id is empty, in its tier and loading back as it was, if and only if some tier takes it; counters and the answer true are the same either way |
| CacheMachineModel.AddDataStores | engine/src/cache_machine/CacheMachine.cpp:214-300 | Cached data is dropped under the same rule, and otherwise queued as it is under its id or the cache's name, and counted by what it loads as |
| CacheMachineModel.TableCanBeLost | engine/src/cache_machine/CacheMachine.cpp:302-416 | A concrete table that no tier has room for: true is returned, its row is counted, nothing is queued |
| CacheMachineModel.TierIsFirstWithRoom | engine/src/cache_machine/CacheMachine.cpp:322-332 | The tier is the override or the first with room; there is none exactly when the override is out of range or nothing has room |
| CacheMachineModel.RunConservesRows | engine/src/cache_machine/CacheMachine.cpp:100-416 | num_rows_added equals rows offered, dropped tables included, and equals rows delivered plus queued |
| CacheMachineModel.DroppedLater | engine/src/cache_machine/CacheMachine.cpp:305-307 | A dropped table is empty and something was stored before it, so the first table offered is stored |
| MessageIds.IdsDiffer | engine/src/cache_machine/CacheMachine.cpp:140-146 | Ids of different indexes differ |
| MessageIds.IdParsesBack | engine/src/cache_machine/CacheMachine.cpp:202-212 | An id made by put parses back to its index if that fits an int, and otherwise stoi throws |
| MessageIds.StoiReads | engine/src/cache_machine/CacheMachine.cpp:209 | What std::stoi reads of blanks, digits and trailing characters, and when it throws for range |
| MessageIds.StoiReadsSigned | engine/src/cache_machine/CacheMachine.cpp:209 | The same with a sign before the digits |
| MessageIds.PlaceValue | engine/src/cache_machine/CacheMachine.cpp:140-146 | Ids count in decimal: a digit is worth ten times as much per place |
| ArrayAccess.ReorderBuffer | engine/src/cache_machine/CacheMachine.cpp:485-502 | For puts of each index at most once in any order, interleaved with pulls and downgrades, the k-th pull returns the batch of the put with index k, under the name, an underscore and k |
| ArrayAccess.PutStores | engine/src/cache_machine/CacheMachine.cpp:140-146 | A put always stores its batch, an empty one too, under the name, an underscore and the index |
| ArrayAccess.OncePerIsDistinct | engine/src/cache_machine/CacheMachine.cpp:140-146 | The condition on the puts is that their indexes are pairwise different |
| ArrayAccess.ArrayRunRefines | engine/src/cache_machine/CacheMachine.cpp:608-617 | An array-access run answers as the plain queue does |
| ArrayAccess.PullBuffers | engine/src/cache_machine/WaitingQueue.h:307-340 | A pull takes exactly the batch of the next index and keeps the rest pending |
| ConcatCacheModel.GreedyPrefix | engine/src/cache_machine/CacheMachine.cpp:766-779 | A pull takes a prefix, empty only for an empty queue, everything when told so, else one message or within the limit, and every longer prefix exceeds the limit |
| ConcatCacheModel.LazyAgreesWithEager | engine/src/cache_machine/CacheMachine.cpp:866-929 | Lazy pull and decache agree with the eager pull, rows and remaining queue, if and only if no prefix overflows |
| ConcatCacheModel.EagerConservesRows | engine/src/cache_machine/CacheMachine.cpp:781-846 | Rows returned plus rows queued are the rows that were queued, put-back or not |
| ConcatCacheModel.EagerPullKeeps | engine/src/cache_machine/CacheMachine.cpp:781-846 | The rows returned are those of the first j messages in order, with j as large as overflow allows; queued afterwards are the untaken messages, then those taken from j on, ids, tables and order as they were |
| CacheMachine.CacheMachine.constructor | engine/src/cache_machine/CacheMachine.cpp:24-56 | A new machine is empty, with index -1 |
| CacheMachine.CacheMachine.AddHostFrameToCache | engine/src/cache_machine/CacheMachine.cpp:100-138 | Queues the host table, under its id or the cache's name, unless it is empty and something was added; counters and answer as specified |
| CacheMachine.CacheMachine.AddCacheData | engine/src/cache_machine/CacheMachine.cpp:214-300 | Queues the data as it is, under its id or the cache's name, by the same rule or always |
| CacheMachine.CacheMachine.AddToCache | engine/src/cache_machine/CacheMachine.cpp:302-416 | Counters, answer and queue are those of the specification on every path, the one that stores nothing included; what is stored is under its id or the cache's name |
| CacheMachine.CacheMachine.PutInFirstTier | engine/src/cache_machine/CacheMachine.cpp:323-408 | The loop over tiers stores in the override or the first tier with room, and nowhere else |
| CacheMachine.CacheMachine.Put | engine/src/cache_machine/CacheMachine.cpp:140-142 | Stores the batch under its index's id, empty or not |
| CacheMachine.CacheMachine.TakeNext | engine/src/cache_machine/CacheMachine.cpp:492-498 | The message both pulls get from the queue is the front or the one of the next index |
| CacheMachine.CacheMachine.PullFromCache | engine/src/cache_machine/CacheMachine.cpp:485-525 | Takes the front or the next index and decaches it |
| CacheMachine.CacheMachine.PullCacheData | engine/src/cache_machine/CacheMachine.cpp:608-647 | Takes the front or the next index |
| CacheMachine.CacheMachine.PullCacheDataById | engine/src/cache_machine/CacheMachine.cpp:528-556 | Takes the first message with the id |
| CacheMachine.CacheMachine.TakeGpuMessage | engine/src/cache_machine/CacheMachine.cpp:567-579 | Takes the first message on the GPU and leaves the others in order; none exactly when there is none |
| CacheMachine.SplitFirstGpu | engine/src/cache_machine/CacheMachine.cpp:570-577 | The loop separates the first GPU message from all others, which keep their order |
| CacheMachine.CacheMachine.DowngradeCacheData | engine/src/cache_machine/CacheMachine.cpp:652-671 | Every GPU message moves, ids and order stay, and the bytes reported are the GPU bytes there were |
| CacheMachine.GpuBytesAppend | engine/src/cache_machine/CacheMachine.cpp:656-667 | The bytes reported add up over the messages |
| CacheMachine.GpuBytesOfOne | engine/src/cache_machine/CacheMachine.cpp:659-661 | One message counts with its table's size if it is on the GPU, and else with nothing |
| CacheMachine.CacheMachine.GetAllIndexes | engine/src/cache_machine/CacheMachine.cpp:202-212 | The index stoi reads from each queued id, or failure exactly when some id lacks the prefix or stoi throws |
| CacheMachine.ConcatenatingCacheMachine.Collect | engine/src/cache_machine/CacheMachine.cpp:766-779 | The do-while loop takes exactly the greedy prefix |
| CacheMachine.ConcatenatingCacheMachine.PullFromCache | engine/src/cache_machine/CacheMachine.cpp:750-864 | The eager pull, put-back included |
| CacheMachine.ConcatenatingCacheMachine.PutBackFrom | engine/src/cache_machine/CacheMachine.cpp:797-806 | The overflowing table returns as a GPU message, those behind it as they were, each counted again |
| CacheMachine.ConcatenatingCacheMachine.PullCacheData | engine/src/cache_machine/CacheMachine.cpp:866-929 | The lazy pull |
| MemoryMonitorModel.WalkFreesMemory | engine/src/bmr/MemoryMonitor.cpp:83-108 | In every interleaving a finished walk leaves memory within the limit or no GPU data in any downgradable cache outside the output node, and every cache with its items in order |
| MemoryMonitorModel.WalkStops | engine/src/bmr/MemoryMonitor.cpp:93-107 | From any state in which memory fits, whatever steps follow, only caches of nodes that some thread is at can change |
| MemoryMonitorModel.WalkStaysInTree | engine/src/bmr/MemoryMonitor.cpp:84-92 | Caches outside the tree and those of the output node are never touched |
| MemoryMonitorModel.CachesUnderArePaths | engine/src/bmr/MemoryMonitor.cpp:83-108 | The caches the walk answers for are exactly those of nodes some path of children leads to, the output node left out |
| MemoryMonitorModel.DowngradedReleases | engine/src/bmr/MemoryMonitor.cpp:87-90 | A downgrade releases exactly the cache's GPU bytes, clamped at zero, and touches no other cache |
| MemoryMonitorModel.GpuBytesAppend | engine/src/cache_machine/CacheMachine.cpp:656-667 | GPU bytes add up over a cache's items |
| MemoryMonitorModel.GpuBytesOfOne | engine/src/cache_machine/CacheMachine.cpp:659-661 | One item counts with its bytes if it is on the GPU, and else with nothing |
| MemoryMonitorModel.OwnCachesOnly | engine/src/bmr/MemoryMonitor.cpp:85-91 | Downgrading a node's caches in turn touches no other cache |
| MemoryMonitorModel.OwnCachesRelease | engine/src/bmr/MemoryMonitor.cpp:85-91 | Downgrading a node's caches in turn releases the sum of their GPU bytes |
| MemoryMonitorModel.WalkSkipsConcatenating | engine/src/cache_machine/CacheMachine.h:166-168 | A concatenating cache, which is not downgraded, holds exactly the same items on the same tiers after any walk |
| MemoryMonitorModel.AtMostTwoRounds | engine/src/bmr/MemoryMonitor.cpp:87-90 | No thread downgrades a cache more than twice |
| MemoryMonitorModel.WalkIsBounded | engine/src/bmr/MemoryMonitor.cpp:83-108 | Every schedule ends within 1 + 4 * caches steps per node |
| MemoryMonitorModel.StepDecreases | engine/src/bmr/MemoryMonitor.cpp:83-108 | Every step of every thread leaves less to do |
| MemoryMonitor.MemoryMonitor.DowngradeCache | engine/src/bmr/MemoryMonitor.cpp:87-90 | The do-while ends after one or two rounds; the effect is that of one downgrade, and the cache is clear |
| MemoryMonitor.MemoryMonitor.DowngradeCaches | engine/src/bmr/MemoryMonitor.cpp:83-108 | The recursion ends with memory within the limit or all downgradable caches below clear, and when memory fits after the node's own caches every other cache is left as it was |
| MemoryMonitor.DowngradeTasks | engine/src/bmr/MemoryMonitor.cpp:44-69 | Tasks taken from the back and added back leave the queue in its order; those before some point are untouched, those from it on have the same inputs, none on the GPU |
| MemoryMonitor.TasksFreeMemory | engine/src/bmr/MemoryMonitor.cpp:44-63 | No more tasks than necessary are moved, and afterwards memory fits or every task was moved |
| DeviceMemory.MaximumBracketsPeak | engine/src/bmr/BlazingMemoryResource.cpp:122-144 | In every run from zero, clamped deallocations included, true peak <= maximum < true peak + largest allocation, or both are zero |
| DeviceMemory.PeakBound | engine/src/bmr/BlazingMemoryResource.cpp:122-144 | The same from any state whose use is at most its maximum |
| DeviceMemory.PeakIsReached | engine/src/bmr/BlazingMemoryResource.cpp:122-144 | The true peak is the largest use after any prefix of the run |
| DeviceMemory.LargestIsLargest | engine/src/bmr/BlazingMemoryResource.cpp:122-132 | The largest allocation of the bound is one of the run and none is larger |
| DeviceMemory.MaximumIsPeak | engine/src/bmr/BlazingMemoryResource.cpp:122-144 | The maximum equals the true peak after every prefix of a run if and only if every allocation that raises it starts with use equal to the maximum |
| DeviceMemory.MaximumCanOvershoot | engine/src/bmr/BlazingMemoryResource.cpp:126-129 | A concrete run whose maximum exceeds its peak |
| DeviceMemory.UsedIsBalance | engine/src/bmr/BlazingMemoryResource.cpp:134-144 | Use is bytes allocated less bytes freed if and only if no deallocation was clamped, and is above it otherwise |
| DeviceMemory.DeviceMemoryResource.DoAllocate | engine/src/bmr/BlazingMemoryResource.cpp:122-132 | Use grows by the bytes, and the maximum by the same amount if use passes it |
| DeviceMemory.DeviceMemoryResource.DoDeallocate | engine/src/bmr/BlazingMemoryResource.cpp:134-144 | Use shrinks, clamped at zero; null or zero bytes changes nothing |
| SortOrder.LexIsTotal | engine/src/distribution_utils/primitives.cpp:47-49 | The column-by-column order with nulls after values is total and transitive for any ascending and descending columns |
| SortOrder.LeByFirstDifference | engine/src/distribution_utils/primitives.cpp:47-49 | A key is at most another if and only if they are equal or it comes before in the first column that differs: a smaller value or a value before a null, reversed in a descending column |
| SortOrder.FlipReverses | engine/src/distribution_utils/primitives.cpp:47-49 | Turning every column from ascending to descending and back reverses the order, nulls included |
| DistributedSort.PivotsInBounds | engine/src/distribution_utils/primitives.cpp:133-146 | n - 1 pivot indexes, none without samples, all in bounds and in order |
| DistributedSort.PivotsSpaced | engine/src/distribution_utils/primitives.cpp:138-142 | The first pivot index is rows / n and consecutive ones differ by rows / n |
| DistributedSort.MakePivotIndexes | engine/src/distribution_utils/primitives.cpp:138-142 | Counting up from 1 and scaling in place gives (i + 1) * (rows / n) at each i |
| DistributedSort.GetPivotPoints | engine/src/distribution_utils/primitives.cpp:133-149 | n - 1 sorted pivots, the i-th being the sample at (i + 1) * (rows / n) |
| DistributedSort.PartsMakeTable | engine/src/operators/OrderBy.cpp:258-275 | The partitions of a sorted table, in order, are the table |
| DistributedSort.PartInRange | engine/src/operators/OrderBy.cpp:270-274 | Every row of a partition is above the pivot before it and at most the pivot after it, ties going to the earlier partition |
| DistributedSort.RangesOrdered | engine/src/operators/OrderBy.cpp:270-274 | Rows of an earlier range are at most rows of a later one |
| DistributedSort.SentOnce | engine/src/execution_kernels/distributing_kernel.cpp:203-238 | Whatever the assignment, no row is lost or sent twice |
| DistributedSort.DistributedSortIsCorrect | engine/src/distribution_utils/primitives.cpp:34-149 | For any tables, pivots and assignment the merged buckets are a permutation of all rows, and sorted when the assignment is monotone |
| PartitionPlan.NodeShares | engine/src/distribution_utils/primitives.cpp:97-104 | Each node but the last gets exactly parts / nodes consecutive partitions, the last those plus parts % nodes |
| PartitionPlan.NodesMonotone | engine/src/distribution_utils/primitives.cpp:100-104 | Partitions map to nodes monotonically |
| PartitionPlan.PartitionData | engine/src/distribution_utils/primitives.cpp:71-107 | An empty table goes to every node; fewer partitions than nodes is the exception, and only then; else every partition with its node |
| PartitionPlan.Share | engine/src/distribution_utils/primitives.cpp:99-104 | The loop pairs every partition with its node |
| PartitionPlan.SharesAreSent | engine/src/distribution_utils/primitives.cpp:71-107 | What partitionData addresses to a node is what that bucket receives in the sort |
| PartitionPlan.SortPerNode | engine/src/distribution_utils/primitives.cpp:71-131 | One merge per node gives a sorted permutation for every number of partitions and nodes |
| PartitionPlan.CachesCross | engine/src/execution_kernels/BatchOrderByProcessing.cpp:375-376 | When partitions do not divide evenly and a node has several caches, a later partition goes to an earlier cache |
| PartitionPlan.CrossingBreaks | engine/src/execution_kernels/BatchOrderByProcessing.cpp:375-376 | Any assignment in which two partitions cross fails to sort a concrete two-row table |
| PartitionPlan.SortPerCache | engine/src/execution_kernels/BatchOrderByProcessing.cpp:368-404 | One merge per output cache sorts every input if and only if parts % nodes == 0 or parts / nodes == 1 |
| PartitionPlan.PlanIsEven | engine/src/operators/OrderBy.cpp:311-316 | The planned number of partitions is the estimate rounded up to a positive multiple of the number of nodes, or the maximum |
| PartitionPlan.PlannedSortIsCorrect | engine/src/operators/OrderBy.cpp:277-345 | With the planned number of partitions the output caches, read in order, are a sorted permutation of all rows |

## Left out

- CUDA, cuDF, RMM, UCX, Arrow and ORC: foreign code. `upper_bound`, `split`, `merge`, `sorted_order` and `gather` appear by what they promise; the samples given to GetPivotPoints are already sorted, as `generatePartitionPlans` makes them.
- The memory allocator: it may answer with any region that is not null and meets no live one; failing is left out of the pool, so a growth always succeeds.
- AllocationPool.Pool.FreeChunk: requires a chunk that is out; returning one twice is undefined in the source.
- HostTable.ConvertGpuBuffersToChunks: says nothing about the chunks already taken when the pool throws; the source leaks them. It needs a positive chunk size, without which the source's loop does not end.
- HostTable.SerializeToHostTable: memory is one byte array; a chunk past its end stands for an allocation failure.
- HostTable.BlazingHostTable.Destroy: all chunks come from one pool; a table that mixes the pinned and the host pool is not modelled.
- WaitingQueue.WaitingQueue.GetOrWait: excludes a finished, non-empty queue without the id, on which the source turns the queue forever (Rotation.LookupEnds).
- WaitingQueue.WaitingQueue.GetOrWaitAny: the same exclusion.
- QueueMonitor: a lookup that would turn forever is not a step, so a run ends there; timeouts only appear as wake-ups without a reason.
- AllocationPoolModel.RunIsSafe: runs in which `free_all` is called only while nothing is out; FreeAllIsSafe says that this is exactly when it is safe.
- CacheMachine.CacheMachine.PullCacheData: requires a message in array access, because the source looks at it there without testing it for null.
- CacheMachine.CacheMachine.PullFromCache: requires a message outside array access, because the source reads the message before testing it for null.
- CacheMachine.ConcatenatingCacheMachine.PullFromCache: requires that no single table overflows on its own, since a string column that long cannot be built and concatenating nothing is undefined; puts between the collecting loop's steps are not modelled.
- CacheMachineModel.RunRefinesFifo: runs in which every table offered is taken by some tier and every pull by id can come back; the other cases are AddTableStores and LookupEnds.
- Table contents: a table is a sequence of rows, each a byte string; cuDF's column buffers are replaced by one buffer per row. A table has the same size on every tier; in the source the host size counts the buffers the GPU size counts, except those of empty columns (engine/src/communication/messages/GPUComponentMessage.cpp:31-110, engine/src/execution_kernels/LogicPrimitives.cpp:75-102), so it is never larger, which is all the monitor relies on. The disk tier is an abstract store that gives back what it was given.
- Overflow inside nested concatenations, and the schema check of `ConcatCacheData`.
- Metadata dictionaries (which downgrades do not keep), `CacheMachine::clear`, `pull_all_cache_data`, `pullAnyCacheData`, logging and timers.
- The rest of `pullUnorderedFromCache`: when no message is on the GPU it falls back to `pullFromCache`, as it does for array access.
- 64-bit wrap-around of sizes and counters, and races between the separate atomic updates of the device counters.
- `reset_max_memory_used`, `get_from_driver_used_memory`, and the system calls that overwrite the counters.
- Adds to caches while the memory monitor walks, and the monitor's periodic wake-up.
- MemoryMonitor.MemoryMonitor.DowngradeCaches: visits children one after the other; threads are in MemoryMonitorModel.
- MessageIds: a failed assertion on an id's prefix counts as failure; a build without assertions would go on.
- PartitionPlan.PlannedSortIsCorrect: reads the merged output caches in node and cache order. `MergeStreamKernel` queues one executor task per cache and all of them add to one output, so the order in which they arrive there is the executor's and is not modelled. The estimate computed from row counts in floating point is a parameter; an empty sample, for which there are no pivots, falls under PartitionData.
- Sampling, query-plan parsing, networking, the executor beyond its queue, and the Python layer.
