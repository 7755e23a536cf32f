# Proofs about the TaPaSCo runtime

TaPaSCo's runtime moves data between a host program and processing elements on an FPGA. This project models
the parts of it that carry hard invariants, in Dafny, and proves what they promise. `dafny verify
dfyconfig.toml` checks everything.

| files | what they model |
|---|---|
| `UserDmaWrite.dfy`, `UserDmaWriteRuns.dfy`, `UserDmaWriteProgress.dfy`, and the same three for `UserDmaRead` | `UserSpaceDMA`: any number of threads share bounce buffers, a lock and interrupt counters; steps and their invariant, then whole runs, then progress |
| `KernelRing.dfy`, `KernelRingRuns.dfy`, `KernelReadRing.dfy` | the kernel's DMA: a 16-slot ticket ring for writes, a 16-slot chunk ring for reads |
| `Common.dfy`, `Dma.dfy` | a few shared definitions |
| `FixedSizePool.dfy` | the lock-free pool of fixed size |
| `Bits.dfy`, `Blocks.dfy`, `GenericAllocator.dfy`, `SvmBlockList.dfy` | the two device-memory allocators over one theory of canonical block lists |
| `SvmPages.dfy`, `SvmResults.dfy`, `SvmIntervals.dfy`, `SvmMigrate.dfy` | shared virtual memory (SVM): the interval tree of resident ranges, migration over RAM and several devices |
| `SvmBatch.dfy`, `SvmFaults.dfy` | SVM: batching of page copies into DMA commands, handling of page-fault batches |
| `Base128.dfy`, `Base128Exact.dfy`, `PbMessage.dfy`, `PbEncode.dfy`, `PbOStream.dfy`, `PbDecode.dfy`, `PbIStream.dfy`, `PbRoundTrip.dfy`, `PbRecords.dfy`, `PbSound.dfy` | the nanopb codec: bytes and streams, round trips, records in any order, arbitrary input |
| `Jobs.dfy`, `JobStart.dfy`, `JobSystem.dfy` | starting and releasing jobs over the allocator, what becomes of each argument, and many jobs at once |
| `Irqs.dfy` | interrupt registration and dispatch on AWS F1 |

## How the models are made

Concurrent code is a step system. A state holds the shared variables and, for every thread, where it stands;
each atomic operation, each taking of a lock and each access to a shared queue is one step, and a lock is
dropped together with the last operation under it; the engine's completions and interrupts are steps of their
own. Threads interleave freely, atomics are sequentially consistent, and the engine finishes commands in order
and raises one interrupt for each. A run is a sequence of states and actions from an initial state, and the
results hold in every state of every run. Histories (all commands issued, all bytes landed) are fields of the
state: callers only extend them, and the engine works off the part it has not finished.

Code that updates structures in place is a class or a method on arrays and sequences, with the loops of the
original. Each such method is proved against a function of its inputs, and the laws are proved about that
function.

Waits that succeed are steps that are enabled once the awaited condition holds; waits that poll are steps that may
be taken in vain. How the kernel answers each page migration and how each wait for a DMA interrupt ends is given from
outside, and an operation's result is tied to these answers.

Where the code and what is expected of it differ, the model follows the code, a lemma names an input, and the
exact condition is proved:

- `fix_alignment` adds before it masks. Its result is at least the requested size exactly when that sum does not
  wrap around 64 bits (`RoundsUpIffNoWrap`), and it is a multiple of the alignment exactly for powers of two
  (`MultiplesNeedPowerOfTwo`). A request that rounds to zero (`LargestRequestWraps`) breaks the partition exactly
  when something is free (`ValidIffRoundedPositive`), or free at the place asked for (`FixedValidIffRoundedPositive`).
- `remove_vmem_interval` gives the set difference exactly when no tracked interval starts strictly inside the
  removed range (`RemoveFrom`, `GapBeforeNode`). Its callers meet that, as long as page counts fit.
- Page counts are kept in an `int`. From 2^31 pages on, user-managed migrations and invalidations miss pages or take
  others (`HugeRegions`, `RestStays`, `StrayIsTaken`); the exact conditions are `ArrivedIffCounted`,
  `ClearedIffCountable`, and `Invalidate` with `TooManyPages`.
- `is_contiguous` ignores address bits above 48: addresses that pass it follow each other exactly when their
  upper bits agree (`ContiguousIffSameTop`, `TopBitsIgnored`), and a batch of pages is copied rightly exactly when
  that holds within each command (`MergedRamIff`, `MergedToRamIff`).
- `init_c2h_dma` and `init_h2c_dma` split long transfers without advancing the addresses, so they are right exactly
  up to 4096 pages (`HelperIsRightIff`); every caller stays below that.
- The interrupt of a kernel write may be counted before its command is, so `wq_processed` can exceed
  `wq_enqueued` by one (`InterruptMayComeFirst`, `CountersBounded`).
- A start that runs out of device memory keeps the blocks it had already allocated: the memories are unchanged
  exactly when no allocation came before the failing one (`FailedStart`, `FirstBlockLeaks`).
- A job frees an address that its caller passes with `free`, whoever owns it by then: two jobs that share such a
  buffer lead to a block granted twice (`SharedBufferIsGrantedTwice`). Jobs' blocks stay theirs exactly when no such
  address is the block of a job (`GiveBackKeepsIff`, `OverlapFollows`, `JobsNeverOverlap`).
- An empty `do_copy_to` has no transfer of its own and returns exactly once its channel has counted any interrupt
  (`UserDmaWriteProgress.ReturnsIff`), so it may be left waiting (`UserDmaWriteProgress.EveryCallCanReturn`).
- A string record with a zero byte in it is accepted; the field then holds the string before the zero (`BlobExact`).
- Without assertions compiled in, the pool's reference counts are only ever decremented: they are 0 or 1 exactly
  before the first put (`CountsRightIff`, `CountGoesNegative`).
- The 32-bit varint decoder accepts numbers that are no sign extension (`ToleratedButNoExtension`); which ones is
  `Decode32Exact`, and when they are is `RealExtension`.

## Model

| member | source | states |
|---|---|---|
| UserDmaWrite.ApplyInv | runtime/libtapasco/src/dma_user_space.rs:279-463 | every step of any writer, of the engine or of its interrupt keeps the whole invariant: one place per buffer, tickets in step with commands, bytes in flight intact |
| UserDmaWriteRuns.RunInv | runtime/libtapasco/src/dma_user_space.rs:390-463 | the invariant holds in every state of every interleaving of any number of writers on both channels |
| UserDmaWriteRuns.EveryBufferHasOnePlace | runtime/libtapasco/src/dma_user_space.rs:397-456 | each bounce buffer is in exactly one of pool, one thread's hands, or one position of one out-queue |
| UserDmaWriteRuns.PopsFollowCompletions | runtime/libtapasco/src/dma_user_space.rs:297-313 | the k-th buffer popped is that of the k-th command, and the engine has finished that command |
| UserDmaWrite.PopFindsBuffer | runtime/libtapasco/src/dma_user_space.rs:300-312 | a thread that counted an interrupt finds the out-queue non-empty |
| UserDmaWriteRuns.NeverTooManyInterrupts | runtime/libtapasco/src/dma_user_space.rs:304-312 | the error `TooManyInterrupts` is unreachable |
| UserDmaWrite.InFlightQueued | runtime/libtapasco/src/dma_user_space.rs:417-436 | the buffer of an unfinished command is still in the out-queue |
| UserDmaWriteRuns.NoRefillInFlight | runtime/libtapasco/src/dma_user_space.rs:399-416 | a thread about to fill a buffer never holds one the engine has yet to read |
| UserDmaWriteRuns.ChunkOf | runtime/libtapasco/src/dma_user_space.rs:395-456 | the chunks of a call cut its slice without gaps, whatever the buffer sizes |
| UserDmaWriteRuns.CopyToDelivers | runtime/libtapasco/src/dma_user_space.rs:390-463 | when the call returns, each byte of its slice lies in one of its own chunks, whose transfer has finished and put the chunk at its device address, whoever consumed the interrupts |
| UserDmaWriteRuns.SliceLandsInOrder | runtime/libtapasco/src/dma_user_space.rs:390-463 | when the call returns, its transfers have landed in ticket order and end to end are the slice, for streams as for memory |
| UserDmaWriteRuns.TicketsBelongToOneCall | runtime/libtapasco/src/dma_user_space.rs:417-436 | in every run no ticket is recorded by two calls of a channel |
| UserDmaWriteRuns.DeviceHoldsSlice | runtime/libtapasco/src/dma_user_space.rs:390-463 | device memory holds byte p of the slice when the call returns, unless another call's transfer with a later ticket hit the address; earlier writes do not matter |
| UserDmaWriteRuns.LastWriteWins | runtime/libtapasco/src/dma_user_space.rs:240-276 | a device byte has the value of the last transfers that hit it, whatever came before |
| UserDmaWriteRuns.GuardsHideNothing | runtime/libtapasco/src/dma_user_space.rs:279-463 | a step is disabled only by an empty pool, the lock, an idle engine or a call that has returned |
| UserDmaWriteProgress.ReturnsIff | runtime/libtapasco/src/dma_user_space.rs:296-316 | a call waiting at its end returns exactly if the interrupt of its last transfer has been counted, and reads the interrupt otherwise; one waiting for a buffer goes back to stealing exactly if the pool is not empty |
| UserDmaWriteProgress.SettledReturns | runtime/libtapasco/src/dma_user_space.rs:297-299 | with every command landed, raised and counted, the next step of a call waiting at its end returns |
| UserDmaWriteProgress.EveryCallCanReturn | runtime/libtapasco/src/dma_user_space.rs:390-463 | from every state of every run there is a way for every call to return without a new one arriving; only empty calls may be left waiting for the first interrupt of their channel |
| UserDmaWriteProgress.WorkNeverGrows | runtime/libtapasco/src/dma_user_space.rs:279-463 | a finite measure of the work left never grows unless a call arrives, whoever moves |
| UserDmaWriteProgress.StepUsesWork | runtime/libtapasco/src/dma_user_space.rs:279-463 | every step uses some of it up but those that look in vain for a buffer or an interrupt |
| UserDmaWriteProgress.ChunksFillBuffers | runtime/libtapasco/src/dma_user_space.rs:406 | each transfer is as long as the rest of the slice and the buffer allow |
| UserDmaWriteProgress.CalledAs | runtime/libtapasco/src/dma_user_space.rs:390-393 | a call keeps the slice, address and channel its caller gave |
| UserDmaRead.ApplyInv | runtime/libtapasco/src/dma_user_space.rs:321-529 | every step of any reader, of the engine and of calls on the other channel keeps the invariant |
| UserDmaReadRuns.RunInv | runtime/libtapasco/src/dma_user_space.rs:465-529 | the invariant holds in every state of every interleaving of readers |
| UserDmaReadRuns.CopiedOnceAndInOrder | runtime/libtapasco/src/dma_user_space.rs:342-388 | each chunk is copied back once, in ticket order, after its own transfer, with the bytes the engine delivered |
| UserDmaRead.RetainDropsTaken | runtime/libtapasco/src/dma_user_space.rs:362-388 | what `retain` keeps is exactly the part of the list not yet copied back |
| UserDmaReadRuns.EarlyBreakIsSound | runtime/libtapasco/src/dma_user_space.rs:362-388 | stopping at the first ticket not reached loses nothing: entries are taken exactly if their ticket is below the counter read |
| UserDmaReadRuns.CopyFromDelivers | runtime/libtapasco/src/dma_user_space.rs:465-529 | when the call returns, each output byte came from a transfer of this call at the matching address |
| UserDmaReadRuns.ReadAtCompletion | runtime/libtapasco/src/dma_user_space.rs:465-529 | every delivered transfer was delivered in one step of the run, with the bytes device memory held in that step |
| UserDmaReadRuns.OutputWasOnDevice | runtime/libtapasco/src/dma_user_space.rs:465-529 | each output byte of a call that has returned was in device memory at its address at some moment between the beginning of the call and its return |
| UserDmaReadRuns.OutputEqualsDevice | runtime/libtapasco/src/dma_user_space.rs:465-529 | a byte that keeps its value from the beginning of the call to its return is in the output; other addresses and earlier times may change at will |
| UserDmaReadRuns.EveryBufferHasOnePlace | runtime/libtapasco/src/dma_user_space.rs:465-529 | each bounce buffer is in exactly one of pool, other channel, or one reader's hands |
| UserDmaReadRuns.GuardsHideNothing | runtime/libtapasco/src/dma_user_space.rs:321-529 | a reader is held up only by the lock or because it has returned, stealing only by an empty pool, the engine only when it has nothing to do |
| UserDmaReadProgress.ReturnsIff | runtime/libtapasco/src/dma_user_space.rs:522-526 | a call in its final loop returns exactly if every chunk it sent has been copied back |
| UserDmaReadProgress.CopiesIffReached | runtime/libtapasco/src/dma_user_space.rs:362-388 | the next chunk is copied back exactly if its ticket lies below the counter loaded at the start of the release, and nothing else is |
| UserDmaReadProgress.EveryCallCanReturn | runtime/libtapasco/src/dma_user_space.rs:465-529 | from every state of every run there is a way for every call to return without anyone new arriving, once calls of the other channel give back what they hold |
| UserDmaReadProgress.WorkNeverGrows | runtime/libtapasco/src/dma_user_space.rs:321-529 | a finite measure of the work left never grows unless someone arrives |
| UserDmaReadProgress.ChunksFillBuffers | runtime/libtapasco/src/dma_user_space.rs:484 | each transfer is as long as the rest of the output and the buffer allow |
| UserDmaReadProgress.CalledAs | runtime/libtapasco/src/dma_user_space.rs:465-468 | a call keeps the address and the length its caller gave |
| KernelRing.ApplyInv | runtime/kernel/dma/tlkm_dma.c:206-285 | every step of any writer, of the engine and of its interrupt keeps tickets, commands, slots and bytes in order |
| KernelRingRuns.RunInv | runtime/kernel/dma/tlkm_dma.c:191-288 | the invariant holds in every state of every interleaving |
| KernelRingRuns.CountersBounded | runtime/kernel/dma/blue_dma.c:51-123 | processed <= landed <= commands <= enqueued + 1, and processed exceeds enqueued exactly while a writer stands between command and increment and its command is processed |
| KernelRingRuns.InterruptMayComeFirst | runtime/kernel/dma/blue_dma.c:105-123 | a run in which the interrupt is counted before the command |
| KernelRingRuns.IssuedInTicketOrder | runtime/kernel/dma/tlkm_dma.c:253-271 | the k-th command is written by the caller that drew ticket k, for its chunk, into slot k mod 16 |
| KernelRingRuns.SlotExclusive | runtime/kernel/dma/tlkm_dma.c:226-240 | two callers between the gate and the interrupt counter never use the same slot |
| KernelRingRuns.SlotNotInFlight | runtime/kernel/dma/tlkm_dma.c:226-240 | nor does a caller past the gate share a slot with an unprocessed command of another ticket |
| KernelRingRuns.NeverOverwritten | runtime/kernel/dma/tlkm_dma.c:238-252 | no slot is overwritten before the engine has read it, and what the engine reads is what was put there |
| KernelRingRuns.TicketsAreOwn | runtime/kernel/dma/tlkm_dma.c:206-240 | the tickets a call has used are tickets it drew |
| KernelRingRuns.CopyToDelivers | runtime/kernel/dma/tlkm_dma.c:206-285 | when a call returns, each of its bytes has landed at its device address, carried by a command with a ticket the call drew |
| KernelRingRuns.TurnedAwayIff | runtime/kernel/dma/tlkm_dma.c:199-204 | a call keeps its caller's address and data, and is turned away exactly if the address is not a multiple of the alignment |
| KernelRingRuns.WaitsExactly | runtime/kernel/dma/tlkm_dma.c:228-283 | a caller passes the gate exactly if its ticket is less than 16 above the interrupt counter, writes its command exactly in ticket order, and returns exactly once its last chunk is counted |
| KernelRingRuns.ChunksCutWell | runtime/kernel/dma/tlkm_dma.c:226 | each chunk is as long as the rest of the data and 256 KiB allow |
| KernelRingRuns.NoDeadlock | runtime/kernel/dma/tlkm_dma.c:206-285 | some caller or the engine can move, or every caller that has not returned is an empty transfer waiting for the first interrupt ever |
| KernelRingRuns.StepUsesWork | runtime/kernel/dma/tlkm_dma.c:206-285 | each step of a caller or the engine uses up part of a finite amount of work |
| KernelRingRuns.RunsEnd | runtime/kernel/dma/tlkm_dma.c:206-285 | once callers stop arriving, a run has at most as many steps as work is left |
| KernelReadRing.Reader.CopyFrom | runtime/kernel/dma/tlkm_dma.c:303-408 | a read returns exactly the device bytes for every length, asked for in pieces of 256 KiB through the buffers in turn, or fails, exactly for a misaligned address |
| KernelReadRing.Reader.IssueAll | runtime/kernel/dma/tlkm_dma.c:329-376 | when the last transfer is issued, each byte is at its place or waits in a buffer; the k-th transfer is the k-th piece and goes to buffer k modulo 16 |
| KernelReadRing.Reader.Drain | runtime/kernel/dma/tlkm_dma.c:378-404 | draining the buffers completes the output |
| KernelReadRing.Collected | runtime/kernel/dma/tlkm_dma.c:346-360 | handing a finished buffer to the user keeps every byte accounted for |
| KernelReadRing.IssueKeeps | runtime/kernel/dma/tlkm_dma.c:362-372 | a buffer is reused only after its last transfer, so unfinished commands are always the latest of their buffers |
| FixedSizePool.ApplyInv | runtime/kernel/zynq/gen_fixed_size_pool.h:57-88 | every atomic operation of any thread keeps the pool's invariant, including wrap-around of `curr` |
| FixedSizePool.RunInv | runtime/kernel/zynq/gen_fixed_size_pool.h:46-88 | the invariant holds in every state of every interleaving |
| FixedSizePool.OneHolder | runtime/kernel/zynq/gen_fixed_size_pool.h:57-88 | an index is locked exactly if it has a holder, and it has at most one |
| FixedSizePool.GetIsExclusive | runtime/kernel/zynq/gen_fixed_size_pool.h:57-71 | when `get` returns an index, nobody else holds it |
| FixedSizePool.NoSlotLost | runtime/kernel/zynq/gen_fixed_size_pool.h:57-88 | an unlocked index is at or above `curr` or covered by a pending get or put |
| FixedSizePool.GetFailsOnlyWhenTaken | runtime/kernel/zynq/gen_fixed_size_pool.h:57-71 | when `get` fails, each slot is taken or in a pending operation |
| FixedSizePool.QuiescentGet | runtime/kernel/zynq/gen_fixed_size_pool.h:57-71 | from a state with no pending call, a get that runs alone to its end returns the lowest free index, granted to the caller, and fails exactly if all are taken |
| FixedSizePool.QuiescentPut | runtime/kernel/zynq/gen_fixed_size_pool.h:73-88 | a put that runs alone frees its index, lowers `curr` to it and changes nothing else |
| FixedSizePool.CountsAreZeroOrOne | runtime/kernel/zynq/gen_fixed_size_pool.h:64-68 | with assertions, reference counts are 0 or 1 and the assertion never fails |
| FixedSizePool.CountsFallWithPuts | runtime/kernel/zynq/gen_fixed_size_pool.h:28-33 | without assertions a reference count is minus the number of puts |
| FixedSizePool.CountGoesNegative | runtime/kernel/zynq/gen_fixed_size_pool.h:64-77 | one get and one put without assertions leave the count at -1 |
| FixedSizePool.CountsRightIff | runtime/kernel/zynq/gen_fixed_size_pool.h:28-77 | a reference count is 0 or 1 exactly with assertions, or as long as the index has not been put back |
| Blocks.Unique | runtime/libtapasco/src/allocator.rs:120-141 | two sorted, non-empty, non-touching block lists covering the same addresses are equal element for element |
| Blocks.FirstFitIsLowest | runtime/libtapasco/src/allocator.rs:148-156 | first fit finds a block exactly if a long enough run is free, and it starts at the lowest one |
| Blocks.GivenCanonical | runtime/libtapasco/src/allocator.rs:248-262 | giving a block back adds exactly its addresses and keeps the canonical form |
| Blocks.GivenUndoesWithout | runtime/libtapasco/src/allocator.rs:144-267 | giving back a run that was taken out restores the list element for element |
| Blocks.GivenTogether | runtime/kernel/pcie/pcie_svm.c:579-606 | giving back two neighbours is giving back their union |
| Blocks.GivenCommutes | runtime/libtapasco/src/allocator.rs:241-267 | the order of two frees does not matter |
| GenericAllocator.RoundsUpIffNoWrap | runtime/libtapasco/src/allocator.rs:115-118 | for any alignment, the rounded size is at least the request exactly if the sum does not wrap, and then exceeds it by less than the alignment |
| GenericAllocator.RoundsToMultiple | runtime/libtapasco/src/allocator.rs:115-118 | for a power of two, rounding goes to the next multiple |
| GenericAllocator.MultiplesNeedPowerOfTwo | runtime/libtapasco/src/allocator.rs:115-118 | for no other alignment are all rounded sizes multiples |
| GenericAllocator.LargestRequestWraps | runtime/libtapasco/src/allocator.rs:115-118 | the largest request rounds to zero at alignment 64 |
| GenericAllocator.ValidIffRoundedPositive | runtime/libtapasco/src/allocator.rs:144-175 | an allocation keeps the partition exactly if the rounded size is positive or nothing is free |
| GenericAllocator.FixedValidIffRoundedPositive | runtime/libtapasco/src/allocator.rs:177-239 | a fixed allocation keeps it exactly if the rounded size is positive or no free block touches the place |
| GenericAllocator.AllocateKeepsValid | runtime/libtapasco/src/allocator.rs:144-175 | free and used blocks stay non-empty, disjoint, and together cover the region, for every request that does not round to zero |
| GenericAllocator.AllocateFixedKeepsValid | runtime/libtapasco/src/allocator.rs:177-239 | the same for fixed placement |
| GenericAllocator.FreeKeepsValid | runtime/libtapasco/src/allocator.rs:241-267 | the same for freeing, known or unknown addresses |
| GenericAllocator.EverySequenceKeepsValid | runtime/libtapasco/src/allocator.rs:143-267 | every sequence of such operations keeps the partition and the canonical free list |
| GenericAllocator.AllocateIsLowestFit | runtime/libtapasco/src/allocator.rs:144-175 | allocation succeeds exactly if a run of enough free addresses exists, grants the lowest one with at least the requested size, and takes exactly it |
| GenericAllocator.AllocateFixedIsExact | runtime/libtapasco/src/allocator.rs:177-239 | fixed allocation succeeds exactly if every requested address is free, and takes exactly those |
| GenericAllocator.FreeUndoesAllocate | runtime/libtapasco/src/allocator.rs:144-267 | freeing the block just granted restores both lists element for element |
| GenericAllocator.FreeUndoesAllocateFixed | runtime/libtapasco/src/allocator.rs:177-267 | the same after fixed allocation |
| GenericAllocator.Allocator.MergeMemory | runtime/libtapasco/src/allocator.rs:120-141 | the in-place loop computes the list with all touching neighbours joined |
| GenericAllocator.Allocator.Allocate | runtime/libtapasco/src/allocator.rs:144-175 | the in-place operation computes the allocation function, errors included |
| GenericAllocator.Allocator.AllocateFixed | runtime/libtapasco/src/allocator.rs:177-239 | likewise, with both splitting cases |
| GenericAllocator.Allocator.Free | runtime/libtapasco/src/allocator.rs:241-267 | likewise, errors included |
| GenericAllocator.New | runtime/libtapasco/src/allocator.rs:92-113 | a new allocator is valid, or size or alignment zero is refused |
| SvmBlockList.OnePassIsGiven | runtime/kernel/pcie/pcie_svm.c:497-553 | one-pass merging leaves the list that inserting and merging everywhere would leave |
| SvmBlockList.DeviceMemory.Allocate | runtime/kernel/pcie/pcie_svm.c:399-446 | first fit from the front, keeping the canonical form; -1 and no change if nothing fits |
| SvmBlockList.DeviceMemory.Free | runtime/kernel/pcie/pcie_svm.c:474-558 | the freed region joins the canonical list |
| SvmBlockList.DeviceMemory.FreePages | runtime/kernel/pcie/pcie_svm.c:579-606 | grouped frees leave the list that freeing each page on its own leaves |
| SvmBlockList.GroupIsOneByOne | runtime/kernel/pcie/pcie_svm.c:590-603 | freeing a run of page frames at once equals freeing its pages one by one |
| SvmBlockList.FreeUndoesAllocate | runtime/kernel/pcie/pcie_svm.c:399-558 | freeing what was just allocated restores the list |
| SvmIntervals.Unique | runtime/kernel/pcie/pcie_svm.c:205-365 | a canonical tree is determined by the addresses it covers |
| SvmIntervals.Search | runtime/kernel/pcie/pcie_svm.c:328-356 | exactly the overlapping intervals, in ascending order |
| SvmIntervals.InsertInto | runtime/kernel/pcie/pcie_svm.c:215-260 | inserting a disjoint page range is set union, merged with both neighbours into canonical form |
| SvmIntervals.RemoveFrom | runtime/kernel/pcie/pcie_svm.c:272-317 | the result is the canonical set difference if and only if no interval starts strictly inside the range |
| SvmIntervals.GapBeforeNode | runtime/kernel/pcie/pcie_svm.c:285-316 | a removal that meets a node after a gap, and the inverted interval it leaves |
| SvmIntervals.OneNode | runtime/kernel/pcie/pcie_svm.c:292-312 | cutting a range out of the one interval it meets, with splitting |
| SvmIntervals.OthersStay | runtime/kernel/pcie/pcie_svm.c:272-317 | a removal leaves every interval it does not meet in place |
| SvmMigrate.Svm.MigrateToDevice | runtime/kernel/pcie/pcie_svm.c:1899-1998 | success means all pages handled, the whole range on the target, nothing else moved; failure means a prefix moved; residence stays exclusive either way; it fails exactly if a page migration it asked for failed, with that error, and asks for none after it |
| SvmMigrate.Svm.Round | runtime/kernel/pcie/pcie_svm.c:1944-1991 | one round handles the gap in RAM and the lowest interval of any device, and the remaining lists stay exact; it fails exactly if one of its migrations does |
| SvmMigrate.Svm.Take | runtime/kernel/pcie/pcie_svm.c:1978-1991 | an interval on another device is asked for and its answer returned; one that is on the target already is not, and cannot fail |
| SvmMigrate.FindNext | runtime/kernel/pcie/pcie_svm.c:1946-1964 | the list with the lowest head, or none if all are empty |
| SvmMigrate.GapIsFree | runtime/kernel/pcie/pcie_svm.c:1966-1976 | up to the next interval the range is on no device of the process, so the RAM migration is in order |
| SvmMigrate.PendingOn | runtime/kernel/pcie/pcie_svm.c:1978-1991 | after an interval is handled, the lists hold exactly what overlaps the rest |
| SvmMigrate.MovedExclusive | runtime/kernel/pcie/pcie_svm.c:1922-1994 | moving pages to one device keeps residence exclusive within a process |
| SvmMigrate.Svm.RamToDevice | runtime/kernel/pcie/pcie_svm.c:1388-1392 | the range, in RAM before, is recorded on the target exactly if the kernel's answer is success |
| SvmMigrate.Svm.DeviceToDevice | runtime/kernel/pcie/pcie_svm.c:1617-1620 | exactly if the kernel's answer is success, the range leaves one interval of the source and is recorded on the target; other intervals stay |
| SvmMigrate.Svm.MigrateRegionToDevice | runtime/kernel/pcie/pcie_svm.c:2009-2063 | a region of any address and size is widened to whole pages and moved in blocks, as many pages as the 32-bit count says, up to the first page migration that fails, whose error is returned; with a count that is not positive nothing moves |
| SvmMigrate.PagesAround | runtime/kernel/pcie/pcie_svm.c:2035-2040 | widening gives whole pages around the region and not one too many |
| SvmMigrate.CountedPages | runtime/kernel/pcie/pcie_svm.c:2038 | the count is never too high, and right exactly below 2^31 pages |
| SvmMigrate.HugeRegions | runtime/kernel/pcie/pcie_svm.c:2038 | 2^32 pages count as none, 2^31 as a negative number |
| SvmMigrate.ArrivedIffCounted | runtime/kernel/pcie/pcie_svm.c:2009-2063 | a successful move brings the whole region to the device, wherever its pages were, exactly below 2^31 pages |
| SvmMigrate.Svm.MigrateRegionToRam | runtime/kernel/pcie/pcie_svm.c:2075-2163 | only pages counted for intervals the search finds leave their devices, on success all of them; if the region can be counted, that is exactly the region, and nothing outside changes even on failure; the result is the last error of any block, zero exactly if none failed |
| SvmMigrate.ClearedIffCountable | runtime/kernel/pcie/pcie_svm.c:2107-2150 | taking a range back does what it should in every tree exactly if it has fewer than 2^31 pages and is not the empty range at address zero |
| SvmMigrate.RestStays | runtime/kernel/pcie/pcie_svm.c:2107-2150 | an interval that fills a region of 2^31 pages or more stays at least in part although the migration succeeds |
| SvmMigrate.StrayIsTaken | runtime/kernel/pcie/pcie_svm.c:2107-2150 | the empty range at address zero makes the search wrap around and takes pages far outside it |
| SvmMigrate.Svm.ClearDevice | runtime/kernel/pcie/pcie_svm.c:2123-2153 | all intervals found on one device are taken back in blocks, with truncated counts, failures included; the result is the last error of any block, zero exactly if none failed |
| SvmMigrate.Svm.IntervalToRam | runtime/kernel/pcie/pcie_svm.c:2136-2150 | the pages counted for one interval are taken back in blocks until one fails; within the interval only the kernel's answer makes one fail |
| SvmMigrate.Svm.DeviceToRam | runtime/kernel/pcie/pcie_svm.c:1666-1800 | pages are taken back exactly if the kernel's answer is success and all of them are on the device |
| SvmMigrate.Svm.Invalidate | runtime/kernel/pcie/pcie_svm.c:2432-2455 | with fewer than 2^31 pages the range is removed exactly, interval by interval; beyond that, what happens to a tree in which nothing is found or that has one interval |
| SvmMigrate.TooManyPages | runtime/kernel/pcie/pcie_svm.c:2432-2455 | for every range of 2^31 pages or more there is a valid tree that invalidation leaves wrong |
| SvmMigrate.Svm.FaultToRam | runtime/kernel/pcie/pcie_svm.c:790-794 | a CPU fault removes its page, resident or not |
| SvmBatch.ContiguousIffSameTop | runtime/kernel/pcie/pcie_svm.c:375-378 | addresses that pass the masked comparison are consecutive exactly if their upper bits agree |
| SvmBatch.TopBitsIgnored | runtime/kernel/pcie/pcie_svm.c:375-378 | two addresses that pass it and are far apart |
| SvmBatch.HelperIsRightIff | runtime/kernel/pcie/pcie_svm.c:60-123 | the command helper covers a run exactly if it has at most 4096 pages |
| SvmBatch.PageDma.Init | runtime/kernel/pcie/pcie_svm.c:60-123 | the helper's loop writes the commands the function above describes |
| SvmBatch.PageDma.Throttle | runtime/kernel/pcie/pcie_svm.c:1305-1317 | fewer than 64 commands are outstanding when the next one is issued; it waits only if 64 may be, and fails exactly if that wait did |
| SvmBatch.PageDma.RamToDevice | runtime/kernel/pcie/pcie_svm.c:1278-1326 | for every mix of present and absent pages what the commands do, each of at most 4096 pages; it is page-by-page copying and clearing exactly if pages merged into one command really follow each other; it fails exactly if a wait did, with its error, and stops there |
| SvmBatch.PageDma.DeviceToRam | runtime/kernel/pcie/pcie_svm.c:1761-1800 | the same for runs contiguous on both sides |
| SvmBatch.MergedRamIff | runtime/kernel/pcie/pcie_svm.c:375-378 | the exact condition: the upper address bits of pages merged into one command agree |
| SvmBatch.PageDma.DeviceToDevice | runtime/kernel/pcie/pcie_svm.c:1006-1042 | the same between devices |
| SvmBatch.PageDma.DeviceToDeviceBuffered | runtime/kernel/pcie/pcie_svm.c:1055-1147 | the commands fill and drain the staging buffer chunk by chunk, page for page, and never reach beyond it; it fails exactly if a wait did, with its error, and stops there |
| SvmBatch.StagedCopies | runtime/kernel/pcie/pcie_svm.c:1055-1147 | copying through the staging buffer brings over every page, as direct copying does |
| SvmBatch.Effect | runtime/kernel/pcie/pcie_svm.c:1006-1147 | independent page copies deliver what was there before all of them |
| SvmFaults.RemoveDuplicates | runtime/kernel/pcie/pcie_svm.c:2182-2198 | the in-place loop computes the list without repetitions |
| SvmFaults.DedupDistinct | runtime/kernel/pcie/pcie_svm.c:2182-2198 | of a sorted array the result is strictly ascending |
| SvmFaults.DedupElements | runtime/kernel/pcie/pcie_svm.c:2182-2198 | it has the same elements |
| SvmFaults.PackArray | runtime/kernel/pcie/pcie_svm.c:2207-2221 | the in-place loop computes the list without zeros, in order |
| SvmFaults.HandleBatch | runtime/kernel/pcie/pcie_svm.c:2312-2379 | migrations are asked for exactly for the runs of the addresses to be migrated, up to the first failure; without failure exactly these pages have moved to the device, and no other page ever moves; it fails exactly if a page migration did |
| SvmFaults.BatchArrived | runtime/kernel/pcie/pcie_svm.c:2312-2379 | after a batch without failure every faulted page but page zero is on the device, all of it |
| SvmFaults.BatchIsExact | runtime/kernel/pcie/pcie_svm.c:2312-2379 | these are the distinct faulted pages that are neither resident nor zero, ascending, once each |
| SvmFaults.RunsPartition | runtime/kernel/pcie/pcie_svm.c:2347-2376 | the runs are the addresses, in order |
| SvmFaults.RunsMaximal | runtime/kernel/pcie/pcie_svm.c:2348-2352 | no run could be longer |
| Base128.EncodeVarint32 | runtime/kernel/nanopb/pb_encode.c:498-528 | the split-word encoder writes the bytes of the plain base-128 loop, at most ten |
| Base128.EncodeVarint | runtime/kernel/nanopb/pb_encode.c:530-544 | so does the entry point for every 64-bit number |
| Base128.DecodeInverts | runtime/kernel/nanopb/pb_decode.c:251-270 | the 64-bit decoder inverts it for every 64-bit number and consumes exactly its bytes |
| Base128.DecodeBounded | runtime/kernel/nanopb/pb_decode.c:251-270 | on any bytes the decoded number fits into 64 bits |
| Base128.Decode32Exact | runtime/kernel/nanopb/pb_decode.c:190-243 | what the 32-bit decoder makes of every 64-bit number: itself below 2^32; the low word if bit 63 and bit 31 are set and groups 5 to 8 are each all zeros or all ones; an overflow error otherwise |
| Base128.RealExtension | runtime/kernel/nanopb/pb_decode.c:206-222 | an accepted number is a sign extension exactly if these groups and bits 32 to 34 are all ones |
| Base128.ToleratedButNoExtension | runtime/kernel/nanopb/pb_decode.c:206-222 | 2^63 + 2^31 is no sign extension and is read as 2^31 |
| Base128.Decode32Inverts | runtime/kernel/nanopb/pb_decode.c:190-248 | below 2^32 the number, for sign-extended negative 32-bit numbers their low word |
| Base128Exact.DecodeAt | runtime/kernel/nanopb/pb_decode.c:251-270 | on any bytes: the number is made of the seven-bit groups up to the first byte without its top bit, modulo 2^64, and refused exactly if there are more than ten |
| Base128Exact.Decode32At | runtime/kernel/nanopb/pb_decode.c:190-243 | on any bytes: the first five groups modulo 2^32; refused exactly if the fifth and last byte exceeds 32 bits or a further byte is neither empty nor a sign extension |
| Base128Exact.NoEnd | runtime/kernel/nanopb/pb_decode.c:190-270 | bytes that all announce another one are refused |
| Base128.SkipConsumes | runtime/kernel/nanopb/pb_decode.c:273-281 | skipping consumes exactly the bytes of a number |
| Base128.ZigZagInverts | runtime/kernel/nanopb/pb_encode.c:546-555 | zig-zag decodes back for every int64, and is the usual map |
| Base128.UnZigZagInverts | runtime/kernel/nanopb/pb_decode.c:1242-1254 | zig-zag encodes back for every uint64 |
| PbMessage.LeftOutIsDefault | runtime/kernel/nanopb/pb_encode.c:224-295 | a proto3 value that is left out is the one a decoder fills in |
| PbMessage.LeftOutIff | runtime/kernel/nanopb/pb_encode.c:224-295 | a proto3 value is left out exactly if it is the default and its type allows it: bytes of fixed length and messages with required fields never are |
| PbOStream.OStream.Write | runtime/kernel/nanopb/pb_encode.c:98-117 | bytes are counted, written unless the stream only measures, refused exactly if they do not fit |
| PbOStream.OStream.EncodeMessage | runtime/kernel/nanopb/pb_encode.c:442-462 | at every nesting depth measuring counts exactly the bytes writing writes; fails exactly for values out of bounds or a full stream; in all cases it only appends and stays within the stream |
| PbOStream.OStream.EncodeSubmessage | runtime/kernel/nanopb/pb_encode.c:633-682 | the two passes agree, so "submsg size changed" cannot occur |
| PbOStream.OStream.EncodePacked | runtime/kernel/nanopb/pb_encode.c:138-183 | a packed array: computed or measured length, then exactly that many bytes |
| PbOStream.OStream.EncodeUnpacked | runtime/kernel/nanopb/pb_encode.c:184-217 | one record per element |
| PbOStream.OStream.EncodeField | runtime/kernel/nanopb/pb_encode.c:350-385 | required, optional, proto3 and repeated fields; nothing for absent or default ones |
| PbOStream.OStream.EncodeBlob | runtime/kernel/nanopb/pb_encode.c:748-823 | bytes, strings and fixed-length bytes; over-long ones are refused |
| PbIStream.IStream.DecodeVarint | runtime/kernel/nanopb/pb_decode.c:251-270 | the stream loop computes the 64-bit decoding function |
| PbIStream.IStream.DecodeVarint32 | runtime/kernel/nanopb/pb_decode.c:190-243 | the stream loop computes the 32-bit decoding function |
| PbIStream.IStream.SkipUnknown | runtime/kernel/nanopb/pb_decode.c:309-323 | skipping by wire type, errors included |
| PbIStream.IStream.MakeSubstream | runtime/kernel/nanopb/pb_decode.c:368-382 | a substream of exactly the announced length |
| PbIStream.IStream.DecodeSlot | runtime/kernel/nanopb/pb_decode.c:434-501 | one record of a known field, packed arrays and array overflow included, as the slot-decoding function says, which `SlotHolds` and `ArrayOverflows` characterize |
| PbIStream.IStream.DecodeSubmessage | runtime/kernel/nanopb/pb_decode.c:1457-1483 | a submessage decoded from its substream, merged into what is there |
| PbIStream.IStream.DecodeMessage | runtime/kernel/nanopb/pb_decode.c:917-1070 | the main loop computes the message-decoding function on any bytes, which `MessageHolds`, `DecodesIffRequired` and `RequiredOccurs` characterize |
| PbRoundTrip.MessageRoundTrip | runtime/kernel/nanopb/pb_decode.c:917-1070 | every message within bounds decodes to itself and its encoding is consumed exactly |
| PbRoundTrip.MixedRoundTrip | runtime/kernel/nanopb/pb_decode.c:952-986 | also with records of unknown fields before, between and after its fields |
| PbRoundTrip.UnknownStep | runtime/kernel/nanopb/pb_decode.c:309-323 | the record of an unknown field is skipped up to the next tag |
| PbRoundTrip.PackedStep | runtime/kernel/nanopb/pb_decode.c:445-475 | a packed array is read back whole |
| PbRoundTrip.UnpackedStep | runtime/kernel/nanopb/pb_decode.c:476-487 | an unpacked array is read back element by element |
| PbRoundTrip.SubmessageRoundTrip | runtime/kernel/nanopb/pb_decode.c:1457-1483 | a submessage is read back at any depth |
| PbRecords.AnyRecordsDecode | runtime/kernel/nanopb/pb_decode.c:917-1070 | any sequence of records, unknown ones anywhere, also inside submessages and between array elements, packed or not, repeated or merged, decodes to the slots they add up to |
| PbRecords.OrderDoesNotMatter | runtime/kernel/nanopb/pb_decode.c:952-986 | streams with the same records of each field in the same order decode to the same message, however fields are interleaved |
| PbRecords.RecsFromBytes | runtime/kernel/nanopb/pb_encode.c:442-462 | the encoder's own records put together are its encoding |
| PbRecords.AnyOrderRoundTrip | runtime/kernel/nanopb/pb_decode.c:917-1070 | a stream of the encoder's records with fields in any order and unknown records anywhere decodes to the message |
| PbSound.MessageHolds | runtime/kernel/nanopb/pb_decode.c:917-1070 | whatever bytes are decoded into a struct that its descriptor can hold, the result can be held: numbers in range, strings terminated within their array, no array longer than its room, at any depth |
| PbSound.SlotHolds | runtime/kernel/nanopb/pb_decode.c:434-501 | the same for one record of a field, whatever its wire type |
| PbSound.DecIntExact | runtime/kernel/nanopb/pb_decode.c:1303-1371 | a number is read exactly if it lies in the field's range, and is then that number; narrow signed fields look at the low 32 bits |
| PbSound.BlobExact | runtime/kernel/nanopb/pb_decode.c:1390-1507 | bytes, strings and fixed-length bytes are taken exactly if they have room, with the error otherwise |
| PbSound.ArrayOverflows | runtime/kernel/nanopb/pb_decode.c:445-487 | a record for an array, packed or not, is refused if the array has no room for its values |
| PbSound.DecodesIffRequired | runtime/kernel/nanopb/pb_decode.c:1035-1070 | records that fit decode exactly if there is one for each of the first 64 required fields; otherwise the missing field is reported |
| PbSound.RequiredOccurs | runtime/kernel/nanopb/pb_decode.c:1035-1070 | whatever bytes decode, each of the first 64 required fields has its tag in the stream where the decoder looked for one |
| PbSound.FewerFieldsDecode | runtime/kernel/nanopb/pb_decode.c:309-323 | a reader that knows only some of the fields reads just those, as they were written |
| PbSound.NothingKnown | runtime/kernel/nanopb/pb_decode.c:309-323 | a reader that knows no field skips every message to its end |
| PbSound.LittleEndianAt | runtime/kernel/nanopb/pb_encode.c:557-583 | byte k of a fixed-width number has the weight 256^k |
| Jobs.AllocateRun | runtime/libtapasco/src/job.rs:146-186 | a successful start has taken exactly one block for each argument that asked for one |
| Jobs.ReleaseRun | runtime/libtapasco/src/job.rs:384-427 | a release gives back exactly the blocks taken with `free` and the caller's own marked ones, in argument order, and succeeds, if the caller could free its own |
| Jobs.StartThenRelease | runtime/libtapasco/src/job.rs:292-427 | after start and release the job's blocks to be kept and the caller's unmarked ones are in use, and buffers come back in argument order |
| Jobs.RoundTripRestores | runtime/libtapasco/src/job.rs:292-427 | if every block is to be freed, all allocators are, element for element, what they would be had the caller just freed its own marked blocks |
| Jobs.ReleaseSucceedsIff | runtime/libtapasco/src/job.rs:384-427 | a release succeeds exactly if the blocks it is to free are in use and distinct |
| Jobs.BuffersConserved | runtime/libtapasco/src/job.rs:190-239 | every buffer is handed back exactly once, at start or at release |
| Jobs.FailedStart | runtime/libtapasco/src/job.rs:146-186 | a start fails at the argument whose allocation fails and keeps what it had allocated before; the memories are unchanged exactly if that was nothing |
| Jobs.FirstBlockLeaks | runtime/libtapasco/src/job.rs:146-186 | two buffers on a memory with room for one: the first block stays allocated |
| Jobs.SharedBufferIsGrantedTwice | runtime/libtapasco/src/job.rs:199-222 | one block of the caller passed to two jobs with `free`: after their releases two other jobs hold the same block |
| Jobs.Job.Begin | runtime/libtapasco/src/job.rs:292-336 | the in-place operation computes the start function, whose result `StartedAt` gives argument by argument, errors included, and appends the copy-backs to those already noted |
| JobStart.StartedAt | runtime/libtapasco/src/job.rs:292-336 | when a start succeeds, register i holds the scalar, the caller's address, or the base of the block taken for argument i, the next one in its memory; a buffer to be written is written there with its data, one not to be read comes back at once, and one to be read or freed is noted, each list in argument order |
| JobStart.StartedTotals | runtime/libtapasco/src/job.rs:292-336 | there is one register for each argument, and the lists and the used blocks hold nothing else |
| JobStart.VirtualAddressRefused | runtime/libtapasco/src/job.rs:306-333 | with all memory allocated, a start fails exactly if some argument is a virtual address, and names the first |
| JobStart.LocalizedAt | runtime/libtapasco/src/job.rs:118-143 | local buffers become buffers in the local memory, in place; they are refused exactly if there is none |
| JobStart.ReleasedAt | runtime/libtapasco/src/job.rs:357-427 | starting and releasing returns, for each buffer to be read, what the device then holds at the address in its register, in argument order and nothing else |
| Jobs.Job.HandleAllocates | runtime/libtapasco/src/job.rs:146-186 | allocation in argument order up to the first failure |
| Jobs.Job.HandleTransfers | runtime/libtapasco/src/job.rs:190-239 | transfers, copy-back notes and unused buffers in argument order |
| Jobs.Job.Release | runtime/libtapasco/src/job.rs:357-427 | the in-place operation computes the copy-back function; nothing to release without a processing element |
| JobSystem.JobsNeverOverlap | runtime/libtapasco/src/job.rs:146-186 | in every interleaving of jobs in which no caller lets a job free an address that is some job's block, no two blocks held on one memory share an address |
| JobSystem.GiveBackKeepsIff | runtime/libtapasco/src/job.rs:397-409 | freeing a caller's address keeps every job's blocks its own exactly if no job holds the block there |
| JobSystem.OverlapFollows | runtime/libtapasco/src/job.rs:397-409 | otherwise the block can at once be granted to another job |
| JobSystem.StartIsTakes | runtime/libtapasco/src/job.rs:146-186 | allocating for the arguments of a job does what taking its blocks one by one does |
| JobSystem.FailedStartIsTakes | runtime/libtapasco/src/job.rs:146-186 | a failed start does what taking the blocks before the failure does |
| JobSystem.ReleaseIsGives | runtime/libtapasco/src/job.rs:384-427 | a release that succeeds does what giving back its blocks and the caller's marked ones one by one does |
| Irqs.IrqTable.Register | runtime/kernel/device/tlkm_device_ioctl.c:122-164 | a new interrupt keeps the list strictly sorted and every entry point at its controller's lowest interrupt; a taken one is refused |
| Irqs.IrqTable.ReleaseAll | runtime/kernel/device/tlkm_control.c:87-94 | releasing from the front keeps the entry points right after each interrupt and ends empty |
| Irqs.EntryAdded | runtime/kernel/pcie/pcie_irq_aws.c:230-264 | the entry points after a registration |
| Irqs.EntryRemoved | runtime/kernel/pcie/pcie_irq_aws.c:266-320 | the entry points after a release |
| Irqs.IrqTable.Dispatch | runtime/kernel/pcie/pcie_irq_aws.c:97-127 | one pass over a status word signals exactly the registered set bits, ascending, once each, as a plain lookup would |

## Left out

- Signal, kill and copy-fault paths of the DMA code, timeouts, and the choice between polling and interrupts: operating-system behaviour.
- The Zynq interrupt handler and repeated reads of the status register within one interrupt: only one pass over one status word of the AWS handler is modelled.
- Irqs.IrqTable.Register: interrupt numbers of the four controllers, that is below 132.
- Concurrent registration and dispatch of interrupts.
- 32-bit overflow of the pool's reference counts.
- nanopb pointer fields, extensions, oneof, fixed-count arrays, callbacks, declared default values and the packing of descriptors into words: the schema is abstract, and defaults are zero.
- Base128Exact.Decode32At: varints of more than 37 bytes, where the 8-bit bit position of the 32-bit decoder wraps around.
- Allocation failure of kernel structures (list entries, tree nodes, arrays).
- Page tables, page locking, retries, TLB commands, and why the kernel refuses a migration: a migration succeeds with its bookkeeping effect or fails with none.
- The network variant of device-to-device copies: the same run search as the direct one.
- User-managed regions that reach beyond the last 64-bit address.
- Page faults at addresses that are not page addresses, which the hardware does not report, and the loop that fetches batch after batch.
- Shared virtual memory and streams in jobs, DMA failures during a start, and the scheduling of processing elements.
- 64-bit overflow of a managed region's end address in the host allocator: regions end below 2^64.
- GenericAllocator.Allocator.Free: block lists are values that are reassigned; the reallocation of the vectors is not modelled.
- SvmIntervals.Search: the red-black structure of the kernel's interval tree is not modelled, only its in-order search.
- SvmMigrate.Svm.MigrateToDevice: what the kernel answers to each page migration is given; what the migration does to page contents is in `SvmBatch.dfy`.
- Jobs.StartThenRelease: for sizes that do not round to zero, and for marked blocks of the caller that the caller could free itself; `ReleaseSucceedsIff` says exactly when a release succeeds.
- KernelReadRing.Reader.CopyFrom: the user address is not zero, since zero marks an idle buffer; one reader at a time, as the read mutex enforces.
- PbSound.MessageHolds: a string field is the string in its array, not the bytes behind its end; descriptors with sizes of at most 16 bits, as the generated ones have.
- UserDmaWriteProgress.EveryCallCanReturn: that a fair scheduler takes that way; at least one buffer, and none of size zero.
- PbRoundTrip.MessageRoundTrip: encodings shorter than 2^32 bytes, since lengths are read as 32-bit numbers.
- Debug builds of the Rust library, where arithmetic overflow panics: the model wraps around, as release builds do.
