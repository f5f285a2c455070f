# RT-Thread kernel and zlib checksums in Dafny

This project models the parts of the repository where several views of one state have to agree, and proves
that they do, for all inputs and over all runs. The model has the form of the C code: what works on fields,
arrays and links is a method with loops on fields, arrays and links; beside it stands a specification, and
the properties are lemmas about the specification. `dafny verify dfyconfig.toml` checks everything.

| files | what they model |
|---|---|
| `Crc32Register`, `Crc32`, `Crc32Combine` | CRC-32 of zlib: the bit-serial register, the generated tables, the byte, little-endian and big-endian loops, and the GF(2) matrices of the combination |
| `Adler32` | Adler-32 of zlib: deferred modulo in 32-bit accumulators, division-free reductions, combination |
| `MemHeapModel`, `MemHeapRuns`, `MemHeap` | `memheap.c`: the physical ring and the free list in one pool, with payload bytes |
| `PageRuns`, `PageList` | the page allocator of `slab.c` |
| `SlabSizes`, `SlabModel`, `SlabRuns`, `SlabAnswers`, `SlabLinks`, `Slab` | the zones of `slab.c`: chunk sizes, free-chunk lists, `zone_array`, spare zones, `memusage`, on top of the page allocator |
| `SmallModel`, `SmallRuns`, `SmallHeap` | `mem.c`: headers with next and prev offsets, `plug_holes`, the search from `lfree` |
| `TimerOrder`, `TimerRuns`, `Timer`, `TimerList` | `timer.c`: a skip list of any number of rows over a 32-bit tick, against one plain list over absolute time |
| `WordBits`, `Bitmaps`, `ReadyBits`, `SchedulerModel`, `SchedulerEffects`, `SchedulerCases`, `Scheduler` | `scheduler.c` and `thread.c`: ready lists, both bitmap layouts, who runs, and how peers take turns |
| `IpcLists`, `MailboxModel`, `Mailbox` | suspend lists; the mailbox as a machine whose steps are the sections with interrupts disabled |
| `MutexModel`, `Mutex` | the mutex with priority inheritance and hand-off |
| `EventModel`, `EventBits`, `Event` | the event set |
| `QueueModel`, `MessageQueue` | the message queue, whose senders and receivers hold nodes between two sections |
| `PoolModel`, `MemPool` | `mempool.c`: fixed blocks on a free list, and callers that wait for one |
| `FinshVm`, `FinshTree`, `FinshOps`, `Finsh` | the finsh compiler and its stack machine, and what the operators compute |
| `Blocks`, `HeapBytes`, `Rings`, `Chains`, `Integers` | blocks and bytes of a heap, circular and singly linked lists, integer types |

How the C code is read:

* A section between `rt_hw_interrupt_disable` and `rt_hw_interrupt_enable` is one step. A blocking call is
  the step that suspends the caller and the step in which it goes on after its wake-up; the scheduler, the
  timers and the callers choose the steps in any order. Time, the thread that calls and the order of steps
  are parameters.
* `rt_timer_start` is taken both as a whole, as `rt_timer_check` calls it, and in its parts, with ticks and calls for
  other timers in between. So are `rt_thread_startup`, `rt_thread_timeout` and `rt_thread_yield`: as a whole, and up to
  their call of `rt_schedule`. `rt_thread_suspend`, `rt_thread_resume` and `rt_timer_stop`, which test the state before
  their section, are one step each, as when the caller holds interrupts off: calls for the same thread, or for the same
  timer, do not overlap.
* Headers that lie in raw memory are kept field by field, as maps or sequences from address to value, so that
  one pointer assignment is one update. A suspend or ready list is a sequence.
* `unsigned long` has 32 bits, as on the target. Integer widths are modelled where they matter: ticks, CRC
  registers, Adler accumulators, event sets, bitmaps, the arithmetic of the stack machine.
* What `RT_ASSERT` demands is a precondition.

Where the code does not do what one would expect, the exact condition is proved:

* `adler32_z` on a single byte subtracts 65521 from the second sum at most once, so a start value whose second
  half is not reduced can survive; `Adler32.Adler32Z` gives the condition, an if and only if, and
  `Adler32.OneByteUnreduced` a case.
* `MOD28` without division is exact only up to a bound (`Adler32.Mod28`, an if and only if); every call in the
  code stays below it.
* A mutex with `RT_IPC_FLAG_FIFO` can hand over to a thread that is less urgent than another waiter:
  `MutexModel.FifoBreaksInheritance` shows a case, `MutexModel.InheritsExactly` says exactly when it happens.
* A thread that changes its own priority while it runs, or yields while the scheduler is locked, goes behind its peers
  without giving up the processor, and its next yield serves nobody. `SchedulerModel.YieldServes` says exactly when a
  yield serves a waiting peer, `SchedulerModel.StepFirst` exactly when the running thread loses its place,
  `SchedulerModel.BoundedWaiting` what that costs over any run, and `SchedulerCases.ChangeCostsATurn` shows a case.
* `rt_timer_start` computes the deadline with interrupts enabled, before the section that inserts the timer. When ticks
  come in between, a timer can be inserted past its deadline. `TimerRuns.SectionsFire` says exactly when it fires then,
  and `TimerRuns.LateInsertOutOfOrder` is a run in which it fires behind a later deadline. The search in the list is
  right as long as initial ticks leave as much of the half range free as timers are late (`slack`; none, if none is
  late): `Timer.SearchStops` is the exact condition for one comparison, `Timer.SlackIsNeeded` shows the bound is tight.
* `adler32_combine_` makes a fixed number of subtractions. For 32-bit values whose halves are not reduced
  `Adler32.Combine` says exactly when they are enough; for checksums they always are.
* `rt_mp_alloc` does not lower suspend_thread_count when a wait times out, so that a later `rt_mp_free` can look for a
  thread where none waits. `PoolModel.AstrayExactly` is an if and only if, `PoolModel.AstrayCase` a run; the other
  theorems about pools are about runs without such a free.
* `slab.c` says that chunks whose size is a power of two are aligned to it. Zones are aligned to pages only, so this
  holds for chunks of more than a page exactly when their zone happens to be aligned
  (`SlabRuns.PowerOfTwoAligned`, an if and only if; `SlabRuns.OddZoneMisaligned` is a case).
* In `mem.c` the bound of the search is strict, so a last free block that fits exactly is passed over; and shrinking in
  place does not lower lfree, so a free block can be out of reach. `SmallRuns.MallocSound` and `SmallRuns.StepLow` give the
  exact conditions, `SmallRuns.ExactFitRefused` and `SmallRuns.HiddenBlock` one case each. The comment on `lfree` in the
  source calls it the lowest free block; the model follows the code.
* `rt_realloc` of `mem.c` to zero bytes can return null and keep the block, or shrink it to a header without payload;
  both are in the model.
* A woken thread that tries again waits for what is left of its time, computed in 32 bits: `IpcLists.RemainingTime` says
  exactly when that is the difference, or nothing, and when it has wrapped around to a new wait.

## Model

| member | source | states |
|---|---|---|
| `Crc32Register.Superposition` | IAP project/Projects/zlib-1.2.11/crc32.c:59-86 | the register after a message is the message run on one start value, xor the other start value advanced by as many zero bits: the register is linear |
| `Crc32Register.PackedInput` | IAP project/Projects/zlib-1.2.11/crc32.c:260-263 | up to 32 message bits may be xored into the register at once and then shifted through as zeros, which is what the sliced loops do |
| `Crc32Register.BurstDetected` | IAP project/Projects/zlib-1.2.11/crc32.c:59-86 | two messages that differ only inside one stretch of at most 32 bits have equal registers if and only if they are equal: every burst error up to 32 bits is detected |
| `Crc32Register.CrcOfConcat` | IAP project/Projects/zlib-1.2.11/crc32.c:372-425 | the CRC of a concatenation is the first CRC advanced by 8 zero bits for each byte of the second part, xor the second CRC |
| `Crc32Register.CrcOfPieces` | IAP project/Projects/zlib-1.2.11/crc32.c:202-235 | feeding a message in pieces, each time starting from the last result, gives the CRC of the whole |
| `Crc32.PolyOfTerms` | IAP project/Projects/zlib-1.2.11/crc32.c:88-106 | collecting the listed exponents gives the reversed polynomial 0xedb88320 |
| `Crc32.MakePoly` | IAP project/Projects/zlib-1.2.11/crc32.c:103-106 | the loop over the exponents yields the polynomial |
| `Crc32.ByteEntry` | IAP project/Projects/zlib-1.2.11/crc32.c:108-114 | the eight-step loop turns n into n advanced by eight zero bits |
| `Crc32.MakeFirstRow` | IAP project/Projects/zlib-1.2.11/crc32.c:108-114 | row 0 of the table holds every byte advanced by one zero byte |
| `Crc32.MakeCrcTable` | IAP project/Projects/zlib-1.2.11/crc32.c:88-127 | entry [k][n] is n advanced by k+1 zero bytes for k below 4, and entry [k+4][n] is its byte reversal |
| `Crc32.Do1` | IAP project/Projects/zlib-1.2.11/crc32.c:198-199 | one table look-up feeds one byte to the bit-serial register |
| `Crc32.DoLit4` | IAP project/Projects/zlib-1.2.11/crc32.c:260-262 | four look-ups feed four bytes to the bit-serial register |
| `Crc32.DoBig1` | IAP project/Projects/zlib-1.2.11/crc32.c:306-338 | one look-up in the reversed table feeds one byte to the byte-reversed register |
| `Crc32.DoBig4` | IAP project/Projects/zlib-1.2.11/crc32.c:300-302 | four look-ups in the reversed tables feed four bytes to the byte-reversed register |
| `Crc32.FeedFour` | IAP project/Projects/zlib-1.2.11/crc32.c:260-262 | feeding four bytes equals xoring their little-endian word in and advancing by 32 zero bits |
| `Crc32.CrcOfZero` | IAP project/Projects/zlib-1.2.11/crc32.c:202-235 | the CRC of one zero byte: the complements before and after are part of the definition |
| `Crc32.CrcOfMessageAndCrc` | IAP project/Projects/zlib-1.2.11/crc32.c:202-235 | every message followed by its own CRC, least significant byte first, has the CRC 0x2144df1c |
| `Crc32.Crc32Bytes` | IAP project/Projects/zlib-1.2.11/crc32.c:223-234 | the byte-wise loops return the bit-serial CRC of the buffer for every length |
| `Crc32.Crc32Little` | IAP project/Projects/zlib-1.2.11/crc32.c:266-297 | the little-endian loops return the bit-serial CRC for every buffer, length and start alignment |
| `Crc32.Crc32Big` | IAP project/Projects/zlib-1.2.11/crc32.c:306-338 | the big-endian loops return the bit-serial CRC for every buffer, length and start alignment |
| `Crc32.Crc32Z` | IAP project/Projects/zlib-1.2.11/crc32.c:202-235 | whatever branch is taken the result is the bit-serial CRC; a null buffer gives zero |
| `Crc32Combine.MatrixTimes` | IAP project/Projects/zlib-1.2.11/crc32.c:344-358 | the loop over the bits of the vector computes the GF(2) product |
| `Crc32Combine.TimesAppends` | IAP project/Projects/zlib-1.2.11/crc32.c:344-358 | a matrix whose columns are the unit vectors advanced by n zero bits advances every vector by n zero bits |
| `Crc32Combine.MatrixSquare` | IAP project/Projects/zlib-1.2.11/crc32.c:361-369 | every column of the square is the matrix applied to that column |
| `Crc32Combine.SquareAppends` | IAP project/Projects/zlib-1.2.11/crc32.c:361-369 | squaring the operator for n zero bits gives the operator for 2n zero bits |
| `Crc32Combine.MatrixOneBit` | IAP project/Projects/zlib-1.2.11/crc32.c:386-392 | the first matrix is the operator for one zero bit |
| `Crc32Combine.Combine` | IAP project/Projects/zlib-1.2.11/crc32.c:372-425 | the loop over the bits of len2 advances crc1 by exactly 8 * len2 zero bits, for every len2; len2 not positive returns crc1 |
| `Crc32Combine.CombineParts` | IAP project/Projects/zlib-1.2.11/crc32.c:372-425 | from the CRCs of two byte strings and the length of the second, the CRC of their concatenation |
| `Adler32.DeferredModulo` | IAP project/Projects/zlib-1.2.11/adler32.c:63-131 | reducing modulo 65521 once at the end gives the same sums as reducing after every byte |
| `Adler32.BlockByBlock` | IAP project/Projects/zlib-1.2.11/adler32.c:97-128 | reducing between blocks changes nothing |
| `Adler32.NmaxBound` | IAP project/Projects/zlib-1.2.11/adler32.c:12-14 | from 16-bit start sums no accumulator reaches 2^32 within NMAX bytes |
| `Adler32.NmaxIsLargest` | IAP project/Projects/zlib-1.2.11/adler32.c:12-14 | NMAX is the largest n for which the stated bound fits in 32 bits |
| `Adler32.Chop` | IAP project/Projects/zlib-1.2.11/adler32.c:27-32 | CHOP keeps the value modulo 65521 |
| `Adler32.Mod28` | IAP project/Projects/zlib-1.2.11/adler32.c:33-37 | the result is the true remainder if and only if one subtraction suffices, which it does below 2^28 |
| `Adler32.Mod` | IAP project/Projects/zlib-1.2.11/adler32.c:38-42 | two CHOPs and a subtraction give the true remainder of every 32-bit value |
| `Adler32.Mod63` | IAP project/Projects/zlib-1.2.11/adler32.c:43-55 | the folding of a 63-bit value gives its true remainder |
| `Adler32.Do16` | IAP project/Projects/zlib-1.2.11/adler32.c:16-20 | sixteen unrolled steps keep both 32-bit accumulators equal to the exact sums, without wrapping around |
| `Adler32.Adler32Z` | IAP project/Projects/zlib-1.2.11/adler32.c:63-131 | for every start value and length the result is the reduced pair of sums, if and only if it is not the single-byte case in which one subtraction is too few; a null buffer gives 1 |
| `Adler32.OneByteUnreduced` | IAP project/Projects/zlib-1.2.11/adler32.c:75-84 | from the halves 65520 and 65535 and the byte 0 the path leaves 65534, where the sum is 13 |
| `Adler32.OneByte` | IAP project/Projects/zlib-1.2.11/adler32.c:75-84 | the single-byte path is right exactly when one subtraction suffices for the second sum |
| `Adler32.AdlerOfConcat` | IAP project/Projects/zlib-1.2.11/adler32.c:143-169 | the checksum of a concatenation is a function of the two checksums and the second length |
| `Adler32.Combine` | IAP project/Projects/zlib-1.2.11/adler32.c:143-169 | for all 32-bit values the derived formula computes that function, in 32-bit arithmetic, if and only if neither sum needs more subtractions than the code makes; a negative length gives 0xffffffff |
| `Adler32.ReducedCombines` | IAP project/Projects/zlib-1.2.11/adler32.c:143-169 | they are enough whenever both checksums have reduced halves |
| `Adler32.UnreducedFails` | IAP project/Projects/zlib-1.2.11/adler32.c:160-168 | halves for which the first, and halves for which the second sum needs one more |
| `Adler32.CombineParts` | IAP project/Projects/zlib-1.2.11/adler32.c:143-169 | from the checksums of two byte strings and the length of the second, the checksum of their concatenation |
| `MemHeapModel.TakeGood` | APP project/src/memheap.c:162-248 | taking a free block, whole or split, keeps the blocks tiling the pool up to the used tailer, no two neighbours free, and the free list exactly the free blocks once each |
| `MemHeapModel.ReleaseGood` | APP project/src/memheap.c:536-592 | releasing a block with its merges to the left and right keeps all of that |
| `MemHeapModel.MoveBorderGood` | APP project/src/memheap.c:325-410 | moving the border between a used and a free block keeps all of that |
| `MemHeapModel.CutTailGood` | APP project/src/memheap.c:441-490 | cutting a free tail off a used block keeps all of that |
| `MemHeapModel.TakeFreeBytes` | APP project/src/memheap.c:176-249 | an allocation lowers the sum of the free sizes by exactly what the code subtracts from available_size |
| `MemHeapModel.ReleaseFreeBytes` | APP project/src/memheap.c:540-573 | a release raises it by the block and one header for every merge |
| `MemHeapRuns.AllocSound` | APP project/src/memheap.c:146-284 | allocation fails, changing nothing, if and only if the rounded size is not below available_size or no free block is large enough; otherwise one new aligned payload with room appears and every other live payload stays |
| `MemHeapRuns.ReleaseSound` | APP project/src/memheap.c:499-596 | a free removes exactly that payload |
| `MemHeapRuns.ResizeSound` | APP project/src/memheap.c:291-496 | realloc keeps the block if and only if it is large enough or the free right neighbour makes up the room, and gives back everything beyond the rounded request that makes a block of its own; the free bytes change by exactly that, less a new header in front of a used block; otherwise it fails, changing nothing, if and only if the size is not below the free bytes or no free block is large enough; otherwise it moves to a payload that is little larger than asked for; every other payload stays |
| `MemHeapRuns.RoundedIsLeast` | APP project/src/memheap.c:304-307 | a request becomes the least aligned size that holds it and is not below RT_MEMHEAP_MINIALLOC |
| `MemHeapRuns.RunGood` | APP project/src/memheap.c:60-596 | the invariant holds after every run of alloc, realloc and free |
| `MemHeapRuns.LiveDisjoint` | APP project/src/memheap.c:146-284 | live payloads never overlap and lie inside the pool |
| `MemHeapRuns.AllFreedIsInit` | APP project/src/memheap.c:499-596 | when nothing is live the heap is the initial one: one free block |
| `MemHeapRuns.FirstFitBlock` | APP project/src/memheap.c:162-176 | the search finds the first list entry that is large enough, and fails only when there is none |
| `MemHeapCode.MemHeap.constructor` | APP project/src/memheap.c:60-128 | rt_memheap_init builds the headers of that initial heap |
| `MemHeapCode.MemHeap.Search` | APP project/src/memheap.c:162-176 | the loop over the free list stops at the first fit |
| `MemHeapCode.MemHeap.Alloc` | APP project/src/memheap.c:146-284 | the assignments to next, prev, next_free, prev_free and magic represent the specified heap again; max_used_size becomes the maximum of itself and the peak; bytes of live payloads stay |
| `MemHeapCode.MemHeap.Free` | APP project/src/memheap.c:499-596 | the same for a free; no payload byte is written |
| `MemHeapCode.MemHeap.Realloc` | APP project/src/memheap.c:291-496 | the same for realloc; the first min(old, new) bytes are preserved, moved or not, and no other live byte changes; what it gives back is in ResizeSound |
| `MemHeapCode.HighWaterBounds` | APP project/src/memheap.c:241-249 | no state of a run has more bytes in use than the high-water mark of the run |
| `MemHeapCode.MemHeap.RunAll` | APP project/src/memheap.c:60-596 | over any run max_used_size becomes the larger of itself and the high-water mark of the run, moves included; a payload that no operation names keeps its place, size and bytes |
| `PageRuns.Canonical` | APP project/src/slab.c:282-332 | an address-sorted, maximally coalesced list is determined by the set of its pages |
| `PageRuns.AllocSound` | APP project/src/slab.c:246-280 | an allocation takes n consecutive free pages out of the set and keeps the list sorted and coalesced |
| `PageRuns.AllocFails` | APP project/src/slab.c:246-280 | it fails if and only if nowhere n consecutive pages are free |
| `PageRuns.AllocLowest` | APP project/src/slab.c:246-280 | it takes the lowest n consecutive free pages |
| `PageRuns.ReleaseSound` | APP project/src/slab.c:282-332 | a release adds exactly its pages and keeps the list sorted and maximally coalesced |
| `PageRuns.AfterGood` | APP project/src/slab.c:246-344 | over any run free list and live allocations share the pages without loss or overlap |
| `PageRuns.AllGivenBackIsInitial` | APP project/src/slab.c:246-344 | when everything has been given back, in any order, the list is the initial single run |
| `PageCode.PageList.PageAlloc` | APP project/src/slab.c:246-280 | the walk with a pointer to the previous link computes the specified allocation |
| `PageCode.PageList.PageFree` | APP project/src/slab.c:282-332 | the walk joins with the left, the right or both neighbours, or inserts, exactly as specified |
| `PageCode.PageList.constructor` | APP project/src/slab.c:337-344 | initialisation is one release into the empty list |
| `PageCode.PageList.RunAll` | APP project/src/slab.c:246-344 | any run of the methods is the specified run |
| `TimerOrder.InsertSorted` | APP project/src/timer.c:339-367 | inserting behind every timer that is not later keeps a row sorted by deadline, and by start among equal deadlines |
| `TimerOrder.SortedWithinIsSubsequence` | APP project/src/timer.c:339-367 | of two sorted rows, one within the other, the upper one is a subsequence of the lower one |
| `Timer.WindowCompare` | APP project/src/timer.c:350-363 | inside a window of half the tick range the wrapped difference decides the true order |
| `Timer.UpperRowIsSubsequence` | APP project/src/timer.c:294-393 | in the row invariant every upper row is a subsequence of the row below |
| `TimerRuns.CheckFiresDue` | APP project/src/timer.c:488-546 | a check fires exactly the due timers, in list order |
| `TimerRuns.CheckListed` | APP project/src/timer.c:488-546 | a check ends, nothing due stays behind, and the list is sorted again with the periodic timers in it |
| `TimerRuns.StepGood` | APP project/src/clock.c:83-105 | starting, stopping and ticking keep all pending deadlines in the half-range window in which the comparison is right |
| `TimerRuns.RunGood` | APP project/src/clock.c:83-105 | so does every run |
| `TimerRuns.RunFiresInOrder` | APP project/src/timer.c:488-546 | over any run, with ticks and other calls between the parts of a start, timers fire by tick, within a tick by deadline, and with equal deadlines in the order of insertion; none fires early, and none that was inserted in time fires behind a later deadline |
| `TimerRuns.FiresOnTime` | APP project/src/timer.c:488-546 | over any run a pending timer that is neither stopped nor started again fires exactly at its deadline, or at the next tick when that has passed, and at every period after it |
| `TimerRuns.StartFires` | APP project/src/timer.c:294-393 | a timer that is started fires after its initial ticks, a periodic one again after every further period, and never at another time, as long as no other call names it; one of no ticks at the next tick |
| `TimerRuns.StopSilences` | APP project/src/timer.c:419-442 | a timer that is stopped, pending or not, does not fire until another call names it |
| `TimerRuns.InsertedFires` | APP project/src/timer.c:321-393 | a timer that is inserted fires at its deadline if and only if no tick at or past it came before the insertion, and otherwise at the next tick |
| `TimerRuns.SectionsFire` | APP project/src/timer.c:306-393 | whatever comes between the two sections of a start and the computation of the deadline: the timer fires init_tick after that computation if and only if fewer ticks come before the insertion, and otherwise at the first tick after it; then at every period |
| `TimerRuns.PartsAreStart` | APP project/src/timer.c:294-393 | without anything in between, the parts make up the whole call |
| `TimerRuns.LateInsertOutOfOrder` | APP project/src/timer.c:321-393 | a run from the start on in which a timer with deadline 1, inserted at tick 2, fires after one with deadline 2 |
| `Timer.SearchStops` | APP project/src/timer.c:350-363 | the search stops at a timer if and only if that is later by less than half the range |
| `Timer.SlackIsNeeded` | APP project/src/timer.c:350-363 | an initial tick one longer than the slack allows makes the search pass over a later timer |
| `TimerCode.TimerList.Remove` | APP project/src/timer.c:123-131 | the timer leaves every row, the other timers stay in order |
| `TimerCode.TimerList.Walk` | APP project/src/timer.c:342-364 | the cursor of one row stops behind exactly the timers that are not later, from any start in front of that place |
| `TimerCode.TimerList.Locate` | APP project/src/timer.c:339-367 | going down from row to row finds the linear insertion place in every row |
| `TimerCode.TimerList.Detach` | APP project/src/timer.c:306-312 | the first section takes the timer out of every row and clears its flag |
| `TimerCode.TimerList.SetTimeout` | APP project/src/timer.c:321 | the stored tick is the deadline modulo 2^32 |
| `TimerCode.TimerList.Attach` | APP project/src/timer.c:323-393 | the second section inserts the timer, also one that is late, where the linear stable insertion puts it; it is in the k-th row from below exactly when the low digits of the counter are zero; all rows stay sorted and nested |
| `TimerCode.TimerList.Start` | APP project/src/timer.c:294-393 | the three parts together compute the specified start |
| `TimerCode.TimerList.Stop` | APP project/src/timer.c:419-442 | an inactive timer is an error and nothing changes; otherwise it leaves the list |
| `TimerCode.TimerList.Check` | APP project/src/timer.c:488-546 | the loop with wrapped comparison and restarts computes the specified check, and the callbacks are called in its order |
| `TimerCode.TimerList.TickIncrease` | APP project/src/clock.c:83-105 | a tick, also one that wraps around, is the specified step |
| `TimerCode.TimerList.NextTimeout` | APP project/src/timer.c:110-121 | the stored tick of an earliest pending deadline, or the maximal tick when there is none |
| `TimerCode.TimerList.RunAll` | APP project/src/timer.c:294-546 | any run of calls, of parts of calls and of ticks fires what the plain list over absolute time fires |
| `Bitmaps.WithHas` | APP project/src/scheduler.c:289-298 | setting or clearing the mask of a number puts exactly that number in or out |
| `Bitmaps.BitByBit` | APP project/components/finsh/finsh_ops.c:181-250 | the bitwise operators work on every bit alone |
| `Bitmaps.FfsIsLeast` | APP project/src/kservice.c:1227-1241 | the byte-wise search returns the smallest set bit plus one |
| `Bitmaps.PartsOrder` | APP project/src/scheduler.c:208-212 | comparing row and column compares the priorities |
| `ReadyBits.OneFind` | APP project/src/scheduler.c:205-207 | with up to 32 priorities the search finds the most urgent non-empty list |
| `ReadyBits.TwoInsert` | APP project/src/scheduler.c:294-298 | inserting keeps both levels of the bitmap |
| `ReadyBits.TwoRemove` | APP project/src/scheduler.c:328-345 | removing the last thread of a list clears its bit, and the row's bit when it was the last one of the row |
| `ReadyBits.TwoFind` | APP project/src/scheduler.c:208-212 | with up to 256 priorities the two searches find the most urgent non-empty list |
| `SchedulerModel.RescheduledIsBest` | APP project/src/scheduler.c:191-257 | the thread that is chosen is ready, no ready thread is more urgent, and it is the first of its list |
| `SchedulerModel.StepListed` | APP project/src/thread.c:203-235 | every operation keeps: a thread is in the ready list of its current priority, and in no other, exactly while it is ready |
| `SchedulerModel.RunListed` | APP project/src/thread.c:377-657 | so does every run of startup, suspend, resume, timeout, yield, priority change, schedule and lock |
| `SchedulerEffects.StepEffect` | APP project/src/thread.c:203-657 | what every operation does: resume and timeout make a suspended thread ready behind its peers, suspend takes a ready one out, startup and a change of priority put it behind the peers of its new priority, yield behind those of its own if there are any; all other threads keep state, priority and order; and who runs afterwards |
| `SchedulerModel.YieldRotates` | APP project/src/thread.c:377-411 | a yield sends the running thread behind its peers and the next one runs |
| `SchedulerModel.RoundRobin` | APP project/src/thread.c:377-411 | in one round of yields every peer runs once, in list order, and then the list is as before |
| `SchedulerModel.StepAhead` | APP project/src/thread.c:203-657 | in every state, an action that leaves a waiting thread alone brings nobody in front of it; a yield takes one peer away if and only if the thread that yields stands in front |
| `SchedulerModel.YieldServes` | APP project/src/thread.c:377-411 | a yield to peers takes one away from in front of a waiting thread and hands over the processor if and only if the scheduler is not locked and the thread that yields stands in front |
| `SchedulerModel.StepFirst` | APP project/src/thread.c:203-657 | the running thread, the first of its list, stays it if and only if the action is not one of those listed: its own resumption, its own change of priority, a yield of a locked scheduler, and the like, each with a non-empty list |
| `SchedulerModel.BoundedPasses` | APP project/src/thread.c:377-411 | over every run, locked or not, the peers of a ready thread yield from in front of it at most as often as there are peers in front of it before it runs |
| `SchedulerModel.BoundedWaiting` | APP project/src/thread.c:377-411 | over every run peers give up the processor by yielding at most as often as that, and once more for each time the running thread lost its place |
| `SchedulerCases.FirstReached` | APP project/src/thread.c:203-235 | starting three threads and scheduling reaches the state of the case below |
| `SchedulerCases.ChangeCostsATurn` | APP project/src/thread.c:485-510 | one peer is in front of a thread, the running thread moves in by a change of priority, and two yields of peers come before the thread runs |
| `SchedulerCode.Scheduler.InsertThread` | APP project/src/scheduler.c:267-303 | the list gets the thread at its end and the bitmap still encodes the non-empty lists |
| `SchedulerCode.Scheduler.RemoveThread` | APP project/src/scheduler.c:313-351 | the list loses the thread and the bitmap still encodes the non-empty lists |
| `SchedulerCode.Scheduler.Highest` | APP project/src/scheduler.c:191-216 | the bitmap search, in either layout, finds the specified priority |
| `SchedulerCode.Scheduler.Schedule` | APP project/src/scheduler.c:191-257 | the head of that list becomes current, unless the scheduler is locked |
| `SchedulerCode.Scheduler.Startup` | APP project/src/thread.c:203-235 | computes the specified startup, with the masks of the priority |
| `SchedulerCode.Scheduler.Launch` | APP project/src/thread.c:208-227 | the same up to the call of rt_schedule |
| `SchedulerCode.Scheduler.Rotate` | APP project/src/thread.c:382-399 | the section of a yield moves the thread to the end of its list and leaves the bitmap |
| `SchedulerCode.Scheduler.Stop` | APP project/src/thread.c:554-586 | computes the specified suspension; a thread that is not ready is left alone |
| `SchedulerCode.Scheduler.Resume` | APP project/src/thread.c:595-628 | computes the specified resumption, which by StepEffect makes a suspended thread ready behind its peers; a thread that is not suspended is left alone |
| `SchedulerCode.Scheduler.Timeout` | APP project/src/thread.c:636-657 | computes the specified timeout |
| `SchedulerCode.Scheduler.ChangePriority` | APP project/src/thread.c:485-526 | a ready thread moves to the end of its new list, another one only changes its priority and masks |
| `SchedulerCode.Scheduler.Yield` | APP project/src/thread.c:377-411 | computes the specified yield |
| `SchedulerCode.Scheduler.Exit` | APP project/src/scheduler.c:378-400 | leaving the outermost critical section reschedules |
| `SchedulerCode.Scheduler.RunAll` | APP project/src/scheduler.c:191-400 | any run of the methods is the specified run |
| `IpcLists.SuspendedUrgent` | APP project/src/ipc.c:106-130 | with RT_IPC_FLAG_PRIO the list stays in order of urgency |
| `IpcLists.PlaceSplits` | APP project/src/ipc.c:111-122 | the new thread goes behind all that are at least as urgent and before all that are less urgent |
| `IpcLists.Suspend` | APP project/src/ipc.c:92-135 | the loop finds that place; with RT_IPC_FLAG_FIFO the thread goes last |
| `IpcLists.RemainingTime` | APP project/src/ipc.c:1474-1492 | the waiting time that is left is the difference, or nothing, if and only if the elapsed time does not exceed it by more than half the range of the tick; a wait for ever stays one |
| `MailboxModel.StepGood` | APP project/src/ipc.c:1404-1715 | every step keeps: suspended threads are listed once each, and as long as a receiver waits there are at most as many mails as woken receivers that have yet to retry, and the same for senders and free slots |
| `MailboxModel.NobodyForgotten` | APP project/src/ipc.c:1404-1715 | over all interleavings no wake-up is lost: once all woken threads have retried, a waiting receiver means an empty mailbox and a waiting sender a full one, and not both |
| `MailboxModel.RunIsFifo` | APP project/src/ipc.c:1404-1715 | over all interleavings, with resets and timeouts, the mailbox is a first-in first-out queue |
| `MailboxModel.ReplayConserves` | APP project/src/ipc.c:1404-1680 | without a reset, what was there and what was sent is what was received and what is there, in order |
| `MailboxModel.StepAnswer` | APP project/src/ipc.c:1404-1715 | a receive succeeds if and only if there is mail and gets the oldest, a send if and only if there is room; otherwise the caller is refused if and only if it does not wait, and waits in its place; who is woken by each call, and what a reset or a timeout leaves |
| `MailboxCode.EntriesPush` | APP project/src/ipc.c:1496-1503 | writing at the in position appends to the entries of the ring |
| `MailboxCode.EntriesPop` | APP project/src/ipc.c:1643-1651 | advancing the out position drops the first entry |
| `MailboxCode.BehindIsMod` | APP project/src/ipc.c:1498-1503 | the position without a division is (out + entry) modulo size |
| `MailboxCode.Mailbox.Send` | APP project/src/ipc.c:1404-1525 | the section on the ring buffer and the suspend lists is the specified attempt to send |
| `MailboxCode.Mailbox.Recv` | APP project/src/ipc.c:1551-1676 | the section on the ring buffer and the suspend lists is the specified attempt to receive |
| `MailboxCode.Mailbox.Resume` | APP project/src/ipc.c:1474-1492 | a woken thread returns its error or tries again with the time that is left |
| `MailboxCode.Mailbox.Reset` | APP project/src/ipc.c:1686-1715 | everybody is woken with an error and the mailbox is emptied |
| `MailboxCode.ResumeAll` | APP project/src/ipc.c:169-196 | the loop wakes exactly the listed threads with an error |
| `MailboxCode.Mailbox.RunAll` | APP project/src/ipc.c:1404-1715 | any run of sections is the specified run |
| `MutexModel.StepGood` | APP project/src/ipc.c:642-859 | every step keeps: value is 1 iff there is no owner iff hold is 0; waiters imply an owner, which does not wait; with RT_IPC_FLAG_PRIO the owner is at least as urgent as every waiter |
| `MutexModel.StepLent` | APP project/src/ipc.c:642-859 | only the owner runs at another priority than its own, which the mutex remembers, and never at a less urgent one |
| `MutexModel.NoPriorityInversion` | APP project/src/ipc.c:642-859 | over every run with RT_IPC_FLAG_PRIO no waiter is more urgent than the owner, and after the final release a thread has the priority it had at the acquisition |
| `MutexModel.InheritsExactly` | APP project/src/ipc.c:806-850 | a step keeps the owner at least as urgent as its waiters if and only if it is not a hand-off to a thread less urgent than another waiter |
| `MutexModel.FifoBreaksInheritance` | APP project/src/ipc.c:806-850 | three takes of a new mutex in first-in first-out mode after which the hand-off leaves the new owner less urgent than a waiter |
| `MutexModel.RunHeld` | APP project/src/ipc.c:642-859 | over every run takes minus releases of a thread is the hold count it owns |
| `MutexModel.MutualExclusion` | APP project/src/ipc.c:642-859 | over every run at most one thread has taken the mutex more often than it released it |
| `MutexModel.TakeAnswer` | APP project/src/ipc.c:642-761 | a take is granted at once if and only if the mutex is free or the caller owns it, which then has one hold more; it is refused if and only if another thread owns it and the caller does not wait; any other caller waits in its place and lends its priority |
| `MutexModel.ReleaseAnswer` | APP project/src/ipc.c:772-859 | a release is refused if and only if the caller is not the owner; the final one gives the owner its priority back and makes the first waiter the owner, or nobody if there is none; any other one takes one hold away |
| `MutexModel.WokenAnswer` | APP project/src/ipc.c:733-753 | a woken thread returns with the mutex if and only if it was handed over to it; a timeout takes the thread out of the list |
| `MutexCode.Mutex.Take` | APP project/src/ipc.c:642-761 | computes the specified take, whose outcome for every state and waiting time is in TakeAnswer: recursion, acquisition, refusal, or inheritance and suspension |
| `MutexCode.Mutex.Release` | APP project/src/ipc.c:772-859 | computes the specified release: refusal, one hold less, direct hand-off, or a free mutex |
| `MutexCode.Mutex.RunAll` | APP project/src/ipc.c:642-859 | any run of sections is the specified run |
| `EventModel.ServeFromGood` | APP project/src/ipc.c:1017-1068 | after the loop of a send no suspended thread's condition is satisfied, although earlier threads may have cleared bits |
| `EventModel.StepGood` | APP project/src/ipc.c:998-1233 | every send, receive, timeout and reset keeps that |
| `EventModel.RunGood` | APP project/src/ipc.c:998-1233 | so does every run: at no moment is a suspended thread's condition satisfied |
| `EventModel.RunReplays` | APP project/src/ipc.c:998-1233 | over every run the bits in the set are those sent and not taken out since, and every receiver gets a non-empty part of what is there |
| `EventBits.RecvAnswer` | APP project/src/ipc.c:1093-1175 | a receive is given at once if and only if every bit it wants is in the set, or for RT_EVENT_FLAG_OR some bit; it gets exactly the bits in both sets, and with RT_EVENT_FLAG_CLEAR exactly the bits it wants leave the set; otherwise it is refused or waits |
| `EventBits.SendAnswer` | APP project/src/ipc.c:998-1076 | the bits sent come in, and the single pass over the list serves as if it always went back to the first waiting thread whose bits are there |
| `EventBits.WaitersLackBits` | APP project/src/ipc.c:998-1233 | after every run a thread that still waits lacks some bit that it wants, or for RT_EVENT_FLAG_OR all of them |
| `EventBits.WokenAnswer` | APP project/src/ipc.c:1178-1233 | what a woken thread returns, and what a timeout and a reset leave |
| `EventCode.WokenLikeImmediate` | APP project/src/ipc.c:1028-1059 | a woken receiver gets the same bits and clears the same bits as an immediate receive at that point |
| `EventCode.Event.Send` | APP project/src/ipc.c:998-1076 | the loop over the changing list serves the waiting threads in order as if each had just asked; SendAnswer says bit by bit whom |
| `EventCode.Event.Recv` | APP project/src/ipc.c:1093-1199 | computes the specified receive, whose outcome RecvAnswer gives bit by bit |
| `EventCode.Event.Reset` | APP project/src/ipc.c:1211-1233 | everybody is woken with an error and the set is emptied |
| `EventCode.Event.RunAll` | APP project/src/ipc.c:998-1233 | any run of sections is the specified run |
| `QueueModel.StepGood` | APP project/src/ipc.c:1924-2267 | every section keeps: each node is in exactly one of the free list, the queue and one thread's hands, and no wake-up is lost |
| `QueueModel.NodesConserved` | APP project/src/ipc.c:1924-2267 | over all interleavings, when no thread is between two sections, free list and queue together hold all nodes |
| `QueueModel.NobodyForgotten` | APP project/src/ipc.c:1924-2221 | over all interleavings, once all woken receivers have retried, a waiting receiver means an empty queue |
| `QueueModel.RunReplays` | APP project/src/ipc.c:1924-2267 | over all interleavings messages come out in the order in which they were linked, urgent ones first |
| `QueueModel.TakenIsReceived` | APP project/src/ipc.c:2192-2214 | whatever other threads do between the two sections of a receive, the bytes copied out are those of the message that was unlinked |
| `QueueModel.SendAnswer` | APP project/src/ipc.c:1924-1970 | a message that does not fit is an error, without a free node the queue is full, and otherwise the sender gets the first free node |
| `QueueModel.LinkAnswer` | APP project/src/ipc.c:1963-2001 | the node holds the bytes sent and comes last, or first if urgent; the first waiting receiver may try again |
| `QueueModel.StepAnswer` | APP project/src/ipc.c:2095-2279 | a receive gets the first message if and only if there is one; otherwise it is refused if and only if it does not wait, and waits in its place; the caller gets as many bytes as fit and the node is free again; what a timeout and a reset leave |
| `QueueCode.InitFree` | APP project/src/ipc.c:1770-1778 | the loop links all nodes into the free list |
| `QueueCode.MessageQueue.constructor` | APP project/src/ipc.c:1738-1786 | initialisation gives the empty queue with all nodes free |
| `QueueCode.MessageQueue.Send` | APP project/src/ipc.c:1924-1956 | the first section takes the head of the free list |
| `QueueCode.MessageQueue.Link` | APP project/src/ipc.c:1958-2001 | copy and second section put the node to the tail, or for an urgent message to the head |
| `QueueCode.MessageQueue.Recv` | APP project/src/ipc.c:2095-2203 | the section unlinks the head of the queue, or refuses, or suspends |
| `QueueCode.MessageQueue.Return` | APP project/src/ipc.c:2205-2214 | the bytes that fit are copied and the node goes to the front of the free list |
| `QueueCode.MessageQueue.Reset` | APP project/src/ipc.c:2234-2276 | every queued node goes to the free list one by one; nodes in hands stay there |
| `QueueCode.MessageQueue.RunAll` | APP project/src/ipc.c:1924-2276 | any run of sections is the specified run on the links |
| `PoolModel.StepGood` | APP project/src/mempool.c:321-465 | every section keeps: each block is on the free list, once, or given away; as long as a caller waits there are at most as many free blocks as woken callers that have yet to retry; suspend_thread_count is the number of waiting threads plus that of the waits that have timed out |
| `PoolModel.BlocksConserved` | APP project/src/mempool.c:91-465 | over all interleavings free and given blocks together are all blocks, none in two places |
| `PoolModel.RunReplays` | APP project/src/mempool.c:321-465 | over all interleavings the blocks that callers hold are exactly those given and not freed since, and no block is given to two callers |
| `PoolModel.NobodyForgotten` | APP project/src/mempool.c:321-465 | over all interleavings, once all woken callers have retried, a waiting caller means that no block is free |
| `PoolModel.StepAnswer` | APP project/src/mempool.c:321-465 | an allocation gets the first free block if and only if there is one; otherwise it is refused if and only if it does not wait, and waits in front of the others; a freed block comes first on the list and the first waiting thread may try again if the count says that there is one |
| `PoolModel.AstrayExactly` | APP project/src/mempool.c:333-452 | after any run of a new pool, a free finds a count but no waiting thread, and would take the list head for one, if and only if no thread waits and some wait has timed out |
| `PoolModel.AstrayCase` | APP project/src/mempool.c:333-452 | a run of a pool with one block and two threads that ends there |
| `PoolCode.UpChain` | APP project/src/mempool.c:124-132 | the links that the loop writes lead through all blocks in address order |
| `PoolCode.BlocksApart` | APP project/src/mempool.c:110-116 | the payloads of the blocks lie in the pool and do not overlap |
| `PoolCode.MemPool.constructor` | APP project/src/mempool.c:91-136 | initialisation leaves all blocks on the list |
| `PoolCode.MemPool.Attempt` | APP project/src/mempool.c:333-404 | one round of the loop takes the head of the list and lets its word lead to the pool, or refuses, or suspends |
| `PoolCode.MemPool.Free` | APP project/src/mempool.c:415-465 | the word in front of the block leads to the pool; the block goes to the front of the list, and the first waiting thread is woken |
| `PoolCode.MemPool.RunAll` | APP project/src/mempool.c:321-465 | any run of sections is the specified run |
| `FinshVm.GetBytes` | APP project/components/finsh/finsh_ops.c:297-325 | an operand written byte by byte is read back as the same word |
| `FinshVm.BinaryOfOpCode` | APP project/components/finsh/finsh_ops.c:69-296 | the opcode of a binary operator decodes to that operator |
| `FinshVm.NoOverflow` | APP project/components/finsh/finsh_vm.c:47-72 | no program in the text segment can overflow the stack |
| `FinshTree.RunBump` | APP project/components/finsh/finsh_compiler.c:373-700 | the code of an increment or decrement changes the variable by one and leaves the old value below |
| `FinshTree.RunCode` | APP project/components/finsh/finsh_compiler.c:43-755 | the code of an expression tree leaves its value on the stack and has its effect on the variables, or stops where evaluation stops |
| `FinshTree.RunLine` | APP project/components/finsh/finsh_compiler.c:903-937 | statement after statement: every earlier one has no net effect on the stack, the last value stays in slot 0 |
| `FinshTree.CompiledLineIsCorrect` | APP project/components/finsh/finsh_compiler.c:903-937 | running the emitted bytes gives exactly what direct left-to-right evaluation of the statement list gives, or fails exactly when it fails; LineOperator, LineIncrement and LineAssign say what that is |
| `FinshOps.StepLaw` | APP project/components/finsh/finsh_ops.c:69-296 | every operator instruction replaces the two topmost words by one that C allows: sums, differences and products modulo 2^32 as signed integers, quotients and remainders that truncate toward zero, and, or and exclusive or bit by bit, shifts as products and floors of quotients by powers of two; it is undefined if and only if a divisor is zero or a shift 32 or more |
| `FinshOps.StepNot` | APP project/components/finsh/finsh_ops.c:245-250 | the complement flips every bit |
| `FinshOps.PowersMultiply` | APP project/components/finsh/finsh_ops.c:252-296 | the powers of the shift laws: from sums to products, with 2 for 1 |
| `FinshOps.LineOperator` | APP project/components/finsh/finsh_compiler.c:43-755 | a line of one binary operator on any two expressions, run from left to right, leaves a word that obeys the law of the operator |
| `FinshOps.LineIncrement` | APP project/components/finsh/finsh_compiler.c:373-755 | a prefix or postfix increment or decrement changes the variable by one and leaves the new or the old value |
| `FinshOps.LineAssign` | APP project/components/finsh/finsh_compiler.c:311-371 | an assignment leaves the value, in the variable too |
| `Finsh.Shell.TypeCheck` | APP project/components/finsh/finsh_compiler.c:759-901 | the recursive pass over the left-child right-sibling table marks every node of the tree and nothing else |
| `Finsh.Shell.Compile` | APP project/components/finsh/finsh_compiler.c:43-755 | the recursive pass appends exactly the code of the tree to the text segment |
| `Finsh.Shell.Statement` | APP project/components/finsh/finsh_compiler.c:914-935 | one round of the statement loop emits one statement and its pop, and detaches it from its siblings |
| `Finsh.Shell.CompilerRun` | APP project/components/finsh/finsh_compiler.c:903-937 | the text segment holds the code of the whole line, padded with no-ops |
| `Finsh.Shell.Execute` | APP project/components/finsh/finsh_ops.c:32-441 | one instruction on the stack array and the variables is one step of the machine, whose operators obey StepLaw and StepNot |
| `Finsh.Shell.VmRun` | APP project/components/finsh/finsh_vm.c:47-72 | the fetch loop runs the machine to the end of the text segment |
| `Finsh.Shell.RunLine` | APP project/components/finsh/finsh_compiler.c:903-937 | compiling and running a line of trees has exactly the effect and the value of evaluating it, so `3 * 4` leaves 12 by LineOperator |
| `SlabSizes.ZoneIndex` | APP project/src/slab.c:411-455 | of the 72 chunk sizes the index is that of the least one that holds the request; the waste is below 8 bytes or an eighth of the request |
| `SlabSizes.ZoneFits` | APP project/src/slab.c:641-654 | a zone has room for at least two chunks behind its header and its z_nmax chunks end inside it |
| `SlabRuns.FreeCounts` | APP project/src/slab.c:554-584 | z_nfree = z_nmax - 1 - z_uindex + the length of the free-chunk list is the number of chunks of the zone that are not in use; when it is positive and no fresh chunk remains, that list is not empty |
| `SlabRuns.MallocSound` | APP project/src/slab.c:488-692 | malloc fails, changing nothing, if and only if the size is zero or there is no chunk, no spare zone and no run of pages that is long enough; otherwise the invariant is kept and exactly one block with room for the request becomes live |
| `SlabAnswers.MallocAnswer` | APP project/src/slab.c:488-692 | a small block is a chunk of the least size that holds the request, of a zone with a free chunk, else of the zone kept last, else of a new zone on the lowest pages; a large one has the lowest pages and not one more than it takes |
| `SlabRuns.FreeSound` | APP project/src/slab.c:793-935 | free keeps the invariant, also when the zone is retired or given back to the page allocator, and exactly that block stops being live |
| `SlabAnswers.FreeAnswer` | APP project/src/slab.c:793-935 | a zone is given up if and only if its last chunk in use was freed and another zone of its chunk size has a free chunk; it is kept for later, and its pages go back if and only if two zones are kept already; large blocks go back at once; the free pages are those that nothing holds |
| `SlabRuns.Recovers` | APP project/src/slab.c:826-860 | from a pointer, memusage leads to the very zone, chunk or run of pages that malloc gave away |
| `SlabRuns.LiveApart` | APP project/src/slab.c:488-692 | live blocks lie inside the heap, in different bytes |
| `SlabRuns.PieceWithin` | APP project/src/slab.c:641-660 | a chunk lies behind the header of its zone and ends inside it |
| `SlabRuns.PowerOfTwoAligned` | APP project/src/slab.c:643-650 | a power-of-two chunk of at most a page is aligned to its size; a larger one if and only if its zone is |
| `SlabRuns.OddZoneMisaligned` | APP project/src/slab.c:643-650 | the first request of a new heap that begins at an odd page, for 8000 bytes: it gets an 8192-byte chunk at an address that is not aligned to that size |
| `SlabRuns.ReallocSound` | APP project/src/slab.c:695-760 | realloc keeps the block if and only if its chunk already has the size that zoneindex makes of the request; otherwise it fails, changing nothing, if and only if there is no room for that size, or moves exactly this block to one with room |
| `SlabRuns.RunSound` | APP project/src/slab.c:488-935 | over every run of malloc, free and realloc each zone's counters agree with its lists, zone_array lists exactly the zones of the index with free chunks, at most two spare zones are kept, and callers own exactly the live blocks, each with the room asked for |
| `SlabRuns.OwnedApart` | APP project/src/slab.c:488-935 | from the start on and over every run, the ranges that callers were given lie in the heap and never overlap |
| `SlabLinks.ChainRemove` | APP project/src/slab.c:893-896 | making the previous link pass over a zone takes exactly that zone out of its list |
| `SlabCode.ZoneSizeFor` | APP project/src/slab.c:384-387 | the loop doubles the zone size while it is below a 1024th of the heap, up to 128 KB |
| `SlabCode.Heap.constructor` | APP project/src/slab.c:354-405 | initialisation leaves the pages behind memusage free and all lists empty |
| `SlabCode.Heap.Malloc` | APP project/src/slab.c:488-692 | the statements on headers, links, counters and memusage compute the specified allocation and return its address; no byte of a live block changes |
| `SlabCode.Heap.Free` | APP project/src/slab.c:793-935 | the statements compute the specified release of the block that the pointer stands for; no byte of another live block changes; a null pointer changes nothing |
| `SlabCode.Heap.Unchain` | APP project/src/slab.c:893-896 | the loop over z_next finds the zone wherever it is in its list and unlinks it |
| `SlabCode.Heap.Shrink` | APP project/src/slab.c:907-928 | the zone kept last leaves the spare list, its memusage is cleared and its pages are released |
| `SlabCode.Heap.Realloc` | APP project/src/slab.c:695-760 | the statements compute the specified change of size; the first min(old, new) bytes are in the block that is returned, and no byte of any other live block changes |
| `SlabCode.Heap.Move` | APP project/src/slab.c:720-758 | allocate, copy and free |
| `SlabCode.Heap.RunAll` | APP project/src/slab.c:488-935 | any run of the methods is the specified run, and what no call names keeps its place and its bytes |
| `SmallRuns.MallocSound` | APP project/src/mem.c:246-374 | malloc fails, changing nothing, if and only if the size is zero or above the heap, or no free block from lfree on is large enough, one at the end that fits exactly not counted; otherwise one new block with room appears |
| `SmallRuns.MallocFirst` | APP project/src/mem.c:279-339 | malloc hands out the lowest free block from lfree on that is large enough, one at the end that fits exactly apart, and all of it if and only if what is left over is too small for a block |
| `SmallRuns.PlugSound` | APP project/src/mem.c:136-174 | from one freshly freed block plug_holes restores that no two neighbours are free, keeps lfree a free block or heap_end, and changes nothing for the blocks in use |
| `SmallRuns.ReleaseGood` | APP project/src/mem.c:504-558 | a free keeps the invariant, removes exactly that block, and lowers the used bytes by its extent |
| `SmallRuns.ShrinkGood` | APP project/src/mem.c:430-453 | shrinking in place keeps the invariant and only changes the extent of that block |
| `SmallRuns.ResizeSound` | APP project/src/mem.c:385-466 | realloc keeps or moves the block, with room for the request, and leaves all others; when it returns null, which happens exactly in the stated cases, nothing changes |
| `SmallRuns.ResizePlace` | APP project/src/mem.c:404-453 | the block stays if and only if it has the rounded size or so much more that the rest makes a block, and then has exactly the rounded size; the used bytes fall by what it gives back |
| `SmallRuns.StepLow` | APP project/src/mem.c:385-558 | from a state in which all free blocks are found, a call leaves one below lfree, where no search finds it, if and only if it shrinks a block in place in front of lfree while the next block is in use |
| `SmallRuns.RunLow` | APP project/src/mem.c:246-558 | over every run without such a call, in particular of malloc and free alone, no free block lies below lfree |
| `SmallRuns.LowNoRoom` | APP project/src/mem.c:279-286 | then malloc misses a free block only if it fits exactly at the end of the heap |
| `SmallRuns.HiddenBlock` | APP project/src/mem.c:430-453 | a run from a new heap: two allocations, a shrink in place, and then a request for 500 bytes fails next to a free block of 788 |
| `SmallRuns.ExactFitRefused` | APP project/src/mem.c:279-286 | a new heap refuses a request for all its bytes, although it fits |
| `SmallRuns.RunSound` | APP project/src/mem.c:181-558 | over every run headers tile the heap, no two neighbours are free, lfree is a free block or heap_end, used_mem is the sum of the used extents and at most max_mem, and callers own exactly the blocks in use, each with the room asked for |
| `SmallRuns.MallocPeak` | APP project/src/mem.c:319-339 | max_mem becomes the larger of itself and the used bytes after each allocation |
| `SmallRuns.RunPeak` | APP project/src/mem.c:246-558 | over every run max_mem is the larger of its first value and the high-water mark of used_mem, in between and inside calls |
| `SmallRuns.OwnedApart` | APP project/src/mem.c:246-374 | what callers hold lies in the heap, before heap_end, and never overlaps |
| `SmallRuns.AllFreedIsInit` | APP project/src/mem.c:504-558 | freeing the last block in use restores the initial heap, with lfree at its start |
| `SmallCode.CutWritten` | APP project/src/mem.c:303-318 | the writes to two or three headers represent the block list with a new block in it |
| `SmallCode.JoinWritten` | APP project/src/mem.c:145-173 | the writes to two headers represent the block list with two blocks joined |
| `SmallCode.SmallHeap.constructor` | APP project/src/mem.c:183-231 | initialisation writes the headers of one free block and of heap_end |
| `SmallCode.SmallHeap.PlugHoles` | APP project/src/mem.c:136-174 | the statements on next, prev and lfree compute the specified joins |
| `SmallCode.SmallHeap.Malloc` | APP project/src/mem.c:246-374 | the loop over next from lfree with its strict bound computes the specified allocation |
| `SmallCode.SmallHeap.TakeBlock` | APP project/src/mem.c:288-351 | headers, used_mem, max_mem and lfree after a block was split or handed out whole |
| `SmallCode.SmallHeap.AdvanceFree` | APP project/src/mem.c:344-351 | the loop stops at the first free block, or at heap_end |
| `SmallCode.SmallHeap.Free` | APP project/src/mem.c:504-558 | the statements compute the specified release |
| `SmallCode.SmallHeap.Realloc` | APP project/src/mem.c:385-466 | the statements compute the specified resize; the first min(old, new) bytes are in the block that is returned, moved or not, and no other live byte changes; a pointer outside the heap is returned as it is |
| `SmallCode.SmallHeap.RunAll` | APP project/src/mem.c:246-558 | any run of the methods is the specified run, and what no call names keeps its place, its size and its bytes |

## Left out

- The finsh lexer and parser, system calls, system variables, pointers, and byte and word expressions: the compiler is modelled from trees over 32-bit variables on.
- Semaphores, and the heap locks built from them: each heap is modelled as used under its lock.
- `rt_mp_init` with a size that has no room for one block, where the code writes in front of the pool.
- Soft timers and the timer thread, which repeat the list operations on a second list.
- Timer callbacks that start or stop timers themselves: the callbacks are taken to leave the list alone.
- Time slices in `rt_tick_increase`, context switches, stacks, idle and defunct threads: a switch is an assignment to the current thread.
- The magic words and pool pointers of `memheap.c`; a header is its fields next, prev, next_free, prev_free and the used flag, and writing one overwrites its bytes in the pool.
- Sizes so large that `RT_ALIGN` wraps around.
- Detaching and deleting objects; object names and hooks; debug output.
- The first-use flag of the CRC tables and the literal tables in `crc32.h`: the tables are the ones that `make_crc_table` builds.
- Targets on which `unsigned long` has 64 bits.
- Threads that hold several mutexes, and priority changes from outside while a mutex is held.
- MutexModel.NoPriorityInversion: for mutexes with RT_IPC_FLAG_PRIO; for the other kind InheritsExactly says when inheritance is lost.
- TimerRuns.FiresOnTime: initial ticks plus slack, the most ticks by which a timer is inserted past its deadline, stay below half the tick range, as rt_timer_start asserts for timers that are not late; periods are positive, as the code needs to terminate.
- SchedulerCode.Scheduler.constructor: takes the emptied lists and the zeroed table; the two loops that empty them are not modelled.
- `rt_calloc`, the statistics used_mem and max_mem of `slab.c`, and the magic word of zones; the two words at the head of a run of free pages are kept in maps only. The bit trick that recognises a power of two is taken as that test.
- Small heaps of less than 12 bytes, on which the bound of the search wraps around.
