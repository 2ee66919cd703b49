# OBOS kernel models

A Dafny model of the parts of the OBOS kernel whose correctness is hardest to see, with proofs about
them. `dafny verify dfyconfig.toml` checks the project.

- **SMP scheduler** (`Scheduler*.dfy`). `schedule()` as a step machine with one program counter per
  CPU: each access to a flag or a thread field is one step, flag accesses are sequentially
  consistent, and the count of raised flags reads them one by one. On top of it are mutual exclusion
  and thread ownership over every interleaving. One CPU's calls are also modelled by a class that
  updates threads, lists and counters in place, with weighted fairness and bounded waiting; the
  steps of a call that no other CPU interferes with come to what such a call specifies. Run lists
  are sequences from tail to head, priorities are the values 1, 2, 4 and 8.
- **CRC-32 for GPT** (`ShiftRegister.dfy`, `Crc32.dfy`, `Polynomials.dfy`, `Division.dfy`,
  `CrcRemainder.dfy`). The table-driven checksum of section 5.3.2 of the UEFI Specification against
  the bit-serial form, that against the remainder of a division of polynomials, and what the
  checksum detects.
- **Chained hash map** (`LinkedList.dfy`, `Selection.dfy`, `Hashmap.dfy`, `HashmapGrowth.dfy`). Bucket
  chains, slot table and insertion list against an association list, and what becomes of slot table
  and chains as functions on values when the tables grow. Equal keys have equal hashes and `new` returns
  zeroed memory.
- **Physical pages** (`PageList.dfy`, `PageFailures.dfy`). The free list whose nodes live in the free
  pages. Pages are named by number; memory maps a page to what its first bytes hold.
- **Virtual gap search** (`Pages.dfy`, `PageTables.dfy`, `PageLookup.dfy`, `PageBuild.dfy`,
  `PageWalk.dfy`, `Gap*.dfy`). Four-level page tables as trees of entries, their enumeration against
  the translation of addresses, and the search for unmapped pages on top of it, in 64-bit arithmetic.
  Of an entry only whether it is present, and whether it maps a page, is kept.
- **Kernel heap** (`KernelHeap.dfy`, `HeapAllocator.dfy`, `HeapFailures.dfy`). Page blocks and
  block lists as functions on heap values, and kmalloc, kcalloc, kfree and krealloc as methods that
  compute these functions in place. The address the virtual allocator would return is a parameter,
  apart from all page blocks.
- **ustar initrd** (`Ustar.dfy`, `UstarLayout.dfy`). The reader of the ustar interchange format of
  the pax utility in IEEE Std 1003.1, a serialiser it inverts, and the header by byte positions.
- **Formatter** (`WordScan.dfy`, `Format*.dfy`, `DirectiveText.dfy`, `BoundedOutput.dfy`,
  `NumberParsers.dfy`). Chunked output through a callback, word scanning, directives, decimal and radix
  conversion, comma grouping, bounded output, what every directive prints by value and by character
  position, and the logger's parsers as inverses. The arguments of a
  directive are given by its offset. Alignment is an arbitrary parameter and the buffer size any
  number of at least 1; the kernel uses 1. The formatted text is first produced as the chunks handed
  to the callback, and the callback is then applied to these chunks.

Some properties one would expect are false of the code. For each there is a lemma that says exactly
when it holds, and one with an input on which it fails:

- Threads are exclusively held if and only if there are at most 64 CPUs (`ExclusiveUpTo64`,
  `SharedBeyond64`).
- `findThreadPriorityList` leaves the array of lists if and only if list 0 is empty and no other
  list has a turn left (`OutOfLists`, `OutOfListsWitness`).
- A call runs the idle thread if and only if no thread can be chosen, which is not to say that none
  was runnable: a search can recharge a thread and then find it (`FindsIff`, `RechargedWitness`).
- An entry put into the hash map is added to the others if and only if a slot is free or there is at
  most one slot (`AddsIff`, `FullWitness`), and growing keeps the chains right if and only if no key
  changes its bucket (`ExpandedIff`, `MisplacedWitness`).
- Free and held pages stay a partition if and only if the head of the list serves the request
  (`AllocatePhysicalPage`, `NotHeadWitness`), and a drained list is well formed if and only if the last
  header had a null next field (`Drained`, `StaleWitness`).
- kmalloc keeps the heap sound if and only if a page block in use has room or the new one is large
  enough (`AllocatedGood`, `FirstAllocation`, `NoRoomWitness`). kfree does unless the last block of
  the head page block is freed (`FreedGood`, `FreeWitness`). krealloc leaves `nBytesUsed` exact if
  and only if the size does not change in place (`GrownExact`, `ShrunkExact`, `GrownWitness`). A
  block that shrinks spares the others if and only if none begins within as many bytes behind it as
  it gives up (`SparesIff`, `ShrinkWitness`).
- The gap search returns free pages unless the page count is 2^64 - 1 (`CountWraps`). They lie below
  the limit if and only if such a gap, or such room on top, exists (`WithinIff`, `PastLimitWitness`),
  and they are unmapped if and only if no mapping reaches over the first of them (`ClearIff`,
  `FreeIff`, `HugeWitness`).
- `ReadFile` follows a null pointer if no entry has the path, and runs out of the file if the end of
  the read wraps past 2^64 (`FaultlessIff`, `FaultWitness`).
- Commas stand where they are due in a padded number if and only if the field is left-justified, has
  the zero flag, or has no comma due among the zeros of its precision (`PaddedCommas`,
  `PaddedCommasWitness`). A field is as long as asked for unless width and precision both call for
  zeros (`FieldLength`, `FieldLengthWitness`).
- The radix conversion stays inside its buffer if and only if the precision is below 512, or is 512
  and digits are not grouped in threes (`BufferIff`, `BufferWitness`).
- The formatter stays inside its format if and only if every directive it comes to has a conversion
  character (`CompleteInside`, `LeavesFormatWitness`).

## Model

| member | source | states |
|---|---|---|
| SchedulerProtocol.Step | src/oboskrnl/multitasking/scheduler.cpp:152-285 | one access of one CPU inside `schedule()`, so that every interleaving is a sequence of steps; every step keeps lists, threads and the operands of all program counters in range; `SoloCall` says which thread the steps come to |
| SchedulerSolo.SoloCall | src/oboskrnl/multitasking/scheduler.cpp:152-285 | for every CPU, start list and callback answers: the accesses of a call during which no other CPU steps, begun with all flags down, leave exactly the threads and the current thread of the call as a whole, which searches oldest first, recharges, takes a slice and stamps |
| SchedulerSolo.ScheduleExpected | src/oboskrnl/multitasking/scheduler.cpp:152-285 | that whole is, on the boot CPU, the specified next state of the single-CPU model for the list that the round robin picks |
| SchedulerSolo.SoloEnds | src/oboskrnl/multitasking/scheduler.cpp:152-285 | such a call ends, from whichever list it starts |
| SchedulerSolo.LosingCall | src/oboskrnl/multitasking/scheduler.cpp:203-223 | the accesses of a call that has counted another flag keep a thread that can run, and otherwise release and stamp it and take the idle thread |
| SchedulerExclusion.LocalOrderly | src/oboskrnl/multitasking/scheduler.cpp:154-285 | after every access the own flag agrees with where the CPU is; a count begins at 0 and adds the flags one at a time in order; the critical region is entered only from a complete count of exactly 1 |
| SchedulerExclusion.ExclusionKept | src/oboskrnl/multitasking/scheduler.cpp:145-151 | one step of any CPU keeps: of two CPUs past each other's flag at most one goes on |
| SchedulerExclusion.MutualExclusion | src/oboskrnl/multitasking/scheduler.cpp:145-158 | in every interleaving on any number of CPUs, at most one CPU is between a count of exactly 1 and clearing its own flag, although the count is not atomic and nobody waits |
| SchedulerOwnership.LocalGuarantee | src/oboskrnl/multitasking/scheduler.cpp:154-285 | an access stores only to a thread that its CPU holds or has tested; a newly held thread was chosen before or is the idle thread, a chosen one passed the tests, one let go is ready, and only a holder marks a thread running |
| SchedulerOwnership.OwnershipKept | src/oboskrnl/multitasking/scheduler.cpp:203-285 | the ownership invariant of all CPUs and threads is kept by every step |
| SchedulerOwnership.ThreadsConserved | src/oboskrnl/multitasking/scheduler.cpp:46-285 | on at most 64 CPUs, in every interleaving: no thread is held by two CPUs, a thread that nobody holds is ready or dead and not marked running, and the chosen thread is never null, also while losing CPUs fall back to their idle threads |
| SchedulerLimit.SharedBeyond64 | src/oboskrnl/multitasking/scheduler.cpp:278-281 | with more than 64 CPUs there is a run in which CPU 0 and CPU 64 hold the same thread, because the mask is a 64-bit shift |
| SchedulerLimit.ExclusiveUpTo64 | src/oboskrnl/multitasking/scheduler.cpp:278-281 | for all numbers of CPUs: every run keeps threads exclusively held if and only if there are at most 64 CPUs |
| SchedulerRoundRobin.FairRound | src/oboskrnl/multitasking/scheduler.cpp:89-125 | from any position of a round, W calls in a row pick each non-empty list exactly its weight (8, 4, 2, 1) times, W being the sum of these weights |
| SchedulerRoundRobin.FairWindow | src/oboskrnl/multitasking/scheduler.cpp:89-125 | the same for the window that begins after any number of calls from cleared counters |
| SchedulerRoundRobin.OutOfLists | src/oboskrnl/multitasking/scheduler.cpp:93-124 | the list index is -1 on return if and only if list 0 is empty and no other list has a turn left |
| SchedulerRoundRobin.OutOfListsWitness | src/oboskrnl/multitasking/scheduler.cpp:93-124 | it is -1 when only list 2 holds threads, has had its four turns, and list 0 has not been picked |
| SchedulerSelection.OldestIsOldest | src/oboskrnl/multitasking/scheduler.cpp:56-88 | the scan's choice is the runnable thread preempted longest ago, the first such in list order, and none only if none is runnable |
| SchedulerSelection.FallBackOnlyIfNone | src/oboskrnl/multitasking/scheduler.cpp:240-261 | from any start list the search ends in the idle thread only if no thread of any list was runnable at entry |
| SchedulerSelection.SearchFinds | src/oboskrnl/multitasking/scheduler.cpp:240-261 | while a thread is runnable the search finds a thread, and in that thread's list none that was preempted later |
| SchedulerEffects.FindsIff | src/oboskrnl/multitasking/scheduler.cpp:240-261 | from any start list the search finds a thread if and only if some listed thread is runnable, or is recharged by the first of the two scans its list gets |
| SchedulerEffects.RechargedWitness | src/oboskrnl/multitasking/scheduler.cpp:64-82 | a marked thread out of slices is found although nothing was runnable at entry |
| SchedulerSelection.Scheduler.FindRunnableThreadInList | src/oboskrnl/multitasking/scheduler.cpp:56-88 | the scan loop returns the oldest runnable thread and leaves every thread of the list marked or recharged as one scan does |
| SchedulerSelection.Scheduler.FindThreadPriorityList | src/oboskrnl/multitasking/scheduler.cpp:89-125 | the loop and its recursion compute the weighted round-robin pick; the measure bounds the recursion depth by one |
| SchedulerSelection.Scheduler.CallBlockCallbacksOnList | src/oboskrnl/multitasking/scheduler.cpp:126-144 | the list's threads as the function gives them, for which `WokenAt` says what happens to each |
| SchedulerSelection.WokenAt | src/oboskrnl/multitasking/scheduler.cpp:126-144 | a thread loses BLOCKED if and only if it is listed, blocked and its callback answers true, and is otherwise unchanged |
| SchedulerSelection.Scheduler.FindThread | src/oboskrnl/multitasking/scheduler.cpp:240-261 | the goto loop refines the search and scans at most eight lists |
| SchedulerSelection.Scheduler.Call | src/oboskrnl/multitasking/scheduler.cpp:152-285 | one call on one CPU takes the state to the specified next state, also where a blocked idle thread is waited for and nothing is selected |
| SchedulerEffects.ReadyAt | src/oboskrnl/multitasking/scheduler.cpp:126-239 | what the search begins with, field by field: the thread that ran is stamped, ready and back on its own CPUs, and woken threads are unblocked |
| SchedulerEffects.CallChooses | src/oboskrnl/multitasking/scheduler.cpp:240-285 | a call that chooses runs the idle thread if and only if no thread can be chosen, else a listed one that can run; another thread than before has used up exactly one slice more, is marked running and pinned to the CPU, and all others are as the search left them |
| SchedulerFairness.CallValid | src/oboskrnl/multitasking/scheduler.cpp:152-285 | every call keeps the scheduler's lists, threads and counters valid |
| SchedulerFairness.CallProgress | src/oboskrnl/multitasking/scheduler.cpp:152-285 | a call makes the waiting thread current, or leaves it waiting with no new thread ahead of it and with one fewer if a thread was chosen starting from its list; no later call waits for the idle thread |
| SchedulerFairness.BoundedWaiting | src/oboskrnl/multitasking/scheduler.cpp:56-285 | a thread that stays runnable is current within W * (r + 1) calls, r counting the other threads of its list preempted no later, plus one call if a blocked idle thread is current; the counters are at a position of a round |
| SchedulerFairness.BoundedFromBoot | src/oboskrnl/multitasking/scheduler.cpp:56-285 | from cleared counters that bound holds after any number of calls, whatever the callbacks wake |
| SchedulerFairness.BoundedFromAnywhere | src/oboskrnl/multitasking/scheduler.cpp:56-285 | from arbitrary counters the bound is W * (r + 2), plus one call if a blocked idle thread is current |
| SchedulerFairness.RechargedByTwoScans | src/oboskrnl/multitasking/scheduler.cpp:64-82 | a ready thread out of time slices can run again after exactly two scans of its list, not after one |
| ShiftRegister.WindowDetected | src/drivers/generic/gpt/main.cpp:86-105 | for any lawful shift register, messages that differ within a window no wider than the register have different checksums |
| ShiftRegister.ChecksumContinues | src/drivers/generic/gpt/main.cpp:100-114 | a checksum is continued by undoing the final complement |
| Crc32.RegisterLawful | src/drivers/generic/gpt/main.cpp:92-96 | the CRC-32 step is linear, injective and undoes a shift |
| Crc32.BurstDetected | src/drivers/generic/gpt/main.cpp:86-105 | two bit strings of equal length that differ within 32 consecutive bits never share a CRC |
| Crc32.FourBytesDetected | src/drivers/generic/gpt/main.cpp:86-105 | two byte strings of equal length that differ within four consecutive bytes never share a CRC |
| Crc32.CrcContinues | src/drivers/generic/gpt/main.cpp:106-114 | continuing from the CRC of a gives the CRC of a followed by b |
| Crc32.TableStep | src/drivers/generic/gpt/main.cpp:100-105 | eight bit steps are one shift by a byte plus a table entry |
| Polynomials.RemainderUnique | src/drivers/generic/gpt/main.cpp:86-105 | a polynomial over two elements leaves one remainder, of lower degree than the divisor |
| Division.FedDivides | src/drivers/generic/gpt/main.cpp:86-105 | a shift register whose step is a step of a long division leaves the remainder of the message |
| CrcRemainder.GeneratorWord | src/drivers/generic/gpt/main.cpp:95 | the constant of the table set-up is x^32 + x^26 + x^23 + x^22 + x^16 + x^12 + x^11 + x^10 + x^8 + x^7 + x^5 + x^4 + x^2 + x + 1 without its leading term |
| CrcRemainder.CrcIsRemainder | src/drivers/generic/gpt/main.cpp:86-123 | the message times x^32, its first 32 coefficients flipped, leaves the complement of the CRC modulo that polynomial |
| CrcRemainder.CrcExact | src/drivers/generic/gpt/main.cpp:86-123 | and the CRC is the only word of which that is true |
| Crc32.Table.CrcInit | src/drivers/generic/gpt/main.cpp:86-99 | entry k of the table is what eight bit steps make of k, for all 256 entries |
| Crc32.Table.Crc | src/drivers/generic/gpt/main.cpp:100-105 | the table-driven loop returns the bit-serial CRC of every byte string, from any starting register |
| Crc32.Table.Crc32Bytes | src/drivers/generic/gpt/main.cpp:115-123 | the bit-serial CRC, which `CrcExact` characterises, whether or not the table was set up before |
| Crc32.Table.Crc32BytesFromPrevious | src/drivers/generic/gpt/main.cpp:106-114 | given the CRC of any string a, the CRC of a followed by the data |
| Hashmap.Hashmap.constructor | src/oboskrnl/utils/hashmap.h:311-320 | an empty map; the node counter starts at any value, as it is not initialised |
| Hashmap.Hashmap.At | src/oboskrnl/utils/hashmap.h:124-145 | the value of the oldest live entry for the key, or nothing |
| Hashmap.Hashmap.Contains | src/oboskrnl/utils/hashmap.h:268-269 | true exactly if the association list has an entry for the key |
| Hashmap.Hashmap.EmplaceAt | src/oboskrnl/utils/hashmap.h:147-190 | in a table that is not full, the association list grows by the entry at its end; slots, chain cells and insertion-list cells stay in one-to-one correspondence |
| HashmapGrowth.AddsIff | src/oboskrnl/utils/hashmap.h:147-165 | for every table: the entry is added to the others if and only if a slot is free or there is at most one slot; in any other full table the doubling ends in slot 1, whose entry is lost |
| HashmapGrowth.ExpandedIff | src/oboskrnl/utils/hashmap.h:259-266 | for every table and number of new slots: the chains index the longer table right if and only if no key's hash belongs in another bucket, since nothing is rehashed |
| Hashmap.Hashmap.Remove | src/oboskrnl/utils/hashmap.h:192-236 | exactly the oldest entry for the key is gone, or nothing changes if there is none |
| Hashmap.IndexEmplaced | src/oboskrnl/utils/hashmap.h:166-176 | after an append every bucket's chain still names exactly the slots with keys of that bucket, oldest first |
| Hashmap.IndexRemoved | src/oboskrnl/utils/hashmap.h:212-220 | the same after a removal |
| Hashmap.RunOps | src/oboskrnl/utils/hashmap.h:124-236 | every sequence of put, remove and get within capacity gives the final list and the answers of the association list |
| Hashmap.RemoveOthers | src/oboskrnl/utils/hashmap.h:192-236 | a key that does not match the removed entry is looked up as before |
| Hashmap.OldestWins | src/oboskrnl/utils/hashmap.h:147-190 | a new entry is seen only by keys that had none |
| HashmapGrowth.FullWitness | src/oboskrnl/utils/hashmap.h:147-165 | 64 keys put one by one fill the table, and when the next one is put, key 1 is in none of the 128 slots |
| HashmapGrowth.MisplacedWitness | src/oboskrnl/utils/hashmap.h:259-266 | a full table of 64 slots with the keys from 64 on is indexed right, and no longer once it is doubled |
| PageList.PartitionAfter | src/oboskrnl/arch/x86_64/memory_manager/physical/allocatePhys.cpp:95-111 | pages stay partitioned into free and held if and only if the returned address is that of the pages taken off the list |
| PageList.OnePage | src/oboskrnl/arch/x86_64/memory_manager/physical/allocatePhys.cpp:84-94 | a request for one page is always served by the head of the list |
| PageList.Drained | src/oboskrnl/arch/x86_64/memory_manager/physical/allocatePhys.cpp:96-110 | taking all pages of the only run leaves a well-formed list if and only if the next field of its header was null |
| PageFailures.NotHeadWitness | src/oboskrnl/arch/x86_64/memory_manager/physical/allocatePhys.cpp:78-115 | two pages asked for when the head run has one: page 1 is returned and is still free, and page 3 is neither free nor held |
| PageFailures.StaleWitness | src/oboskrnl/arch/x86_64/memory_manager/physical/allocatePhys.cpp:96-110 | the only free page has a header whose next field still points to a held page: once it is taken, no list begins at the head |
| PageList.PageAllocator.AllocatePhysicalPage | src/oboskrnl/arch/x86_64/memory_manager/physical/allocatePhys.cpp:78-115 | where the walk reads no stale next field: first fit, null if none fits; the address counts from the head; free and held pages stay a partition if and only if the head run served the call, and then no held page is handed out |
| PageList.PageAllocator.TakePages | src/oboskrnl/arch/x86_64/memory_manager/physical/allocatePhys.cpp:95-110 | the run loses its last pages, or the node, unless it is the last one with a stale next field, leaves the list with its neighbours, head and tail relinked |
| PageList.PageAllocator.FreePhysicalPage | src/oboskrnl/arch/x86_64/memory_manager/physical/allocatePhys.cpp:116-131 | held pages become the last run of the list, free again, whatever the page held in its next field |
| PageList.PageAllocator.Overwrite | src/oboskrnl/arch/x86_64/memory_manager/physical/allocatePhys.cpp:34-38 | a holder may write anything into a held page without harm to the list |
| PageList.HeldHoldsNoHeader | src/oboskrnl/arch/x86_64/memory_manager/physical/allocatePhys.cpp:34-38 | no held page holds the header of a listed node |
| PageList.Run | src/oboskrnl/arch/x86_64/memory_manager/physical/allocatePhys.cpp:78-131 | over any history of allocations that the head run can serve, releases and overwrites: the pages stay partitioned, none is handed out twice without a release, and only held pages are released |
| PageWalk.IteratePages | src/oboskrnl/arch/x86_64/memory_manager/virtual/internal.cpp:217-267 | the recursion over the four levels, with the bounds on the top level and the indices that end all loops, leaves the search where the callback applied to the enumeration in turn leaves it |
| PageWalk.TableScanned | src/oboskrnl/arch/x86_64/memory_manager/virtual/internal.cpp:217-267 | for every table: walking it with the callback is searching what it enumerates |
| PageTables.EnumeratedInOrder | src/oboskrnl/arch/x86_64/memory_manager/virtual/internal.cpp:230-263 | for every page table and range: the mappings enumerated are in ascending order, aligned and without overlaps |
| PageLookup.EnumeratedExact | src/oboskrnl/arch/x86_64/memory_manager/virtual/initialize.h:23-37 | for every page table, range and address walked for it: a mapping is enumerated and covers the address if and only if the translation by table indices finds it |
| PageBuild.BuiltEnumerated | src/oboskrnl/arch/x86_64/memory_manager/virtual/internal.cpp:230-263 | every set of disjoint small and large pages is, for any range, exactly what the tables built for it enumerate |
| GapSearch.Search.Callback | src/oboskrnl/arch/x86_64/memory_manager/virtual/allocate.cpp:63-79 | pages below the base are skipped, a distance of enough pages in 64-bit arithmetic stops the search |
| GapSearch.WideInWords | src/oboskrnl/arch/x86_64/memory_manager/virtual/allocate.cpp:72-76 | the unsigned 64-bit distance test, with the wrap of the difference and of the count written out |
| GapSearch.PassOne | src/oboskrnl/arch/x86_64/memory_manager/virtual/allocate.cpp:70-94 | the first pass stops at the lowest gap that fits, and nowhere if there is none |
| GapSearch.PassTwo | src/oboskrnl/arch/x86_64/memory_manager/virtual/allocate.cpp:95-98 | without a gap the second pass succeeds if and only if there are two mapped pages and room around the top of the address space |
| GapSearch.LimitAgain | src/oboskrnl/arch/x86_64/memory_manager/virtual/allocate.cpp:95-100 | a gap found at the limit itself is found again and taken for none |
| PageWalk.FindUsableAddress | src/oboskrnl/arch/x86_64/memory_manager/virtual/allocate.cpp:56-103 | for every page table: the lowest gap, or the page above the highest mapping, or null, each exactly when; a non-null result starts pages that are no beginnings of mappings unless the page count is 2^64 - 1 |
| GapTables.FreeIff | src/oboskrnl/arch/x86_64/memory_manager/virtual/allocate.cpp:56-103 | for every page table: the pages found, as far as they do not wrap, are all unmapped by translation if and only if no mapping reaches over the first of them |
| GapSearch.CountWraps | src/oboskrnl/arch/x86_64/memory_manager/virtual/allocate.cpp:72 | for the largest page count the needed distance wraps to 0 and the result is not free |
| GapLimits.WithinIff | src/oboskrnl/arch/x86_64/memory_manager/virtual/allocate.cpp:56-103 | for every region: a non-null result lies between base and limit if and only if some gap does or, if there is no gap at all, the room above the highest mapped page does |
| GapTables.PastLimitWitness | src/oboskrnl/arch/x86_64/memory_manager/virtual/allocate.cpp:95-103 | a user process whose page tables map its first and its last page, asked for 2^35 pages, gets the address behind the limit |
| GapLimits.ClearIff | src/oboskrnl/arch/x86_64/memory_manager/virtual/allocate.cpp:63-79 | with mappings of any sizes: the pages found meet a mapping if and only if the page before them begins one of more than a page |
| GapTables.HugeWitness | src/oboskrnl/arch/x86_64/memory_manager/virtual/allocate.cpp:63-79 | 1024 pages asked for with page tables that map a 2 MiB page at 2 MiB: the result is inside that page |
| KernelHeap.FreshFitsUnless | src/oboskrnl/allocators/liballoc.cpp:77-79 | a new page block fits its first block except when the page part of the size is 7 modulo 8 and more than 3840 bytes are left over |
| KernelHeap.PlacedBase | src/oboskrnl/allocators/liballoc.cpp:239-278 | placing a block on top of a page block keeps every invariant if and only if the block ends within the page block |
| KernelHeap.AllocatedGood | src/oboskrnl/allocators/liballoc.cpp:170-283 | kmalloc keeps live blocks disjoint and inside, lists, highest block and counts right if and only if a page block in use has room or the new one fits; other blocks are untouched |
| HeapFailures.FirstAllocation | src/oboskrnl/allocators/liballoc.cpp:77-79 | on an empty heap: the heap is sound after kmalloc if and only if the rounded size does not end in the last 256 bytes before a multiple of eight pages |
| HeapFailures.NoRoomWitness | src/oboskrnl/allocators/liballoc.cpp:77-79 | kmalloc(32527) on an empty heap returns a block that ends behind its page block |
| KernelHeap.FreedGood | src/oboskrnl/allocators/liballoc.cpp:355-402 | kfree keeps all of that if and only if the block was not the last one of the page block at the head of the list; other blocks are untouched |
| HeapFailures.FreeWitness | src/oboskrnl/allocators/liballoc.cpp:110-121 | kmalloc(16) and kfree on an empty heap leave the head of the list pointing to a page block that is gone |
| KernelHeap.EmptiedGood | src/oboskrnl/allocators/liballoc.cpp:110-121 | giving back an empty page block keeps the list of page blocks if and only if it is not the head, which the code does not move |
| KernelHeap.GrownGood | src/oboskrnl/allocators/liballoc.cpp:315-325 | growing in place keeps the heap sound, but the count of used bytes falls short by the growth |
| HeapFailures.GrownExact | src/oboskrnl/allocators/liballoc.cpp:315-325 | for every sound heap: after a change of the highest block of a page block in place the counts of used bytes are exact if and only if the size is what it was |
| HeapFailures.ShrunkExact | src/oboskrnl/allocators/liballoc.cpp:307-314 | the same after shrinking any block |
| HeapFailures.GrownWitness | src/oboskrnl/allocators/liballoc.cpp:315-325 | kmalloc(16) and krealloc to 63 bytes on an empty heap leave the count 32 bytes short |
| KernelHeap.ShrunkGood | src/oboskrnl/allocators/liballoc.cpp:307-314 | shrinking keeps the heap sound, but the count of used bytes is too high by the difference |
| HeapFailures.SparesIff | src/oboskrnl/allocators/liballoc.cpp:307-314 | for every sound heap: the bytes that shrinking zeroes, which lie behind the block, meet no other block or page header if and only if none begins among them |
| HeapFailures.ShrinkWitness | src/oboskrnl/allocators/liballoc.cpp:307-314 | kmalloc(16) twice and krealloc of the first block to 1 byte zero the header of the second block |
| HeapAllocator.Allocator.AllocateNewPageBlock | src/oboskrnl/allocators/liballoc.cpp:77-109 | the page block list with a zeroed page block of the rounded size at its end |
| HeapAllocator.Allocator.FindPageBlock | src/oboskrnl/allocators/liballoc.cpp:193-227 | the walk returns the first page block in list order with room above its highest block |
| HeapAllocator.Allocator.KMalloc | src/oboskrnl/allocators/liballoc.cpp:170-283 | null for 0 bytes; otherwise the new heap and address are those of the allocation function |
| HeapAllocator.Allocator.FindHighest | src/oboskrnl/allocators/liballoc.cpp:388-396 | the greatest address in the list |
| HeapAllocator.Allocator.FreePageBlock | src/oboskrnl/allocators/liballoc.cpp:110-121 | the page block leaves the list and the heap, the head of the list stays |
| HeapAllocator.Allocator.KFree | src/oboskrnl/allocators/liballoc.cpp:355-402 | null and pointers without a live header change nothing; otherwise the new heap is that of the free function, and the block's bytes are zeroed unless its page block is unmapped |
| HeapAllocator.Allocator.KCalloc | src/oboskrnl/allocators/liballoc.cpp:284-287 | an allocation whose requested bytes are zero |
| HeapAllocator.Allocator.FreeSpaceAfter | src/oboskrnl/allocators/liballoc.cpp:329-345 | the scan for free space behind a block ends at once, so that branch never grows a block |
| HeapAllocator.Allocator.KRealloc | src/oboskrnl/allocators/liballoc.cpp:288-354 | growing keeps the old bytes, zeroes the rest up to the new size and leaves every other block's range and bytes unchanged, in place and moved; shrinking keeps the bytes that fit and, where it zeroes free memory only, every other block; size 0, equal size, a null pointer and a pointer without a live header as in the code |
| HeapAllocator.RunGood | src/oboskrnl/allocators/liballoc.cpp:170-402 | after every run from the empty heap of kmalloc with room and of kfree short of the last block of the head page block, requests for 0 bytes and pointers that are not live included, all invariants hold and the counts of used bytes are exact |
| HeapAllocator.GoodBlocksApart | src/oboskrnl/allocators/liballoc.cpp:239-265 | what the invariant says: live blocks do not overlap |
| HeapAllocator.GoodBlockInside | src/oboskrnl/allocators/liballoc.cpp:239-265 | what the invariant says: live blocks lie inside their page block |
| HeapAllocator.GoodPageBlock | src/oboskrnl/allocators/liballoc.cpp:51-65 | what the invariant says: the list of a page block holds exactly its live blocks, as many as counted, its greatest address is highestBlock, and nBytesUsed is the sum of sizes and headers |
| Ustar.Oct2Bin | src/drivers/generic/initrd/parse.cpp:24-34 | any characters that do not overflow a 32-bit integer on the way, to their value in base 8 |
| Ustar.DigitsFit | src/drivers/generic/initrd/parse.cpp:24-34 | octal digits are parsed without overflow if and only if they stand for less than 2^31 |
| Ustar.OctalRoundTrip | src/drivers/generic/initrd/parse.cpp:24-34 | the value of the octal digits of a number is the number |
| Ustar.SerialisedStored | src/drivers/generic/initrd/parse.cpp:40-84 | for every list of files with names under 100 bytes and sizes under 2^31, the reader's view of the serialised image is that list |
| Ustar.RangesDisjoint | src/drivers/generic/initrd/parse.cpp:51-56 | entries follow one another, so data ranges are disjoint |
| Ustar.RangeInside | src/drivers/generic/initrd/parse.cpp:51-56 | every data range lies inside the image |
| Ustar.Initrd.InitializeFilesystemCache | src/drivers/generic/initrd/parse.cpp:40-84 | the walk ends and the linked cache list holds exactly the entries of the files in order, or the image is refused if and only if it has none |
| UstarLayout.HeaderLayout | src/drivers/generic/initrd/parse.h:13-37 | a header describes a file if and only if its bytes are laid out so: the path from 0, eleven octal digits from 124, the type at 156 and the mark from 257 |
| UstarLayout.CachedEntry | src/drivers/generic/initrd/parse.cpp:47-71 | for such bytes the cache entry has the size, the data from 512 on up to the next multiple of 512, and the attributes 17 for a file, 8 for a hard link, 4 for a directory and 0 otherwise |
| Ustar.Initrd.ReadEntry | src/drivers/generic/initrd/parse.cpp:47-71 | the cache entry of a header: size, attributes by type, data range padded to 512 |
| Ustar.Initrd.FindNode | src/drivers/generic/initrd/parse.cpp:108-120 | the first node with the path, or the end of the list |
| Ustar.Initrd.ReadFile | src/drivers/generic/initrd/interface.cpp:124-141 | exactly the slice of the first entry with the path, a refusal, or the two faults of the code, each exactly when |
| Ustar.FaultlessIff | src/drivers/generic/initrd/interface.cpp:124-141 | neither fault happens if and only if some entry has the path and the read begins behind its data or ends below 2^64 |
| Ustar.FaultWitness | src/drivers/generic/initrd/interface.cpp:124-141 | in the image of one file, an absent path makes the reader follow null, and a read of 2^64 - 1 bytes from offset 1 leaves the file |
| WordScan.HasZeroExact | src/oboskrnl/utils/stb_sprintf.h:332-334 | the word test for a zero byte is exact |
| WordScan.HasPercentExact | src/oboskrnl/utils/stb_sprintf.h:405-412 | the word test for a percent sign is exact |
| WordScan.StrlenLimited | src/oboskrnl/utils/stb_sprintf.h:309-347 | the length up to the terminator or the limit, for any alignment, reading no further than the next word boundary |
| FormatNumber.CanonicalDigits | src/oboskrnl/utils/stb_sprintf.h:1087-1142 | digits taken off from the right until nothing is left are the canonical digits |
| FormatNumber.CommaPlaces | src/oboskrnl/utils/stb_sprintf.h:1090-1131 | a character is a comma if and only if its distance from the right end is 3 modulo 4 (or the radix's group size modulo that plus one) |
| FormatNumber.UncommaSpelled | src/oboskrnl/utils/stb_sprintf.h:1090-1131 | without its commas a grouped number is the plain number |
| FormatConvert.DecimalPlain | src/oboskrnl/utils/stb_sprintf.h:1087-1142 | for every 64-bit value the loop over 10^8 chunks and digit pairs writes the canonical decimal digits |
| FormatConvert.DecimalGrouped | src/oboskrnl/utils/stb_sprintf.h:1087-1142 | for every 64-bit value the loop with the comma flag writes the canonical digits grouped in threes |
| FormatConvert.RadixNumber | src/oboskrnl/utils/stb_sprintf.h:1035-1050 | the radix loop writes the canonical digits, or the least number of digits that reach the precision |
| FormatBuffer.BufferIff | src/oboskrnl/utils/stb_sprintf.h:1035-1050 | for every 64-bit number, radix, grouping and precision: the loop stays inside its 512-byte buffer if and only if the precision is less than 512, or is 512 and the digits are not grouped in threes |
| FormatBuffer.FieldFits | src/oboskrnl/utils/stb_sprintf.h:1035-1054 | the same for the text of every radix field, whatever its flags, width and argument |
| FormatFailures.BufferWitness | src/oboskrnl/utils/stb_sprintf.h:1035-1050 | "%'.512o", parsed and converted for any number, writes 513 characters |
| FormatField.PaddedCommas | src/oboskrnl/utils/stb_sprintf.h:1146-1237 | with the comma flag, commas stand in padding and number alike exactly where the distance from the right end calls for them, if and only if the field is left-justified, has the zero flag, or has no comma due among the zeros of its precision |
| FormatFailures.PaddedCommasWitness | src/oboskrnl/utils/stb_sprintf.h:1146-1237 | the directive "%'.6u", parsed and converted for 7, prints "000007", without the comma due |
| FormatField.FieldLength | src/oboskrnl/utils/stb_sprintf.h:1146-1165 | a field is as long as its width and precision ask for, except exactly when it is right-justified with the zero flag and both call for zeros; then it is shorter than the width |
| FormatFailures.FieldLengthWitness | src/oboskrnl/utils/stb_sprintf.h:1146-1165 | the directive "%06.3d", parsed and converted for 7, prints "0007" |
| FormatShape.FieldShaped | src/oboskrnl/utils/stb_sprintf.h:1146-1328 | for every field, by character position: left-justified it begins with its leader and has only spaces behind its text; right-justified with the zero flag it has no spaces and begins with its leader; right-justified without it there are only spaces before the leader; between leader and text stand zeros and due commas |
| FormatShape.ShapedOnce | src/oboskrnl/utils/stb_sprintf.h:1146-1328 | that fixes the text of a field |
| FormatField.DefaultField | src/oboskrnl/utils/stb_sprintf.h:1146-1165 | without width and precision a field is its leader and its text |
| FormatDirective.ParseSpec | src/oboskrnl/utils/stb_sprintf.h:433-570 | the directive ends at its conversion character, and nothing before that is the terminator |
| FormatDirective.ReadSpec | src/oboskrnl/utils/stb_sprintf.h:433-570 | the loops over flags and digits parse the directive that the function gives |
| DirectiveText.SpecRead | src/oboskrnl/utils/stb_sprintf.h:433-570 | for all flags in any order and number, widths, precisions, stars and all spellings of the size: a directive written out anywhere in a format is parsed back, with the offset behind it |
| FormatDirective.Convert | src/oboskrnl/utils/stb_sprintf.h:571-1142 | runs the conversion loops for the conversion character and gives the field that the function gives, of which the lemmas of `FormatMeaning` say what it prints |
| FormatMeaning.UnsignedMeaning | src/oboskrnl/utils/stb_sprintf.h:1056-1142 | for every directive "%u" and argument: the text is the sign asked for and the canonical digits of the argument modulo 2^32 or 2^64, grouped and padded as asked |
| FormatMeaning.SignedMeaning | src/oboskrnl/utils/stb_sprintf.h:1056-1142 | the same for "%d" and "%i", with the two's complement value and a minus sign if it is negative |
| FormatMeaning.HexMeaning | src/oboskrnl/utils/stb_sprintf.h:1006-1054 | the same for "%x" and "%X", with letters and prefix of the case of the directive |
| FormatMeaning.BinaryMeaning | src/oboskrnl/utils/stb_sprintf.h:978-1054 | the same for "%b" and "%B" |
| FormatMeaning.OctalMeaning | src/oboskrnl/utils/stb_sprintf.h:990-1054 | the same for "%o" |
| FormatMeaning.PointerMeaning | src/oboskrnl/utils/stb_sprintf.h:1000-1054 | the same for "%p", which takes all 64 bits, a precision of 16 and no zero flag |
| FormatMeaning.CharacterMeaning | src/oboskrnl/utils/stb_sprintf.h:603-614 | "%c" prints the character, padded as asked |
| FormatMeaning.TextMeaning | src/oboskrnl/utils/stb_sprintf.h:587-602 | "%s" prints the string up to its terminator or the precision, and "null" for a null pointer |
| FormatMeaning.OtherMeaning | src/oboskrnl/utils/stb_sprintf.h:615-1345 | unknown letters print themselves, "%n" prints nothing, and floats print "No float" |
| FormatMeaning.SignedReadBack | src/oboskrnl/utils/stb_sprintf.h:1056-1142 | the text of "%d" and "%lld", read as a number with a sign, is the two's complement value of every argument, without leading zeros |
| FormatMeaning.PointerReadBack | src/oboskrnl/utils/stb_sprintf.h:1000-1054 | the text of "%p" is 16 hexadecimal digits that stand for the 64 bits of every argument |
| FormatWalk.CompleteInside | src/oboskrnl/utils/stb_sprintf.h:391-577 | for every format and arguments: the formatter, going from directive to directive, never passes the terminator if and only if every directive it comes to has a conversion character; this is what the formatter requires |
| FormatRoundTrip.PercentText | src/oboskrnl/utils/stb_sprintf.h:433-577 | two percent signs print one, and the formatter stays inside its format |
| FormatFailures.LeavesFormatWitness | src/oboskrnl/utils/stb_sprintf.h:433-577 | a single percent sign before the terminator makes the formatter leave its format |
| FormatDirective.RadixBody | src/oboskrnl/utils/stb_sprintf.h:1035-1054 | what the radix loop writes is the text of the field for every precision and grouping |
| FormatOutput.Output.Check | src/oboskrnl/utils/stb_sprintf.h:364-382 | the buffer is handed over if more bytes could fill it; the text is unchanged |
| FormatOutput.Output.Fill | src/oboskrnl/utils/stb_sprintf.h:1172-1193 | n equal characters, in buffers of any size and alignment |
| FormatOutput.Output.Copy | src/oboskrnl/utils/stb_sprintf.h:1252-1269 | a text, by words and bytes, in buffers of any size |
| FormatOutput.Output.CopyZeros | src/oboskrnl/utils/stb_sprintf.h:1207-1237 | the zero padding with its commas, the counter surviving every change of buffer |
| FormatOutput.Output.CopyField | src/oboskrnl/utils/stb_sprintf.h:1146-1328 | the field's text, of which `FieldShaped` says what stands where |
| FormatOutput.Output.CopyLiteral | src/oboskrnl/utils/stb_sprintf.h:391-432 | format text up to the next percent sign or the terminator, whether words or bytes are copied |
| FormatOutput.Output.VSPrintfCb | src/oboskrnl/utils/stb_sprintf.h:349-1355 | parses, converts and prints every directive it comes to: for every buffer size of at least 1, alignment and callback formatting ends, at most that many bytes are pending, and the chunks concatenate to exactly the callback-free output, whose length is returned |
| BoundedOutput.Context.ClampCallback | src/oboskrnl/utils/stb_sprintf.h:1393-1419 | a chunk is copied as far as the destination goes, and its full length is counted |
| BoundedOutput.VSNPrintf | src/oboskrnl/utils/stb_sprintf.h:1430-1458 | for every list of chunks: the first min(total, count - 1) characters, a terminator, nothing written beyond, and the total returned |
| BoundedOutput.CountChunks | src/oboskrnl/utils/stb_sprintf.h:1421-1428 | the counting callback returns the total length |
| BoundedOutput.SNPrintf | src/oboskrnl/utils/stb_sprintf.h:1430-1458 | the same for a whole format string, wherever the buffers lie |
| BoundedOutput.MeasureAndFormat | src/oboskrnl/klog.cpp:325-340 | the measuring call returns exactly the length that the formatting call writes |
| NumberParsers.ValueOfDigits | src/oboskrnl/utils/stb_sprintf.h:1087-1142 | the digits of a number stand for it |
| NumberParsers.Dec2Bin | src/oboskrnl/klog.cpp:59-70 | the decimal digits among the characters, modulo 2^64 |
| NumberParsers.Hex2Bin | src/oboskrnl/klog.cpp:71-115 | hexadecimal digits from the right by shifts and ors, other characters counting as 0 |
| NumberParsers.Oct2Bin | src/oboskrnl/klog.cpp:116-123 | any characters, each by its distance from '0' as an unsigned number, in base 8 modulo 2^64 |
| NumberParsers.BitOrAbove | src/oboskrnl/klog.cpp:112 | oring in bits above all bits set is adding them |
| FormatRoundTrip.SingleText | src/oboskrnl/utils/stb_sprintf.h:349-1355 | the text of a format of one directive is the text of its field |
| FormatRoundTrip.UnsignedThroughFormatter | src/oboskrnl/klog.cpp:59-70 | parsing, converting and printing with "%llu" through the whole formatter, and dec2bin, give back every 64-bit number, for every buffer size and alignment |
| FormatRoundTrip.GroupedThroughFormatter | src/oboskrnl/klog.cpp:59-70 | the same for "%'llu", commas included |
| FormatRoundTrip.HexThroughFormatter | src/oboskrnl/klog.cpp:71-115 | the same for "%llx" and hex2bin |
| FormatRoundTrip.PointerThroughFormatter | src/oboskrnl/klog.cpp:71-115 | the same for "%p" and hex2bin, with 16 characters printed |
| FormatRoundTrip.OctalThroughFormatter | src/oboskrnl/klog.cpp:116-123 | the same for "%llo" and oct2bin |
| NumberParsers.PlainRoundTrip | src/oboskrnl/klog.cpp:59-70 | dec2bin of what the decimal loop writes is the number, for every 64-bit number |
| NumberParsers.GroupedRoundTrip | src/oboskrnl/klog.cpp:59-70 | the same with commas |
| NumberParsers.HexRoundTrip | src/oboskrnl/klog.cpp:71-115 | hex2bin of what the radix loop writes is the number, for every 64-bit number |
| NumberParsers.OctalRoundTrip | src/oboskrnl/klog.cpp:116-123 | oct2bin of what the radix loop writes is the number, for every 64-bit number |

## Left out

- Locks and timer masking: each locked heap or page list call is one atomic operation; that a failed page allocation keeps its lock is not modelled.
- Scheduler bring-up and thread control (InitializeScheduler, PauseThread, ResumeThread, SetThreadPriority, TerminateThread): they change status and links outside the entry protocol.
- SchedulerOwnership.ThreadsConserved: covers runs in which running threads are only preempted; threads that block, pause or die while running are not modelled.
- SchedulerFairness.BoundedWaiting: one CPU, a fixed set of threads and a non-empty idle list; the time stamps do not wrap. BoundedFromBoot and BoundedFromAnywhere share this.
- Hashmap.Hashmap.EmplaceAt: a full table is left out, since the code then overwrites slot 1 and the map is no longer valid; HashmapGrowth says what becomes of slots and chains, on values. The erase operation is left out, and so is the list node that remove does not free.
- PageList.PageAllocator.AllocatePhysicalPage: a list whose last header has a stale next field is left out where the walk would follow that field, because nothing fits or because the last run is emptied; Drained says what the latter does to a list of one run.
- PageList.PageAllocator.TakePages: the last run, emptied with a stale next field, is left out as well.
- PageList.Run: passes over requests that the head run cannot serve, after which the pages are no longer partitioned.
- HeapAllocator.Allocator.KRealloc: a shrinking block whose zeroing reaches the header of another block or page block is left out, since headers are kept apart from bytes; SparesIff says when that is. A block that moves finds room.
- HeapAllocator.RunGood: runs leave out requests without room and the free of the last block of the head page block, after which the heap is not sound (AllocatedGood, FreedGood), and krealloc.
- HeapAllocator.Allocator.KFree: exactly the live headers carry the mark; bytes of a caller that look like a marked header are not modelled, nor are the repairs kmalloc makes when a mark is wrong.
- HeapAllocator.Allocator.KMalloc: sizes are unbounded integers; amounts near 2^64, where rounding wraps, are not modelled, and nBytesUsed is an integer that may become negative where the code wraps.
- The slab allocator (slab.cpp): its list operations keep no useful invariant.
- PageWalk.IteratePages: an entry is absent, a page or a table; its other bits, and the window through which tables are read, are left out. Bit fields of addresses are added where the code ors them.
- Physical memory map set-up and page mapping.
- FormatOutput.Output.VSPrintfCb: takes the arguments of each directive by its offset, since fetching them is outside the model. Widths and precisions are unbounded integers. The ghost function of converted directives names what the code computes.
- FormatConvert.RadixNumber: the row it returns is not bounded; BufferIff says when it fits the 512-byte buffer of the code.
- Floating point, %n and metric suffixes: not part of the kernel's build or only side effects. A callback that returns no buffer is left out too.
- BoundedOutput.VSNPrintf: a count of 0 with a destination is left out; the code then writes in front of the destination.
- NumberParsers.Hex2Bin: at most 16 digits, beyond which the shift is undefined.
- Ustar.Oct2Bin: characters that overflow the 32-bit integer are left out, as overflow is undefined.
- Ustar.Initrd.InitializeFilesystemCache: archives only; the walk over an image that is no archive may leave it. File iterators of the initrd driver are left out.
- GPT partition registration, MBR, SATA, FAT, PCI, ACPI and keyboard drivers: device access and thin protocol glue.
- ELF loading, console drawing, the debugger stub, system calls, signals and assembly.
- The copies of the heap and the formatter under src/programs: near-duplicates of the kernel's.
