# Verified models of WeensyOS memory, the concurrent store and its sharding

This project states and proves what the hardest parts of the repository promise.

**WeensyOS.** Physical memory is a sequence of pages of 512 words. A page table is whatever can be
reached in it from a root page by the four-level walk of the processor (Intel SDM, Volume 3A, section
4.5). `Translate` is that walk; the iterators, the allocator and the system calls are classes and methods
that change memory in place, and they are proved against it. `Good` (in `Accounts`) is the kernel's
invariant: no page is counted less often than it is used, as a table page or under a user mapping, over
all processes; each process uses a page at most once; table pages and writable user pages are counted once;
and nothing is mapped beyond MEMSIZE_VIRTUAL. `Exact` says that every count is the number of uses. A run (in `Runs`)
is any sequence of steps from boot on: process setups and the start of the first process, then loads and stores by
the running process, page faults, timer interrupts and system calls. The kernel's own table is the one that the boot
code builds, large pages included. NPROC, the memory sizes and the layout are parameters.

**Concurrent key-value store.** Operations are threads that take the locks of their buckets in ascending
order, access buckets, and release the locks; any interleaving of these steps is a run. The simple store is
the specification, and `Apply` one of its operations. The number of buckets and the hash function are parameters.

**Synchronized queue.** Calls are threads over a mutex and a condition variable; sleepers, pending
notifications and wake-ups without cause are part of the state.

**Sharding and its client.** Base-36 bucket numbers, splitting and overlap of shards, the search for the
server of a key, and the grouping of multi-key requests. MAX_GRANULARITY is a parameter.

**Numbers.** `fill_numbuf`, `strtoul` and `strtol` on 64-bit values, with the loops proved against a
description of what they mean.

Page numbers stand for page-aligned physical addresses. Where the code departs from what its comments
promise, the model follows the code and the exact condition is proved:

- `sys_page_alloc` is documented to free what was mapped at the address before, and to return -1 when memory
  runs out. The code does neither, and loses a page instead. `PageAllocs.CallKeepsGood` says that the invariant
  survives, `PageAllocs.CallLoses` exactly what is lost, and `PageAllocs.ExactIff` exactly when nothing is.
- An 8-bit counter can wrap around in `fork`, once enough uses of a page have been lost. `Processes.Kernel.SyscallFork`
  says exactly when; `ForkCosts.ExactNeverWraps` says that it does not while the accounts are exact; and
  `Overflows.WrapIsReached` is a run that comes to it.
- `process_setup` checks none of its allocations and does not notice a page that is requested twice.
  `Processes.Kernel.ProcessSetup` and `SetupPlans.CleanIff` say exactly when the accounts are kept, and exactly when all
  is mapped as asked for; `SetupPlans.PageZeroExample` and `SetupPlans.DuplicateExample` are setups that break them, and
  `SetupPlans.EmptyHandedExample` is one that runs out of memory and does not.
- `pop` is documented to return without an element once the queue is stopped. `SyncQueues.PopsAlthoughStopped`
  is a run in which it takes one, and `SyncQueues.GetsIff` says exactly which calls can. `stop` is documented to
  release waiting threads; `SyncQueues.StopStrandsIff` says exactly when one can be left asleep.
- `MultiGet` returns from a miss without releasing its locks: `KvProgress.LeakIff` says which operations do,
  `KvProgress.NoDeadlock` and `KvProgress.CanComplete` what is left of progress, and `KvFates.PutReturnsIff`
  which puts can still return.
- `split_into` needs at most 36^MAX_GRANULARITY shards: `Shards.UniqueIffEnoughBuckets`. Even then, not every key has a
  shard: `Shards.LostIff` and `Shards.ShortKeyLostIff`.
- `strtoul` tests for '0' to '9' with a bound that grows with the base, so in bases above 17 it misreads capital
  letters: `Numerals.CapitalIff` says which.

`dafny verify dfyconfig.toml` checks the whole project.

| file | about |
|---|---|
| Arithmetic, Paging, Allocator, PageTables, Depths | division, words, addresses, the page allocator, the walk, the tree of table pages and its shape |
| VmIters, PtIters | the two iterators |
| Spaces, Accounts, FreePages | address spaces, page uses, the kernel's invariant, free pages |
| Forks, ForkCosts, PageAllocs | what fork and page allocation do to the accounts, and how many pages they need |
| KernelTables | the kernel's own table, and how it is built at boot |
| Setups, SetupPlans, SetupSteps | process setup, with all that can go wrong |
| Schedules, UserMemory, Runs, Programs, Overflows | the scheduler, loads and stores, runs, what programs find in them, and runs that wrap a counter |
| Processes | the kernel: system calls, setup, steps and runs as methods |
| SimpleKv, DbMaps, KvThreads, KvLocks, KvLinear, KvHistories, KvProgress, KvFates | the stores, threads, locks, linearizability, values as histories, progress, and who is lost |
| SyncQueues, QueueLogs | the queue, and who gets which element |
| Shards, Configs, ShardClients | sharding, routing, the client |
| Numbers, Numerals | printing and parsing, and written numbers |

## Model

| member | source | states |
|---|---|---|
| Paging.SamePathSamePage | weensyos/x86-64.h:56-67 | the four indices of a canonical address determine its page |
| Paging.SameBlockSameIndex | weensyos/x86-64.h:56-61 | addresses in one block of a level use the same entries from that level up |
| Paging.XorTestIsBlockTest | weensyos/k-vmiter.cc:21 | the exclusive-or and mask test that the iterators make is true exactly if two addresses have different block numbers |
| Paging.OrMaskIsBlockEnd | weensyos/k-vmiter.cc:37-43 | filling the offset bits and adding one gives the first address after the block |
| Paging.WordOfNumber | weensyos/x86-64.h:21-29 | a 64-bit number taken apart into page number and flag bits is the number again, with PTE_P, PTE_W, PTE_U and PTE_PS as bits 0, 1, 2 and 7 |
| Paging.FillIsCC | weensyos/kernel.cc:140 | every byte of the word that fills a new page is 0xCC, with the flag bits in their places |
| Allocator.Machine.Kalloc | weensyos/kernel.cc:131-146 | null exactly if the request exceeds a page or no page is free apart from page 0, the kernel's image from 0x40000 on, its stack page at 0x7F000 and the I/O hole from 0xA0000 to 0xFFFFF; otherwise the lowest such page, counted once and filled with 0xCC |
| Allocator.Machine.Kfree | weensyos/kernel.cc:151-166 | one reference less on a managed page; the search position stays below every free page |
| Allocator.Machine.AddReference | weensyos/kernel.cc:590 | one reference more, from 255 to 0 on an 8-bit counter; the allocator's invariant is kept exactly if a page below the search position does not wrap |
| PageTables.TranslateFrame | weensyos/k-vmiter.cc:5-18 | the translation depends on the table's own pages only |
| PageTables.WalkBlock | weensyos/k-vmiter.cc:5-18 | all addresses of the block where a walk ends share its entry |
| PageTables.PatchPages | weensyos/k-vmiter.cc:58-67 | storing one entry on a path changes the tree of table pages by exactly the page that the new entry leads to |
| PageTables.LinkTranslate | weensyos/k-vmiter.cc:58-67 | linking an empty table changes no translation |
| PageTables.LeafTranslate | weensyos/k-vmiter.cc:69-72 | storing a leaf entry changes the translation of one page and of no other |
| VmIters.Shortcut | weensyos/k-vmiter.cc:20-35 | inside the block of the current table page, the cached table, level and permissions are those of a walk from the root |
| VmIters.VmIter.Down | weensyos/k-vmiter.cc:5-18 | follows entries exactly as the walk does |
| VmIters.VmIter.RealFind | weensyos/k-vmiter.cc:20-35 | entry, level and permissions at the target are those of a new walk from the root |
| VmIters.VmIter.NextRange | weensyos/k-vmiter.hh:172-174 | moves to the end of the current entry's block |
| VmIters.VmIter.Next | weensyos/k-vmiter.cc:37-43 | moves to the end of the page, or of the whole block where nothing is mapped, and so passes over no mapped page |
| VmIters.VmIter.RangeHas | weensyos/k-vmiter.hh:218-226 | terminates, and is true exactly if every address of the range has the permissions |
| VmIters.VmIter.LowPerm | weensyos/k-vmiter.hh:238-245 | true exactly if the range is low and every address in it has the permissions, large pages included |
| VmIters.VmIter.LinkTable | weensyos/k-vmiter.cc:58-67 | one turn of the loop: a free page becomes an empty table at the current entry, or memory is full and nothing changed |
| VmIters.VmIter.TryMap | weensyos/k-vmiter.cc:45-73 | success gives the page exactly the new translation and no other address a new one, taking one page for each missing level; failure means that memory is full and leaves every translation; the table stays a tree |
| VmIters.LinkFresh | weensyos/k-vmiter.cc:58-67 | linking a free page adds it once to the tree and leaves all translations |
| VmIters.WriteLeaf | weensyos/k-vmiter.cc:69-72 | the final store remaps one page and keeps the tree |
| PtIters.PtIter.constructor | weensyos/k-vmiter.cc:76-81 | the iterator starts at the first table page of the post-order |
| PtIters.PtIter.Next | weensyos/k-vmiter.hh:208-210 | moves to the next table page of the post-order; only the pages still to come and the root need to be intact |
| PtIters.PtIter.Down | weensyos/k-vmiter.cc:83-113 | terminates at the next page of the post-order, or past the end |
| PtIters.WalkYieldsTree | weensyos/k-vmiter.cc:76-113 | from address 0 each table page but the root is yielded once |
| PtIters.YieldedIffReached | weensyos/k-vmiter.cc:76-113 | yielded are exactly the table pages that some walk passes below the root |
| PtIters.ChildrenFirst | weensyos/k-vmiter.cc:76-113 | a page is yielded before the page whose entry leads to it |
| PtIters.ReadsPending | weensyos/k-vmiter.cc:83-113 | every entry read is in a page not yet yielded, or in the root, so pages may be freed as they are yielded |
| Accounts.CountsBounded | weensyos/kernel.cc:129-166 | in a good state with exact accounts every count is below NPROC, so the 8-bit counter does not wrap |
| Accounts.Isolation | weensyos/kernel.cc:592-612 | in a good state, of all 64-bit addresses, no page that one process can write as a user is user-mapped by another, the console apart |
| Accounts.TablesOutOfReach | weensyos/kernel.cc:579-619 | in a good state no address at all lets a user reach a table page, of another process or its own |
| Accounts.ExitKeepsGood | weensyos/kernel.cc:633-648 | dropping all uses of one process keeps the invariant, and counts follow uses |
| Accounts.AdmitKeepsGood | weensyos/kernel.cc:621-624 | a new process that uses no private page of another may take a free slot, and counts follow uses |
| Accounts.BootIsGood | weensyos/kernel.cc:94-98 | the invariant holds, with exact accounts, when all slots are free and nothing is counted |
| Accounts.LosesExact | weensyos/kernel.cc:427-452 | exact accounts stay exact if and only if nothing is lost, and no loss undoes that counts are at least uses |
| Forks.MapDone | weensyos/kernel.cc:579-619 | one page more is copied, the counts are those before the fork plus the child's uses, memory in use before is untouched |
| Forks.MapFailed | weensyos/kernel.cc:585-588 | a failed mapping leaves the partial copy accounted for |
| Forks.ShareFacts | weensyos/kernel.cc:584-591 | a page about to be shared has the count that it had before the fork, and is not in the child yet |
| Forks.ChildLeavesPrivate | weensyos/kernel.cc:579-619 | the child uses no page that is private to a live process |
| Forks.FinishCopy | weensyos/kernel.cc:621-626 | with the complete copy in a free slot the invariant holds again, and counts follow uses |
| Forks.AbandonCopy | weensyos/kernel.cc:585-588 | releasing a partial copy restores all counts but that of the page in hand, and all translations are as before |
| Forks.CopyReachesEverywhere | weensyos/kernel.cc:579-619 | a complete copy of the pages below MEMSIZE_VIRTUAL is a copy of every address there is |
| ForkCosts.LedgerMaps | weensyos/kernel.cc:579-619 | one page more of the copy has taken its new tables, and a page of its own where the user may write, and no more |
| ForkCosts.LedgerFails | weensyos/kernel.cc:585-588 | a mapping fails only if the free pages at the start were too few for the copy so far |
| ForkCosts.CompleteMeans | weensyos/kernel.cc:553-627 | a complete copy has taken exactly the root, a table for each block of the parent's mappings, and a page for each writable user page |
| ForkCosts.ShortMeans | weensyos/kernel.cc:600-611 | a copy that ran out of memory had fewer free pages than that |
| ForkCosts.WrappedIsBad | weensyos/kernel.cc:590 | a page whose counter has wrapped is in use but not counted, so the invariant is lost |
| ForkCosts.ExactNeverWraps | weensyos/kernel.cc:590 | while the accounts are exact no fork wraps a counter |
| Depths.LinkExtends | weensyos/k-vmiter.cc:58-67 | linking a table takes the walks of its block one level down, and no other walk |
| Depths.MissingIsLevel | weensyos/k-vmiter.cc:58-67 | the number of tables that `try_map` has to build is the number of blocks of the address without a table |
| Depths.MirrorsMore | weensyos/k-vmiter.cc:58-67 | after a mapping the table has tables for exactly the blocks before and those of the address |
| Forks.OneUserPage | weensyos/kernel.cc:599-606 | distinct user pages of a process have distinct frames |
| PageAllocs.CallKeepsGood | weensyos/kernel.cc:427-452 | whatever was mapped before, and whether or not the tables can be built, a page allocation keeps the invariant |
| PageAllocs.CallLoses | weensyos/kernel.cc:436-451 | exactly what it loses: the page mapped there before, or the new page if its tables cannot be built |
| PageAllocs.ExactIff | weensyos/kernel.cc:427-452 | exact accounts stay exact if and only if nothing was mapped there and the tables could be built |
| PageAllocs.OthersAgree | weensyos/kernel.cc:436-451 | the tables of the other processes are not touched |
| PageAllocs.MappedIffEnough | weensyos/kernel.cc:436-451 | the page is mapped if and only if more pages are free than table levels are missing |
| KernelTables.InitKernelMemory | weensyos/k-hardware.cc:118-146 | builds the kernel's table in its five pages: two leaf tables open to all, and three pages of 1 GB |
| KernelTables.NarrowKernelTable | weensyos/kernel.cc:68-92 | takes page 0 away from everyone, and low memory, the console apart, from users |
| KernelTables.ShapeInitialized | weensyos/k-vmiter.cc:13-17 | no walk in that table, large pages and high addresses included, meets the panic of the iterators |
| KernelTables.ShapeIsKernelTable | weensyos/k-hardware.cc:118-146 | that table, with or without the large page of the symbols, is one that process setup may read |
| KernelTables.DevicesMapToThemselves | weensyos/k-hardware.cc:118-146 | every address from 1 GB to 4 GB is mapped to itself, writable and closed to users |
| KernelTables.MemoryMapsToItself | weensyos/kernel.cc:68-92 | every address of memory but page 0 is mapped to itself, writable, and open to users on the console page and from 1 MB on only; page 0 is mapped nowhere |
| Setups.FinishSetup | weensyos/kernel.cc:168-286 | a process built from free pages only may take a free slot |
| Setups.EmptyProcess | weensyos/kernel.cc:174-187 | a process with an empty table may join any good state that has a free page, so good states with live processes exist |
| SetupSteps.LowDone | weensyos/kernel.cc:199-222 | one low page more is mapped as in the kernel's table, or its tables could not be built, as the plan foretells |
| SetupSteps.UserDone | weensyos/kernel.cc:231-251 | one requested page more is mapped and counted once, or a page is lost, or page 0 is mapped for the user, as the plan foretells |
| SetupSteps.SpoiledIsBad | weensyos/kernel.cc:246-247 | with a page lost, or page 0 mapped for the user, the invariant does not hold with exact accounts |
| SetupSteps.SetupOutcome | weensyos/kernel.cc:168-286 | after a setup the invariant holds with exact accounts if and only if the plan keeps the accounts, and everything is mapped besides if and only if the plan is whole |
| SetupPlans.WholeIff | weensyos/kernel.cc:168-286 | the plan is whole if and only if no page is requested twice and there are free pages for the root, all missing tables, and each request |
| SetupPlans.CleanIff | weensyos/kernel.cc:168-286 | the plan keeps the accounts if and only if it is whole, or the tables of low memory run out and those built reach no request, or the pages run out exactly before a request and no later one has its tables |
| SetupPlans.PageZeroExample | weensyos/kernel.cc:246-247 | a setup that runs out of memory and maps page 0 for the user |
| SetupPlans.DuplicateExample | weensyos/kernel.cc:231-247 | a setup that requests a page twice loses the first |
| SetupPlans.EmptyHandedExample | weensyos/kernel.cc:199-247 | a setup that runs out of memory and maps nothing, but keeps the accounts |
| Processes.Kernel.constructor | weensyos/kernel.cc:94-98 | all slots are free, nothing runs, and the invariant holds |
| Processes.Kernel.MapAt | weensyos/k-vmiter.cc:45-73 | for the arguments that the kernel uses: the address space has the new page at one place, or memory is full and it is as before |
| Processes.Kernel.ReleaseUserPages | weensyos/kernel.cc:635-640 | every user mapping is dropped once |
| Processes.Kernel.ReleaseTables | weensyos/kernel.cc:641-644 | every table page is freed once while the tree is being walked |
| Processes.Kernel.ReleaseSpace | weensyos/kernel.cc:633-644 | exactly the uses of the address space are dropped, and no memory is written |
| Processes.Kernel.SyscallExitAssist | weensyos/kernel.cc:633-649 | the invariant is kept; counts fall by the uses of the process; its slot is free and nothing else changes |
| Processes.Kernel.CopyPage | weensyos/kernel.cc:582-618 | one page of the parent is shared, copied or repeated in the child as its kind demands, or memory is full |
| Processes.Kernel.AbandonChild | weensyos/kernel.cc:607-611 | after a failure counts and translations are exactly those before the fork |
| Processes.Kernel.FindFree | weensyos/kernel.cc:557-566 | the lowest free slot above 0, or -1 if there is none |
| Processes.Kernel.SyscallFork | weensyos/kernel.cc:553-627 | fails exactly if there is no free slot or fewer free pages than the root, the tables and the copied pages need, and then all counts and translations are as before; otherwise the child in the lowest free slot has the parent's permissions at every address, pages of its own with equal bytes where the user may write, the same pages elsewhere, rax 0, and the parent the child's number, and exactly the pages needed are taken; the invariant is kept, unless, exactly if it comes to share a page whose counter is at 255, that counter wraps |
| Processes.Kernel.SyscallPageAlloc | weensyos/kernel.cc:427-452 | -1 exactly for an address out of range or full memory; a panic exactly for an unaligned address otherwise; else a zeroed page is mapped exactly if enough pages are left, other processes do not notice, the invariant is kept, and exact accounts stay exact if and only if the page is mapped and nothing was mapped there |
| Processes.Kernel.ProcessSetup | weensyos/kernel.cc:168-286 | the invariant holds with exact accounts afterwards exactly if the plan, made from the free pages and the requests, keeps them; and so it does with low memory as in the kernel's table and the requested pages and the stack mapped, exactly if no page is requested twice and there are enough free pages; other processes do not notice |
| Processes.Kernel.Schedule | weensyos/kernel.cc:656-673 | ends within NPROC steps at the nearest runnable process in cyclic order |
| Processes.Kernel.Fault | weensyos/kernel.cc:330-359 | a page fault marks the process broken and runs the next; the invariant is kept |
| Processes.Kernel.UserStore | weensyos/kernel.cc:330-359 | whatever a process stores where it may, one word of memory changes and the invariant is kept; elsewhere it faults |
| Processes.Kernel.Perform | weensyos/kernel.cc:302-417 | setup, start, loads, stores, page faults, timer interrupts, all system calls, and what the kernel does not expect: it panics, a setup breaks the accounts, and a fork wraps a counter, exactly under conditions on the state before; otherwise the invariant holds |
| Processes.Kernel.Run | weensyos/kernel.cc:302-417 | over any sequence of steps the invariant holds in every state, pages lost or not, up to the first step that panics, is a setup that breaks the accounts, or wraps a counter |
| Processes.Boot | weensyos/kernel.cc:55-110 | the same from boot on, with the kernel's table built as the code builds it, and setups and the start of the first process as steps; the kernel's pages, the console apart, are unchanged in every state |
| UserMemory.StoreKeepsGood | weensyos/kernel.cc:680-694 | a store in user mode keeps the invariant and every process's translations |
| UserMemory.StoreShows | weensyos/kernel.cc:592-612 | what a store shows to any process: its own store at that one word, or one on the console, and nothing else |
| UserMemory.SamePageReached | weensyos/kernel.cc:592-612 | a writable address and an accessible one reach the same page exactly if they are in the same virtual page, of one process or on the console |
| Runs.StepLeaves | weensyos/kernel.cc:302-417 | a step changes neither registers nor translations nor contents of a process that does not make it, even a setup that breaks the accounts |
| Runs.RunLeaves | weensyos/kernel.cc:302-417 | nor does a whole run of other processes' steps |
| Runs.StepHolds | weensyos/kernel.cc:302-417 | in a step a word that a process can load changes exactly if the process stores there or gets a new page there, which holds zeros |
| Runs.Remembers | weensyos/kernel.cc:302-417 | over every run, a process that does not exit keeps access to every accessible page, and finds in each word what it stored there last, the console apart |
| Runs.ChildInherits | weensyos/kernel.cc:579-626 | the child of a fork can load and store where its parent can, and finds the same words |
| Runs.OverwriteIsReached | weensyos/kernel.cc:427-452 | a run from a setup on in which asking for the stack page again loses a page, unless memory is full |
| Runs.StepExact | weensyos/kernel.cc:302-417 | a step after the start keeps exact accounts exact if and only if it is not a page allocation that loses a page |
| Runs.RunExact | weensyos/kernel.cc:302-417 | over every run in which no page is lost the accounts are exact, and no counter wraps |
| Runs.KernelOutOfReach | weensyos/k-hardware.cc:303-320 | in a good state no address of a live process lets a user reach page 0, the kernel's image or stack, or the I/O hole, the console apart |
| Runs.StepProtects | weensyos/kernel.cc:131-146 | no step changes one of these pages, the console apart |
| Runs.RunProtects | weensyos/kernel.cc:131-146 | nor does a whole run |
| Programs.SetupGrants | weensyos/kernel.cc:231-281 | after a setup of distinct pages with enough memory the process can load and store on its stack page and on pages of writable segments, only load on pages of read-only ones, and do neither anywhere else from PROC_START_ADDR on |
| Programs.FirstStore | weensyos/kernel.cc:231-281 | once set up and started, a process that stores where writing was asked for finds the word, and is broken by the next step anywhere else |
| Programs.AllocGives | weensyos/kernel.cc:427-452 | with four pages free, a page allocation at any page of the region gives its caller a page of zeros that it can load and store |
| Runs.DispatchedInRun | weensyos/kernel.cc:656-673 | over every run, a process that stays runnable is run before the scheduler has been called more often than its distance, at most NPROC times |
| Overflows.RoundCounts | weensyos/kernel.cc:553-649 | a fork, a page allocation by the child over a shared page, and its exit leave the count of that page one higher and all else as before |
| Overflows.WrapIsReached | weensyos/kernel.cc:553-649 | after as many such rounds as the counter has left, the next fork wraps it |
| Schedules.DistanceCounts | weensyos/kernel.cc:657-659 | the cyclic distance counts the steps of the search |
| Schedules.DispatchNearer | weensyos/kernel.cc:656-663 | each dispatch of another process brings a runnable process nearer |
| Schedules.DispatchedSoon | weensyos/kernel.cc:656-673 | a process that stays runnable is dispatched within NPROC calls, whatever the others do |
| SimpleKv.ApplyLocal | kvstore/kvstore/simple_kvstore.cpp:3-106 | an operation reads and writes nothing but its keys |
| SimpleKv.RestIsApply | kvstore/kvstore/concurrent_kvstore.cpp:5-161 | the bodies of the concurrent operations, undisturbed, do what the simple store does |
| DbMaps.LookupInsert | kvstore/kvstore/concurrent_kvstore.hpp:71-81 | after an insertion the key has the value, other keys are as before |
| DbMaps.LookupRemove | kvstore/kvstore/concurrent_kvstore.hpp:85-91 | after a removal the key is gone, other keys are as before |
| DbMaps.RemoveShrinks | kvstore/kvstore/concurrent_kvstore.hpp:88-90 | something is removed exactly if the key is found |
| DbMaps.DbMap.GetIfExists | kvstore/kvstore/concurrent_kvstore.hpp:58-66 | the value of the first item with the key, if any |
| DbMaps.DbMap.InsertItem | kvstore/kvstore/concurrent_kvstore.hpp:71-81 | one bucket is updated; no key gets two items |
| DbMaps.DbMap.RemoveItem | kvstore/kvstore/concurrent_kvstore.hpp:85-91 | one bucket loses the key; true exactly if it had it |
| KvThreads.SortedMembers | kvstore/kvstore/concurrent_kvstore.cpp:78-87 | the locks of a multi-key operation are exactly the buckets of its keys |
| KvThreads.Locks | kvstore/kvstore/concurrent_kvstore.cpp:85-92 | locks are taken in strictly ascending order |
| KvThreads.KeysLocked | kvstore/kvstore/concurrent_kvstore.cpp:90-101 | every key that is accessed is under a lock that is held |
| KvLocks.RunKeepsLocks | kvstore/kvstore/concurrent_kvstore.cpp:5-161 | in every state of every run the lock table names exactly the holders: one writer or readers |
| KvLocks.WaitsForConflict | kvstore/kvstore/concurrent_kvstore.cpp:5-161 | in every run an operation that cannot move has a key in one bucket with a key of another operation, and one of the two is neither Get nor MultiGet |
| KvProgress.LeakIff | kvstore/kvstore/concurrent_kvstore.cpp:93-100 | in every run, an operation returned with its locks if and only if it is a MultiGet one of whose keys is absent from the simple store at its place in the order |
| KvProgress.NoDeadlock | kvstore/kvstore/concurrent_kvstore.cpp:78-105 | in every state of every run in which no MultiGet misses a key, an unfinished operation implies that someone can move |
| KvProgress.CanComplete | kvstore/kvstore/concurrent_kvstore.cpp:133-158 | from every state a bounded number of steps ends all operations but those that wait, directly or through others, for a lock kept by a MultiGet that missed a key; all of them if none missed |
| KvProgress.DoomedForEver | kvstore/kvstore/concurrent_kvstore.cpp:93-100 | an operation that waits, directly or through others, for a lock that is never released is moved by no continuation |
| KvProgress.KeptByMiss | kvstore/kvstore/concurrent_kvstore.cpp:93-100 | a lock that a finished operation holds is one of a MultiGet that missed a key |
| KvProgress.LeakStarvesPut | kvstore/kvstore/concurrent_kvstore.cpp:93-100 | after a MultiGet missed a key and returned, a put to a bucket of its keys never returns |
| KvProgress.PutCompletesIff | kvstore/kvstore/concurrent_kvstore.cpp:93-105 | when nobody can move any more, a new put can return if and only if nobody holds the lock of its bucket |
| KvFates.FatedForEver | kvstore/kvstore/concurrent_kvstore.cpp:93-105 | an operation that is fated, because it has missed a key, holds the bucket of an absent key, or is barred by a fated operation, stays fated and releases nothing, whatever happens |
| KvFates.Clear | kvstore/kvstore/concurrent_kvstore.cpp:78-105 | an operation that is not fated can be brought to an end in some continuation, with all those in its way, and with no key taken away |
| KvFates.PutReturnsIff | kvstore/kvstore/concurrent_kvstore.cpp:93-105 | in every state of every run, a put that begins can return if and only if no operation that holds the lock of its bucket is fated |
| KvLocks.LeakExample | kvstore/kvstore/concurrent_kvstore.cpp:97-99 | a MultiGet on an empty store leaks |
| KvLinear.StepIsRest | kvstore/kvstore/concurrent_kvstore.cpp:5-161 | each bucket access does one step of the operation's body |
| KvLinear.AnswersAreSequential | kvstore/kvstore/concurrent_kvstore.cpp:5-161 | in every interleaving each returned answer is the one of the simple store executing the operations in the order of their last locks |
| KvLinear.ContentsAreSequential | kvstore/kvstore/concurrent_kvstore.cpp:5-161 | when no operation is in its body, the buckets contain what the simple store contains |
| KvLinear.OrderIsRealTime | kvstore/kvstore/concurrent_kvstore.cpp:5-161 | an operation that returned before another began comes first in that order |
| KvHistories.ContentsAreEdits | kvstore/kvstore/simple_kvstore.cpp:3-106 | after any sequence of operations a key has the value last put since the last delete, followed by the values appended to it since, in order; it is absent exactly if nothing was put or appended since |
| KvHistories.AnswersAreHistories | kvstore/kvstore/concurrent_kvstore.cpp:5-161 | in every interleaving, at its place in the order of last locks, a Get or a Delete answers that value or fails if there is none, a MultiGet answers it for each of its keys or fails if one has none, and a MultiPut fails exactly if keys and values differ in number |
| KvHistories.BucketsAreHistories | kvstore/kvstore/concurrent_kvstore.cpp:5-161 | when no operation is in its body, each key has that value in its bucket |
| SyncQueues.Safe | kvstore/server/synchronized_queue.cpp:18-65 | in every state a non-empty queue with a sleeping popper has a pending notification; what was removed followed by the queue is what was pushed |
| QueueLogs.Delivered | kvstore/server/synchronized_queue.cpp:18-65 | in every run each push takes effect once; the i-th removal is of the i-th element pushed, and the call that removed it, and no other, has it in hand or has returned it; the queue is what was pushed without what was removed |
| QueueLogs.ReturnsByKind | kvstore/server/synchronized_queue.cpp:18-74 | a pop that has returned took one element and returns it, or took none and returns that the queue is stopped, which it then is; a flush returns all that it took, in order; a push and a stop take nothing |
| QueueLogs.FlushReturnsAll | kvstore/server/synchronized_queue.cpp:55-65 | a flush returns exactly the queue as it was when the flush took the mutex, and leaves it empty |
| SyncQueues.NoStall | kvstore/server/synchronized_queue.cpp:18-50 | with an element in the queue and a call unfinished, someone can move |
| SyncQueues.StopReleases | kvstore/server/synchronized_queue.cpp:70-74 | if nobody is about to wait when the stop notifies, nobody sleeps afterwards and all calls can end |
| SyncQueues.StopStrandsIff | kvstore/server/synchronized_queue.cpp:70-74 | somebody can be left asleep after the stop if and only if somebody was between test and wait when it notified |
| SyncQueues.SleepsForEver | kvstore/server/synchronized_queue.cpp:24-29 | who sleeps after the last notification sleeps for ever |
| SyncQueues.StrandExample | kvstore/server/synchronized_queue.cpp:70-74 | such a run exists |
| SyncQueues.PopsAlthoughStopped | kvstore/server/synchronized_queue.cpp:24-33 | a pop can return an element of a stopped queue |
| SyncQueues.LatePopGetsNothing | kvstore/server/synchronized_queue.cpp:20-23 | in every run, a pop that has not passed its first test when the queue is stopped never returns an element |
| SyncQueues.GetsIff | kvstore/server/synchronized_queue.cpp:18-34 | in every reachable stopped state a call can come to return an element if and only if it is a pop before a non-empty queue, about to wait, asleep or just woken |
| Shards.GranularityOpts | kvstore/common/shard.hpp:55-64 | the table holds the powers of 36 |
| Shards.BucketToStr | kvstore/common/shard.cpp:12-42 | computes the name of a bucket |
| Shards.StrToBucket | kvstore/common/shard.cpp:44-69 | computes the number of a name, in either case |
| Shards.NumberOfName | kvstore/common/shard.cpp:12-69 | reading a name gives the number back |
| Shards.NameOfNumber | kvstore/common/shard.cpp:12-69 | naming the number of a string gives its upper-case form back |
| Shards.NamesOrdered | kvstore/common/shard.cpp:12-69 | names are in lexicographic order as numbers are in numeric order |
| Shards.ContainsIsNumeric | kvstore/common/shard.hpp:79-85 | containment of a key is containment of its bucket number |
| Shards.SplitInto | kvstore/common/shard.cpp:71-104 | up to 36^MAX_GRANULARITY shards: adjacent non-empty intervals from the first bucket to the last, at the smallest granularity that has enough buckets; beyond that, empty bounds |
| Shards.SizesBalanced | kvstore/common/shard.cpp:84-90 | sizes of shards differ by at most one |
| Shards.ExactlyOneShard | kvstore/common/shard.cpp:71-104 | a key with enough leading alphanumeric characters is in exactly one shard |
| Shards.UniqueIffEnoughBuckets | kvstore/common/shard.cpp:75-86 | keys are in exactly one shard if and only if there are at most 36^MAX_GRANULARITY shards |
| Shards.AtMostOneShard | kvstore/common/shard.cpp:71-104 | no string at all, valid key or not, is in two shards of a split |
| Shards.LostIff | kvstore/common/shard.hpp:79-85 | a string is in no shard if and only if its first characters name no bucket and lie where one shard ends and the next begins |
| Shards.ShortKeyLostIff | kvstore/common/shard.hpp:79-85 | an alphanumeric key shorter than the granularity is in a shard if and only if its number, filled up with zeros, is the first bucket of no shard |
| Shards.ZerosAreLost | kvstore/common/shard.hpp:79-85 | short keys of zeros, the empty key among them, are in no shard |
| Shards.OverlapShape | kvstore/common/shard.cpp:150-186 | the status fixes the shape of the first shard without the second; the throwing case is never reached |
| Shards.SplitMiddle | kvstore/common/shard.cpp:113-123 | two adjacent pieces, the first as large as the second or one larger |
| Shards.SplitAt | kvstore/common/shard.cpp:136-148 | two adjacent pieces at the bound, which goes to the side that was asked for |
| Shards.SplitPartitions | kvstore/common/shard.cpp:136-148 | the pieces partition the shard, and neither is empty if and only if the bound is not the end cut off |
| Shards.MatchingSplit | kvstore/common/shard.cpp:150-186 | split at the bound that the status names, one piece is the part outside the other shard |
| Configs.GetServerFinds | kvstore/common/config.cpp:17-34 | a server is found exactly if one is responsible, and it is the first responsible one |
| Configs.OrderDoesNotMatter | kvstore/common/config.cpp:17-34 | with one responsible server, the order of servers does not matter |
| Configs.RoutingIsTotal | kvstore/common/config.cpp:17-34 | with the shards of a split distributed to servers in any way and the servers in any order, every key with enough leading alphanumeric characters goes to the one server that has its shard |
| Configs.RoutingIsUnambiguous | kvstore/common/config.cpp:17-34 | no key at all has two servers, whatever the order of servers, and it has one exactly if it is in a shard |
| ShardClients.GroupByServer | kvstore/client/shardkv_client.cpp:104-117 | each server's group is the subsequence of the request that belongs to it |
| ShardClients.MultiPutSharded | kvstore/client/shardkv_client.cpp:97-127 | when every key has a server, each server is left as single puts in request order leave it, in whatever order servers are asked; otherwise nothing is done |
| ShardClients.MultiGetSharded | kvstore/client/shardkv_client.cpp:51-95 | the values of single gets in request order, repetitions included; nothing exactly if one of these gets would fail |
| ShardClients.PutEachByServer | kvstore/client/shardkv_client.cpp:107-124 | single puts do to each server what putting its own subsequence does |
| ShardClients.GetAfterPuts | kvstore/client/shardkv_client.cpp:51-127 | after puts, a key among them that has a server has the last value put for it, and any other key reads as before |
| Numbers.OverflowTest | weensyos/lib.cc:178 | the division test detects overflow exactly |
| Numbers.ParseDigits | weensyos/lib.cc:165-190 | the longest run of digits gives its number, or 2^64-1 if that is larger |
| Numbers.ParseUnsigned | weensyos/lib.cc:147-195 | spaces, sign, base and prefix, then the digits |
| Numbers.ParseSigned | weensyos/lib.cc:197-214 | a sign of its own, then clamped to the range of a long |
| Numbers.FillNumbuf | weensyos/lib.cc:267-283 | the digits and a null end where they are asked to, and nothing else in the buffer changes |
| Numbers.FitsBuffer | weensyos/lib.cc:297-299 | any 64-bit value in base 8 to 16 fits the 24-character buffer |
| Numbers.UnsignedRoundTrip | weensyos/lib.cc:147-195 | for every 64-bit value, parsing what was printed gives it back and reads it whole |
| Numbers.SignedRoundTrip | weensyos/lib.cc:197-214 | the same for every long, with its sign |
| Numbers.MarkedNumbers | weensyos/lib.cc:151-164 | `0x` selects base 16, and a minus sign negates modulo 2^64 |
| Numbers.SignedClamps | weensyos/lib.cc:205-213 | values beyond the range of a long give the nearer end of it |
| Numbers.Saturates | weensyos/lib.cc:177-190 | a decimal string gives its number, or 2^64-1 if it is larger |
| Numerals.ParsesNumeral | weensyos/lib.cc:147-195 | blanks, a sign, a mark and digits in any base are read to their end as their positional value, or 2^64-1 if that is smaller, negated modulo 2^64 after a minus sign |
| Numerals.ParsesSigned | weensyos/lib.cc:197-214 | as a long, the value with its sign or the nearer end of the range |
| Numerals.CapitalIff | weensyos/lib.cc:169-176 | a capital letter is read as its digit exactly if the base is at most 7 above the digit, else as a digit 7 larger |
| Numerals.TextGlyphs | weensyos/lib.cc:267-283 | a printed number has digits of its base in the letters asked for, and begins with 0 exactly if it is zero |

## Left out

- Console, keyboard, interrupts, APIC, PCI, boot, assembly and the memory viewer: hardware and display.
- Segments, the constructors and the interrupt hardware in `init_hardware`, and `lookup_symbol`, which adds a large page to the kernel's table when it prints a backtrace.
- PTE_A and PTE_D, which the processor sets as it walks: entries hold what the kernel stored, and permissions are compared exactly.
- Processes.Kernel.ProcessSetup: leaves out what `process_setup` loads into a program's pages, which it writes through the physical address of a segment's first page, in the belief that the pages of a segment are contiguous; and the fault in the kernel if that page is not mapped. `requests` lists the pages of the segments, all of them in the process's region, and the registers are given.
- Processes.Kernel.SyscallFork: does not move the second iterator `process_it`, which the code never reads.
- VmIters.VmIter.RangeHas: takes ranges that end at or below VA_LOWEND and permissions with PTE_P, as all callers do; otherwise the loop may wrap around and the bits of absent entries count.
- VmIters.VmIter.LowPerm: takes permissions with PTE_P, for the same reason.
- Runs.Remembers: memory is accessed in aligned words of eight bytes; instruction fetches and smaller accesses are not distinguished.
- Processes.Kernel.Perform: leaves out `check_pagetable`, which panics if a table does not map the kernel as it should.
- A run ends at a setup that breaks the accounts and at a counter that wraps around: what the kernel does then is not described.
- Processes.Kernel.Schedule: needs a runnable process, because the code spins for ever without one.
- The panic in `vmiter::down` on uninitialized tables, and the assertions in `try_map`, are preconditions.
- `AllKeys` of the concurrent store: it locks one bucket at a time, so it is no atomic operation.
- What a failing operation leaves in its response: only that it failed is compared.
- Weak memory ordering, fairness of locks and timeouts: lock, unlock, wait and notify are atomic steps.
- ShardClients.MultiPutSharded: needs at least as many values as keys, because the code reads past the end otherwise; servers and the shardmaster always answer.
- Shards.SplitAt: needs the neighbouring bound to exist at the same granularity, because the conversion is undefined otherwise; the overload that splits at a bucket number is the same without the conversion.
- Shardmaster operations, `GDPRDelete`, network code, the REPL, `dmalloc`, `snake` and `fileio`: not part of this model.
- Widths, precision and flags of `printf`: only the digits and the sign are modelled.
