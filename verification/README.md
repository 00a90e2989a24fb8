# Utopia, verified in Dafny

Models of the parts of the Utopia kernel in which most can go wrong, with the properties they are
there for proved for all inputs, all runs or all reachable states. `dafny verify dfyconfig.toml`
checks everything.

| files | what they model |
|---|---|
| `Heap.dfy`, `Pmm.dfy` | The kernel heap: what malloc, page_alloc and free do to a list of blocks, and the same operations on a chain of headers in memory. |
| `MemoryMap.dfy` | Taking a range out of the firmware's memory map while the map grows. |
| `Pte.dfy` | What the page-table code needs of page-table entries, and the x86_64 and Sv48 encodings that provide it, bit by bit. |
| `PageTree.dfy`, `MissingTables.dfy`, `Vmm.dfy` | Four-level page tables as a map from pages to frames and flags, and how many tables a walk finds missing; mapping, protecting, unmapping, splitting huge leaves. |
| `VmmFree.dfy`, `CloneNeeds.dfy`, `VmmClone.dfy` | Tearing an address space down; what fork's copy of one asks of the heap, and the copy with its clean-up. |
| `Threads.dfy`, `ThreadFates.dfy` | The scheduler as a transition system over any number of CPUs, threads and wait queues; what becomes of a thread that exits, sleeps or has to make room. |
| `Scheduler.dfy` | The scheduler's code on intrusive lists and per-CPU arrays, each operation tied to a step of `Threads`. |
| `Handshake.dfy` | Ticket, look, sleep against change, wake: why no sleeper misses its news. |
| `Keyboard.dfy` | The keyboard's ring buffer and its readers, one use of the handshake. |
| `Processes.dfy`, `Wait4.dfy` | The process list, adoption, zombies and wait4, the other use, over whole runs and both locks. |
| `UserStack.dfy`, `StackPages.dfy` | execve's argument budget and the initial stack image, written, mapped, and read back through the program's page tables. |
| `ElfNeeds.dfy`, `ElfImage.dfy` | The ELF segment loop on top of the page tables: what a program's pages need of the heap, and what they hold once loaded. |
| `Tarfs.dfy`, `TarfsPaths.dfy` | The tree a tar archive mounts as, and paths with symbolic links through it; what each kind of path means. |
| `Expression.dfy` | uconfig's dependency expressions and their circles. |
| `Wrappers.dfy`, `Sizes.dfy` | A value that may be missing; the word, page and byte. |

How the code is represented:

- The heap, the scheduler and tarfs keep pointer structures. Their memory is a map from addresses
  (for tarfs, creation numbers) to records, a pointer is an address, and 0 is the null pointer; an
  update in place replaces a record. Lists are what following the pointers visits.
- The source's loops are loops, its objects with changing fields are classes, and every method that
  changes state is tied to a function of the old state; the properties are proved of that function.
- A section under a spinlock is one atomic step. The running thread's writes to its own fields,
  which happen with interrupts off, are steps of their own, so a wake-up on another CPU may fall
  between a snapshot, the test and the going to sleep. process_lock is held from a change of the
  process list until the wake-ups it owes, with scheduler steps of other CPUs in between.
- Page-table entries are taken through an interface (`PteInterface.Lawful`); the proofs about
  tables use nothing else, and `PteX86.Laws` and `PteRiscv.Laws` prove it of the real bit patterns.
  Frames are numbered: a frame is a physical address divided by 4096, below 2^40. What a page permits
  is what its leaf and every table entry on the way to it permit.
- Pages for tables, copies and programs come from the heap model, which may run out at any step, and
  each operation says what it does then; only the allocations for argument strings are a parameter.

What was found where the obvious property fails:

- elf_load turns the result of pt_pool_alloc into a physical address before it tests it. With memory
  mapped in the upper half of the address space, as both boot protocols map it, the null pointer
  becomes a non-zero address (`ElfImage.NullGoesOn`), so ELF_ERR_NO_MEMORY is never returned and the
  page is mapped to a frame that was never allocated (`ElfImage.LoadUnnoticed`). What elf_load is
  there for is done, for headers it accepts, exactly if the heap it finds can give one page for each
  page of the program and one for each table missing on the way to one (`ElfImage.Loader.Load`).
- elf_load adds a segment's offset and size in 64 bits, so a sum that wraps around passes the test
  (`ElfImage.WrappedSegment`). A segment that passes lies inside the image, and only bytes of the
  image are read for it, exactly if offset + size is below 2^64 (`ElfImage.ReadInside`).
- elf_load gives a page that several segments share the flags of the last of them and of the segment just
  before that one, so what an earlier segment asked for can be lost (`ElfImage.WriteLost`); all of them
  get what they ask for exactly if those two ask for it already (`ElfImage.AllPermitted`).
- malloc rounds the request up with 64-bit wrap-around: the block given out is as large as the
  request exactly if the request is at most 2^64 - 8 (`HeapBlocks.MallocContract`); a request for
  2^64 - 1 bytes gets a block of none (`HeapBlocks.HugeRequest`).
- memory_reserve_range takes the range out exactly if it is empty or the map has room for every
  entry it splits. Otherwise it returns -1 with the entries before that one cut, yet the whole range
  is as usable as before (`MemoryMap.Map.Reserve`, `MemoryMap.HalfReserved`).
- uconfig's shared set of names is as before an evaluation exactly if every token was processed and
  something was left on the stack, whatever the verdict; any earlier return leaves the option's name
  in it (`Expression.Evaluate`, `Expression.ValidInternal`, `Expression.ErrorsDiffer`). A fresh set
  for each top-level question makes this harmless (`Expression.ValidOption`).

## Model

| member | source | states |
|---|---|---|
| `HeapBlocks.MallocContract` | src/mm/pmm.c:356-390 | A successful malloc adds one live block of at least the rounded size, less than 47 bytes more than asked for, and leaves every other live block where it was; it fails exactly when no free block is large enough for that, and then changes nothing. The block is as large as the request exactly when the request is at most 2^64 - 8. |
| `HeapBlocks.HugeRequest` | src/mm/pmm.c:365-388 | A request for 2^64 - 1 bytes, rounded up to nothing, is answered on a fresh heap with the address of a block of no bytes. |
| `HeapBlocks.LowestFirst` | src/mm/pmm.c:365-388 | What malloc hands out lies no higher than any free block that would have been large enough. |
| `HeapBlocks.PageAllocContract` | src/mm/pmm.c:426-486 | page_alloc results are 4096-aligned, in a fresh live block of at least the pages asked for and less than 40 bytes more, all other live blocks untouched; it fails exactly when no free block has room for the pages behind an acceptable gap. |
| `HeapBlocks.PageFitsComplete` | src/mm/pmm.c:438-447 | The one position tried in a block is enough: it fits exactly when any page boundary with a leading gap of 0 or at least 40 bytes does. |
| `HeapBlocks.PagesLowestFirst` | src/mm/pmm.c:430-486 | The pages handed out start no higher than they would in any block with room for them. |
| `HeapBlocks.FreeContract` | src/mm/pmm.c:403-424 | free gives up exactly the named live block; merging neighbours moves or resizes no other, and no two free neighbours are left. |
| `HeapBlocks.CoalesceKeeps` | src/mm/pmm.c:412-420 | The merging pass keeps the tiling and the live blocks and leaves no two neighbouring free blocks. |
| `HeapBlocks.PayloadsDisjoint` | src/mm/pmm.c:356-486 | The payloads of two different live blocks share no byte. |
| `HeapBlocks.StepKeeps` | src/mm/pmm.c:356-486 | Every call keeps the heap invariant, and the live pointers change by exactly what was handed out and handed back. |
| `HeapBlocks.RunKeeps` | src/mm/pmm.c:356-486 | Over any run of malloc, page_alloc and free the blocks tile the heap, bytes including headers are conserved, and the live pointers are those the callers still hold. |
| `HeapBlocks.RunEights` | src/mm/pmm.c:365-388 | Over any run of calls on a heap laid out in multiples of eight, every pointer handed out is a multiple of eight. |
| `HeapBlocks.EverythingFreed` | src/mm/pmm.c:356-486 | After any run in which everything allocated has been freed, the heap is the single initial block again. |
| `HeapBlocks.RoomGives` | src/mm/pmm.c:426-486 | A free block as large as four pages for each page asked for is enough for that many single-page requests one after another, whatever else is allocated. |
| `Pmm.Heap.constructor` | src/mm/pmm.c:218-227 | The heap starts as one free block over the region. |
| `Pmm.Heap.Malloc` | src/mm/pmm.c:356-390 | The walk over the header chain in memory leaves the chain that stands for the block list HeapBlocks.Malloc describes, and returns its pointer. |
| `Pmm.Heap.PageAlloc` | src/mm/pmm.c:426-486 | The in-place carving of up to three blocks leaves the chain that HeapBlocks.PageAlloc describes, and returns its aligned pointer. |
| `Pmm.Heap.Free` | src/mm/pmm.c:403-424 | Marking and merging in place leave the chain that HeapBlocks.Free describes; exactly the freed pointer is no longer live. |
| `Pmm.Heap.Merge` | src/mm/pmm.c:412-420 | The merging loop over the chain computes HeapBlocks.Coalesce. |
| `MemoryMap.Map.Reserve` | src/mm/pmm.c:288-354 | Returning 0 leaves the usable addresses equal to the old ones minus the range; it returns 0 exactly when the range is empty or the entries split by it still fit in 64 slots. On -1 the usable addresses are exactly the old ones, the whole range among them, although every entry before the one that found the map full has been cut. What becomes of each entry is stated. |
| `MemoryMap.SplitCountIs` | src/mm/pmm.c:330-347 | The entries counted against the 64 slots are the usable ones that begin below the range and end beyond it. |
| `MemoryMap.LeftIs` | src/mm/pmm.c:294-347 | What each entry becomes: untouched if it is not usable or misses the range, reserved if the range covers it, else cut at the range's end or start with its kind kept. |
| `MemoryMap.Map.Visit` | src/mm/pmm.c:294-351 | One iteration: the scanned entries and those appended stand for the old addresses outside the range, although the loop's bound grows; when the map is full nothing is changed and the range is still usable. |
| `MemoryMap.HalfReserved` | src/mm/pmm.c:332-341 | On a full map whose first entry overlaps the range and whose second surrounds it, the call fails with the first entry cut and the range still usable. |
| `PteX86.Laws` | src/arch/x86_64/mm/paging.c:11-55 | The x86_64 encoding satisfies everything the page-table code relies on: table, leaf, moved and child entries decode to the frame and permissions they were made from, and a table entry permits writing, user access and execution. |
| `PteX86.EntryBits` | src/arch/x86_64/mm/paging.c:3-9 | How an entry is read: present is bit 0, write bit 1, user bit 2, a huge leaf bit 7, global bit 8, no execution bit 63, the frame bits 12 to 51; a table entry lets through what its write, user and no-execution bits say. |
| `PteX86.TableBits` | src/arch/x86_64/mm/paging.c:11-13 | A table entry is the child's address with the present, write and user bits and no other. |
| `PteX86.LeafBitsAre` | src/arch/x86_64/mm/paging.c:15-23 | A leaf has the present bit, and the write, user, huge and global bits and no-execution's absence exactly as asked for, and no other flag bit. |
| `PteX86.ChildBits` | src/arch/x86_64/mm/paging.c:38-43 | A child of a split leaf has the given address, its parent's low twelve bits and bit 63, except that bit 7 says whether it is huge. |
| `PteX86.MovedBits` | src/arch/x86_64/mm/paging.c:45-47 | With a new frame an entry has that address and every bit outside the address as it was. |
| `PteX86.ChildLeafLaws` | src/arch/x86_64/mm/paging.c:38-43 | A child made from a huge leaf is present, a leaf at its level, maps the given frame and permits what its parent did. |
| `PteX86.WithPhysLaws` | src/arch/x86_64/mm/paging.c:45-47 | Replacing the frame keeps presence and permissions. |
| `PteRiscv.Laws` | src/arch/riscv64/mm/paging.c:14-61 | The Sv48 encoding satisfies the same interface; its table entries carry no permissions and so withhold none. |
| `PteRiscv.EntryBits` | src/arch/riscv64/mm/paging.c:4-15 | How an entry is read: valid is bit 0, write bit 2, execution bit 3, user bit 4, global bit 5, a leaf any of bits 1 to 3, the frame number from bit 10 on. |
| `PteRiscv.TableBits` | src/arch/riscv64/mm/paging.c:17-19 | A table entry is the child's frame number and the valid bit alone. |
| `PteRiscv.LeafBitsAre` | src/arch/riscv64/mm/paging.c:21-29 | A leaf is valid, readable, accessed and dirty, has the write, execution, user and global bits exactly as asked for, and the frame number above them. |
| `PteRiscv.ChildBits` | src/arch/riscv64/mm/paging.c:45-49 | A child of a split leaf has the given frame number and its parent's low ten bits. |
| `PteRiscv.MovedBits` | src/arch/riscv64/mm/paging.c:51-53 | With a new frame an entry has that frame number and its low ten bits as they were. |
| `PteRiscv.ChildLeafLaws` | src/arch/riscv64/mm/paging.c:45-49 | As for x86_64: a split child keeps the parent's permissions and is a leaf. |
| `PhysicalAddress.RoundTrip` | src/arch/x86_64/mm/paging.c:9 | Frame numbers below 2^40 survive being encoded as 52-bit physical addresses and decoded again, and the address uses no flag bit. |
| `PhysicalAddress.AddressBytes` | src/arch/x86_64/mm/paging.c:9 | A frame's physical address has the frame number's five bytes from bit 12 on and zeros elsewhere. |
| `PageTree.SamePage` | include/arch/memory.h:23-25 | Two addresses have the same four indices exactly when they lie in the same page of the 48-bit space. |
| `PageTree.IndexIs` | include/arch/memory.h:23-25 | The index at levels 0 to 3 is the nine bits from bit 12, 21, 30 and 39 on, and an entry there spans 4 KiB, 2 MiB, 1 GiB and 512 GiB. |
| `PageTree.ChildMaps` | src/mm/vmm.c:97-98 | Child i of a split leaf, taken by the index of the level below, maps each page where the leaf did. |
| `PageTree.LeafOffset` | src/mm/vmm.c:293-294 | Base plus offset within a leaf of any size is the page's own address plus the offset within the page. |
| `PageTree.Permits` | src/mm/vmm.c:323-381 | A mapped address has one leaf on its way, which decides the frame; writing, user access or execution is permitted exactly if the leaf and every table entry before it permit it. |
| `PageTree.PathTranslates` | src/mm/vmm.c:323-381 | In a space's tree a page is mapped, with frame and permissions, as the table at the end of its path says: the entries above take nothing away. |
| `PageTree.Framed` | src/mm/vmm.c:323-406 | A tree of tables means the same as long as its own tables hold the same. |
| `PageTree.GraftOnPath` | src/mm/vmm.c:331-347 | Linking a fresh table at the end of the path, empty in place of an absent entry or split in place of a leaf, changes no translation. |
| `PageTree.WriteOnPath` | src/mm/vmm.c:351-352 | Writing one lowest-level entry changes the translation of its page and of no other. |
| `MissingTables.SharedMissing` | src/mm/vmm.c:327-348 | Two addresses whose walks go through one table either both find it there or both find it missing. |
| `MissingTables.GraftMissing` | src/mm/vmm.c:331-347 | A table linked at the end of the walk is one missing table less for every address whose walk comes that way, and for every other address as many are missing as before. |
| `MissingTables.WriteMissing` | src/mm/vmm.c:351-352 | Writing a lowest-level entry makes no table and takes none away, for any address. |
| `Vmm.SplitMeaning` | src/mm/vmm.c:88-102 | For every address under a huge leaf, at any level, frame and flags are the same before and after the split. |
| `Vmm.Machine.PoolAlloc` | src/mm/vmm.c:44-49 | A zeroed page that overlaps no page held before and is no page outside the heap, unless the heap has none to give; then nothing is changed. The heap is the old one after exactly one page_alloc(1). |
| `Vmm.Machine.SplitLeaf` | src/mm/vmm.c:88-102 | The leaf's entry becomes a table of 512 children, one fresh page live more; on failure nothing changes. |
| `Vmm.Machine.MapPage` | src/mm/vmm.c:323-354 | It succeeds exactly if the heap it finds can give one page for each table missing on the way, at most three, and then that is what it has taken. On success as many tables are missing for every address as before, without those its walk shares with this one, and the named page maps to the frame with the flags and every other user page of the space translates as before, also below a huge leaf; on failure no translation changes; the new tables are exactly the new allocations and the kernel half is untouched. No root stands for the kernel's; tables may lie outside the heap. Frame and flags are those the whole path gives, table entries included. The lowest entry on the way is the leaf the architecture makes for a page of 4 KiB. |
| `Vmm.Machine.ProtectPage` | src/mm/vmm.c:356-381 | It succeeds exactly if the page is mapped and the heap can give one page for each huge leaf to be split on the way; then the named page has new flags and keeps its frame and every other page translates as before. Otherwise no translation changes. The flags are those the whole path gives. The lowest entry is again the architecture's leaf for such a page. |
| `Vmm.Machine.UnmapPage` | src/mm/vmm.c:383-406 | It succeeds exactly if the page is not mapped or the heap can give one page for each huge leaf to be split on the way; then the named page is unmapped and every other page translates as before. Otherwise no translation changes. |
| `Vmm.Machine.UserToKernel` | src/mm/vmm.c:287-299 | The kernel address of the byte the space maps at va, through a leaf of any level, or nothing if va is unmapped. |
| `Vmm.RunTranslates` | src/mm/vmm.c:323-406 | Over any run of mappings, protections and unmappings of a space, successful or not, every user address maps to what the last change of its page says. |
| `Vmm.OtherSpace` | src/mm/vmm.c:323-406 | An operation on one address space changes no translation of a space whose user tables are other pages, and the two stay apart. |
| `Vmm.FreshPage` | src/mm/vmm.c:44-49 | A page handed out lies apart from everything allocated, and everything allocated stays so. |
| `VmmFree.ListAdd` | src/mm/vmm.c:196-210 | The page is appended, the array doubled when full; it fails exactly when the array is full and malloc has no room for the next one, and then nothing has changed; apart from the array itself the live allocations are the same. The heap afterwards is the old one after the new array's malloc and the old one's free. The array holds 64 pages at first. |
| `VmmFree.ListFree` | src/mm/vmm.c:212-219 | Every listed page and the array are freed, nothing else. |
| `VmmFree.FreeLevel` | src/mm/vmm.c:169-180 | Exactly the tables of the subtree are freed, each once; other allocations stay in place. |
| `VmmFree.FreePageTable` | src/mm/vmm.c:182-194 | Exactly the tables of the user half and the root are freed; no leaf page, no kernel table. |
| `VmmClone.CloneEntry` | src/mm/vmm.c:226-260 | One entry handled: absent, skipped, copied or recursed into, or failed; in every case the copy stays a tree whose tables and pages are accounted for. It succeeds exactly if no huge page is met and the heap it finds meets the entry's requests, which are read off the source's tables; then it has met exactly those. |
| `VmmClone.CloneLevel` | src/mm/vmm.c:221-262 | The pages below src are copied below dst; on success the copy of the whole level is complete. It succeeds exactly if no huge page is met below src and the heap it finds meets the requests that src's tables make necessary, in order; then heap and list are the old ones after exactly those requests. Frames held before keep their contents in either case. |
| `VmmClone.ClonePageTable` | src/mm/vmm.c:313-321 | A fresh root whose first 256 entries are empty and whose others are the kernel's. |
| `VmmClone.CloneAddressSpace` | src/mm/vmm.c:301-311 | A copy is made exactly if no user page is mapped by a huge leaf whose tables are copied and the heap it finds can meet, one after another, a page for the root and the requests the source's user tables make necessary. Then the space is in order, heap and list are the old ones after exactly those requests, tables and listed pages account for every new allocation, the kernel half is shared and every frame held before is unchanged. Otherwise the live allocations are exactly those before, each where it was. |
| `CloneNeeds.ClearMeans` | src/mm/vmm.c:225-251 | Nothing but the heap stops the copy of a table's entries exactly if, page by page, none of the addresses below them reaches a huge leaf before a wholly skipped table. |
| `CloneNeeds.HugeMetMeans` | src/mm/vmm.c:245-253 | A huge page is met for an address exactly if its way ends in a leaf above the lowest level and no table on that way is left out because every address below its entry is skipped. |
| `CloneNeeds.EntryAsks` | src/mm/vmm.c:226-260 | An entry asks for one page of memory if it maps a page whose address is outside the range, for nothing if it is absent or a table all of whose addresses lie in the range, and else for a table and what lies below it. |
| `CloneNeeds.PagesNeeded` | src/mm/vmm.c:231-241 | Where no huge page is met, a table's entries make exactly one request for a page of memory necessary for each page mapped below them and not skipped. |
| `CloneNeeds.PagesListed` | src/mm/vmm.c:234-236 | Meeting the requests lengthens the owned list by exactly the requests for pages of memory. |
| `CloneNeeds.SpaceCounts` | src/mm/vmm.c:301-311 | Where no huge page is met, a whole copy asks for as many pages of memory as the source maps outside the skipped range, and for no more tables than the source has. |
| `VmmClone.CloneMeaning` | src/mm/vmm.c:221-262 | Every user address outside the skipped range is mapped in the copy exactly if it is in the source, with the same permissions over the whole path and the same bytes, in a frame nobody held before and that the owned list names; a skipped page is unmapped. |
| `VmmClone.CloneDistinct` | src/mm/vmm.c:238-244 | Different pages of the copy lie in different frames. |
| `VmmClone.Discard` | src/mm/vmm.c:305-308 | The clean-up of a failed clone frees all that was allocated for it and nothing else. |
| `Threads.StepKeeps` | src/exec/scheduler.c:278-476 | Every lock-held section and every write of a running thread to its own fields keeps each thread in one place, with fields that fit the place. |
| `Threads.ThreadPlacement` | src/exec/scheduler.c:278-376 | In every reachable state, for any number of CPUs and wait queues, each started thread that is no idle thread is in exactly one place, so no thread runs twice and no two lists share a link. |
| `Threads.PassKeeps` | src/exec/scheduler.c:305-350 | A schedule pass keeps every thread in one place with fields that fit the place. |
| `Threads.WakeKeeps` | src/exec/scheduler.c:462-476 | So does waking a queue. |
| `Threads.CollectKeeps` | src/exec/scheduler.c:126-149 | So does taking and freeing the zombie list. |
| `Threads.OwnFieldsKeep` | src/exec/scheduler.c:445-454 | So do the writes of scheduler_wait and thread_exit_status to the running thread's own fields. |
| `Threads.SleepersAreCurrent` | src/exec/scheduler.c:307-318 | Every thread on a wait queue's list has a ticket equal to the queue's present counter. |
| `Threads.WakeReaches` | src/exec/scheduler.c:462-476 | A wake-up makes every listed sleeper of its queue ready, and every sleeper still in a CPU's slot late. |
| `Threads.NoLostWakeUp` | src/exec/scheduler.c:307-318 | A parked thread whose queue has moved past its ticket is ready or running after the next pass of its CPU, whatever happens in between. |
| `Threads.BoundedDispatch` | src/exec/scheduler.c:328-350 | The thread at position k of the ready queue is current on the CPU of the (k+1)st pass counted over all CPUs. |
| `Threads.FreedAfterLaterPass` | src/exec/scheduler.c:320-347 | A thread that exited on a CPU has been freed only if that CPU has been through two passes since: the one that left it and a later one. |
| `Threads.SlotStays` | src/exec/scheduler.c:278-376 | A thread in a CPU's current, park or zombie slot is left alone by every step of the others. |
| `Threads.SleepersInAnyRun` | src/exec/scheduler.c:307-318 | In every state reached from boot, every thread on a wait queue's list sleeps on a ticket equal to the queue's present counter. |
| `Threads.WakeUpInAnyRun` | src/exec/scheduler.c:307-318 | In every run from boot, a parked thread whose queue has moved past its ticket is ready or running after the next pass of its CPU. |
| `Threads.DispatchInAnyRun` | src/exec/scheduler.c:328-350 | In every run from boot, the thread at position k of the ready queue is current on the CPU of the (k+1)st pass. |
| `Threads.FreedInAnyRun` | src/exec/scheduler.c:320-347 | In every run from boot, a thread that exited has been freed only after two later passes of its CPU. |
| `ThreadFates.ExitedIsGone` | src/exec/scheduler.c:320-410 | In any run from boot, a thread that has exited is in no ready queue and on no wait queue ever after; after its CPU's next pass it is on no CPU, and after the one after that it is on the zombie list, where the reaper frees it, or freed already. |
| `ThreadFates.SleepsUntilWoken` | src/exec/scheduler.c:307-447 | In any run from boot, a thread that went to sleep on a current ticket stays blocked and off the CPUs and the ready queue as long as its queue is not woken, and is on the queue's list from its CPU's next pass on. |
| `ThreadFates.PassServes` | src/exec/scheduler.c:328-350 | In any reachable state a pass takes up the head of the ready queue; a running thread that has to make room is ready and last in the queue, the CPU idles only if nothing is ready, and no other CPU's thread changes. |
| `ThreadFates.PassFiles` | src/exec/scheduler.c:305-326 | A pass puts the thread parked on its CPU at the head of its queue's list if the queue's counter still is its ticket, and the one that died there at the head of the zombie list; no other list of either kind changes. |
| `Scheduler.Scheduler.constructor` | src/exec/scheduler.c:151-182 | Every CPU starts on its registered idle thread with all lists empty. |
| `Scheduler.Scheduler.EnqueueLocked` | src/exec/scheduler.c:53-63 | Linking at the tail through the shared next field appends to the ready queue and disturbs no other list. |
| `Scheduler.Scheduler.DequeueLocked` | src/exec/scheduler.c:65-74 | Unlinking the head takes the first of the ready queue and disturbs no other list. |
| `Scheduler.Scheduler.Schedule` | src/exec/scheduler.c:278-376 | Unless it returns early, the linked structures afterwards stand for the pass of Threads; the early returns change nothing. |
| `Scheduler.Scheduler.Wait` | src/exec/scheduler.c:427-447 | The caller is marked blocked on the queue with its snapshot exactly if the queue still has the snapshot's value and the caller is no idle thread; nothing else changes. |
| `Scheduler.Scheduler.AfterTrap` | src/exec/scheduler.c:451-454 | A thread still marked blocked after the trap goes on running. |
| `Scheduler.Scheduler.WakeAll` | src/exec/scheduler.c:462-476 | The loop relinks the whole list behind the ready queue, in list order, and steps the counter; the woken wait on nothing and are ready, and no other thread is touched. |
| `Scheduler.Scheduler.Exit` | src/exec/scheduler.c:382-410 | The running thread, unless idle, is in state terminated with no process; its other fields, every other thread and every list, slot and queue are as before. An idle thread changes nothing. |
| `Scheduler.Scheduler.Reap` | src/exec/scheduler.c:126-149 | Exactly the control blocks on the zombie list are freed, each once, while the chain is walked. |
| `Scheduler.Scheduler.Start` | src/exec/scheduler.c:184-188 | A new thread is ready and last in the ready queue. |
| `Scheduler.Scheduler.Allocate` | src/exec/scheduler.c:106-124 | A new control block joins no list and changes no other block. |
| `Handshake.SleepJustified` | src/exec/scheduler.c:423-476 | In every reachable state a thread asleep on a queue, on its list or still in a slot of its CPU with a current ticket, has nothing to look for, or whoever made news has not finished waking the queue. |
| `Handshake.ListedSleepJustified` | src/exec/scheduler.c:307-318 | In particular a thread on the queue's list. |
| `Handshake.SchedKeeps` | src/exec/scheduler.c:427-447 | The link between tickets, blocked threads and queue counters survives every scheduler step. |
| `Keyboard.Buffer.Push` | src/drivers/keyboard/keyboard.c:19-28 | With fewer than 255 characters waiting the new one is last behind all of them; with 255 it is dropped. |
| `Keyboard.Buffer.Pop` | src/drivers/keyboard/keyboard.c:33-44 | The oldest character is taken, or the buffer is empty. |
| `Keyboard.Buffer.Drain` | src/drivers/keyboard/keyboard.c:71-76 | Between two sleeps the reader takes the characters up to the end of the line or of its room, and goes on to sleep only with the buffer empty. |
| `Keyboard.LineEnds` | src/drivers/keyboard/keyboard.c:72-76 | What is taken ends at the first newline and nowhere earlier, unless room or input ends first. |
| `Keyboard.ReaderSleeps` | src/drivers/keyboard/keyboard.c:19-80 | A reader is asleep beside a non-empty buffer, on the queue's list or still in a slot of its CPU, only while some producer is between its push and its wake-up. |
| `Keyboard.ListedReaderSleeps` | src/drivers/keyboard/keyboard.c:58-80 | In particular a reader on the queue's list, whatever its ticket. |
| `Processes.AfterExitIs` | src/exec/process.c:102-144 | After an exit everybody else is listed as before, children under init or nobody, except zombies left to nobody; the process itself stays, as a zombie with its status, exactly if its parent lives. |
| `Processes.ChildrenOf` | src/exec/process.c:105-122 | At an exit each child of the process goes to pid 1, with pid, zombie mark and status kept, if a live pid 1 other than the process is listed, and pid 1 is woken for a dead one; otherwise a live child gets no parent and a dead one is freed. |
| `Processes.OthersOf` | src/exec/process.c:105-122 | Processes that are neither the one exiting nor its children are listed unchanged, nobody new is, and nobody twice. |
| `Processes.SelfOf` | src/exec/process.c:124-144 | The process itself is a zombie with its status under its parent, which is alive and is woken, exactly if it has a parent; otherwise it is gone. |
| `Processes.ToldOnly` | src/exec/process.c:122-132 | Only the parent is woken, and pid 1 if a dead child was left to it. |
| `Processes.TerminateKeeps` | src/exec/process.c:102-144 | Exit keeps pids unique, every parent named alive and older, every zombie with a parent. |
| `Processes.RegisterKeeps` | src/exec/process.c:185-190 | So does registering a process with a live parent or none. |
| `Processes.ReapKeeps` | src/exec/process.c:162-170 | So does removing a zombie. |
| `Processes.ParentsAreTold` | src/exec/process.c:109-135 | Whoever has a dead child of the kind it waits for after an exit, and had none before, is woken by that exit. |
| `Processes.ProcessTable.TakePid` | src/exec/process.c:247-249 | A pid that no listed process has. |
| `Processes.ProcessTable.Register` | src/exec/process.c:185-190 | The process is put at the head of the list. |
| `Processes.ProcessTable.Terminate` | src/exec/process.c:102-144 | The loops over the list: afterwards children of the process are under a live pid 1, or else under nobody with the zombies among them gone; the process is a zombie with its status if its parent lives and gone if not; the list and the wake-ups are those of the lemmas. |
| `Processes.ProcessTable.WaitChild` | src/exec/process.c:147-176 | -1 exactly without a listed child of the caller with the wanted pid (any for a pid that is not positive), 0 exactly if none of them is dead, and otherwise pid and status of the first dead one in list order, which alone is removed. |
| `Wait4.ParentSleeps` | src/exec/syscalls/linux/process.c:201-217 | Whenever the process lock is free, a parent asleep on its queue, on its list or still in a slot of its CPU, has no dead child of the kind it waits for, over all interleavings of exits, adoption and retries. |
| `Wait4.ListedParentSleeps` | src/exec/syscalls/linux/process.c:201-217 | In particular whoever is on a parent's queue is waiting there, and has no dead child of the kind it waits for. |
| `Wait4.StatusesDelivered` | src/exec/process.c:102-176 | Each exit status is returned at most once and unaltered; whoever exited is a zombie with a live parent, or was waited for, or was freed, and only one of these. Whoever was freed was so at an exit at which neither a parent nor a pid 1 was alive to wait for it. |
| `Wait4.DroppedInRun` | src/exec/process.c:116-144 | From any state in order, whoever a run frees unseen was freed at an exit that left it nobody to wait for it. |
| `Wait4.EventKeeps` | src/exec/process.c:102-190 | Every event keeps the process list, the record of exits and the sleepers' tickets in order. |
| `UserStack.WordRoundTrip` | src/exec/loaders/elf.c:816 | A 64-bit word stored low byte first reads back as itself. |
| `UserStack.LowByteFirst` | src/exec/loaders/elf.c:816 | A word below 256 is stored with its value in the first byte and zeros behind it. |
| `UserStack.Recovered` | src/exec/loaders/elf.c:784-816 | A reader that starts at the stack pointer recovers argc, all argument and environment strings with both terminators, and the auxiliary pairs. |
| `UserStack.AuxTells` | src/exec/loaders/elf.c:795-811 | The auxiliary pairs, by type number and each type once: 3, 4, 5 the program headers' address, size and count, 6 the page size 4096, 7 the interpreter's base or 0, 9 the program's entry, 11 to 14 and 23 zero, 17 the value 100, 25 the 16 bytes' address, 31 the first argument's. |
| `UserStack.StartedFinds` | src/exec/loaders/elf.c:784-811 | How the reader finds them: argc at the stack pointer, argument pointers from 8 above it, a zero word, environment pointers, a zero word, then the pairs of words. |
| `UserStack.RandomBytes` | src/exec/loaders/elf.c:780-782 | The 16 bytes AT_RANDOM points at, one by one. |
| `UserStack.Stack.PutStrings` | src/exec/loaders/elf.c:755-768 | The strings are laid below the given position with their terminators, at the addresses recorded, and nothing above is touched. |
| `UserStack.Stack.BuildVector` | src/exec/loaders/elf.c:786-811 | The vector is argc, both pointer lists and the 15 auxiliary pairs, and stays within its allocation of argc + envc + 35 words. |
| `UserStack.Stack.Prepare` | src/exec/loaders/elf.c:734-823 | The stack pointer is 16-byte aligned and inside the stack, the image read from it is the given one (/init for no arguments), AT_EXECFN is the first argument and AT_RANDOM points at the 16 bytes. What the pairs say of the program is stated by type number and value. |
| `UserStack.CopyAccepts` | src/exec/syscalls/linux/process.c:42-53 | Strings are accepted exactly if every pointer is in range, the bytes fit the budget and allocations last; then they are copied unaltered and the budget is charged for each byte. |
| `UserStack.CopyStrvec` | src/exec/syscalls/linux/process.c:27-58 | The counting and copying loops return that result, with E2BIG beyond 1024 pointers, EFAULT, E2BIG over budget or ENOMEM in the order met. |
| `UserStack.AcceptedFits` | src/exec/syscalls/linux/process.c:82-96 | Whatever execve accepts, its path standing in for missing arguments, needs less than a sixteenth of the stack. |
| `UserStack.TakeStrings` | src/exec/syscalls/linux/process.c:60-101 | execve gets past the strings exactly if its path is in range and at most 4096 bytes long, both vectors are acceptable under one budget and the allocations last; then what it has are the program's own strings, unaltered and in order, the path standing in for missing arguments, and they need less than a sixteenth of a stack. ENAMETOOLONG is returned exactly for a path that is too long. |
| `StackPages.MapStack` | src/exec/loaders/elf.c:730-733 | The mapping loop succeeds exactly if the heap it finds can give one page for each distinct table missing on the way to the 2048 pages, and takes just that; then every address from 0x7FFF_FF7F_F000 to 0x7FFF_FFFF_F000 maps to the block in order, for the program to read and write and not to execute, and every other user page maps as before. |
| `StackPages.StackSeen` | src/exec/loaders/elf.c:730-752 | Read by the program through its own page tables, the stack is the block, byte by byte, wherever the frames hold it. |
| `StackPages.OnlyBlock` | src/exec/loaders/elf.c:730-752 | With the block in memory from its first frame on, what the program reads on its stack is that block and can be no other. |
| `StackPages.PrepareStack` | src/exec/loaders/elf.c:708-823 | The stack is prepared exactly if the heap can give the block and then the missing tables; no table of the space lies in the block, and the program reads the given image from the stack pointer on through its page tables. The auxiliary values are stated by type number. |
| `StackPages.Execve` | src/exec/syscalls/linux/process.c:60-134 | Whatever execve accepts, the program that starts at the stack pointer finds there through its own page tables: argc, its arguments and environment as the old program passed them, and the auxiliary pairs, with AT_EXECFN at the first argument and AT_RANDOM at its 16 bytes. It runs exactly if the strings are taken and the stack fits; refused strings change nothing. The auxiliary values are stated by type number. |
| `ElfImage.Loader.Load` | src/exec/loaders/elf.c:446-537 | From a user half with nothing mapped, the headers' pages are delivered (exactly those pages translating, each to an allocated frame of its own that holds what the headers ask for, also if several segments share it) exactly if every header is accepted, some segment ends above 0, and the heap it finds can give one page for each distinct page of the segments and one for each distinct table missing on the way to any of them. Then it has taken just that. With memory mapped at 0 or not, NO_MEMORY and MAP_FAILED are returned only if it could not; where no table is missing and memory is not mapped at 0, success is reported whether or not it could. The addresses reported are the least start and the greatest end of a segment. What was allocated stays so. Each page mapped has the permissions its segments give it; a page is mapped exactly if a segment touches it, and the highest address is page-aligned, at or above every segment's end and less than a page above one of them. |
| `ElfImage.Loader.LoadHeader` | src/exec/loaders/elf.c:446-528 | One header: refused exactly if its end, taken in 64 bits, is beyond the image; otherwise the pages hold what the headers up to it ask for unless they are astray, some page is astray exactly if the heap could not have given what all pages so far need, and the two addresses are the least start and the greatest end so far. |
| `ElfImage.LoadUnnoticed` | src/exec/loaders/elf.c:479-500 | On an exhausted heap, with the tables there and memory mapped where the boot protocol puts it, loading a one-page program reports success with the page mapped to the frame the null pointer stands for. |
| `ElfImage.Loader.LoadSegment` | src/exec/loaders/elf.c:473-517 | One segment's pages are mapped or kept and filled; the contents of other pages are as the earlier headers ask. Some page is mapped to null's frame afterwards exactly if the heap at the start of the load could not give what all pages so far need, and a failure means that too. |
| `ElfImage.Loader.LoadPage` | src/exec/loaders/elf.c:473-516 | One page: it gets memory of its own exactly if it has a frame already or the heap can give one page for it and one for each table missing on the way to it, and then holds what the headers up to this one ask for; no other page's mapping, and no other allocated frame's bytes, have changed. |
| `ElfImage.Loader.FrameFor` | src/exec/loaders/elf.c:479-500 | A page with a frame keeps it and its bytes under the joined flags, for which no memory is needed; any other gets a zeroed frame, one that was not allocated before exactly if the heap can give it and the missing tables, or null's exactly if the heap had no page. Out of memory is reported for a page exactly if memory is mapped at address 0. |
| `ElfImage.Loader.NewFrame` | src/exec/loaders/elf.c:487-499 | The same for a page that has no frame the kernel has a pointer to, which the walk cannot tell from an unmapped one. |
| `ElfImage.NullGoesOn` | src/exec/loaders/elf.c:487-493 | The null pointer's physical address is zero, which is what the loader tests, only if memory is mapped at 0; otherwise it is a frame whose kernel address is null again. |
| `ElfImage.Loader.DeliveredMeans` | src/exec/loaders/elf.c:446-528 | With the pages loaded as the headers ask, every page has an allocated frame of its own and its bytes exactly if none is mapped to null's frame. |
| `ElfImage.BoundsMean` | src/exec/loaders/elf.c:519-533 | The loop's running minimum and maximum are the start of a segment and the end of one, rounded out to pages, every page of the program lies between them, and the maximum is 0 exactly if no segment ends above 0. |
| `ElfImage.PagesAre` | src/exec/loaders/elf.c:469-473 | A page belongs to the program exactly if it overlaps a segment's addresses in memory. |
| `ElfImage.FlagsAre` | src/exec/loaders/elf.c:471-519 | A page has the flags of the last segment that touches it, joined with those of the segment before that one if the page was mapped by then; the user bit is always there. |
| `ElfImage.WriteLost` | src/exec/loaders/elf.c:482 | Three segments, the first and third on one page: the page the first asked to write cannot be written. |
| `ElfImage.AllPermitted` | src/exec/loaders/elf.c:482 | A shared page permits what every segment on it asks for exactly if what the earlier ones ask is asked for by the last one on the page or by the segment just before that. |
| `ElfNeeds.MoreSlots` | src/exec/loaders/elf.c:473-499 | Of all tables missing at the start, mapping one more page takes exactly those still missing on the way to it, none of which was on the way to a page before. |
| `ElfNeeds.MoreMade` | src/exec/loaders/elf.c:473-499 | After any set of pages and one more, a table is missing exactly if it was at the start and is on the way to none of them. |
| `ElfNeeds.RoomForPages` | src/exec/loaders/elf.c:446-528 | A free block as large as sixteen pages for each page of the program is enough to deliver it, wherever its pages lie and whatever else is allocated. |
| `ElfImage.ReadInside` | src/exec/loaders/elf.c:464 | An accepted segment lies inside the image, and all bytes copied for it come from there, exactly if its end does not wrap around 2^64. |
| `ElfImage.WrappedSegment` | src/exec/loaders/elf.c:464 | A segment of 16 bytes at offset 2^64 - 8 is accepted for any image of at least 8 bytes, and asks for bytes in front of it. |
| `ElfImage.PagesMove` | src/exec/loaders/elf.c:482-499 | A page operation, seen by page numbers: the named page changes and every other user page keeps its mapping. |
| `ElfImage.FillPage` | src/exec/loaders/elf.c:502-516 | Copying the segment's part of a page makes it hold what the headers up to this one ask for. |
| `ElfImage.LastWins` | src/exec/loaders/elf.c:446-528 | The byte asked for at an address is the file byte of the last PT_LOAD in header order whose file part covers it, or zero if none does; it is a byte of the image if the segment lies inside. |
| `ElfImage.Loader.DeliveredReads` | src/exec/loaders/elf.c:469-517 | After a delivering load every address of every segment, file part and rest, reads as the file byte of the last segment whose file part covers it, or as zero. |
| `Tarfs.StepsLand` | src/fs/tarfs.c:131-155 | A walk from a directory below directories ends nowhere or at a node that is no link and has only directories above it, whatever links it meets. |
| `Tarfs.WalkLands` | src/fs/tarfs.c:125-155 | The same for a whole path, absolute or relative; the walk terminates on every tree, by the depth left and the names left. |
| `Tarfs.WalkSame` | src/fs/tarfs.c:131-155 | A path that leads to a node leads to the same node after more entries have been added. |
| `Tarfs.SelfLinkLeadsNowhere` | src/fs/tarfs.c:125-129 | A link to itself is followed eight deep and then not found. |
| `Tarfs.WalkIsDescent` | src/fs/tarfs.c:104-155 | Along plain directory names, walking arrives where the mounting code descended to. |
| `TarfsPaths.PartsJoin` | src/fs/tarfs.c:137-141 | The names of two paths joined by a slash are those of the first and then those of the second. |
| `TarfsPaths.WalkThen` | src/fs/tarfs.c:131-155 | Walking a path and then another from where the first leads is walking the two joined. |
| `TarfsPaths.WalkAbsolute` | src/fs/tarfs.c:134-135 | A path with a leading slash is walked from the root, wherever the walk starts. |
| `TarfsPaths.WalkDots` | src/fs/tarfs.c:145-149 | "." stays at a directory and ".." goes to its parent, at the root to itself; from anything else both lead nowhere. |
| `TarfsPaths.WalkName` | src/fs/tarfs.c:125-152 | A name leads to the child of that name, through a link to where its target leads from the directory the link is in, and nowhere after eight links. |
| `TarfsPaths.WalkNoName` | src/fs/tarfs.c:89-95 | A name no child has leads nowhere. |
| `TarfsPaths.UpAndDown` | src/fs/tarfs.c:146-152 | A name after ".." is looked up in the parent of the directory reached. |
| `TarfsPaths.AbsoluteLink` | src/fs/tarfs.c:125-135 | A link with an absolute target leads where the target does from the root. |
| `TarfsPaths.StripEnds` | src/fs/tarfs.c:57-58 | A slash at an entry's end says nothing. |
| `TarfsPaths.StripFront` | src/fs/tarfs.c:57-65 | An entry's path loses a leading "./" or "/" and nothing of its first name. |
| `TarfsPaths.EntryNames` | src/fs/tarfs.c:252-318 | Which entries count and what they make: type 5 a directory, type 2 a link, files otherwise, all others passed over. |
| `Tarfs.GrownKeeps` | src/fs/tarfs.c:97-102 | A child added under a name not yet used keeps the tree acyclic, with distinct sibling names and a single root. |
| `Tarfs.OneMoreWay` | src/fs/tarfs.c:97-102 | A node added under a new name is reached by its parent's way and its name, and no other path leads anywhere it did not lead before. |
| `Tarfs.Mount.FindChild` | src/fs/tarfs.c:89-95 | The child with exactly this name, or none. |
| `Tarfs.Mount.ResolveDirPath` | src/fs/tarfs.c:104-121 | The node reached by the path's names; whatever appears on the way is a directory, nothing appears elsewhere, and what was there stays. |
| `Tarfs.Mount.WalkPath` | src/fs/tarfs.c:131-155 | The loops over the path compute the walk the lemmas describe. |
| `Tarfs.Mount.AddEntry` | src/fs/tarfs.c:248-287 | The node the entry's type asks for; a hard link copies the file it resolves to and makes nothing if that is missing or a directory. |
| `Tarfs.Mount.ParseEntry` | src/fs/tarfs.c:301-318 | An entry adds directories on its way and, if nothing is there yet, what it makes at its end, and nothing else. |
| `Tarfs.Mount.ParseArchive` | src/fs/tarfs.c:294-321 | For every path that led nowhere, the first entry that names it or goes beyond it decides what is there afterwards: a directory if it goes beyond, else the file with its data, the link or the directory the entry stands for; nothing without such an entry. A hard link's part is left to Mount.AddEntry. |
| `Tarfs.MountArchive` | src/fs/tarfs.c:323-339 | A mounted archive holds that for every path but the root's. |
| `Tarfs.EntryFound` | src/fs/tarfs.c:104-155 | Opening the path of a file or directory entry that is the first of the archive to name it, and whose way leads through directories, finds the node with that entry's data. |
| `Expression.ValidSound` | tools/uconfig/parser/src/expression.rs:22-45 | For every namespace the evaluation ends; a circle is reported only where a real one can be reached, and Passed or Failed only where none can. |
| `Expression.CircularWalk` | tools/uconfig/parser/src/expression.rs:41-43 | Behind a report of circularity there is a chain of dependencies that repeats an option. |
| `Expression.VerdictWalk` | tools/uconfig/parser/src/expression.rs:157-183 | After Passed or Failed no chain of dependencies from the option repeats one. |
| `Expression.PathIrrelevant` | tools/uconfig/parser/src/expression.rs:30-45 | Short of circularity an option's result does not depend on which options are being evaluated around it. |
| `Expression.NestedIsOwn` | tools/uconfig/parser/src/expression.rs:162-167 | What an expression sees of a dependency is that option's own result. |
| `Expression.ApplyInRange` | tools/uconfig/parser/src/expression.rs:49-151 | No operator yields an integer outside 64 bits; overflow is an invalid expression. |
| `Expression.NumbersCompared` | tools/uconfig/parser/src/expression.rs:122-143 | On two numbers, a truth value counting as 0 or 1, each comparison passes exactly if it is true of left and right. |
| `Expression.TruthsJoined` | tools/uconfig/parser/src/expression.rs:76-95 | And and or of any two values, a number true unless 0 and a string unless empty. |
| `Expression.StringsCompared` | tools/uconfig/parser/src/expression.rs:97-143 | A string equals another if they are the same and a truth value if that says whether it is empty; against a number, in a sum and in an ordering it is invalid. |
| `Expression.SumsCompared` | tools/uconfig/parser/src/expression.rs:49-74 | A sum and a difference have the value arithmetic gives them, and are invalid outside 64 bits. |
| `Expression.OneLiteral` | tools/uconfig/parser/src/expression.rs:145-183 | A lone truth value passes or fails, anything else is invalid; negated, a truth value turns, the empty string passes and any other fails. |
| `Expression.LastDecides` | tools/uconfig/parser/src/expression.rs:148-183 | The value pushed last decides; the negation of a number has all bits turned. |
| `Expression.OneName` | tools/uconfig/parser/src/expression.rs:157-168 | An expression that is just a name: if that option passes, its present value decides, and otherwise its own result is the result. |
| `Expression.TooLittle` | tools/uconfig/parser/src/expression.rs:50-177 | An operator with too few operands, and an empty expression, are invalid. |
| `Expression.Evaluate` | tools/uconfig/parser/src/expression.rs:38-184 | The loop over tokens with its stack and shared set computes the recursive meaning. The identifier, and nothing else, leaves the set exactly if every token is processed and something is on the stack at the end; otherwise it stays in, and the set has not shrunk. |
| `Expression.ValidInternal` | tools/uconfig/parser/src/expression.rs:30-35 | The same for an option, with or without a dependency: the set is as before exactly if there is no expression, the option is being evaluated already, or its evaluation runs to the end. |
| `Expression.FinalVerdict` | tools/uconfig/parser/src/expression.rs:47-183 | An evaluation that runs to the end gives the verdict its stack holds, and one cut short is invalid or circular; so a verdict restores the set, and some errors do. |
| `Expression.ErrorsDiffer` | tools/uconfig/parser/src/expression.rs:50-177 | The expression 1 is invalid and restores the set; an addition with nothing to add is invalid too and leaves the option's name behind. |
| `Expression.ValidOption` | tools/uconfig/parser/src/expression.rs:23-28 | The same from an empty set. |

## Left out

- Heap: the `pmm_initialized` panic, calloc, the choice of region in memory_init, locks and interrupt flags. page_alloc is taken for counts whose size does not wrap around, as is an address range of the memory map.
- Physical memory and the heap's headers are separate maps: what a freed page holds afterwards is not described, and writing headers into freed pages is not modelled.
- A space's own tables are linked by entries that permit everything, as all that the kernel makes do; spaces with other table entries are not described.
- TLB flushes; map_physical_range, set_page_permissions, set_page_executable and vm_collect_user_pages; kernel-half addresses in the page operations. pt_index is arithmetic on natural numbers.
- Vmm.Machine.MapPage: the tables made on the way before an allocation fails stay linked and empty, as in the code; what is claimed on failure is that no translation changes.
- VmmClone.CloneAddressSpace: takes the source's pages to be allocations or frames outside the heap, and an empty owned list, as fork does.
- Register frames, stacks, page-table switches, the FS base, the RISC-V `wfi` waits, interrupt entry and SMP bring-up. Every CPU has a registered idle thread. `scheduler_wait` on x86_64 is the one modelled.
- Wait-queue counters and pids are unbounded; the source's are 64 and 32 bits wide.
- Threads.BoundedDispatch: counts passes that reach the lock; that a CPU makes such passes is up to its timer.
- Allocation failures for thread control blocks, process records and tarfs nodes, which the source answers by making nothing.
- Handshake.SleepJustified: the wake-up owed is named, not promised; that the owing CPU gets there is not shown.
- Processes: the file table, names, brk and mmap fields, and the resources freed by process_terminate before it takes the lock. A process that terminates is a live member of the list. A null parent in process_wait_child, which returns -1.
- Wait4.ParentSleeps: names a process's queue by its pid; the set of queues is fixed for a run.
- UserStack.Stack.Prepare: takes the stack's pages as one block at a page boundary.
- StackPages.Execve: the file's lookup and reading, the record of the stack and elf_prepare's own temporary arrays, which are taken to be had; the destruction of what was prepared before a failure, and the switch to the new program.
- UserStack.CopyStrvec: the reading of user memory itself; a string is what strlen finds behind its pointer.
- ElfImage.Loader.Load: takes memory to be mapped at address 0 or in the upper half, segments inside the user half and file parts no longer than the memory part. What the processor does when the kernel writes through the null pointer is not described: the bytes there are taken to be those of the frame null stands for, and memory around the image is a parameter. The other headers' results, dynamic sections, relocations, and the second image of an interpreter are not described. A page whose mapping fails is not given back, as in the code. The bytes of a program's frames are kept beside the memory that holds the tables.
- Tarfs.Mount.ParseArchive: says nothing of a path whose first entry is a hard link, which makes a node only if its target is there already. The octal sizes, header blocks and building of a path from prefix and name; readdir and read; the depth of a tree made of non-directories, which walks never enter. Only creation numbers, not addresses, name the nodes.
- Expression: the lexers, and the parser beyond what it guarantees of a namespace.
- Framebuffer, console, PS/2, PCI, ACPI, boot protocols, the other system calls, ramfs, devtmpfs and driver registration.
