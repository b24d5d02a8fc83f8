# Savannah, verified

A Dafny model of the parts of Savannah that own memory and cross cores, with proofs
of what they keep. Savannah runs one virtual machine per core; a process manager (PM)
hands out physical pages, page tables and channels, a file server (FS) opens and closes
descriptors, drivers serve channels, and a vendored lwIP gives sockets.

`dafny verify dfyconfig.toml` checks everything. The files, bottom up:

| file | what it models |
|---|---|
| `BlockList.dfy`, `PageAllocator.dfy` | the page-block allocator of PM: a first-fit, address-ordered, doubly linked list in an array, refining a map from frames to live blocks |
| `PageWalk.dfy`, `Pmap.dfy` | four-level page tables and EPT over a heap of table pages, against the page walk of the processor (section 4.5 of volume 3A and section 28.2 of volume 3C of the Intel SDM) |
| `VmLayout.dfy`, `VmMapping.dfy`, `TwoStage.dfy` | ept_pmap, and the two-stage translation of a VM against virt2phys |
| `Room.dfy` | how far free memory goes under first fit |
| `Ledger.dfy`, `ProcessManager.dfy` | who holds which block over fork, exec and exit |
| `Ipc.dfy`, `Channel.dfy` | message boxes with ready bitmaps, and driver channels, as step systems over single loads and stores |
| `BitSteps.dfy` | the same messages with set_bit and clear_bit as a load and a store each |
| `ChannelClose.dfy`, `ChannelList.dfy` | closing a channel under a polling driver, and the in-place channel list |
| `Select.dfy` | lwip_select and event_callback, and the pointers of their list |
| `StreamReceive.dfy`, `NetconnWrite.dfy` | lwip_recvfrom on a stream, and the resumable TCP write |
| `MemPool.dfy` | lwIP pools and the circle check |
| `DnsTable.dfy`, `DnsNames.dfy` | the DNS request table and its names |
| `Lists.dfy`, `Prelude.dfy` | shared list facts and small types |

Objects that the source updates in place are classes with a `Valid()` and an abstract
value; loops are loops; protocols between cores are step systems whose invariant is
proved for every step and hence for every run, under sequential consistency.

## What the code does that its comments do not say

Where the code falls short of the property one would expect, the model keeps the code,
and a lemma or contract gives the exact condition:

- memory_init wraps around when aligning passes the end of memory (`InitCoversMemoryIff`, `InitCanUnderflow`),
  and the range check of the allocator lets one index too many through (`LocateMissesTheEnd`).
- The very first block is never shared by fork, because `reallocable` compares strictly (`ReallocableLive`).
- Regions of 2^31 pages and more overflow the int counter of the mappers (`WholeRegionIff`, `LargeRegions`).
- With 1GB pages ept_pmap always panics (`MapGuest`).
- virt2phys covers the stack only if the allocator happened to put it far enough behind the code
  (`StackCoveredIff`); load_elf of an executable with a gap puts it elsewhere (`LoadGapElf`).
- free_page_tables panics exactly when the first root entry is empty (`FreePageTables`).
- exec of an executable without bss leaves the old bss block in the descriptor after freeing it
  (`Exec`, `ExecWithoutBss`).
- Ready bits work for ids below 31 only (`BitIsSeenIff`), and set_bit and clear_bit are not atomic: a store that is
  overtaken brings a cleared bit back, and a request is read twice (`StoreJoinsIff`, `NotOvertaken`, `ReadTwice`).
- The processor finds the guest's tables only where no window hides one (`TablesVisibleIff`, `HiddenTable`).
- A full channel list loses a new channel (`AddChannel`) and keeps its last channel when that one is removed
  (`RemovedIff`). The driver then finds a freed page: closing channels is safe exactly as long as that does not
  happen (`CloseIsSafe`, `UncleanIsUnsafe`, `FullListFails`).
- Data left over by another task's recv does not wake a selecting task (`LeftoverDoesNotWake`).
- A peeked byte is reported to netconn_recved as well (`Recv`).
- A write cut short by a timeout or an error leaves its offset behind, against an assertion of the next write
  (`DoWrite`, `LeavesOffset`), and a connection made non-blocking during a write ends it early without an error
  (`Switched`).
- The 8-bit sequence numbers make the DNS table look full although it has completed entries (`FindSlot`,
  `LooksFull`); a zero time to live counts down from 2^32 (`CheckEntry`); a request made from an error callback
  can be lost (`LosesItIff`, `LosesOne`); and a name compares as equal to others that are shorter, or differ where
  it has no dot, or agree with what its entry held before (`ReportedIff`, `ReportedIsEqualIff`, `PrefixMatches`,
  `SeparatorMatches`, `StaleMatches`).

## Model

| member | source | states |
|---|---|---|
| `BlockList.LinksAreInverse` | vms/pm/memory.c:127-158 | along the list next and pre undo each other |
| `BlockList.Cover` | vms/pm/memory.c:93-111 | every managed page lies in some listed block |
| `BlockList.ChainTiles` | vms/pm/memory.c:127-158 | following next tiles the managed range in address order without gap or overlap, each node at the array index its address gives |
| `BlockList.ChainIsComplete` | vms/pm/memory.c:127-158 | following next from the first node misses no listed node |
| `BlockList.OwnedIffReferenced` | vms/pm/memory.c:17-23 | a page is owned exactly when the block that covers it is referenced |
| `BlockList.RunInOneBlock` | vms/pm/memory.c:263-296 | no two adjacent listed blocks are both free, so a run of free pages never crosses a block boundary |
| `BlockList.BlockIsRun` | vms/pm/memory.c:129-135 | every page of a free block is free: the converse of the above |
| `BlockList.ListIsCanonical` | vms/pm/memory.c:114-161 | two histories that leave the same live blocks and counts leave the same list, node for node and link for link |
| `BlockList.SplitKeeps` | vms/pm/memory.c:136-157 | splitting a free block keeps tiling, links, unreferenced off-list nodes and maximal coalescing |
| `BlockList.RecountKeeps` | vms/pm/memory.c:198-198 | changing the count of a referenced block keeps all of it |
| `BlockList.MergeKeeps` | vms/pm/memory.c:263-294 | absorbing a free neighbour keeps all of it, and the live blocks are the same but for the freed one |
| `PageAllocator.InitCoversMemoryIff` | vms/pm/memory.c:62-111 | the list made at start-up covers the rest of memory exactly when, behind the last byte and 32 bytes for every page begun above it, a whole page is left; otherwise its one block has no page, or minus one |
| `PageAllocator.InitCanUnderflow` | vms/pm/memory.c:82-85 | a memory size for which the aligned start passes the end and the page count wraps around |
| `PageAllocator.Locate` | vms/pm/memory.c:41-54 | an address is found exactly when it is aligned and inside the node array, at its own index; every other one ends in a panic |
| `PageAllocator.LocateMissesTheEnd` | vms/pm/memory.c:49-54 | the range check lets the address one past the array through |
| `PageAllocator.SameBlocksSameList` | vms/pm/memory.c:114-297 | the list is a function of the map from frames to live blocks alone |
| `PageAllocator.Allocator.constructor` | vms/pm/memory.c:300-313 | when such a page is left all of memory is one free block |
| `PageAllocator.Allocator.LiveBlocksAreDisjoint` | vms/pm/memory.c:114-161 | live blocks are referenced, lie in the managed range and are pairwise disjoint |
| `PageAllocator.Allocator.FirstFit` | vms/pm/memory.c:127-132 | the first listed free block that is large enough, every earlier one being taken or too small |
| `PageAllocator.Allocator.AllocMemPages` | vms/pm/memory.c:114-161 | fails exactly when no n contiguous free pages exist anywhere, else returns the lowest such run and adds exactly that block with count 1; the panic "already allocated" cannot happen |
| `PageAllocator.Allocator.FitIsLowestRun` | vms/pm/memory.c:129-158 | the block found first holds the lowest run of n free pages of the whole memory |
| `PageAllocator.Allocator.ReallocableLive` | vms/pm/memory.c:164-172 | a live block is reallocable exactly when it is not the very first one: the comparison is strict |
| `PageAllocator.Allocator.ReallocMemBlock` | vms/pm/memory.c:175-200 | succeeds exactly on live blocks and adds one reference, unless the 32-bit count wraps to 0 |
| `PageAllocator.Allocator.Coalesce` | vms/pm/memory.c:259-296 | both free neighbours are merged and exactly this block disappears; the two "list is corrupted" panics are unreachable |
| `PageAllocator.Allocator.FreeMemPages` | vms/pm/memory.c:231-297 | succeeds exactly on live blocks and takes one reference away, or the block with the last one |
| `PageAllocator.Allocator.BackToTheSameList` | vms/pm/memory.c:114-297 | whatever happened in between, the same live blocks mean the same list |
| `PageAllocator.Allocator.AllocThenFree` | vms/pm/memory.c:114-297 | allocating and freeing the result restores the list exactly |
| `PageWalk.PackedEntry` | vms/pm/pmap.c:123-146 | packing an aligned address with flags and masking them out again is a round trip |
| `PageWalk.WalkVia` | vms/pm/pmap.c:108-151 | a walk goes through the tables of the tree on the path of its address |
| `PageWalk.StoreIsLocal` | vms/pm/pmap.c:144-151 | writing one entry changes no walk that does not use it |
| `PageWalk.GrowKeeps` | vms/pm/pmap.c:114-143 | hanging a fresh empty table into an empty entry keeps the tree, shares no table page and changes no translation |
| `PageWalk.SetKeeps` | vms/pm/pmap.c:144-151 | writing a leaf keeps the tree and changes exactly the translations of that page |
| `PageWalk.ClearKeeps` | vms/pm/pmap.c:328-342 | clearing the entry that ends a walk unmaps exactly the page it mapped |
| `PageWalk.RegionStep` | vms/pm/pmap.c:103-156 | the next page of a region extends the mapped part by exactly one page |
| `PageWalk.TargetIsEntry` | vms/pm/pmap.c:144-151 | what a leaf entry translates to is start address plus offset |
| `PageWalk.TreeFrame` | vms/pm/pmap.c:94-156 | a tree depends on its own table pages only |
| `Pmap.CheckRegion` | vms/pm/pmap.c:35-67 | which regions are refused, and why: exactly those with start not below end, an unknown page size or a misaligned physical address |
| `Pmap.WholeRegionIff` | vms/pm/pmap.c:94-103 | the int counter covers the whole region if and only if it has less than 2^31 pages |
| `Pmap.LargeRegions` | vms/pm/pmap.c:94-103 | of 2^44 bytes no 4KB page is mapped; for 2^43 bytes the count is negative |
| `Pmap.PageTables.AllocPageTable` | vms/pm/memory.c:216-228 | a page table is a fresh zeroed page with a block of its own, and fails exactly when no page is free |
| `Pmap.PageTables.Reach` | vms/pm/pmap.c:108-143 | the table for an address is reached, created at every level where it is missing, without changing any translation |
| `Pmap.PageTables.MapPage` | vms/pm/pmap.c:144-151 | one page is mapped, every other page translates as before |
| `Pmap.PageTables.MapRegion` | vms/pm/pmap.c:94-156 | the loop maps exactly the pages it counts |
| `Pmap.PageTables.MapMemory` | vms/pm/pmap.c:12-157 | as many pages of the page-rounded region as an int counts walk to the start plus their offset with the requested flags, every other page walks as before, the tables still form a tree of exclusively owned pages; it stops whenever the region is refused or leads through a page of a larger size, and otherwise only for a missing page; below 4GB, stopped or not, it takes no more pages than the tree gains tables |
| `Pmap.PageTables.EptMapMemory` | vms/pm/pmap.c:160-306 | the same for the EPT with memory type and rights, the condition for a stop included |
| `Pmap.SmallCount` | vms/pm/pmap.c:94-156 | a tree for the lowest 4GB has at most 2054 tables, and six when its pages are of 2MB |
| `Pmap.PageTables.UnmapMemory` | vms/pm/pmap.c:309-348 | exactly the small or large page that maps the address is unmapped |
| `Pmap.PageTables.EptMapPageTables` | vms/pm/pmap.c:351-423 | every table page of the guest tree below 4GB is mapped to itself in the EPT, everything else translates as before, and the guest tree is untouched |
| `Pmap.PageTables.FreePageTables` | vms/pm/pmap.c:426-461 | frees every table page of the lowest 4GB exactly once and nothing else; it panics exactly when the first root entry is empty |
| `Pmap.PageTables.FreeNull` | vms/pm/pmap.c:458-458 | freeing page 0, as happens for an empty first entry, panics |
| `Pmap.FreeUndoesBuild` | vms/pm/pmap.c:426-461 | for a tree built below 4GB the tables freed are exactly those that building it had taken |
| `Pmap.PageTables.MapThenFree` | vms/pm/pmap.c:12-461 | building a tree and freeing it leaves the block list exactly as it was, unless the region is refused or a page is missing |
| `VmLayout.OverlayHit` | vms/pm/main.c:97-251 | of several windows over a page the last one decides |
| `VmMapping.MapGuest` | vms/pm/main.c:98-114 | the guest tables map the lowest 4GB to itself; with 1GB pages the second region is misaligned and PM panics |
| `VmMapping.MapWindow` | vms/pm/main.c:118-250 | one ept_map_memory call maps exactly its window and leaves the guest tables apart and untouched |
| `VmMapping.MapWindows` | vms/pm/main.c:141-250 | the calls one after the other give the overlay of their windows |
| `VmMapping.MapTables` | vms/pm/main.c:139-139 | the guest tables map to themselves in the EPT |
| `VmMapping.EptPmap` | vms/pm/main.c:97-251 | two separate trees of fresh pages, guest identity, and an EPT that is exactly the planned overlay of VGA, APIC, table pages, message pages, sections, descriptors, channels and device window, with all its tables below 4GB when memory and windows are; then, stopped or not, it has taken at most 2060 pages; it stops only for a misaligned window, with 1GB pages, or for a missing page |
| `TwoStage.NestedIsTwoStage` | vms/pm/main.c:97-251 | with the table pages visible through the EPT, the nested walk of the processor is the guest walk followed by the EPT walk |
| `TwoStage.SectionDecides` | vms/pm/main.c:97-251 | inside a section the EPT does what that section's window says |
| `TwoStage.SectionTranslates` | vms/pm/main.c:97-251 | an address of a section reaches the byte at the same distance into the section's memory, with exactly the section's rights |
| `TwoStage.Virt2PhysAgrees` | lib/lib_mem.c:17-46 | virt2phys gives that byte for the first four sections, and for the stack exactly up to vm_end_vaddr |
| `TwoStage.TranslationIsVirt2Phys` | lib/lib_mem.c:17-46 | the two-stage translation and virt2phys agree on every address of every section, but for stack addresses past vm_end_vaddr |
| `TwoStage.MapForVirt2Phys` | vms/pm/main.c:97-251 | after ept_pmap that holds for the whole address space of the VM if no window hides a table page of the guest, and the table pages are where the processor looks for them exactly then; none is hidden if no window covers a frame that was free; it stops only for a misaligned window or a missing page |
| `TwoStage.TablesVisibleIff` | vms/pm/main.c:139-250 | the processor finds every table page of the guest in its place if and only if the last window over each maps it to itself |
| `TwoStage.HiddenTable` | vms/pm/main.c:139-250 | what the processor does when a window hides a table page: it reads the table in that window's memory instead, or faults if the window allows nothing |
| `TwoStage.NewTablesStay` | vms/pm/main.c:97-251 | because table pages are taken from free frames, no window over taken frames hides one |
| `TwoStage.StackCoveredIff` | vms/pm/main.c:636-645 | virt2phys covers the whole stack exactly when the stack lies far enough behind the code in physical memory, or so far before it that the sum wraps |
| `TwoStage.StackNotCovered` | vms/pm/main.c:636-645 | of a VM with adjacent pages but a gap in its address space virt2phys refuses every stack address |
| `Ledger.BooksHeld` | vms/pm/memory.c:198-198 | a held section is a live block and no table page, and one that may not be shared has no other holder |
| `Ledger.BooksTake` | vms/pm/memory.c:114-161 | allocation adds one holder |
| `Ledger.BooksRetain` | vms/pm/memory.c:175-200 | sharing adds one holder |
| `Ledger.BooksRelease` | vms/pm/memory.c:231-297 | freeing takes one holder away |
| `Ledger.BooksRemove` | vms/pm/pmap.c:426-461 | freeing the tables of a tree takes their only holder away |
| `Ledger.BooksSettled` | vms/pm/main.c:803-865 | with no holder left the live blocks are those of the start |
| `ProcessManager.ShareOrCopy` | vms/pm/main.c:411-416 | code and rodata are shared when reallocable and copied otherwise |
| `ProcessManager.ForkSections` | vms/pm/main.c:403-440 | the child has the parent's layout, shares code and rodata, and everything else is new; it fails only when no run of free pages is left for one of the parent's sections |
| `ProcessManager.ForkMemory` | vms/pm/main.c:403-463 | with a descriptor page, or a channel page in a driver; a panic only for a stack pointer virt2phys refuses, a failure only for a missing run of pages of a named size |
| `ProcessManager.DropSections` | vms/pm/main.c:654-658 | the five sections are given back, whatever their number of holders |
| `ProcessManager.DropTrees` | vms/pm/main.c:659-660 | both trees are given back completely |
| `ProcessManager.MapVm` | vms/pm/main.c:469-469 | ept_pmap in the books: fresh tables, nobody else's tree touched, failing only when no page is free |
| `ProcessManager.LoadElf` | vms/pm/main.c:521-652 | the five sections are placed first fit, one after the other, and stop only at a size for which no run is free; an empty bss keeps the old block; wrong headers or an empty code section panic |
| `ProcessManager.LoadedOnce` | vms/pm/main.c:521-645 | load_elf leaves nothing to choice: old descriptor, live blocks and executable give one new descriptor |
| `Room.OneOrder` | vms/pm/memory.c:114-161 | blocks taken first fit one after the other, with the same sizes from the same live blocks, are the same blocks |
| `Room.SideBySide` | vms/pm/memory.c:114-161 | if the lowest free page begins a run that is long enough for all of them, they lie one behind the other from there |
| `Room.FitSpends` | vms/pm/memory.c:114-161 | an allocation of n pages leaves, of every free run of m pages, a free run of m - n somewhere: so memory that had a run for all of a call's demands has one for each |
| `Room.OneIsLeft` | vms/pm/pmap.c:94-156 | and when n single pages are taken, wherever, of n + 1 adjacent free ones one is left |
| `ProcessManager.LoadGapElf` | vms/pm/main.c:521-645 | load_elf of an executable with a gap, whenever the lowest free page begins a run of 516: it is loaded, and virt2phys refuses its whole stack |
| `ProcessManager.Pm.FindFreeVm` | vms/pm/main.c:70-84 | the lowest free core from ALWAYS_BUSY on |
| `ProcessManager.Pm.Fork` | vms/pm/main.c:367-518 | fails with -1 exactly when no core is free; it runs out of memory only when no run of one page, or of the size of a section of the parent, is free, and then there was none before for all its demands together; it panics only for an address virt2phys refuses; otherwise the books balance with the child, on the lowest free core, added, no other VM changes, and the child is mapped as planned |
| `ProcessManager.Pm.Exec` | vms/pm/main.c:521-726 | the new program, placed first fit, replaces the old one, no other VM changes, and the books balance afterwards if and only if the executable has a bss or the old program had none; out of memory only when no run of one page, or of a size it asks for, is free, and then there was none before for all its demands; past the headers it panics only with the new descriptor in place and the stack top where virt2phys refuses it |
| `ProcessManager.BooksBalanceIff` | vms/pm/main.c:625-657 | the reason: with an empty bss the descriptor keeps a block that was given back |
| `ProcessManager.ExecWithoutBss` | vms/pm/main.c:625-657 | an executable without a bss, run by any VM with a bss of a page when the lowest free page begins a run that is long enough: it is loaded, and the books no longer balance |
| `ProcessManager.Pm.Exit` | vms/pm/main.c:803-850 | everything the VM holds is given back and nothing else; its core is free again when the parent waits |
| `ProcessManager.Pm.StepFork` | vms/pm/main.c:367-518 | a fork alone: the move it makes, or why not |
| `ProcessManager.Pm.StepExec` | vms/pm/main.c:521-726 | an exec alone: the move it makes, or why not |
| `ProcessManager.Pm.Step` | vms/pm/main.c:971-994 | a fork by a running VM, an exec or exit by a forked one: either the table of VMs, trees and blocks after it follows from the table before it, which names the core taken, the descriptor made and the VM gone, and the books balance; or it fails for a cause that lies in the table before: no run of pages for what the call takes, an address virt2phys refuses, a bad header, an address space above 4GB, or a bss that is carried over. Other calls change nothing |
| `ProcessManager.Pm.Run` | vms/pm/main.c:971-994 | over every sequence of such calls: the tables between the calls, from the first to the last, each following from the one before by its call, with balanced books in all of them; once all forked VMs have exited the allocator's list is what it was, node for node; the run stops early only at a call that fails, in the table it finds, for one of these causes |
| `ProcessManager.Pm.CountsAreHolders` | vms/pm/main.c:367-865 | the count of every block is its count at the start plus the number of live descriptors and trees that hold it |
| `ProcessManager.Pm.PrivateIsPrivate` | vms/pm/main.c:417-440 | data, bss, stack, descriptor and channel pages of a live VM have that VM as their only holder |
| `ProcessManager.NotCounted` | vms/pm/main.c:625-657 | a block nobody counts is not in balanced books |
| `Bitmap.BitsAreASet` | lib/bitmap.c:4-19 | for ids below 31 the three operations are those of a set |
| `Bitmap.BitIsSeenIff` | lib/bitmap.c:4-19 | a bit that was set is seen, and no other bit appears, exactly for ids below 31 |
| `Ipc.StepKeeps` | lib/ipc.c:26-193 | every single load or store of any core, and every bit operation taken as one, keeps the invariant of requests and replies |
| `Ipc.EveryStateIsInv` | lib/ipc.c:26-193 | so it holds in every state of every run, in any interleaving |
| `Ipc.ReadyMeansWaiting` | lib/ipc.c:26-35 | a ready bit is set only while that client waits for that server with its whole request in its output box |
| `Ipc.HandledOnce` | lib/ipc.c:117-150 | every request is read by its server exactly once, in order, as it was sent |
| `Ipc.RepliesComplete` | lib/ipc.c:58-91 | a returned msg_receive has seen the whole reply to its own request |
| `Ipc.ScanFinds` | lib/ipc.c:129-143 | a server that saw a non-zero bitmap finds the client it belongs to |
| `Ipc.KeepsPublish` | lib/ipc.c:189-191 | publishing the number, the last store of msg_reply, keeps the invariant: the box holds the whole reply by then |
| `Ipc.KeepsStoreReady` | lib/ipc.c:30-34 | setting the ready bit, the last store of msg_send, keeps the invariant: the output box holds the whole request by then |
| `BitSteps.StoreJoinsIff` | lib/bitmap.c:4-13 | with set_bit and clear_bit as a load and a store: the store leaves what the joined step would leave if and only if the other bits of the word are as they were loaded |
| `BitSteps.NotOvertaken` | lib/bitmap.c:4-13 | which is so when nobody else stores into that word between the two |
| `BitSteps.JoinRun` | lib/ipc.c:26-193 | a run with the halves apart, in which every store meets that condition, reaches what some run with joined steps reaches |
| `BitSteps.UndisturbedHandledOnce` | lib/ipc.c:117-150 | so then every request is read exactly once, in order, as it was sent |
| `BitSteps.ReadTwice` | lib/ipc.c:129-143 | otherwise not: a run from the start in which one core's store brings back the bit the server has just cleared, and the server reads one request twice |
| `Channel.StepKeeps` | lib/channel.c:35-128 | every load or store of the driver or of a client keeps the channel invariant |
| `Channel.EveryStateIsInv` | lib/channel.c:35-128 | so it holds in every state of every run |
| `Channel.NeverBothReady` | lib/channel.c:35-43 | ready_send and ready_reply are never both set, and either only while the client waits |
| `Channel.ConsumedOnceAnsweredOnce` | lib/channel.c:95-128 | every request is consumed exactly once, and the client reads the result of its own request |
| `Channel.ServedBeforeAnyTwice` | lib/channel.c:54-92 | a pending channel is served before any other channel is served twice |
| `Channel.KeepsLookNext` | lib/channel.c:62-83 | moving the rotating index keeps the invariant: whoever was served since a request became pending comes up after it |
| `ChannelClose.StepKeeps` | vms/pm/main.c:254-364 | every action of FS, PM, clients and drivers keeps the close invariant, but for taking the last channel out of a full list |
| `ChannelClose.InvIsSafe` | drivers/keyboard/main.c:20-32 | the invariant implies that no driver touches, or finds in its list, a page that is not its own live channel |
| `ChannelClose.CloseIsSafe` | vms/fs/main.c:299-345 | in every interleaving in which the last channel of a full list is never closed, no driver touches or finds a removed or freed channel, and a driver is blocked in msg_receive(FS) whenever PM compacts its list or frees one of its pages |
| `ChannelClose.UncleanIsUnsafe` | vms/pm/main.c:254-290 | a run that does close it can go on, from that very removal, to a driver that finds a freed page: so closing is safe exactly when that does not happen |
| `ChannelClose.StuckIsUnsafe` | vms/pm/main.c:274-282 | the steps from there: the page is freed, the driver is released and wakes up |
| `ChannelClose.FullListFails` | vms/pm/main.c:254-311 | such a run from an empty system: 32 channels of the junk driver are opened and the last one is closed |
| `ChannelClose.KeepsDoCloseReply` | drivers/keyboard/main.c:20-32 | a driver answering a close request and blocking keeps the invariant: exactly one of FS, PM and a pending release holds a blocked driver |
| `ChannelClose.KeepsPmRemove` | vms/pm/main.c:254-290 | taking a channel out of a list that is not full, or another than its last, keeps the invariant: its driver is blocked |
| `ChannelClose.KeepsPmFreePage` | vms/pm/main.c:360-364 | freeing its page keeps the invariant: no driver can hold it |
| `ChannelClose.KeepsFsGo` | vms/fs/main.c:328-342 | the release by FS keeps the invariant: it goes to the very driver FS has blocked, descriptor numbers naming drivers as opening assigned them |
| `ChannelClose.KeepsPmGo` | vms/pm/main.c:771-797 | the release by PM for an exiting process keeps it too |
| `ChannelList.AddChannel` | vms/pm/main.c:293-311 | the channel is appended, or silently lost exactly when the list is full |
| `ChannelList.Compact` | vms/pm/main.c:274-282 | closing the gap keeps order and termination; in a full list the last entry stays twice |
| `ChannelList.RemoveFrom` | vms/pm/main.c:272-284 | what the loop leaves of any list, full or not |
| `ChannelList.RemoveChannel` | vms/pm/main.c:254-290 | over the lists of all cores, of any length; not found is the panic |
| `ChannelList.RemovedIff` | vms/pm/main.c:272-284 | the channel is gone if and only if it was not the last of a full list, and from a list that is not full exactly it is gone |
| `Select.StepKeeps` | lib/lwip/api/sockets.c:1088-1360 | every protected region of a selecting task or of a callback keeps the invariant |
| `Select.ReachableIsInv` | lib/lwip/api/sockets.c:1088-1360 | so it holds in every reachable state |
| `Select.NoLostWakeUp` | lib/lwip/api/sockets.c:1137-1212 | if a task sleeps in lwip_select, a watched socket has an event for it and no callback is at work on that socket, its semaphore has been signalled |
| `Select.OnlyLinkedTouched` | lib/lwip/api/sockets.c:1349-1357 | the select_cb whose next pointer a callback follows is on the list: the change counter works |
| `Select.WaitingIsCount` | lib/lwip/api/sockets.c:1152-1162 | select_waiting is the number of tasks that count the socket, so its assertions hold |
| `Select.LeftoverDoesNotWake` | lib/lwip/api/sockets.c:1056-1059 | data another task's recv leaves over makes a socket ready for a scan but wakes nobody |
| `Select.LimitsHold` | lib/lwip/api/sockets.c:1105-1112 | a select with a timeout of zero is never on the list and never sleeps; one without a timeout never times out |
| `Select.SelectList.Link` | lib/lwip/api/sockets.c:1139-1146 | the select_cb is put on top of the doubly linked list |
| `Select.SelectList.Unlink` | lib/lwip/api/sockets.c:1197-1210 | it is taken out wherever it is, the others keep their order and links |
| `Select.NextIsRest` | lib/lwip/api/sockets.c:1322-1322 | following next visits exactly the entries behind |
| `Select.KeepsContinue` | lib/lwip/api/sockets.c:1349-1357 | one more region of a callback, which starts again when the list has changed, keeps the invariant: nobody it still has to look at is missed |
| `StreamReceive.CopyPartial` | lib/lwip/core/pbuf.c:921-956 | walking the pbuf chain copies what a flat copy would |
| `StreamReceive.StreamSocket.CopyOut` | lib/lwip/api/sockets.c:628-724 | bytes are taken off the front of what is unread, and lastdata and lastoffset stand for exactly the rest |
| `StreamReceive.StreamSocket.Recv` | lib/lwip/api/sockets.c:557-739 | the segments read are the first of those waiting or arriving, one per turn; the bytes returned are the rest of the first and all of the others up to the size; the call ends in the first turn with a reason to, and the reason gives the result; the window update is the number of bytes, peeked ones included |
| `StreamReceive.OneOutcome` | lib/lwip/api/sockets.c:557-739 | result and bytes follow from what the call finds and what arrives while it runs: no other outcome is explained |
| `StreamReceive.Progress` | lib/lwip/api/sockets.c:576-660 | a call that may wait, has room and finds bytes returns some |
| `StreamReceive.Session` | lib/lwip/api/sockets.c:557-739 | over any sequence of calls, sizes and arrivals what arrived is what the calls returned, in order, followed by what is unread; every call is explained by what it found; netconn_recved was told the bytes returned and those peeked at |
| `NetconnWrite.Conn.WriteMore` | lib/lwip/api/api_msg.c:1207-1333 | one more chunk of exactly the permitted size is accepted, or the write completes once, exactly when it should, with the right error; whether it may block is asked at every call; a completed write leaves an offset behind exactly when it was cut short after some progress |
| `NetconnWrite.Conn.DoWrite` | lib/lwip/api/api_msg.c:1343-1389 | every request is completed or being written; the assertion that no offset is left over fails exactly when a write is started and the last one started was cut short by a timeout or an error after some progress |
| `NetconnWrite.Conn.Resume` | lib/lwip/api/api_msg.c:277-332 | sent_tcp and poll_tcp carry on a write, with the offset that follows, and do nothing otherwise |
| `NetconnWrite.Conn.ErrTcp` | lib/lwip/api/api_msg.c:347-404 | a write in progress is completed with the error, exactly once |
| `NetconnWrite.Session` | lib/lwip/api/api_msg.c:1207-1389 | over any interleaving the requests are those completed, each exactly once, and at most one being written; accepted bytes are a prefix of the data, a write that ends well has passed at least one byte and, unless its last call timed out or might not block, all of them; if no call finds the connection non-blocking then only requests that asked for it are not waited for; and none is told that the connection is lost unless it is |
| `NetconnWrite.LeavesOffset` | lib/lwip/api/api_msg.c:1224-1234 | two bytes, one accepted, a timeout: the next write finds the assertion violated |
| `NetconnWrite.Switched` | lib/lwip/api/api_msg.c:1215-1216 | a caller that waits for three bytes is told, without an error, that two were written: the connection was made non-blocking in between |
| `NetconnWrite.Conn.WriteChunk` | lib/lwip/api/api_msg.c:1208-1307 | what one call accepts, whether that finishes the write, and with what |
| `NetconnWrite.CutShortAppend` | lib/lwip/api/api_msg.c:1354-1358 | how the last started write decides, request by request |
| `MemPool.MeetsOrEnds` | lib/lwip/core/memp.c:189-195 | on any linked structure, cyclic or not, the two pointers meet or the fast one reaches the end |
| `MemPool.RepeatIsCyclic` | lib/lwip/core/memp.c:191-193 | pointers that meet are on a circle |
| `MemPool.ListIsSane` | lib/lwip/core/memp.c:187-196 | the check of one list of pointers terminates and is right, whatever the elements off that list hold |
| `MemPool.Sanity` | lib/lwip/core/memp.c:182-199 | memp_sanity terminates on every structure and returns 1 exactly when every free list is acyclic |
| `MemPool.PushIsSaneIff` | lib/lwip/core/memp.c:460-465 | pushing an element keeps a list acyclic if and only if the element was not on it |
| `MemPool.BuildPool` | lib/lwip/core/memp.c:352-368 | all elements of a pool are on its list |
| `MemPool.Pools.constructor` | lib/lwip/core/memp.c:338-375 | after memp_init every element of every pool is free |
| `MemPool.Pools.Malloc` | lib/lwip/core/memp.c:388-426 | null exactly when every element is handed out, else an element nobody has |
| `MemPool.Pools.Free` | lib/lwip/core/memp.c:435-468 | a handed-out element goes back, free plus handed out stays the pool size; the sanity assertion holds exactly then, and finds every element freed twice |
| `MemPool.Pools.Write` | lib/lwip/core/memp.c:100-110 | the holder of an element writes what it likes over its pointer, and no free list changes |
| `MemPool.FreeOrUsed` | lib/lwip/core/memp.c:352-368 | every element of a pool is free or handed out, and not both |
| `MemPool.PushedTwice` | lib/lwip/core/memp.c:460-465 | freeing a free element closes its list to a circle |
| `DnsTable.TickCounts` | lib/lwip/core/dns.c:661-694 | every timer tick takes one off the ticks left, and the last one is the timeout |
| `DnsTable.FlushedAfter` | lib/lwip/core/dns.c:661-694 | an unanswered request is flushed after exactly that many ticks |
| `DnsTable.SevenTicksPerServer` | lib/lwip/core/dns.c:645-651 | which is seven for every server, for a new request |
| `DnsTable.FindSlot` | lib/lwip/core/dns.c:868-897 | never a slot that waits; the oldest completed one by the 8-bit counters; none exactly when no slot is unused, slot 0 is not completed and no completed entry has a smaller counter |
| `DnsTable.LooksFull` | lib/lwip/core/dns.c:868-897 | a run from the start, of 256 answered requests and one more, after which no slot is found although three of the four hold completed entries |
| `DnsTable.Resolver.Enqueue` | lib/lwip/core/dns.c:860-914 | a waiting request never loses its slot to a later one |
| `DnsTable.Resolver.CheckEntry` | lib/lwip/core/dns.c:636-712 | a timeout calls the callback once and flushes the slot, whatever the callback asks for meanwhile; a completed entry is flushed exactly when its time to live was 1 |
| `DnsTable.Resolver.TickAll` | lib/lwip/core/dns.c:718-725 | one tick: every waiting slot makes exactly its own step or has its callback called, whatever callbacks ask for, and no request is lost |
| `DnsTable.Resolver.Drain` | lib/lwip/core/dns.c:636-725 | after seven quiet ticks per server every request has had its callback, but for the lost ones |
| `DnsTable.Resolver.Receive` | lib/lwip/core/dns.c:733-849 | an answer or error calls the callback once; exactly the requests of LostBy are lost: one a callback made on an error, if it was given the slot that is then flushed |
| `DnsTable.LosesItIff` | lib/lwip/core/dns.c:836-843 | a callback that asks once loses its request exactly when the search picks the slot about to be flushed |
| `DnsTable.LosesOne` | lib/lwip/core/dns.c:836-843 | four requests, an error for the first, and its callback asks again: request 4 is lost |
| `DnsTable.LostIsNew` | lib/lwip/core/dns.c:836-843 | only a request that this very callback made can be lost |
| `DnsTable.Resolver.HandleAll` | lib/lwip/core/dns.c:636-914 | over any interleaving of requests, ticks and messages: after seven ticks per server a request that is not lost has had its callback, and a lost one never has |
| `DnsNames.EncodeName` | lib/lwip/core/dns.c:586-602 | the encoding of every label with its length, a zero byte, and strlen + 2 bytes in all |
| `DnsNames.ParseName` | lib/lwip/core/dns.c:528-548 | stops exactly past the end of an encoded name |
| `DnsNames.CompareName` | lib/lwip/core/dns.c:493-518 | reports equal exactly when the encoded labels stand in the dotted name at their places |
| `DnsNames.MatchesIff` | lib/lwip/core/dns.c:493-518 | that is, when the bytes of the name stand in the entry, anything standing for its dots |
| `DnsNames.ReportedIff` | lib/lwip/core/dns.c:493-518 | for host names: exactly those that are not longer and have the same bytes, dots aside |
| `DnsNames.ReportedIsEqualIff` | lib/lwip/core/dns.c:493-518 | a reported equality is one exactly when the lengths agree and a dot stands for every dot, whatever stands behind the name in its entry |
| `DnsNames.RoundTrip` | lib/lwip/core/dns.c:493-602 | for every host name the three fit together, wherever the name stands in a message |
| `DnsNames.PrefixMatches` | lib/lwip/core/dns.c:493-518 | a.b compares as equal to a |
| `DnsNames.SeparatorMatches` | lib/lwip/core/dns.c:493-518 | a-b compares as equal to a.b |
| `DnsNames.StaleMatches` | lib/lwip/core/dns.c:493-518 | a, in an entry that held a-b before, compares as equal to a.b |

## Left out

- Contents of memory: fork's and exec's copying of section bytes, registers and arguments, zeroing of bss and of clean pages other than tables; only which block holds what is modelled.
- ProcessManager.Pm.Fork: the parent has no open descriptors, so that no descriptor is copied and no channel opened; failed allocations end the model's run, because the code assumes they do not happen and goes on with address 0.
- ProcessManager.Pm.Step: exec and exit by the VMs that are there from the start are not modelled.
- ProcessManager.Pm.Exec: asks that the executable's address space end below 4GB, the only part free_page_tables visits; passing arguments is not modelled beyond the check of the stack top.
- ProcessManager.Pm.Exit: without open descriptors; whether the parent waits is a parameter.
- ProcessManager.LoadElf: the loop over three program headers with its switch is written out section by section.
- waitpid, zombies and parents: no code sets the states they depend on.
- VmMapping.EptPmap: takes windows below 2^48 of less than 2^31 pages, which an int counts; the 1GB-page path ends in its panic.
- PageAllocator.Allocator.constructor: takes the layouts that leave a whole page; `InitCoversMemoryIff` says which, and that otherwise there is no page to hand out.
- Pmap.PageTables.MapMemory: a negative page count, whose loop would pass the largest int, is a stop; the walk is stated for addresses below 2^48, and the virtual start is rounded down to the page size as the index arithmetic does; the code checks the physical start only.
- TLB and EPT invalidation, memory types as caching behaviour, access and dirty bits.
- Ipc.StepKeeps: one request at a time per client and one reply per request; replies nobody asked for (PM's start-up messages, fork's reply to the child, FS messages to drivers) and msg_receive(ANY) are not modelled; set_bit and clear_bit are single steps here, and BitSteps says when that is right and what happens otherwise.
- Channel.StepKeeps: the list of channels does not change; opening and closing is the business of ChannelClose.
- ChannelClose.StepKeeps: PM's panic for a channel that no list has ends the run, as a removal that is not enabled; the single loads and stores of the two handshakes are those of Channel and Ipc; a client's data is never the close marker; the entry PM leaves in the driver's EPT is not modelled.
- Liveness and deadlock freedom among PM, FS and drivers: only safety is stated.
- Select.StepKeeps: watched sockets stay open, and the change counter is unbounded, so that 2^32 list changes within one step of a callback are not modelled.
- StreamReceive.StreamSocket.Recv: a call that would wait for ever ends, as one that finds nothing, when nothing more happens; buffers of 2^31 bytes and more, where `off` would overflow, addresses of peers, and UDP sockets.
- NetconnWrite.Conn.WriteMore: core locking, select events and the close and connect states of the callbacks; tcp_write accepts all it is given or nothing.
- MemPool.Pools.Free: an element is freed into the pool it belongs to; alignment, statistics and overflow regions are not modelled.
- DnsTable.Resolver.Receive: message parsing is reduced to what it decides; the servers do not change; sending can fail without effect, as in the code; a callback makes its requests one after the other and returns.
- DnsNames.CompareName: names as long as the buffer at most; message compression is not modelled beyond the marker test.
- boot/stage2 mappers and allocator: the same algorithms over a bump allocator.
- vmm, boot stages, interrupt controllers, PCI, network card, consoles, keyboard map, printf and string helpers, thread switching, sys_arch, DHCP, netdb, netifapi, tcpip thread, api_lib and socket options: hardware, assembly, output plumbing or wrappers that would only add easy members.
