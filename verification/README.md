# The memory and process core of the JOS kernel

A Dafny model of JOS as it stands in Lab 4, with proofs: physical pages and two-level page tables
with reference counts and a TLB, copy-on-write fork in user space, environments on several processors
under one kernel lock, and some library code (symbol search, number formatting, buffers, the ELF loader).
`dafny verify dfyconfig.toml` checks everything.

## How it is laid out

- `Mmu`, `PageTables`: words, tables and the operations of kern/pmap.c and of the address-space half of
  kern/env.c, as functions on a value `Phys`. `Inv` is the invariant, with room for a page that is off the free
  list but not yet referenced (`loose`) and for one that is counted but not yet entered (`pinned`).
- `RefCounts`, `AddressSpaces`, `Lifetime`, `LifeCycle`, `Syscalls`, `DataPages`: what each operation does to references,
  translations, free pages and the contents of mapped frames. A `Ref` is anything `pp_ref` counts; the shared kernel half
  and the self-map are not among them.
- `Tlb`, `TlbFree`, `Machine`: one processor's TLB, which may cache any translation of its directory at any
  moment, and runs of the whole.
- `Boot`, `FreeLists`, `UserMem`, `UserAccess`, `SelfMap`: page_init and boot_map_region, the linked free list, the user range
  check and how it compares with the MMU, the UVPT window.
- `Pmap`: the same operations in place, on arrays and a linked list, each proved equal to its function.
- `CowMemory`, `CowInvariant`, `CowRefinement`, `CowRuns`, `CowProgress`, `CowHandler`, `UserFork`: lib/fork.c as interleaved
  steps, its invariant, the refinement of a copying fork, that forks and faults get done, and the library routines
  run alone. `PageMaps` shows that the plain map these steps work on is what the kernel's page system calls implement, and
  `KernelFork` carries the refinement over whole runs down to page tables and the bytes of physical memory (`FrameBytes`).
- `Envs`, `EnvSafety`, `Visits`, `Scheduler`, `EnvIds` (with `Words`), `EnvTable`: one processor's visits to the kernel, each from
  lock to unlock, what holds between them, and what each does to every slot; `EnvTable` is the array, list and loops
  in place. `Zombies` has the runs that break the table.
- `Spinlock`: the lock itself, one memory access at a time: exclusion and progress.
- `Stabs`, `Numbers`, `Buffers`, `Loader`: symbol search, printnum and strtol, vsnprintf and memmove, load_icode.

Page numbers stand for page-aligned addresses; a page-table word is a frame number and twelve flag bits, and so is
a system call's `perm`, whose upper bits fall on the frame number. Counts are 16-bit and ids 32-bit, with their wrap-around.

## Where the code does not do what its comments say

- kern/syscall.c, sys_page_alloc and sys_page_map: only PTE_U and PTE_P of `perm` are checked, and page_insert stores
  `pa | perm | PTE_P`. With perm 0x1007 an even frame is allocated and counted, and its odd neighbour is mapped
  (`Syscalls.NeighbourMapped`; exactly when: `Syscalls.SysPageAllocKeeps`, `Machine.StepSafeIff`).
- kern/pmap.c, page_insert: pp_ref is a uint16_t and wraps (`Syscalls.FullCountWraps`, `RefCounts.InsertKeeps`).
- kern/pmap.c, user_mem_check: rounding wraps for ranges that reach the last page of the address space, and an empty
  range in the middle of an inaccessible page is refused (`UserMem.CheckCorrectIff`, `UserMem.WrapAccepted`,
  `UserMem.EmptyRefused`). In the UVPT window it ignores the directory's permissions (`UserAccess.WindowDisagrees`).
- kern/pmap.c, page_free: the check against double frees cannot see the last page of the list
  (`FreeLists.FreeKeepsListIff`, `FreeLists.FreedTwice`).
- lib/fork.c, duppage: the result of sharing a page is ignored, so a read-only PTE_SHARE page is not inherited
  (`CowHandler.ShareInheritedIff`, `CowHandler.SharedReadOnly`); and after a fault between its two calls parent and
  child of a page that was copy-on-write already do not share a frame, which is harmless
  (`CowRuns.DuppageInterleaved`, `CowHandler.DuppageRaces`).
- kern/env.c, env_destroy: a zombie that another processor is still on can be destroyed a second time; likewise
  sys_env_set_status and sys_ipc_try_send may force a status on a running environment (`EnvSafety.VisitKeepsIff`; runs
  that get there: `Zombies.SecondDestroy`, `Zombies.ForcedStatus`, `Zombies.ForcedBySend`).
- kern/kdebug.c, stab_binsearch: left > right says that no stab of the kind exists, not that none contains the
  address; the key that moves on a match can take the next address for a match too, and after 0xFFFFFFFF it is 0
  (`Stabs.StabBinsearch`, `Stabs.DriftExample`, `Stabs.TopExample`).
- inc/memlayout.h says the directory appears at UVPT + (UVPT >> PGSHIFT); as a byte address the shift has to be scaled by
  4, as lib/entry.S does (`SelfMap.SelfMapExact`, `SelfMap.UnscaledMisses`).

## Model

| member | source | states |
|---|---|---|
| Machine.RunsAreSafe | Lab4/Code/kern/pmap.c:355-582 | over every run of allocations, mappings, unmappings, environment creation and destruction, context switches and halts, with any 32-bit perm, in which every successful mapping call is allowed (next row): reference counts are exact, the free list holds exactly the unreferenced pages once each, tables are unshared, and no TLB entry contradicts the page tables, although the TLB fills itself at any moment |
| Machine.StepSafeIff | Lab4/Code/kern/pmap.c:489-582 | a step keeps all of that exactly if it is allowed: the call fails, or perm's bits above the twelve flags leave the frame number alone and the page's 16-bit count has room (or the page was mapped there already); the TLB stays consistent in any case |
| Machine.BootIsSafe | Lab4/Code/kern/pmap.c:235 | memory without environments, on kern_pgdir, is where those runs may start |
| RefCounts.AllocKeeps | Lab4/Code/kern/pmap.c:354-366 | page_alloc hands out an unreferenced page and leaves counts, tables and free list exact, with that page loose |
| RefCounts.WalkKeeps | Lab4/Code/kern/pmap.c:418-438 | pgdir_walk adds at most one reference, that of a fresh zeroed table by its directory slot, and fails without a change only if memory is out |
| RefCounts.InsertKeeps | Lab4/Code/kern/pmap.c:495-511 | page_insert's net effect is one reference retargeted (and a table's, if it had to be made), also when the page replaces itself; all counts are exact afterwards exactly if perm's bits above the flags leave the frame number alone and the count has room or need not change; on failure nothing has changed |
| RefCounts.RemoveKeeps | Lab4/Code/kern/pmap.c:558-570 | page_remove drops exactly one reference and frees the page exactly if that was the last |
| RefCounts.PinKeeps | Lab4/Code/kern/pmap.c:503 | between the count going up and the entry being written exactly that page carries one count too many, exactly if its 16-bit count had room |
| RefCounts.Lose | Lab4/Code/kern/pmap.c:389-394 | when one reference goes and page_decref runs, counts and free list are exact again and the count did not wrap |
| RefCounts.Gain | Lab4/Code/kern/pmap.c:430-434 | when a loose page gets its first reference and count, counts and free list are exact again |
| RefCounts.UserTable | Lab4/Code/kern/pmap.c:418-438 | a user page table is named by one directory slot and serves as nothing else |
| AddressSpaces.InsertView | Lab4/Code/kern/pmap.c:495-511 | page_insert updates the translation of exactly one page of one directory, to the word that the frame and perm make, whatever the counts; apart from the window page that shows a table it had to make, every other translation of every directory stays; a failing call changes nothing |
| AddressSpaces.RemoveView | Lab4/Code/kern/pmap.c:558-570 | page_remove deletes exactly one translation of one directory |
| AddressSpaces.WalkView | Lab4/Code/kern/pmap.c:418-438 | making a page table adds no translation but its own page in the UVPT window |
| PageMaps.MapShows | Lab4/Code/kern/syscall.c:212-252 | seen as a map from (environment, page) to entry, sys_page_map is one map update with the word that perm makes of the source's frame, whatever the counts, refuses exactly the bad sources and permissions, and out of memory changes nothing |
| PageMaps.AllocShows | Lab4/Code/kern/syscall.c:165-194 | sys_page_alloc is one map update, with a frame that no environment maps and whose every word is zero, and the word that perm makes of it |
| PageMaps.UnmapShows | Lab4/Code/kern/syscall.c:261-276 | sys_page_unmap deletes one key of the map |
| PageMaps.SetupShows | Lab4/Code/kern/env.c:172-208 | env_setup_vm adds an environment without pages to the map |
| PageMaps.FreeShows | Lab4/Code/kern/env.c:424-472 | env_free takes one environment's pages out of the map and leaves all others |
| PageMaps.StoreShows | Lab4/Code/lib/fork.c:42 | a byte stored to a mapped page changes no reference, no count and no map |
| FrameBytes.PokedBytes | Lab4/Code/lib/fork.c:42 | a frame reads as 1024 little-endian words, and a store to one of its bytes changes that byte of that frame alone |
| Syscalls.SysPageAllocKeeps | Lab4/Code/kern/syscall.c:165-194 | after a successful call every word of the page handed out is zero and no word of any mapped page has changed, and memory is sound exactly if perm's bits above the flags leave the new frame's number alone; a failing call changes at most the bytes of a free page |
| Syscalls.SysPageMapKeeps | Lab4/Code/kern/syscall.c:212-252 | maps the looked-up page with the asked permissions, never makes a read-only page writable, and on any error changes nothing; after a successful call memory is sound exactly if perm's bits above the flags leave the frame number alone and the page's count has room or it was mapped there already |
| Syscalls.SysPageUnmapKeeps | Lab4/Code/kern/syscall.c:261-276 | sys_page_unmap keeps memory sound, leaves the page unmapped and changes no byte of a page that stays mapped; -E_INVAL exactly for an address at or above UTOP or off a page boundary |
| Syscalls.SysPageAllocCodes | Lab4/Code/kern/syscall.c:165-194 | -E_INVAL exactly for an address at or above UTOP or off a page boundary or without both PTE_U and PTE_P; else -E_NO_MEM exactly if the free list is short of the page and, if it is missing, its table |
| Syscalls.SysPageMapCodes | Lab4/Code/kern/syscall.c:212-252 | -E_INVAL exactly for a bad address on either side, an unmapped source, a lack of PTE_U or PTE_P, or write access asked of a read-only source; else -E_NO_MEM exactly if a table is missing and the free list is empty |
| Syscalls.NeighbourMapped | Lab4/Code/kern/syscall.c:181-194 | perm 0x1007: the call allocates an even frame, maps its odd neighbour, and memory is no longer sound |
| Syscalls.FullCountWraps | Lab4/Code/kern/pmap.c:503 | a page with count 65535, mapped once more elsewhere: memory is no longer sound |
| RefCounts.Overflowed | Lab4/Code/kern/pmap.c:503-508 | a full count wraps to zero while its references stay |
| RefCounts.Misdirected | Lab4/Code/kern/pmap.c:508 | a stored word that names another frame leaves the counted page's count wrong |
| DataPages.InsertKeepsData | Lab4/Code/kern/pmap.c:495-511 | page_insert changes no word of any frame that an environment maps |
| DataPages.NewPageStaysZero | Lab4/Code/kern/syscall.c:184-187 | the page that page_alloc(1) cleared is still clear once page_insert has mapped it, wherever that took a table |
| DataPages.FreeKeepsData | Lab4/Code/kern/env.c:424-472 | env_free, all its loops through, changes no word of a frame that any environment maps |
| DataPages.StoreInData | Lab4/Code/lib/fork.c:42 | whatever is stored in a frame that an environment maps, no reference, no count and no translation changes |
| Lifetime.SetupKeeps | Lab4/Code/kern/env.c:172-208 | env_setup_vm keeps counts exact: the memcpy'd kernel half and the self-map slot count for nothing, the directory's own reference for one; without memory it changes nothing |
| Lifetime.SetupView | Lab4/Code/kern/env.c:172-208 | a new address space is empty below UTOP and no other translation changes |
| Lifetime.EnvFreeKeeps | Lab4/Code/kern/env.c:424-472 | env_free removes exactly the references of its environment, and leaves memory sound |
| Lifetime.EnvFreeConserves | Lab4/Code/kern/env.c:424-472 | after env_free a page is on the free list, once, exactly if every reference to it belonged to the environment; each other page's count is the number of its remaining references |
| Lifetime.EnvFreeView | Lab4/Code/kern/env.c:424-472 | env_free leaves every translation of every other directory as it was |
| LifeCycle.NothingRemains | Lab4/Code/kern/env.c:172-208 | env_alloc, then any page system calls on the new environment that fail or are proper (no stray perm bits, room in the count), then env_free: every page has the count it had before and the same pages are free, once each; an env_alloc without memory changes nothing |
| LifeCycle.FreeRestores | Lab4/Code/kern/env.c:424-472 | freeing an environment beyond which nothing changed restores every count and the free pages |
| LifeCycle.UseConfined | Lab4/Code/kern/syscall.c:165-276 | page system calls on an environment change no reference but its own, and keep memory sound exactly if they are proper |
| Lifetime.UnmapKeeps | Lab4/Code/kern/env.c:450-454 | the inner loop sheds exactly the table's entries |
| Lifetime.FreeTablesKeeps | Lab4/Code/kern/env.c:441-459 | the outer loop sheds exactly the tables and entries below UTOP |
| Tlb.RemoveCoherent | Lab4/Code/kern/pmap.c:558-582 | page_remove leaves no stale translation, although invlpg is skipped for directories other than the current one |
| Tlb.InsertCoherent | Lab4/Code/kern/pmap.c:495-511 | neither does page_insert, whatever the TLB caches after the walk, inside page_remove and after the store |
| TlbFree.EnvFreeCoherent | Lab4/Code/kern/env.c:424-472 | neither does env_free, whatever the TLB caches at any turn of its loops |
| TlbFree.StayingWouldLeaveStale | Lab4/Code/kern/env.c:431-435 | the switch to kern_pgdir is needed: a processor that stayed would keep the UVPT window's translations of freed tables |
| SelfMap.SelfMapExact | Lab4/Code/inc/memlayout.h:150-164 | uvpt[pn] reaches exactly the entry of page pn if its table is present and nothing otherwise, uvpd[i] reaches the directory entry, and the window grants no write access |
| SelfMap.WindowAddress | Lab4/Code/inc/mmu.h:29-42 | UVPT + 4*PGNUM(va) lies in the window page of va's table, at va's entry |
| SelfMap.UnscaledMisses | Lab4/Code/inc/memlayout.h:159-162 | the byte address UVPT + (UVPT >> PGSHIFT) never reaches the directory, but word 256 of the page table at slot 239, if there is one |
| Boot.InitialFree | Lab4/Code/kern/pmap.c:293-331 | page_init's list, highest page first: every page but 0, 7 (MPENTRY) and those from 160 (the IO hole) to the end of the kernel, once each |
| Boot.PageInitSound | Lab4/Code/kern/pmap.c:293-331 | page_init establishes the memory invariant |
| Boot.BootMapMaps | Lab4/Code/kern/pmap.c:451-468 | boot_map_region maps exactly its range to consecutive frames, changes no other translation of kern_pgdir, and keeps memory sound |
| Boot.BootMapTakes | Lab4/Code/kern/pmap.c:451-468 | it panics exactly if the free list is shorter than the number of directory slots without a table that the range falls under, and otherwise takes one page for each of these |
| FreeLists.FreeKeepsListIff | Lab4/Code/kern/pmap.c:372-383 | a page that passes page_free's check leaves a well-formed list exactly if it was not on the list; the check cannot see that for the last page, and pushing it closes a cycle |
| FreeLists.TailPasses | Lab4/Code/kern/pmap.c:377-382 | the last page of any list passes the check when its count is zero, and from the new head no list ends |
| FreeLists.FreedTwice | Lab4/Code/kern/pmap.c:377-382 | one free page, freed again, links to itself |
| FreeLists.PartitionKeeps | Lab4/Code/kern/pmap.c:699-712 | low pages first is a reordering: the same pages, once each |
| FreeLists.OfTypeOrdered | Lab4/Code/kern/pmap.c:699-712 | and within each class the order is kept |
| FreeLists.SplitStep | Lab4/Code/kern/pmap.c:704-708 | one turn of the pointer-to-pointer pass extends one of the two open lists by the next page, whichever class is still empty |
| FreeLists.SplitEnd | Lab4/Code/kern/pmap.c:709-711 | closing and joining the two lists gives the low pages in order, then the high ones |
| FreeLists.PushLinks | Lab4/Code/kern/pmap.c:381-382 | pushing an unlisted page |
| FreeLists.PopLinks | Lab4/Code/kern/pmap.c:358-361 | popping the first page |
| PmapModule.Pmap.PageAlloc | Lab4/Code/kern/pmap.c:354-366 | in place over the linked list: the specification function's state and result, the page at the list's head, which loses it |
| PmapModule.Pmap.PageFree | Lab4/Code/kern/pmap.c:372-383 | in place, for any page: panics exactly on a count or a link; pushing an unlisted page is the specification function; a listed page that passes is left as the head of a chain that never ends |
| PmapModule.Pmap.PageDecref | Lab4/Code/kern/pmap.c:389-394 | in place, in 16 bits, for any page: the specification function, unless the page is listed and its last count goes, where page_free panics or closes a cycle |
| PmapModule.Pmap.PgdirWalk | Lab4/Code/kern/pmap.c:418-438 | in place, for any directory frame and any address: new tables are counted and entered in the directory |
| PmapModule.Pmap.PageLookup | Lab4/Code/kern/pmap.c:524-541 | the mapped page and the table that holds its entry |
| PmapModule.Pmap.PageInsert | Lab4/Code/kern/pmap.c:495-511 | in place, for any perm and count; the invariant holds afterwards exactly if the arguments fit |
| PmapModule.Pmap.PageRemove | Lab4/Code/kern/pmap.c:558-570 | in place, wherever the tables are in order and the mapped page is not on the free list |
| PmapModule.Pmap.EnvSetupVm | Lab4/Code/kern/env.c:172-208 | in place |
| PmapModule.Pmap.EnvFree | Lab4/Code/kern/env.c:424-465 | both loops in place, keeping the invariant at every turn |
| PmapModule.Pmap.SysPageAlloc | Lab4/Code/kern/syscall.c:165-194 | in place: the page it maps is the one that headed the free list, and every word of it is zero; given back when page_insert fails |
| PmapModule.Pmap.SysPageMap | Lab4/Code/kern/syscall.c:212-252 | in place, with the checks in the source's order |
| PmapModule.Pmap.SysPageUnmap | Lab4/Code/kern/syscall.c:261-276 | in place |
| PmapModule.Pmap.PageInit | Lab4/Code/kern/pmap.c:293-331 | the loop over the page array; the invariant holds afterwards |
| PmapModule.Pmap.BootMapRegion | Lab4/Code/kern/pmap.c:451-468 | the loop over pages on kern_pgdir; false where it panics |
| PmapModule.Pmap.LowPagesFirst | Lab4/Code/kern/pmap.c:699-712 | the in-place partition through two tail pointers: low pages in their order, then high pages in theirs, counts untouched |
| PmapModule.Pmap.UserMemCheck | Lab4/Code/kern/pmap.c:644-661 | the loop: the specification's answer and recorded address |
| UserMem.CheckExact | Lab4/Code/kern/pmap.c:644-661 | without wrap-around the check of a range with bytes succeeds exactly if every byte is accessible, and otherwise records the first inaccessible byte; of an empty range it passes exactly those that begin a page or lie in an accessible one |
| UserMem.CheckCorrectIff | Lab4/Code/kern/pmap.c:644-661 | for all 32-bit va and len, zero included, the answer is right exactly if: the range is empty and va begins a page, lies in an accessible page or in the last page of the address space; or the range has bytes and does not wrap; or it wraps, its end rounds up to a page after va's, and va's page is inaccessible |
| UserMem.WrapAccepted | Lab4/Code/kern/pmap.c:644-661 | a range that wraps past zero is accepted without a look at any page |
| UserMem.WrappedRange | Lab4/Code/kern/pmap.c:644-661 | a wrapping range is looked at for one page at most: it passes exactly if its end rounds up to va's page or below, or va's page is accessible |
| UserMem.EmptyRefused | Lab4/Code/kern/pmap.c:644-661 | the empty range at address 1, with page 0 unmapped, is refused |
| UserAccess.CheckAgrees | Lab4/Code/kern/pmap.c:644-661 | outside the UVPT window, for any of the present, write and user bits, a page passes the check exactly if it is below ULIM and the MMU grants that access, as every directory slot carries those bits |
| UserAccess.RunsAgree | Lab4/Code/kern/pmap.c:418-661 | so the check agrees with the MMU in every state of every allowed run |
| UserAccess.StepWide | Lab4/Code/kern/pmap.c:418-438 | no step of any run narrows a directory slot |
| UserAccess.WindowDisagrees | Lab4/Code/kern/pmap.c:644-661 | in the UVPT window the check passes a writable user page table for PTE_W, which the MMU lets nobody write |
| UserAccess.BootWide | Lab4/Code/kern/pmap.c:293-331 | page_init leaves no narrow directory slot |
| UserAccess.BootMapWide | Lab4/Code/kern/pmap.c:451-468 | nor does boot_map_region |
| CowInvariant.StepKeeps | Lab4/Code/lib/fork.c:14-135 | every step of fork, duppage, pgfault and plain stores, of any number of environments in any interleaving, keeps: a frame mapped writable and private has one mapping, apart from PFTEMP inside pgfault and a child's page inside duppage; shared frames stay shared; an unfinished copy equals its source so far |
| CowInvariant.SoleWriter | Lab4/Code/lib/fork.c:62-83 | the frame a permitted private store changes is behind no page that anybody else can see |
| CowRefinement.StepRefines | Lab4/Code/lib/fork.c:14-135 | each step is a step of a machine in which fork copies every page |
| CowRuns.RunRefines | Lab4/Code/lib/fork.c:14-135 | over every run, every running environment reads in every page what the copying machine has there |
| CowRuns.ForkCopies | Lab4/Code/lib/fork.c:101-135 | whatever anyone does while a fork runs: in each page the parent does not write itself, the child starts with what the parent had when it called fork, and the parent has it still |
| CowRuns.ForkCopiesAt | Lab4/Code/lib/fork.c:101-135 | in every page, written by the parent meanwhile or not, the child of a finished fork starts with what the parent saw at the one step that settled the page |
| CowRuns.DuppageInterleaved | Lab4/Code/lib/fork.c:62-83 | with any stores and faults between duppage's two calls both sides end copy-on-write; they share one frame exactly if the page was writable at the first call or the parent's handler did not replace it in between |
| CowRuns.HalfFrames | Lab4/Code/lib/fork.c:73-78 | between the calls, parent and child show one frame exactly while the parent may write to both or not at all |
| CowProgress.Finishes | Lab4/Code/lib/fork.c:14-135 | no run gets stuck: whatever state the others have brought about, an environment inside fork or pgfault that takes steps alone is out of both, within two steps a page and 4099 for a fault |
| CowProgress.BoundedWork | Lab4/Code/lib/fork.c:14-135 | over every run an environment spends at most that many of its own steps in fork and pgfault for each fork and fault it began, whatever the others do in between |
| CowProgress.StoreGoesIff | Lab4/Code/lib/fork.c:26-30 | outside pgfault a store goes through, at once or by way of pgfault, exactly where the environment's page in the copying machine is writable or shared |
| CowHandler.ReversedLeaks | Lab4/Code/lib/fork.c:73-78 | with the two calls in the other order, a fault in between leaves the parent writing to the child's frame |
| CowHandler.ShareInheritedIff | Lab4/Code/lib/fork.c:70-72 | a PTE_SHARE page reaches the child exactly if the parent may write to it, as the refused sys_page_map is ignored |
| CowHandler.FaultEnds | Lab4/Code/lib/fork.c:14-49 | pgfault's steps add up to one private writable copy |
| CowHandler.RacedDuppage | Lab4/Code/lib/fork.c:73-78 | whenever fork comes to a page that is copy-on-write already, a fault between the two calls is possible and puts parent and child on different frames |
| CowHandler.DuppageRaces | Lab4/Code/lib/fork.c:62-83 | such a run in full, from one environment with one page |
| CowHandler.SharedReadOnly | Lab4/Code/lib/fork.c:70-72 | a page mapped PTE_SHARE and read-only, which sys_page_map allows, does not reach the child |
| CowHandler.PrivateStart | Lab4/Code/lib/fork.c:101-135 | the invariant holds wherever no two pages share a frame and nobody forks or faults |
| KernelFork.HostRefines | Lab4/Code/lib/fork.c:14-135 | down to page tables, counts and the bytes of physical memory: over every run of the library on the kernel, while memory and counts suffice, every running environment reads in every user page, through its page tables and from the frame they name, what the copying machine has there; memory is sound throughout |
| KernelFork.RunShows | Lab4/Code/lib/fork.c:14-135 | every run on the kernel is a run of the fork machine: at each step the page tables hold its map, and every mapped frame of physical memory its page's bytes |
| KernelFork.StepShows | Lab4/Code/kern/syscall.c:165-276 | each step's system call, store or copied byte does on two-level tables and on physical memory what the step does on the plain map and its contents; a page from sys_page_alloc reads as zeros because its words are |
| KernelFork.LoadedStart | Lab4/Code/kern/env.c:341-398 | such runs may begin with one environment as load_icode leaves it, and it reads the bytes that were loaded |
| KernelFork.StepExists | Lab4/Code/kern/syscall.c:165-276 | where two frames are free and counts have room, the kernel can take every step that the fork machine allows |
| UserFork.Library.Pgfault | Lab4/Code/lib/fork.c:14-49 | run alone: one private copy, and no environment sees a difference |
| UserFork.Library.Duppage | Lab4/Code/lib/fork.c:62-83 | run alone: exactly one turn of the step machine's loop |
| UserFork.Library.Fork | Lab4/Code/lib/fork.c:101-135 | run alone: the child sees in every page below USTACKTOP what the parent saw, has its own zeroed exception stack and may run; nobody else sees a difference |
| EnvSafety.VisitKeepsIff | Lab4/Code/kern/trap.c:275-333 | every visit of a processor to the kernel leaves the table in order (distinct current environments, each running or dying; running and dying ones current on one processor; the free list exactly the free slots) exactly if it does not reach into an environment another processor is on: a second env_destroy of a zombie, or a status forced on it by sys_env_set_status or sys_ipc_try_send |
| EnvSafety.RunsKeep | Lab4/Code/kern/trap.c:275-333 | so it stays in order over every run of such visits, by any number of processors |
| EnvSafety.RunsFromBoot | Lab4/Code/kern/env.c:117-140 | the same from env_init and any number of env_create on; and the first visit that reaches elsewhere breaks the order |
| EnvSafety.CreateKeeps | Lab4/Code/kern/env.c:409-419 | env_create at boot keeps the table in order and puts nobody on a processor |
| Zombies.SecondDestroy | Lab4/Code/kern/env.c:479-496 | a run from env_init: the child is destroyed by its parent while processor 1 is on it, and destroying it again breaks the order |
| Zombies.ForcedStatus | Lab4/Code/kern/syscall.c:107-125 | a run from env_init: sys_env_set_status on a child that runs on processor 1 breaks the order |
| Zombies.ForcedBySend | Lab4/Code/kern/syscall.c:317-366 | a run from env_init: so does sys_ipc_try_send to a child that was made runnable while it waited |
| EnvSafety.ReachBreaks | Lab4/Code/kern/env.c:479-496 | each such reach leaves another processor on an environment that is neither running nor dying |
| EnvSafety.RunKeeps | Lab4/Code/kern/env.c:528-556 | env_run: the environment that was running here is ENV_RUNNABLE, the new one is running, on this processor only, and every other status is as before |
| EnvSafety.YieldKeeps | Lab4/Code/kern/sched.c:11-49 | sched_yield never picks an environment of another processor |
| EnvSafety.HaltKeeps | Lab4/Code/kern/sched.c:54-97 | sched_halt drops the current environment, or finds nothing to run and stays in the monitor |
| EnvSafety.FreeKeeps | Lab4/Code/kern/env.c:466-471 | env_free puts the slot on the list once |
| EnvSafety.AllocKeeps | Lab4/Code/kern/env.c:218-281 | env_alloc takes a free slot, or changes nothing: -E_NO_FREE_ENV exactly if no slot is free, else -E_NO_MEM exactly without memory |
| EnvSafety.InitKeeps | Lab4/Code/kern/env.c:117-140 | env_init's table is in order and its first free slot is slot 0 |
| Visits.EnvOfIff | Lab4/Code/kern/env.c:74-109 | envid 0 is the caller; any other id is accepted exactly for the environment that has it, in the slot its low ten bits name, and with checkperm only if that is the caller or its parent is the caller |
| Visits.VisitIs | Lab4/Code/kern/trap.c:275-333 | every visit, slot by slot: the event writes the records that are listed for it, and then either nothing more happens or one runnable environment takes the place of the one the processor was on, which is runnable if it was running; no other record changes |
| Visits.NobodyLost | Lab4/Code/kern/sched.c:11-49 | a yield, or a trap that touches no environment, leaves exactly the same environments running or runnable; after any other event, scheduling adds and loses none |
| Visits.RunLosesNobody | Lab4/Code/kern/sched.c:11-49 | so over every run of such visits on any number of processors |
| Visits.PreemptedWaits | Lab4/Code/kern/env.c:545-556 | after a yield that changes curenv the environment left behind is ENV_RUNNABLE, the one picked was, and no third record has changed |
| Visits.OthersReturn | Lab4/Code/kern/trap.c:323-333 | a trap that touches no environment returns to the one it came from and changes nothing |
| Visits.StuckIff | Lab4/Code/kern/sched.c:54-71 | a visit ends in the monitor exactly if it leaves no environment running, runnable or dying |
| Visits.DestroyOutcome | Lab4/Code/kern/env.c:479-496 | an environment that the caller may destroy is dying if it runs on another processor, and otherwise free, with its slot first on the list; every other slot is as before, except that a caller who ends itself makes room for a runnable one |
| Visits.FatalOutcome | Lab4/Code/kern/env.c:479-496 | a fault frees the slot of the environment it came from, and only makes room besides |
| Visits.StrangersRefused | Lab4/Code/kern/env.c:102-104 | sys_env_destroy and sys_env_set_status on an id that is neither the caller's nor of a child of its change nothing at all |
| Visits.Isolation | Lab4/Code/kern/env.c:74-109 | no event but a message changes any part of the record of an environment that is neither the caller nor its child nor the one the processor runs next |
| Visits.ExoforkOutcome | Lab4/Code/kern/syscall.c:79-97 | the new environment is in the first free slot, not runnable, with the caller for parent and a new id; without a slot or memory nothing changes |
| Visits.SetStatusOutcome | Lab4/Code/kern/syscall.c:107-125 | a child has the status asked for, and nothing else changes |
| Visits.ReceiveOutcome | Lab4/Code/kern/syscall.c:369-383 | the caller waits, not runnable, and only makes room besides |
| Visits.SendOutcome | Lab4/Code/kern/syscall.c:317-356 | an environment that is receiving is runnable, and receiving no more; any other is as before |
| Envs.Scan | Lab4/Code/kern/sched.c:36-41 | the scan finds a runnable slot, or there is none among the turns left |
| EnvTableModule.EnvTable.EnvInit | Lab4/Code/kern/env.c:117-140 | the loop links all slots in order |
| EnvTableModule.EnvTable.EnvAlloc | Lab4/Code/kern/env.c:218-281 | in place over the linked list, with the generation stamp in 32 bits and both error codes |
| EnvTableModule.EnvTable.EnvFree | Lab4/Code/kern/env.c:466-471 | in place |
| EnvTableModule.EnvTable.EnvOf | Lab4/Code/kern/env.c:74-109 | in place: accepted exactly as Visits.EnvOfIff says, with the parent test on the records in the array |
| EnvTableModule.EnvTable.EnvRun | Lab4/Code/kern/env.c:528-556 | in place; the environment that was running on this processor is ENV_RUNNABLE afterwards |
| EnvTableModule.EnvTable.SchedYield | Lab4/Code/kern/sched.c:11-49 | the circular loop, then the fallbacks |
| EnvTableModule.EnvTable.SchedHalt | Lab4/Code/kern/sched.c:54-97 | the loop that looks for anything left to run |
| EnvTableModule.EnvTable.EnvDestroy | Lab4/Code/kern/env.c:479-496 | in place; dying or free, as the environment ran elsewhere or not |
| EnvTableModule.EnvTable.Trap | Lab4/Code/kern/trap.c:275-333 | a whole visit in place; the table stays in order exactly if the visit does not reach into another processor's environment |
| EnvTableModule.EnvTable.Dispatch | Lab4/Code/kern/syscall.c:51-125 | the environment system calls in place |
| Scheduler.BoundedWaiting | Lab4/Code/kern/sched.c:32-45 | an environment that stays runnable is chosen within its circular distance plus one of the processor's yields, so within NENV, whatever else changes in between |
| Scheduler.RunWaiting | Lab4/Code/kern/sched.c:32-45 | so in every run of the whole kernel without reaches, for a processor whose other calls return to the environment they came from |
| Scheduler.YieldsInRun | Lab4/Code/kern/sched.c:11-49 | at each of its yields such a processor is on the environment its last yield chose, whatever other processors do |
| Scheduler.YieldPicks | Lab4/Code/kern/sched.c:32-45 | each yield runs an environment no later in circular order, and gets nearer |
| Scheduler.ScanNearest | Lab4/Code/kern/sched.c:36-41 | the scan stops at the runnable slot nearest in circular order |
| Scheduler.NullRestarts | Lab4/Code/kern/sched.c:32-35 | without a current environment the lowest runnable slot goes first every time |
| EnvIds.IdClosedForm | Lab4/Code/kern/env.c:232-236 | the n-th id issued for a slot, with 32-bit wrap and the reset of non-positive generations |
| EnvIds.IdWellFormed | Lab4/Code/kern/env.c:232-236 | ids are positive and their low ten bits are the slot |
| EnvIds.ReissuedIff | Lab4/Code/kern/env.c:232-236 | two allocations issue the same id exactly if they are of one slot, a multiple of 2^19 - 1 allocations apart |
| Scheduler.AcceptedIff | Lab4/Code/kern/env.c:74-109 | permissions aside, envid2env accepts the m-th id of a slot exactly while the slot is in use and a whole number of turns further; within fewer than 2^19 - 1 allocations only for the environment it was issued to |
| Scheduler.RunCounts | Lab4/Code/kern/env.c:218-281 | over every run, in order or not, the ids in the table are those the allocation counts say |
| Spinlock.RunsAreExclusive | Lab4/Code/kern/spinlock.c:39-116 | with every read, write and xchg a step of its own, for any number of processors: at most one is between acquire and release, lk->cpu is null or the holder, and neither debug panic fires |
| Spinlock.StepKeeps | Lab4/Code/kern/spinlock.c:58-116 | every step keeps that |
| Spinlock.HoldingExact | Lab4/Code/kern/spinlock.c:39-43 | holding() tells each processor exactly whether it is the one between the two writes of lk->cpu |
| Spinlock.HoldingStable | Lab4/Code/kern/spinlock.c:39-43 | no step of another processor changes what either of its reads says |
| Spinlock.AcquiresAlone | Lab4/Code/kern/spinlock.c:58-79 | from any reachable state in which nobody is between acquire and release, a processor outside is inside after five steps of its own, with the lock taken in its name |
| Spinlock.ReleasesAlone | Lab4/Code/kern/spinlock.c:82-116 | from inside it is outside after six, with the lock as spin_initlock left it |
| Spinlock.SpinnerTakesIff | Lab4/Code/kern/spinlock.c:71-72 | in every reachable state the xchg of a spinning processor takes the lock exactly if nobody holds it, and else changes nothing |
| Spinlock.HolderReleases | Lab4/Code/kern/spinlock.c:58-116 | in every run, however the steps interleave, a holder that takes at most eight of its own has freed the lock on the way |
| Spinlock.Handoff | Lab4/Code/kern/spinlock.c:71-72 | from any reachable state with a processor spinning and another holding, the holder's steps and then one of the spinner's hand it the lock |
| Spinlock.LockPanicsIff | Lab4/Code/kern/spinlock.c:61-64 | in any state at all spin_lock panics exactly on the processor that holding() names, and otherwise goes on to spin |
| Spinlock.UnlockPanicsIff | Lab4/Code/kern/spinlock.c:85-104 | and spin_unlock exactly on every other |
| Stabs.StabBinsearch | Lab4/Code/kern/kdebug.c:58-103 | ends for every input; left > right exactly if the range holds no stab of the kind; for ordered addresses with one at or below addr, the result brackets addr exactly if the input is reliable: the moving key meets no stab at 0xFFFFFFFF and does not drift, or it meets one, wraps to 0, and just before that stab stands one of the kind at or below addr, with addr below 0xFFFFFFFF |
| Stabs.NoDrift | Lab4/Code/kern/kdebug.c:81-88 | no drift if no stab of the kind equals addr, or none equals addr + 1 |
| Stabs.DriftExample | Lab4/Code/kern/kdebug.c:81-88 | both can be present, with drift and without |
| Stabs.ReliableUnless | Lab4/Code/kern/kdebug.c:81-88 | reliable if, besides, none of the kind lies at 0xFFFFFFFF |
| Stabs.TopExample | Lab4/Code/kern/kdebug.c:81-88 | one stab at 0xFFFFFFFF, searched for: the key wraps and the answer is wrong |
| Stabs.ToppedBrackets | Lab4/Code/kern/kdebug.c:92-101 | after a match at 0xFFFFFFFF the search ends just before it |
| Stabs.EqualNarrows | Lab4/Code/kern/kdebug.c:81-88 | an exact match moves the left bound and the key, and decides whether the search drifts |
| Stabs.NarrowedBrackets | Lab4/Code/kern/kdebug.c:92-101 | what the final scan makes of the search |
| Numbers.PrintNumPads | Lab4/Code/lib/printfmt.c:37-54 | printnum emits the padding up to the width and then the digits: max(width, digit count) characters |
| Numbers.PlainDigits | Lab4/Code/lib/printfmt.c:37-54 | the digits are in lower case and begin with a zero only for the number zero |
| Numbers.RoundTrip | Lab4/Code/lib/string.c:239-284 | strtol reads back all of printnum's output in the same base, for blank, zero or no padding, and gets the number's low 32 bits |
| Numbers.RecoversIff | Lab4/Code/lib/string.c:239-284 | so it recovers the number exactly if that is below 2^31 |
| Numbers.DigitValues | Lab4/Code/lib/string.c:261-268 | letters of either case are the digits from ten on, and nothing else is a digit |
| Numbers.StrtolReads | Lab4/Code/lib/string.c:239-284 | on any text made of blanks, a sign, a prefix, digits and something that is no digit: 0x is a prefix in base 16 or 0, 0 is one in base 0, base 0 is otherwise decimal; the result is the digits' positional value in 32 bits, negated behind a minus sign, and endptr the first character after the digits |
| Numbers.Strtol | Lab4/Code/lib/string.c:239-284 | the loops compute the specification's value and end |
| Buffers.SprintBuf.Putch | Lab4/Code/lib/printfmt.c:263-269 | memory holds the output clipped to the room, cnt all of it |
| Buffers.SprintBuf.PrintNumber | Lab4/Code/lib/printfmt.c:37-54 | printnum through sprintputch |
| Buffers.Vsnprintf | Lab4/Code/lib/printfmt.c:271-286 | the NUL-terminated prefix of n - 1 characters is left, the full length returned, and nothing outside the n characters written; -E_INVAL for n < 1 or a NULL buffer |
| Buffers.Memmove | Lab4/Code/lib/string.c:187-205 | the target holds what the source held, for any overlap, and nothing else changes |
| Loader.LoadIcode | Lab4/Code/kern/env.c:341-398 | for a new environment, if the loadable segments and the stack page share no page and lie below UTOP: in physical memory, through the environment's page tables, every segment's file bytes followed by zeros, in user-writable pages with frames of their own, not a byte of anybody else's pages changed and memory sound; it succeeds exactly if the free list holds a frame for each page of a segment, one for the stack, and one for each directory slot that these pages fall under |
| Loader.LoadSegment | Lab4/Code/kern/env.c:372-382 | one segment, with the frames for its pages and missing tables |
| Loader.RegionAlloc | Lab4/Code/kern/env.c:290-316 | user-writable pages from va rounded down to va + len rounded up; succeeds exactly if the free list holds a frame for each and one for each missing table |
| Loader.RegionStep | Lab4/Code/kern/env.c:309-315 | one turn: page_alloc and page_insert fail exactly if the list cannot give the page and, if missing, its table |
| Loader.NewEnvironmentReady | Lab4/Code/kern/env.c:172-208 | env_setup_vm leaves an environment as load_icode wants it |

## Left out

- Loader.LoadIcode: the ELF magic number, the entry point and the CR3 switches are not modelled.
- Loader.RegionAlloc: works on values, with the same page_alloc and page_insert that `Pmap` has in place.
- KernelFork.HostRefines: covers runs in which no system call of the library runs out of memory and no count of a page it
  maps overflows; environments are on one machine state, without the TLB.
- TLB shootdown between processors, accessed and dirty bits, paging-structure caches, memory ordering beyond xchg.
- The spin lock as a class: its fields change between any two accesses of other processors, so it is a step machine.
  That a visit to the kernel is atomic for the table rests on the lock's mutual exclusion, proved there.
- lib/fork.c: running out of memory (it panics; in the step machine the environment may exit at any point), the
  assembly of the fault entry, and environments that map pages into each other by other means.
- env_create's panic when env_alloc fails, and the copying of environments' registers, env_runs, env_type, env_cpunum and the IPC value and page.
- Interrupt and trap entry, trap frames, and system calls that touch neither memory nor environments.
- Drivers, boot code, the other labs' copies of these files, mmio_map_region, the console, vprintfmt's directives,
  the monitor and the kernel's self-tests other than the list partition.
