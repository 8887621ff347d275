# JOS and its companions, verified

A Dafny model of the lab 4 JOS kernel and its user library, and of three programs that come with them:
the shell of homework 1, the hash table of the multithreading homework, and `strtol` of lab 3. What the C
code updates in place is a class whose methods update it in place, each proved against a function on
values; the theorems are about those functions and about every run of them.

## Files

- `Mmu`, `Phys`, `Vm`: page-table entries, the free list threaded through `struct PageInfo`, reference
  counts, two-level page tables; `pgdir_walk`, `page_insert`, `page_remove`. `Phys.Inv` is the invariant of
  all of it. `Xlate` is what a page directory means: the entry behind each virtual page below UTOP.
- `Syscalls`, `EnvVm`, `Lifetime`, `Conservation`, `Held`, `PageRuns`: the page system calls, `env_setup_vm`,
  `env_free`, and runs of them, for one environment and for all together.
- `Cow`, `Refine`, `ForkRoom`, `Loading`: user-level copy-on-write fork; its refinement of eager copying, with
  the steps of any number of forks, loads and stores interleaved; when it goes through; and `env_create`,
  where such runs start.
- `Snapshots`, `SnapshotRuns`, `SnapshotRoom`: snapshot and resume of an address space, what the kernel may
  do in between, and the memory it takes.
- `Pmap`, `Kernel`, `Calls`: the code of pmap.c, env.c, syscall.c and fork.c in place, on the class
  `PhysMem`.
- `BootMap`: the kernel's own mappings with 4 KB and with 4 MB pages, in place, and what `mem_init` makes of
  them.
- `EnvIds`, `Sched`, `Smp`, `Effects`, `Traps`, `Ipc`, `RoundRobin`, `Machine`: environment ids; several CPUs
  under the big kernel lock as a state machine; its safety and the exactness of its guards; what each call
  does to the fields of `envs[]`, and whole traps; IPC and fairness; and the same code in place, on the class
  `Host`, which performs whole runs.
- `Heap`, `Malloc`: the storage allocator, in place on `ptr[]` and `size[]`.
- `Shell`, `ShellPrint`, `ShellLines`: the shell's parser, the printer that it inverts, and what becomes of
  any line. `HashTable`, `HashProgress`, `HashGets`: the threads of the hash table lose no key, all finish,
  and each get finds what was put. `Stab`, `Numbers`: the smaller pieces. `Ints` holds 32-bit wrap-around.

`Mem` carries, beside what the kernel stores, the free list as a sequence, the set of page directories, the
directory entry each page table hangs from, and *pins*: references that are in no entry (the `env_pgdir`
pointer, the extra reference of `region_alloc`, the reference `page_insert` takes first). A kernel panic, a
null dereference and an overflowing 16-bit reference count end an operation with `Halt`.

## Where the code and its comments disagree

The model follows the code; these lemmas say exactly when the comment holds.

- `sys_page_unmap` "silently succeeds" on an absent page only when no page table covers it; else it takes a
  reference from physical page 0 (`Syscalls.UnmapOfAbsentPage`). Likewise `sys_page_map` of an absent page
  maps physical page 0 unless PTE_W is asked for (`Syscalls.MapOfAbsentPage`).
- A snapshot saves the holes of existing page tables too, and resume maps them, for the kernel alone
  (`Snapshots.ResumeOfAbsentPage`).
- `sys_ipc_try_send` maps the page at the sender's address for it, whether or not the receiver asked for a
  page, and wherever it asked for it; the receiver finds it where it asked only if the two addresses are
  the same or it was there before (`SnapshotRuns.SendPageSpec`).
- `sys_env_resume` allocates all its copies first, so as not to end up in an intermediate state. The page
  tables come later, when the old address space is gone: it can still fail then, and
  `SnapshotRoom.ResumeExactly` says when. Two free pages for each page saved are always enough.
- The address space above UTOP is the kernel's but for entry 1023, which is not copied
  (`EnvVm.SetupAboveUtop`).
- `sys_page_alloc` does not test for an empty free list and drops the page when `page_insert` fails.
  `Syscalls.SysPageAllocSpec` gives the exact conditions: with a page table for the address and no free page
  the kernel dereferences a null page; without one and with fewer than two free pages the answer is
  E_NO_MEM, and a page is lost if there was one. Those pages are the one exception in
  `Lifetime.LifetimeConserves`; `Cow.PgFaultOutcome` says what it means for a page fault.
- `sys_env_set_status`, `sys_env_resume` and `env_destroy` do not look at the target's state.
  `Smp.GuardExact` says for which targets that is safe in every continuation, and `Sched.GuardedCall`, which
  the runs respect, is no stronger. `env_alloc` does not clear `env_ipc_recving`: `Smp.StaleReceiver`.
- fork copies its pages one after the other, and takes effect when it copies the stack, the last of them. A
  program that stored to a page already copied would leave its child with the old page
  (`Refine.StoreToCopied`); fork's own code stores only to the stack.
- `stab_binsearch` returns a left end greater than the right end if and only if there is no entry of the
  type at all, not whenever none contains the address. When the address is an entry and so is the next one,
  `addr++` carries the search on to the next, unless halving the table meets that one first
  (`Stab.UpperFirst`, which can be evaluated before the call) or it is the very next entry of the table and at
  the last address; at the last address itself the search wraps around, always. `Stab.BinSearch` states that
  as an if and only if, and `Stab.NeighbourFound` is a table for which the answer is wrong.
- `boot_map_superpage` maps the same range as `boot_map_region`, but the two can be told apart through the
  window at UVPT, where the page directory is its own page table: there the one shows its page tables, the
  other its superpages. `BootMap.TwoWays` says exactly where they agree, and `BootMap.KernbaseSeen` is the
  address at which the kernel's own mapping of physical memory differs.

## Model

| member | source | states |
|---|---|---|
| `Pmap.PhysMem.constructor` | lab4/jos/kern/pmap.c:355-435 | page_init threads a list of exactly the pages that are free at boot, in address order, and the page invariant holds |
| `Pmap.PhysMem.PageAlloc` | lab4/jos/kern/pmap.c:450-467 | null on an empty list, else a page that no entry refers to, zeroed on request; its panic cannot fire; the new state is that of the specification |
| `Pmap.PhysMem.PageFree` | lab4/jos/kern/pmap.c:476-489 | pushes an unreferenced page with a null link on the list |
| `Pmap.PhysMem.PageDecref` | lab4/jos/kern/pmap.c:496-500 | drops a reference and frees the page with the last one |
| `Pmap.PhysMem.PgdirWalk` | lab4/jos/kern/pmap.c:525-552 | finds or makes the page table; null only when there is none and none is wanted or no page is left; the invariant holds |
| `Pmap.PhysMem.PageLookup` | lab4/jos/kern/pmap.c:672-685 | the page behind an address whenever a page table covers it, present or not |
| `Pmap.PhysMem.PageRemove` | lab4/jos/kern/pmap.c:703-716 | clears the entry and drops its reference |
| `Pmap.PhysMem.PageInsert` | lab4/jos/kern/pmap.c:638-658 | maps the page, taking its reference before the old mapping goes; E_NO_MEM only without a page for the table |
| `Phys.FreeUnreferenced` | lab4/jos/kern/pmap.c:437-489 | a page on the free list is in no tree, named by no entry and has a zero count |
| `Phys.ClearKeeps` | lab4/jos/kern/pmap.c:687-716 | clearing an entry drops exactly that reference and frees the page if and only if it was the last |
| `Phys.PlaceKeeps` | lab4/jos/kern/pmap.c:651-655 | writing an entry turns the reference taken before into the entry's own; counts stay exact |
| `Phys.NewTableKeeps` | lab4/jos/kern/pmap.c:532-545 | a new page table adds its directory entry's reference to it and no other |
| `Vm.WalkSpec` | lab4/jos/kern/pmap.c:525-552 | pgdir_walk changes no translation, no page in use and no count but the new table's |
| `Vm.UnmapSpec` | lab4/jos/kern/pmap.c:703-716 | page_remove of a present page changes that translation alone and frees the page exactly when no other reference is left |
| `Vm.InsertSpec` | lab4/jos/kern/pmap.c:638-658 | page_insert changes that translation alone, to the page with perm and PTE_P; on failure none; it never frees the page |
| `Vm.InsertRefs` | lab4/jos/kern/pmap.c:638-658 | which references page_insert adds and drops, and which pages it takes from and gives back to the free list |
| `PageRuns.PagesExact` | lab4/jos/kern/pmap.c:450-716 | after any calls of the page functions the free list is acyclic and duplicate-free, its pages unreferenced, and every count is the number of entries below UTOP plus pins |
| `PageRuns.ReinsertSamePage` | lab4/jos/kern/pmap.c:625-653 | re-inserting a page at its own address neither frees it nor changes its count |
| `Syscalls.SysPageAllocSpec` | lab4/jos/kern/syscall.c:92-118 | maps a page nobody refers to and changes nothing else; E_INVAL exactly for a bad address or permission; E_NO_MEM exactly without a page table and without two free pages; the kernel halts exactly with a page table and without a free page |
| `Syscalls.GoodPermValues` | lab4/jos/kern/syscall.c:101-105 | the permissions accepted are PTE_U and PTE_P, with or without PTE_W, and any of the bits 9 to 11 |
| `Syscalls.SysPageMapSpec` | lab4/jos/kern/syscall.c:345-385 | the destination names the frame of the present source; E_INVAL exactly when a test fails; E_NO_MEM exactly without a page table and a page for one; the kernel halts exactly when the frame's count is full; no other translation changes |
| `Syscalls.SysPageUnmapSpec` | lab4/jos/kern/syscall.c:395-409 | unmaps a present page and frees it exactly when no other reference is left |
| `Syscalls.UnmapOfAbsentPage` | lab4/jos/kern/syscall.c:387-409 | unmapping an absent page changes nothing if and only if no page table covers it |
| `Syscalls.MapOfAbsentPage` | lab4/jos/kern/syscall.c:334-385 | mapping an absent page is refused if and only if no page table covers it or PTE_W is asked for |
| `EnvVm.SetupSpec` | lab4/jos/kern/env.c:177-215 | env_setup_vm makes an empty address space in a free page and changes nothing else |
| `EnvVm.SetupAboveUtop` | lab4/jos/kern/env.c:190-212 | an entry above UTOP other than UVPT is the kernel's if and only if it is not the last or the kernel has nothing there |
| `EnvVm.SetupUvpt` | lab4/jos/kern/env.c:208-212 | the entry at UVPT is the directory itself, for the environment to read and not to write |
| `EnvVm.FlushFromSpec` | lab4/jos/kern/env.c:428-457 | env_flush_addr_space leaves no entry below UTOP, drops exactly the references of that address space, and leaves all others alone |
| `EnvVm.FreeSpaceSpec` | lab4/jos/kern/env.c:428-494 | env_free frees the directory and page tables, and each page whose references were all in that address space |
| `EnvVm.FreeSpaceCounts` | lab4/jos/kern/env.c:428-494 | each count falls by its page's multiplicity in the freed address space |
| `Lifetime.LifetimeConserves` | lab4/jos/kern/env.c:177-494 | env_setup_vm, any page calls, env_free: the free pages are those of before, except what failed sys_page_alloc calls dropped |
| `Conservation.AllFreed` | lab4/jos/kern/env.c:177-494 | over all runs of any number of environments made, sharing pages with each other and freed in any order: at every moment each page that was free before is free, lost by a failed sys_page_alloc, in a tree or mapped, and when no environment is left the free pages are those there were, but for the lost ones |
| `Conservation.CallDone` | lab4/jos/kern/env.c:177-494 | each call of such a run changes the address spaces as it is called for, and no others |
| `SnapshotRuns.KStepsKeep` | lab4/jos/kern/syscall.c:92-550 | any run of page calls, pages sent by IPC, stores, environments made and freed, snapshots of others taken, resumed and freed keeps the invariant and leaves the pages of a snapshot untouched |
| `SnapshotRuns.KStepDone` | lab4/jos/kern/syscall.c:92-550 | so do the page calls, stores and environments made and freed of those runs |
| `SnapshotRuns.SendPageSpec` | lab4/jos/kern/syscall.c:511-533 | a page sent arrives, with the permissions asked for, at the sender's address, and at the receiver's only if that is the same or the page was there before; it is refused exactly when a test fails |
| `Kernel.EnvSetupVm` | lab4/jos/kern/env.c:177-215 | env_setup_vm in place meets its specification |
| `Kernel.EnvFlushAddrSpace` | lab4/jos/kern/env.c:428-457 | the nested loops meet the specification and keep the invariant |
| `Kernel.EnvFreeSpace` | lab4/jos/kern/env.c:487-494 | env_free's address-space part meets the specification |
| `Calls.PageAllocCall` | lab4/jos/kern/syscall.c:92-118 | sys_page_alloc in place meets its specification |
| `Calls.PageMapCall` | lab4/jos/kern/syscall.c:345-385 | sys_page_map in place meets its specification |
| `Calls.PageUnmapCall` | lab4/jos/kern/syscall.c:395-409 | sys_page_unmap in place meets its specification |
| `Calls.DupPage` | lab4/jos/lib/fork.c:71-104 | duppage in place meets its specification |
| `Calls.DupImage` | lab4/jos/lib/fork.c:141-149 | fork's loop in place meets its specification |
| `Calls.ForkSpace` | lab4/jos/lib/fork.c:141-157 | fork's copying of the address space meets its specification |
| `Calls.PgFaultHandler` | lab4/jos/lib/fork.c:15-58 | pgfault in place meets its specification |
| `Calls.SaveSpace` | lab4/jos/kern/syscall.c:168-191 | the snapshot loop in place meets its specification |
| `Calls.CopyPages` | lab4/jos/kern/syscall.c:241-261 | resume's first loop in place meets its specification |
| `Calls.InsertCopies` | lab4/jos/kern/syscall.c:266-281 | resume's second loop in place meets its specification |
| `Calls.ResumeSpace` | lab4/jos/kern/syscall.c:222-291 | sys_env_resume in place meets its specification |
| `Cow.DupSpec` | lab4/jos/lib/fork.c:71-104 | after duppage the child sees the parent's page, nobody else's view changes, and a frame with a writable mapping has only that one |
| `Cow.DupRangeSpec` | lab4/jos/lib/fork.c:141-149 | the same for every page of the program image |
| `Cow.PgFaultSpec` | lab4/jos/lib/fork.c:15-58 | the page becomes privately writable with its content, other pages keep theirs; if it fails for want of memory nothing changes |
| `Cow.PgFaultOutcome` | lab4/jos/lib/fork.c:43-53 | a copy-on-write fault succeeds exactly when there is a page for the copy and, if needed, one for PFTEMP's table; the kernel halts exactly when PFTEMP has a table and no page is left |
| `Cow.CopySpaceSpec` | lab4/jos/lib/fork.c:141-157 | after fork's copying in one go the child sees the parent's image and stack and has an exception stack |
| `Refine.ForkRefines` | lab4/jos/lib/fork.c:120-171 | of the steps of a fork only the duppage of the stack shows: it does what copying every page at once would; all others, and those that fail, change nobody's pages |
| `Refine.StepRefines` | lab4/jos/lib/fork.c:15-171 | each step of a fork, load or store has the outcome and effect it has with eager copying, or has no effect |
| `Refine.LoadAnswers` | lab4/jos/lib/fork.c:71-104 | a load of any page of a started environment, shared or not, answers at once and as on the eager machine |
| `Refine.CowRefinesEager` | lab4/jos/lib/fork.c:15-171 | in every interleaving of the system calls and duppages of any number of forks with loads and stores of all environments, the loads return, and the pages end up, as with eager copying; no load is left unanswered, and a store only for the two reasons named |
| `Refine.StoreGoesThrough` | lab4/jos/lib/fork.c:15-58 | a store to a page seen as writable is refused only for want of the pages it needs |
| `Refine.StoreToCopied` | lab4/jos/lib/fork.c:141-149 | a store of a forking program to a page it has copied already leaves the child with the old page; the two agree if and only if nothing was changed |
| `ForkRoom.ForkGoesThrough` | lab4/jos/lib/fork.c:120-171 | fork by itself succeeds, and the child has the parent's pages, when its pages can be passed on, there are pages for directory, page tables and stacks, and each count has room for the mappings of its page |
| `ForkRoom.StepHalts` | lab4/jos/lib/fork.c:15-171 | the kernel stops at a step only for want of the last page or of room in a count: never at a load, at a store exactly when its fault finds a page table for PFTEMP and no free page |
| `Loading.RegionAllocPage` | lab4/jos/kern/env.c:292-316 | a turn of region_alloc in place meets its specification, extra reference and all |
| `Loading.LoadBinary` | lab4/jos/kern/env.c:343-408 | load_icode in place, over the pages of the segments and the stack, meets its specification |
| `Loading.CreateSpec` | lab4/jos/kern/env.c:292-425 | the environment env_create makes sees its program in pages of its own and can be forked; the others see what they saw; the invariant of the runs holds |
| `Loading.CreateRoom` | lab4/jos/kern/env.c:292-425 | env_create succeeds with two pages for each of the program's and three more, and no count is in the way of a fork |
| `Loading.FirstFork` | lab4/jos/kern/env.c:416-425 | from start-up, with memory enough, a program is loaded, forks, and two environments see its pages |
| `Snapshots.SaveSpec` | lab4/jos/kern/syscall.c:146-201 | a snapshot that succeeds records flags and content of every page a table covers, in pages of its own, and changes nothing else |
| `SnapshotRoom.SaveRoom` | lab4/jos/kern/syscall.c:168-191 | a snapshot succeeds if and only if there is a free page for each page a table covers |
| `Snapshots.RecordsSurvive` | lab4/jos/kern/syscall.c:175-190 | what leaves a snapshot's own pages alone leaves the snapshot what it was |
| `Snapshots.ResumeSpec` | lab4/jos/kern/syscall.c:222-291 | resume restores every recorded page and the registers, in frames not shared with the snapshot, and unmaps all else |
| `SnapshotRoom.ResumeExactly` | lab4/jos/kern/syscall.c:239-285 | resume succeeds if and only if there is a free page for each copy, and then, the old address space given up, one for each page table |
| `SnapshotRoom.ResumeGoes` | lab4/jos/kern/syscall.c:239-285 | whatever the flags of the pages, two free pages for each page saved are enough |
| `SnapshotRuns.SnapshotRoundTrip` | lab4/jos/kern/syscall.c:146-294 | snapshot, any kernel activity that does not free it, resume: each present page is back with flags and content in its own frame, eip, esp, eflags and registers too, and the snapshot can be resumed again |
| `SnapshotRoom.RoundTripGoes` | lab4/jos/kern/syscall.c:146-294 | the round trip with memory as the only hypothesis: the snapshot succeeds exactly with a page for each page covered, the resume with two for each page saved, and every page, its flags and the registers are back |
| `Snapshots.ResumeOfAbsentPage` | lab4/jos/kern/syscall.c:168-190 | a page absent at the snapshot is absent after resume if and only if no page table covered it |
| `BootMap.PutPage` | lab4/jos/kern/pmap.c:577-583 | in the kernel's directory, which is its own page table at UVPT, one 4 KB entry maps its page and nothing else outside the window |
| `BootMap.PutSuper` | lab4/jos/kern/pmap.c:603-609 | one 4 MB entry maps the 1024 pages it spans and nothing else outside the window |
| `BootMap.BootMem.MapRegion` | lab4/jos/kern/pmap.c:566-584 | in a directory that is its own page table at UVPT, maps exactly the range, whatever its alignment and its page tables, to consecutive frames with the permissions given, as check_va2pa sees it outside the window; which page of the free list becomes the table of which entry; panics exactly when there are fewer free pages than missing page tables |
| `BootMap.BootMem.MapSuperpage` | lab4/jos/kern/pmap.c:595-610 | in the same directories, maps exactly the range to the same frames and permissions outside the window, and says what each directory entry is; panics exactly on arguments that are not 4 MB aligned and when a directory entry is present |
| `BootMap.TwoWays` | lab4/jos/kern/pmap.c:566-610 | check_va2pa answers alike after the one and the other if and only if the address is outside the window at UVPT, or its entry is not of the range, or the page table taken for that entry is the superpage's first page |
| `BootMap.KernbaseSeen` | lab4/jos/kern/pmap.c:241-244 | the failing address: with physical memory mapped at KERNBASE the window page of KERNBASE's entry is the first free page after the one and page 0 after the other |
| `BootMap.MapBothWays` | lab4/jos/kern/pmap.c:566-610 | both functions run on the same memory: when each panics, and that otherwise check_va2pa gives the same answer afterwards at exactly the addresses of `TwoWays` |
| `BootMap.BootMem.MemInit` | lab4/jos/kern/pmap.c:158-250 | from the cleared page directory on, mem_init's mappings go through exactly with three free pages, 67 without superpages, and then check_kern_pgdir passes: pages, envs, physical memory, a stack and an unmapped gap for each CPU, and every directory entry; and the permissions are right: users can read pages, envs and the window, and write nothing |
| `EnvIds.IdClosedForm` | lab4/jos/kern/env.c:239-243 | the id of a slot after n allocations, in closed form |
| `EnvIds.IdsCarrySlot` | lab4/jos/kern/env.c:239-243 | ids are positive 32-bit integers and carry the slot under ENVX |
| `EnvIds.IdsRepeat` | lab4/jos/kern/env.c:239-243 | a slot's id repeats exactly after multiples of 2^19 - 1 allocations |
| `EnvIds.StaleIdRejected` | lab4/jos/kern/env.c:81-114 | envid2env refuses an old id of a slot if and only if it is no multiple of 2^19 - 1 allocations old |
| `EnvIds.LookupExact` | lab4/jos/kern/env.c:81-114 | envid2env finds the caller for 0, else the environment in use with that id, with checkperm only if it is the caller or its child; else an error |
| `Sched.PickSpec` | lab4/jos/kern/sched.c:36-54 | sched_yield picks the nearest eligible environment in circular order after curenv, none only if none is eligible |
| `Sched.NextKeeps` | lab4/jos/kern/trap.c:219-275 | every step of every CPU (trap entry, spin lock, scheduling, calls, unlock) keeps the invariant |
| `Smp.NoEnvOnTwoCpus` | lab4/jos/kern/env.c:504-584 | over every interleaving from boot, user-mode CPUs run different environments, each RUNNING or DYING, each such environment is on a CPU, and the big kernel lock is sound and taken once per entry |
| `Smp.LocksOncePerEntry` | lab4/jos/kern/trap.c:231-251 | over every interleaving from boot, a CPU that has come into the kernel, from user mode, from hlt or at start-up, has got the lock exactly once by the time it handles its trap |
| `Smp.GuardExact` | lab4/jos/kern/syscall.c:146-325 | for every call in every state of the invariant: the machine stays safe in all continuations if and only if the call respects its guard |
| `Smp.StatusStepSafe` | lab4/jos/kern/syscall.c:310-325 | another environment can be made RUNNABLE safely, over all continuations, if and only if it is neither running, dying nor receiving, NOT_RUNNABLE if and only if it is neither running nor dying; the caller itself always NOT_RUNNABLE, and RUNNABLE if and only if another environment is |
| `Smp.DestroyStepSafe` | lab4/jos/kern/env.c:505-518 | destroying an environment is safe, over all continuations, if and only if it is not already dying |
| `Effects.IdsInPlace` | lab4/jos/kern/env.c:226-274 | over every run from boot an environment in use carries its slot in its id |
| `Effects.ResolveExact` | lab4/jos/kern/env.c:81-114 | what a call finds by an id is the environment with that id that the caller controls, and nothing only if there is none |
| `Effects.DestroyEffect` | lab4/jos/kern/env.c:505-518 | destroy marks an environment that another CPU runs DYING and frees any other at once, onto the free list, the caller too; it fails exactly if there is none to destroy |
| `Effects.SetStatusEffect` | lab4/jos/kern/syscall.c:310-325 | sets exactly the status asked for, RUNNABLE or NOT_RUNNABLE, of an environment the caller controls |
| `Effects.ResumeEffect` | lab4/jos/kern/syscall.c:288-294 | a successful resume makes another environment RUNNABLE and leaves the caller RUNNING; else nothing changes |
| `Effects.ExoforkEffect` | lab4/jos/kern/syscall.c:125-142 | a child in the first free slot with a fresh id, NOT_RUNNABLE, its parent's; the other fields as the slot's last owner left them |
| `Effects.RecvEffect` | lab4/jos/kern/syscall.c:446-462 | the caller blocks, receiving, its last message cleared; or nothing changes on a bad address |
| `Effects.SendEffect` | lab4/jos/kern/syscall.c:499-550 | the receiver, whoever is whose parent, gets sender, value and permissions and is RUNNABLE; the send fails exactly if no environment has the id, it is not receiving, or the page is bad or has no memory |
| `Effects.YieldRuns` | lab4/jos/kern/sched.c:36-63 | the environment picked is RUNNING on the CPU, the one it leaves RUNNABLE, and no other changes |
| `Traps.TrapIn` | lab4/jos/kern/trap.c:219-245 | a trap from user mode takes the lock when it is free, and changes nothing else |
| `Traps.WakeUp` | lab4/jos/kern/trap.c:219-235 | a CPU woken from hlt takes the lock and goes to the scheduler |
| `Traps.SimpleTrap` | lab4/jos/kern/trap.c:219-275 | a call that only returns leaves the machine as it was, the environment in user mode and the lock free |
| `Traps.YieldTrap` | lab4/jos/kern/sched.c:36-63 | sys_yield from user mode to user mode: the nearest environment that can be run runs, and the lock is free |
| `Traps.NothingToRun` | lab4/jos/kern/sched.c:69-106 | with nothing to run a CPU sleeps without a curenv and lets the lock go, or enters the monitor if no environment is alive |
| `Traps.DyingRun` | lab4/jos/kern/trap.c:241-260 | over every run a dying environment is not dispatched: it stays on its one CPU, on the way into the kernel, until that CPU has the lock, and then is freed |
| `Traps.DyingTrap` | lab4/jos/kern/trap.c:246-251 | the next trap of its CPU, when the lock is free, frees it and leaves the CPU without a curenv |
| `Traps.FirstEnv` | lab4/jos/kern/init.c:51-62 | from start-up the boot CPU creates an environment in slot 0, with id 4096, and runs it |
| `Traps.ApStarts` | lab4/jos/kern/init.c:75-125 | a CPU that is started spins for the lock and schedules when it gets it |
| `Smp.StaleReceiver` | lab4/jos/kern/env.c:226-274 | a child made in a freed slot can be started safely if and only if the slot's last owner was not destroyed while receiving |
| `Smp.MisledUnsafe` | lab4/jos/kern/syscall.c:499-550 | an environment that can be run while marked as receiving makes the machine unsafe in some continuation, even with one CPU |
| `Smp.SendToRunningReceiver` | lab4/jos/kern/syscall.c:543-547 | a send to an environment wrongly marked as receiving makes it RUNNABLE while a CPU runs it |
| `Smp.SelfRunnable` | lab4/jos/kern/env.c:570-578 | an environment that makes itself RUNNABLE when no other is goes on running without being marked RUNNING |
| `Ipc.WaitingStep` | lab4/jos/kern/syscall.c:499-550 | on the fields alone: a step that does not destroy a blocked receiver is a send that names it, and it then holds sender, value and permissions and is runnable, or leaves it untouched; so does every failing send |
| `Ipc.ExactlyOnce` | lab4/jos/kern/syscall.c:446-550 | from sys_ipc_recv until it runs again a receiver gets exactly one message and holds that sender's id, value and permissions |
| `RoundRobin.YieldCloser` | lab4/jos/kern/sched.c:36-63 | a yield that does not run a waiting environment brings the CPU strictly closer to it |
| `RoundRobin.BoundedWait` | lab4/jos/kern/sched.c:36-63 | a CPU yields fewer times than the environment is places ahead of its curenv, at most NENV - 1, before it runs it |
| `Machine.Host.constructor` | lab4/jos/kern/init.c:51-56 | the state from which runs start: no environments, the boot CPU about to take the lock |
| `Machine.Host.Perform` | lab4/jos/kern/trap.c:219-275 | any step of any CPU in place (trap entry, spin_lock and spin_unlock, scheduling, env_run, env_destroy, env_alloc, the system calls, the return path) is a step of the machine and keeps its invariant |
| `Machine.Host.Schedule` | lab4/jos/kern/trap.c:219-275 | whole guarded runs in place: afterwards no environment is on two CPUs and the lock is sound and taken once |
| `Machine.Host.Release` | lab4/jos/kern/spinlock.c:83-116 | spin_unlock is only reached by the holder |
| `Machine.Host.Search` | lab4/jos/kern/sched.c:37-54 | the search loop finds the nearest eligible environment, or none if there is none |
| `Machine.Host.SchedHalt` | lab4/jos/kern/sched.c:69-97 | sched_halt in place meets its specification: it enters the monitor exactly when no environment is alive |
| `Machine.Host.Lookup` | lab4/jos/kern/env.c:81-114 | envid2env in place meets its specification |
| `Heap.OneCycle` | lab4/jos/lib/malloc.c:24-44 | the free list is one cycle: from any free block every free block is met within a turn |
| `Heap.FreeAtKeeps` | lab4/jos/lib/malloc.c:33-43 | two-sided coalescing keeps the heap one address-ordered, tiled circle in which no two free blocks touch |
| `Heap.FreeAtSpares` | lab4/jos/lib/malloc.c:33-43 | _free writes to no other live block |
| `Heap.CarveKeeps` | lab4/jos/lib/malloc.c:81-85 | taking the tail of a block yields a block of the size asked for and keeps the invariant |
| `Heap.UnitsConserved` | lab4/jos/lib/malloc.c:24-93 | free plus live units equal the units taken from sbrk |
| `Heap.StoresKeep` | lab4/jos/lib/malloc.c:11-24 | whatever a program stores to its blocks between calls, the headers aside, the heap invariant holds and blocks, sizes and free list are the same |
| `Malloc.Allocator.FindPlace` | lab4/jos/lib/malloc.c:30-32 | _free's search ends, where the block belongs |
| `Malloc.Allocator.Free` | lab4/jos/lib/malloc.c:24-44 | _free keeps the invariant, removes exactly that block from the live ones and touches no other |
| `Malloc.Allocator.Sbrk` | lab4/jos/kern/kmalloc.c:18-26 | contiguous memory up to a bound |
| `Malloc.Allocator.Morecore` | lab4/jos/lib/malloc.c:48-64 | afterwards some free block is large enough |
| `Malloc.Allocator.NextFit` | lab4/jos/lib/malloc.c:77-92 | the loop ends, also when the new memory merged into the block it steps past first |
| `Malloc.Allocator.Alloc` | lab4/jos/lib/malloc.c:66-93 | a new live block with the bytes asked for and less than a unit more, disjoint from all others; null only when nothing fits and the bound is reached; memory grows only when nothing fits |
| `Stab.NeighboursDecided` | lab4/jos/kern/kdebug.c:58-103 | asked for the lower of two entries at consecutive addresses the search answers with it if and only if halving the table meets the upper one first, or the upper one is at the last address and the very next of the table |
| `Stab.BinSearch` | lab4/jos/kern/kdebug.c:58-103 | for every sorted table the result is the last entry of the type at or below the address and the index before the next one if and only if there is such an entry and the search keeps to the address: the address, if it is an entry, is not the last one, and for an entry at the next address the condition above holds; otherwise the end of a run of consecutive entries, or an overflow; left above right exactly when the type does not occur |
| `Stab.NeighbourFound` | lab4/jos/kern/kdebug.c:86-92 | asked for address 10 in a table with entries at 10 and 11 the search answers with the entry at 11 |
| `HashTable.SlicesCover` | hw_multithreaded_programming/ph.c:83-92 | the slices b*n+i cover each key index exactly once |
| `HashTable.NextKeeps` | hw_multithreaded_programming/ph.c:47-109 | every step of every thread keeps bucket chains acyclic and every finished insert in the table |
| `HashTable.NoKeyMissing` | hw_multithreaded_programming/ph.c:78-109 | under every schedule a thread past the barrier misses no key |
| `HashProgress.LockExact` | hw_multithreaded_programming/ph.c:47-58 | under every schedule a bucket's lock is taken by a thread if and only if the thread is between locking and unlocking it |
| `HashProgress.StepLess` | hw_multithreaded_programming/ph.c:47-109 | every step lowers a measure that no step raises |
| `HashProgress.EveryFairRun` | hw_multithreaded_programming/ph.c:78-109 | under every fair schedule all threads finish, and none has missed a key |
| `HashGets.MissesCounted` | hw_multithreaded_programming/ph.c:100-106 | a thread counts exactly the gets that returned null, and finishes only when it has looked every key up |
| `HashGets.EachKeyGot` | hw_multithreaded_programming/ph.c:66-109 | under every schedule the j-th get of a thread returns an entry of the j-th key, with the number of a thread that put it |
| `Shell.GetToken` | hw1_shell/sh.c:228-263 | gettoken returns the next token of the line and moves past it |
| `Shell.Peek` | hw1_shell/sh.c:265-275 | peek tells whether the next token is one of the given symbols and consumes only blanks |
| `Shell.ParseRedirs` | hw1_shell/sh.c:331-353 | parseredirs does what the token parser does |
| `Shell.ParseExec` | hw1_shell/sh.c:355-385 | parseexec does what the token parser does |
| `Shell.ParsePipe` | hw1_shell/sh.c:318-329 | parsepipe does what the token parser does, and ends |
| `Shell.ParseCmd` | hw1_shell/sh.c:294-308 | the parser builds the tree of the tokens, or exits with "missing file" or "too many args" and never otherwise |
| `Shell.TwoExits` | hw1_shell/sh.c:294-385 | the "syntax error" and "leftovers" exits are unreachable, and a parsed line is consumed whole |
| `ShellPrint.PrintThenParse` | hw1_shell/sh.c:294-385 | parsing the canonical line for a tree returns the tree |
| `ShellPrint.ParsePrintParse` | hw1_shell/sh.c:294-385 | the parser builds only trees for which that holds |
| `ShellLines.SimpleExactly` | hw1_shell/sh.c:331-385 | arguments and redirections in any order: both are gathered in their order; too many arguments, or a redirection without a file, end it |
| `ShellLines.PipelineExactly` | hw1_shell/sh.c:318-329 | what a whole pipeline comes to, its errors included |
| `ShellLines.LineParses` | hw1_shell/sh.c:294-385 | a line with arguments and redirections mixed, blank as it may be, is one command with both in their order |
| `ShellLines.LexSpaced` | hw1_shell/sh.c:225-275 | blanks count for nothing but to tell two words apart, and symbols need none |
| `Numbers.PrintNum` | lab4/jos/lib/printfmt.c:44-59 | printnum emits the padding and then the digits, most significant first |
| `Numbers.DigitsCanonical` | lab4/jos/lib/printfmt.c:44-59 | the digits stand for the number, are below the base and lower-case, and begin with 0 only for 0 |
| `Numbers.Strtol` | lab3/jos/lib/string.c:259-304 | strtol in place meets its specification |
| `Numbers.ReadsNumber` | lab3/jos/lib/string.c:259-304 | any blanks, sign, prefix and digits, of either case: the result is the number the digits stand for, in 32 bits, negated after a minus sign, and the end is the first character that is no digit |
| `Numbers.PrintThenRead` | lab4/jos/lib/printfmt.c:44-59 | strtol reads back what printnum prints, all of it, and the length is the larger of width and digit count |

## Left out

- Calls.PageUnmapCall: does not state that the invariant survives, which for an absent page it does not; `Syscalls.SysPageUnmapSpec` states it for a present one.
- Pmap.PhysMem.PageRemove: the same.
- Malloc.Allocator.Alloc: requests whose byte count does not fit sbrk's `intptr_t` are outside it, and `kheap_sbrk`'s panic is the null result.
- ForkRoom.ForkGoesThrough: the pages it asks for are enough; an image with whole stretches of 4 MB unmapped needs fewer page tables.
- Refine.CowRefinesEager: loads and stores are to the program image and the stack page, `duppage` and `pgfault` are single steps, and a forking program's stores to pages it has copied already are no steps; running out of environment slots is not modelled.
- BootMap.BootMem.MapRegion: a range inside a superpage, which `pgdir_walk` would take for a page table, and one inside the window at UVPT, where it would write to the page directory.
- Calls.ResumeSpace: does not set `env_status`, which `Sched.ResumeCall` does, and not the slots and lists the code tidies up.
- Loading.LoadBinary: is given the pages of the segments; reading the ELF headers, and segments that fill pages only in part, are not modelled.
- Hardware-set accessed and dirty bits; with them set, `duppage` would pass flags that `sys_page_map` refuses.
- Page-fault upcalls, trap frames beyond what a snapshot keeps, TLB invalidation, `user_mem_check`, permissions in `envid2env` for the page calls.
- The linked list of a snapshot's saved pages is a sequence, as are `env_free_list` and the boot-time page list; the exec node the shell fills after wrapping it is a value. Update through an alias is not captured there.
- The clean-up of `sys_env_snapshot` and `sys_env_resume` after they have failed: it frees list nodes whose `saved_page` was never set, and pages that are mapped already. The model stops where the failure is found. Also `snapshot_alloc` and the snapshot slots.
- A count that goes below zero: the model has -1 where a 16-bit count would wrap to 65535; it happens only outside the invariant.
- Memory orderings weaker than sequential consistency; interrupts arriving in kernel code, where they are disabled.
- ELF headers, devices, the monitor, the boot loader, `mpconfig.c`, `debuginfo_eip`, formatted printing beyond `printnum`, `runcmd`, `ipc_send`'s retry loop and other user programs.
