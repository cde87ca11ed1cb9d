# Verified models of DragonWare

DragonWare is a small x86 microkernel with a boot manager, a user library and user-space
drivers. This project models its core algorithms in Dafny 4.11 and proves what they
compute and what every run of them keeps. `dafny verify dfyconfig.toml` checks all of it.

| file | what it models |
|---|---|
| Arith64.dfy | 64-bit division and leading-zero count for 32-bit machines |
| HeapLayout.dfy, HeapCount.dfy, BootHeap.dfy | the boot manager's frame pool and slab heap, on raw memory words |
| PageTables.dfy, VirtualMemory.dfy | two-level page tables reached through the recursive window |
| Processes.dfy | building and tearing down process address spaces |
| SystemRuns.dfy | any sequence of boot, map, unmap, create, delete, exit and switch |
| Bits.dfy, FrameBitmap.dfy, MemoryMap.dfy | the kernel's frame bitmap and how the boot memory map fills it |
| FrameRefinement.dfy | the bitmap as the frame set virtual memory draws on |
| RoundRobin.dfy, Scheduler.dfy, SchedulerRuns.dfy | scheduling as a transition system, the linked list that implements it, and its runs |
| Ports.dfy, Ipc.dfy | message rings, handle tables, send and receive |
| IpcRuns.dfy, IpcWorld.dfy | all interleavings of these calls as a machine, and the code as a refinement of it |
| SectorCache.dfy | the IDE driver's sector cache against an uncached drive |
| FileReaders.dfy | FAT32, ISO 9660 and chunked disk reads |
| Print.dfy | vsnprintf and atoi |
| Wrappers.dfy | the Option type |

Code that updates state is modelled by classes, arrays and loops. The specification each
method is proved against is a function or a predicate, and the results that span several
operations are lemmas about those.

## What the proofs say about the code

- **Boot heap.** In every sequence of kmalloc, kzalloc, kfree and stores by the holders of
  blocks, with no request above a page, each allocation hands out an aligned block nobody
  holds. It is refused exactly when it is for nothing, or when all 75 frames are slabs or page
  blocks and the class has no object left, which requests and replies alone determine. The blocks held
  never overlap each other or what the allocator stores, and each reads back exactly what its
  holder last put there (`BootHeap.Run`).
- **Address spaces.** Page-table edits go through the recursive window, yet each call changes
  exactly one page of the page map, in every live address space at once when it is a kernel
  page. User code is let through at a page just mapped if and only if its flags say so and the
  directory slot was empty or already open: MapSinglePage leaves an existing slot as it is, so a
  user page in a slot first used by the kernel stays closed (`VirtualMemory.Vmm.KernelThenUser`).
  A new process reaches its executable and stack and nothing else (`Processes.NewSpaceRights`).
  After boot and any sequence of mappings, unmappings, process creations, deletions,
  exits and switches, all spaces share the kernel half, which is closed to user code, no kernel
  table is ever freed, no user page of one space shows a frame that is free, a paging structure,
  or shown by another space unless it belongs to a device, nothing is free that was not free
  after boot, and a thread with a process runs on that process's directory (`SystemRuns.Run`). Two things break this
  when they are done on purpose, each with its exact condition. Deleting a process frees a
  frame under another space if and only if both show it (`SystemRuns.DeleteIsolationExactly`),
  and it frees a frame the allocator never had if and only if the process shows a managed one
  of these, such as a device's (`SystemRuns.DeletePoolExactly`).
- **Defects found by the proofs.** The boot code allocates a frame for directory slot 768 and
  then overwrites the slot, so exactly that frame is lost
  (`VirtualMemory.Vmm.InitVirtualMemoryManager`). CreateProcess leaks two frames and two
  kernel pages if and only if it has a stack address but the first temporary mapping fails
  (`Processes.ProcessTable.CreateProcess`). DeleteProcess frees the kernel stack but leaves its
  two pages mapped to the freed frames (`Processes.ProcessTable.CreateThenDelete`). ScheduleNext
  loads a directory only for a thread of another process, so after an exit the kernel goes on
  running on a freed directory unless the thread picked belongs to another process
  (`SystemRuns.Kernel.Exit`); the frame allocator then hands that directory out as soon as the
  free frames below it are gone (`SystemRuns.ReuseDirectory`).
- **Boot memory map.** A frame is free after boot if and only if it lies in usable memory and
  outside the kernel and the first 63 modules (`MemoryMap.Boot`), provided the pieces fit the
  64-entry table; later pieces are dropped and later modules are not protected.
- **Scheduling.** A ready thread that is not idle is dispatched within one turn of every
  thread ahead of it plus one turn for each thread that arrives meanwhile, in every run of
  ticks, yields, blocks, wake-ups, kills, faults and exits, with or without a reschedule due.
  The linked-list scheduler refines that transition system step by step, and any sequence of
  operations on it is one of its runs, in which that thread becomes `current_thread` within
  the bound (`SchedulerRuns.Run`). A thread can run after an event exactly when it could before
  and was not stopped, or the event roused it (`RoundRobin.RunnableExactly`), so one that has
  blocked does not get the processor back before it is woken. WakeThread does not look at why a
  thread is not running: it makes a terminated one ready too (`RoundRobin.FaultThenWake`).
- **Messages.** The send, receive and handle code, run on real ports and tables by any threads
  in any order, is a machine step by step (`IpcWorld.World.Run`). In every state of every run
  the ports are FIFO queues that lose and duplicate nothing, and a receiver gets the oldest
  message not yet taken, with the bytes its sender put in. A message has sender 0 exactly when the kernel sent it. A reply
  handle arrives as -1 or as the receiver's own handle to the same object, and stays that
  until the receiver closes it. Bitmaps and slots of all handle tables agree. A port's owner
  never sleeps on a waiting message. Another thread of the same process may also receive on
  the port, and for it this fails: a send wakes the owner only (`IpcRuns.LostExactly` gives
  the exact condition). The search for an existing reply handle stops before slot 31, with the
  exact consequences stated by `Ipc.DuplicateExactly`.
- **Sector cache.** It answers every run of a client as the bare drive would if and only if no
  sector is written under an address other than the one it is read under, no write that can
  fail half-way goes to a sector that is read, and no address is read now with and now without
  an error. Addresses are compared before the driver reduces them to 28 bits and two one-bit
  selectors, so different ones may name one sector; a failed write leaves the cached copy in
  place; a cached sector hides a read error (`SectorCache.CacheTransparentExactly`).
- **Files.** For every FAT32 volume whose sector numbers fit 32 bits, a read returns that slice
  of the file's clusters, as the FAT links them and as they lie in the data area
  (`FileReaders.ReadIsSlice`).
- **Numbers.** Both 64-bit division routines are Euclidean division for all operands; printed
  digits denote the number in every base from 2 to 16; what vsnprintf prints is the one text the
  format spells (`Print.SpelledExactly`); atoi undoes `%d` for every int except INT_MIN (`Print.AtoiUndoesPrintExactly`).

Comments and code differ in three places, and the models follow the code: sys/syscall/ipc.c
says its search avoids duplicate handles; sys/task/task.h gives priorities 1 to 3 turns of
12, 20 and 33 ticks where sys/sched/schedule.c gives 1, 12 and 20; and it describes an idle
priority that no thread is created with.

## Model

| member | source | states |
|---|---|---|
| Arith64.Clz | freestanding/compat/arith64.c:114-132 | the count n is the one with 2^(63-n) <= a < 2^(64-n) |
| Arith64.LeadingZerosUnique | freestanding/compat/arith64.c:114-132 | that property determines the count |
| Arith64.SignTrick | freestanding/compat/arith64.c:212-213 | the sign of b - rem - 1 in 64 bits decides b <= rem wherever the loop uses it |
| Arith64.IterationCount | freestanding/compat/arith64.c:202-204 | the loop runs 1 to 63 times, and once only when the divisor has its top bit set |
| Arith64.LongDivisionStep | freestanding/compat/arith64.c:208-215 | one turn of the branch-free loop is one step of schoolbook long division, the register pair holding dividend bits and quotient bits |
| Arith64.ShiftSubtract | freestanding/compat/arith64.c:202-217 | the loop computes quotient and remainder for every 2 <= b <= a |
| Arith64.DivMod | freestanding/compat/arith64.c:176-218 | quotient and remainder for all 64-bit operands, trap exactly on zero divisor |
| Arith64.LeftJustifyDivisor | freestanding/compat/arith64.c:297-301 | the divisor shifted up establishes the restoring-division invariant for every divisor |
| Arith64.RestoringStep | freestanding/compat/arith64.c:303-310 | each turn of the second routine keeps the restoring-division invariant without overflow |
| Arith64.UDivMod | freestanding/compat/arith64.c:288-315 | the second routine agrees with Euclidean division for all operands, trap on zero |
| Arith64.TruncatesUnique | freestanding/compat/arith64.c:221-251 | C's truncating quotient and remainder are determined by their defining equation |
| Arith64.DivSigned | freestanding/compat/arith64.c:221-224 | signed quotient truncates toward zero; INT64_MIN / -1 wraps to INT64_MIN |
| Arith64.ModSigned | freestanding/compat/arith64.c:247-251 | signed remainder has the dividend's sign, for all operands including INT64_MIN % -1 |
| HeapLayout.ObjectsTable | bootmanager/core/common/kmalloc.c:84-89 | how many objects each size class fits in a page behind the header |
| HeapLayout.LocalChange | bootmanager/core/common/kmalloc.c:43-56 | writing anything inside a live block keeps the whole heap invariant |
| HeapLayout.LiveApart | bootmanager/core/common/kmalloc.c:107-132 | two live blocks never overlap |
| HeapLayout.HeaderApart | bootmanager/core/common/kmalloc.c:43-51 | a live block never overlaps a slab header |
| HeapLayout.FreeObjectApart | bootmanager/core/common/kmalloc.c:129-131 | a live block never overlaps a free object, and free objects lie in their slab |
| HeapLayout.FreeObjectsApart | bootmanager/core/common/kmalloc.c:96-103 | two free objects never overlap, of one slab or of two |
| HeapLayout.FreeObjectHeader | bootmanager/core/common/kmalloc.c:84-103 | a free object overlaps no slab header |
| HeapLayout.SlabFrameApart | bootmanager/core/common/frame.c:36-57 | a slab's frame is never on the frame free list |
| HeapLayout.FreeFrameApart | bootmanager/core/common/frame.c:36-57 | a live block never overlaps a free frame |
| HeapCount.FrameCount | bootmanager/core/common/frame.c:24-57 | untouched frames, free frames, slabs and page blocks always add up to 75 |
| HeapCount.ObjectCount | bootmanager/core/common/kmalloc.c:84-131 | the blocks of a class never exceed its slabs' objects, and equal them exactly when no object is free |
| HeapLayout.PopFrameOk | bootmanager/core/common/frame.c:36-50 | taking the head of the frame list keeps the invariant and yields a block nobody holds |
| HeapLayout.BumpFrameOk | bootmanager/core/common/frame.c:36-50 | taking the next untouched frame keeps the invariant |
| HeapLayout.PushFrameOk | bootmanager/core/common/frame.c:52-57 | returning a frame keeps the invariant |
| HeapLayout.AllObjectsExact | bootmanager/core/common/kmalloc.c:96-103 | a new slab's free list holds every object of the slab exactly once |
| HeapLayout.InstallOk | bootmanager/core/common/kmalloc.c:121-127 | linking a new slab at the head of its cache keeps the invariant |
| HeapLayout.SetFreeOk | bootmanager/core/common/kmalloc.c:129-171 | replacing a slab's free list keeps the invariant when the list and the live blocks partition the slab |
| HeapLayout.PopObjectOk | bootmanager/core/common/kmalloc.c:129-131 | taking an object off a slab makes it live and nothing else changes hands |
| HeapLayout.PushObjectOk | bootmanager/core/common/kmalloc.c:164-172 | freeing an object threads it back and ends its life |
| BootHeap.Allocator.constructor | bootmanager/core/common/frame.c:24-34 | the fresh heap is valid and holds no block |
| BootHeap.Allocator.AllocateFrame | bootmanager/core/common/frame.c:36-50 | zero exactly when the pool is empty, else a fresh zeroed page; no live block loses a word |
| BootHeap.Allocator.FreeFrame | bootmanager/core/common/frame.c:52-57 | the page goes back to the list; null is ignored; no live block loses a word |
| BootHeap.ThreadObjects | bootmanager/core/common/kmalloc.c:96-103 | the loop threads all objects of a slab into one list through raw memory |
| BootHeap.FormatSlab | bootmanager/core/common/kmalloc.c:84-104 | header and free list of a new slab, written only inside its page |
| BootHeap.Allocator.CreateSlab | bootmanager/core/common/kmalloc.c:74-105 | null exactly when the size is too large or no frame is left; else a slab with every object free |
| BootHeap.Allocator.LinkSlab | bootmanager/core/common/kmalloc.c:125-126 | the new slab heads its cache's list |
| BootHeap.SlabCacheForSize | bootmanager/core/common/kmalloc.c:67-72 | the smallest size class that fits the request |
| BootHeap.Allocator.FindSlab | bootmanager/core/common/kmalloc.c:117-119 | the walk finds a slab of the cache with a free object exactly when one exists |
| BootHeap.Allocator.AllocateObject | bootmanager/core/common/kmalloc.c:117-131 | an object of the class, from an old slab or a new one |
| BootHeap.Allocator.Kmalloc | bootmanager/core/common/kmalloc.c:107-132 | null exactly on size 0 or exhaustion; else a fresh 8-aligned block of the class's capacity, and no live block loses a word |
| BootHeap.Allocator.Kzalloc | bootmanager/core/common/kmalloc.c:134-152 | as kmalloc, and the whole block reads zero |
| BootHeap.Allocator.Kfree | bootmanager/core/common/kmalloc.c:154-178 | exactly that block stops being live; low and misaligned pointers change nothing; other blocks keep their words |
| BootHeap.Allocator.FindOwner | bootmanager/core/common/kmalloc.c:156-172 | the search over caches and slabs finds the slab whose object area holds the pointer, if any |
| BootHeap.Allocator.ClientWrite | bootmanager/core/common/kmalloc.c:107-132 | a store by a block's holder changes that word of that block and no other block |
| BootHeap.Separation | bootmanager/core/common/kmalloc.c:43-178 | live blocks are in bounds, 8-aligned and disjoint from each other and from every slab header, free object and free frame; headers, free objects, slab frames and free frames are pairwise disjoint too |
| BootHeap.MoreSlabs | bootmanager/core/common/kmalloc.c:117-127 | a class gets a new slab exactly when all its objects are held |
| BootHeap.FullExactly | bootmanager/core/common/kmalloc.c:107-132 | the allocator has nothing left for a request exactly when the record of requests and replies says so |
| BootHeap.Run | bootmanager/core/common/kmalloc.c:107-178 | in any sequence of operations with no request above a page, an allocation is refused exactly on size 0 or when the heap is full by that record, and otherwise gives an 8-aligned block nobody holds; at the end the blocks held are disjoint and read back exactly what their holders stored |
| PageTables.WindowAddress | sys/ddk/ia32/vmm.c:48-52 | the address of entry j of table i walks through the last directory slot to table i, word j |
| PageTables.RecursiveWindow | sys/ddk/ia32/vmm.c:48-52 | such an address reads and writes entry j of table i, and is mapped exactly when table i is present |
| PageTables.DirectoryWindow | sys/ddk/ia32/vmm.c:150 | the last page of the window is the directory itself |
| PageTables.PutEntry | sys/ddk/ia32/vmm.c:171-172 | writing one table entry changes one page of the page map, in all spaces at once for a kernel page |
| PageTables.AddTable | sys/ddk/ia32/vmm.c:157-165 | hanging a zeroed table into an empty user slot changes no page |
| PageTables.KernelPagesShared | sys/task/process.c:221-222 | every kernel page has the same translation in any two spaces |
| PageTables.DataWrite | sys/ddk/ia32/vmm.c:143-174 | a write to a frame that is not a paging structure changes no translation |
| PageTables.RightsFollow | sys/ddk/ia32/vmm.c:152-172 | when one page gets a new entry its rights are those the directory entry and the new entry both give, and no other page of any space gains or loses one |
| PageTables.KernelClosed | sys/ddk/ia32/vmm.c:104 | nothing from 3 GiB up, kernel pages and the window on the tables, is open to user code in any space |
| VirtualMemory.Vmm.AllocateKernelTables | sys/ddk/ia32/vmm.c:96-107 | 255 zeroed kernel tables in distinct frames, or no high frame is left |
| VirtualMemory.Vmm.MapImage | sys/ddk/ia32/vmm.c:80-84 | a stretch of table entries maps consecutive frames and nothing else changes |
| VirtualMemory.InitSpace | sys/ddk/ia32/vmm.c:96-136 | the tables built at boot satisfy the system invariant, and the table first put in slot 768 is in use by nothing |
| VirtualMemory.InitMap | sys/ddk/ia32/vmm.c:80-136 | the hardware walk over those tables finds the kernel image and nothing else |
| VirtualMemory.Vmm.InitVirtualMemoryManager | sys/ddk/ia32/vmm.c:54-141 | one space mapping exactly the image with its section flags; the frames that were free are those still free, the paging structures, and exactly one more, which is lost; failure means low or high memory ran out |
| VirtualMemory.Vmm.MapSinglePage | sys/ddk/ia32/vmm.c:143-174 | each status exactly when; on success exactly one page appears, on failure nothing at all changes; user code, and writes, are let through at the page if and only if the flags do and the directory slot was empty or already did, a new slot is open to user code exactly when the flags are, an existing one stays as it was, and no other right changes |
| VirtualMemory.Vmm.UnmapSinglePage | sys/ddk/ia32/vmm.c:176-201 | exactly that page disappears with its rights, and no other right changes; an unmapped page is left alone |
| VirtualMemory.Vmm.KernelThenUser | sys/ddk/ia32/vmm.c:152-172 | a kernel page mapped first into an empty slot keeps a user page mapped next to it closed to user code |
| VirtualMemory.BootRights | sys/ddk/ia32/vmm.c:109-130 | after boot writes are let through to the image except its text and constants, and user code reaches nothing |
| VirtualMemory.Vmm.IsVirtualPageMapped | sys/ddk/ia32/vmm.c:203-212 | true exactly when the hardware walk finds the page |
| VirtualMemory.Vmm.FindFreePageRange | sys/ddk/ia32/vmm.c:214-232 | the lowest run of n unmapped pages below the stop, 0 exactly when there is none |
| Processes.ProcessTable.FindFreeTmpMapSlot | sys/task/process.c:68-77 | the lowest free temporary slot, -1 exactly when all are taken |
| Processes.ProcessTable.CreateTempVirtualMap | sys/task/process.c:107-139 | a fresh zeroed frame visible at its slot's page, or nothing changed |
| Processes.ProcessTable.DeleteTempVirtualMap | sys/task/process.c:148-154 | slot and page are free again, every other page and word as before |
| Processes.ProcessTable.GetNextKernelStackAddress | sys/task/process.c:158-176 | the first pair of unmapped pages of the stack area, none exactly when there is none |
| Processes.ProcessTable.CopyKernelHalf | sys/task/process.c:221-222 | the new directory gets the 255 kernel entries, its user half stays empty |
| Processes.ProcessTable.UserStack | sys/task/process.c:229-241 | four zeroed frames below the stack top, in a table of their own entered in slot 767 of the new directory |
| Processes.ProcessTable.UserCode | sys/task/process.c:244-256 | the executable page by page in fresh frames, each holding its words and zeros behind them |
| Processes.ProcessTable.CreateProcess | sys/task/process.c:178-291 | a space with pairwise distinct fresh frames, the code loaded, every other space and page unchanged but the new kernel stack; null exactly when the executable is empty or the first temporary mapping fails, panic exactly without a stack address; a call that fails takes no frame if and only if the executable is empty or no stack address is free, otherwise exactly two frames are lost, still mapped at the stack address |
| Processes.NewSpacePages | sys/task/process.c:217-256 | the new space maps the kernel as every space does, the code, the four stack pages, and nothing else |
| Processes.NewSpaceRights | sys/task/process.c:217-266 | of the whole 4 GiB user code of a new process reaches exactly the executable and the four stack pages |
| Processes.SharedKernelHalf | sys/task/process.c:217-222 | where the system invariant holds, all live spaces agree on every kernel entry and kernel page, and no kernel table is free |
| Processes.ProcessTable.FreeTable | sys/task/process.c:327-341 | the frames of one user table are given back in order |
| Processes.ProcessTable.FreeUserHalf | sys/task/process.c:325-343 | the frames of the whole user half, tables included, are given back and nothing else |
| Processes.ProcessTable.DeleteProcess | sys/task/process.c:293-354 | the frames freed are exactly user half, kernel stack and directory; other spaces keep every page, even when the dying space or a freed directory is loaded |
| Processes.BuiltFreed | sys/task/process.c:293-354 | what deletion frees is what creation took, frame for frame |
| Processes.ProcessTable.SwapProcess | sys/ddk/ia32/ctxswitch.c:16 | any live space may be loaded and the kernel keeps working in it |
| Processes.ProcessTable.CreateThenDelete | sys/task/process.c:178-354 | free frames and spaces are as before, each frame freed once; only the kernel stack pages differ, still mapped to freed frames |
| SystemRuns.Kernel.constructor | sys/ddk/ia32/vmm.c:54-141 | the state right after boot has the invariant every operation keeps: no process, each user frame owned by one space |
| SystemRuns.Kernel.MapUser | sys/iomgr/section.c:60-78 | a fresh frame becomes exactly that user page and belongs to that space alone; otherwise nothing changes, and the page was mapped or at most one high frame was left |
| SystemRuns.Kernel.MapDevice | sys/syscall/object.c:116-134 | a frame outside the managed range becomes a user page of any number of spaces, or nothing changes |
| SystemRuns.Kernel.MapKernel | sys/ddk/ia32/vmm.c:143-174 | any kernel page outside the temporary window may be mapped, on a freed directory too: exactly that page appears, unless it was mapped, and the invariant survives |
| SystemRuns.Kernel.AllocatePage | sys/lib/kmalloc.c:315-343 | the lowest free high frame at a kernel page, or nothing changed because there is none or the page is taken; on a freed directory the invariant survives as long as a free frame lies below it |
| SystemRuns.Kernel.Unmap | sys/ddk/ia32/vmm.c:176-201 | any page outside the temporary window may be unmapped: it disappears with its rights, no other right changes, and the invariant survives |
| SystemRuns.Kernel.ScheduleNext | sys/sched/schedule.c:142-145 | a directory is loaded exactly when the thread picked has a process other than the previous thread's; a thread with a process always runs on its directory |
| SystemRuns.Kernel.Create | sys/task/process.c:178-291 | the process list grows by exactly the new process, exactly when creation succeeds; the invariant survives, also after the leak |
| SystemRuns.Kernel.Delete | sys/task/process.c:293-354 | in every reachable state, on a freed directory too, any process may be deleted: no panic, nobody else's frame is freed, nothing becomes free that was not free after boot; the directory in use becomes free exactly when it was the one deleted |
| SystemRuns.Kernel.Exit | sys/syscall/syscall.c:88-96 | after the running process has gone the directory in use is not a free frame if and only if the thread picked belongs to another process; the invariant survives in every case |
| SystemRuns.Kernel.Do | sys/task/process.c:178-354 | one operation changes nothing where it cannot be run, and otherwise does what Stepped says: which page appears or disappears and no other, with which rights, exactly when a process is made or gone, which directory is loaded, whether it is a free frame |
| SystemRuns.Run | sys/task/process.c:178-354 | boot and any sequence of operations, traced state by state: each state follows from the one before by its operation, and in every one all spaces and the directory in use share the kernel half, which is closed to user code, no kernel table is free, every user frame is shown by one space only or is a device's and is neither free nor a paging structure, what is free was free after boot, and a thread with a live process runs in its space |
| SystemRuns.ReuseDirectory | sys/mem/frame.c:130-134 | a freed directory still in use is handed out after exactly as many allocations as there are free frames below it |
| SystemRuns.ClearedDirectory | sys/iomgr/section.c:75 | once its new holder has cleared it, no page at all is mapped |
| SystemRuns.ExitToKernelThread | sys/syscall/syscall.c:88-96 | a process created, run and exited with only a kernel thread to pick: its directory stays in use and is handed out |
| SystemRuns.ValidIsolated | sys/task/process.c:217-222 | the ownership invariant gives that isolation |
| SystemRuns.DeleteIsolationExactly | sys/task/process.c:325-351 | deletion frees no frame another live space shows if and only if that space shows none of the managed frames the process shows |
| SystemRuns.DeletePoolExactly | sys/task/process.c:325-351 | deletion returns only frames that were free after boot if and only if every managed frame the process shows is one |
| SystemRuns.ShareThenDelete | sys/iomgr/section.c:72-73 | a frame mapped into a second space: when its first process goes, it is free and still mapped |
| SystemRuns.UserHalfFrames | sys/task/process.c:325-343 | the frames deletion takes from the user half are the ones its pages show and its tables |
| SystemRuns.OwnedCreate | sys/task/process.c:193-256 | a new process takes only frames nobody owned, and owns them alone |
| SystemRuns.OwnedDelete | sys/task/process.c:325-351 | a deleted process gives up its own frames and no others |
| FrameBitmap.FrameManager.MarkFrameReserved | sys/mem/frame.c:67-71 | exactly that frame stops being free |
| FrameBitmap.FrameManager.MarkFrameAvailable | sys/mem/frame.c:54-65 | exactly that frame becomes free, unless below 8 KiB or above the highest address |
| FrameBitmap.FrameManager.FirstFree | sys/mem/frame.c:79-99 | the lowest free frame of the words searched, 0 exactly when there is none |
| FrameBitmap.FrameManager.AllocateFrame | sys/mem/frame.c:130-134 | the lowest free frame above 1 MiB, held by nobody, or 0 exactly when there is none |
| FrameBitmap.FrameManager.AllocateLowMemory | sys/mem/frame.c:136-140 | the same below 1 MiB |
| FrameBitmap.FrameManager.FreeFrame | sys/mem/frame.c:142-162 | exactly that frame becomes free, whether it was ever handed out or not; a second free, the first two frames and frames above the highest address change nothing |
| FrameBitmap.FrameManager.InitFrameManager | sys/mem/frame.c:101-127 | free are exactly the frames from 2 on that start inside some region; panic exactly without regions |
| FrameRefinement.AllocateFrame | sys/mem/frame.c:130-134 | on the set of clear bits it is the allocation virtual memory relies on |
| FrameRefinement.AllocateLowMemory | sys/mem/frame.c:136-140 | the same for low memory |
| FrameRefinement.FreeFrame | sys/mem/frame.c:142-162 | the same for freeing any frame |
| MemoryMap.SortReservedChunks | sys/mem/mm.c:52-77 | sorted, a permutation, nothing beyond n touched |
| MemoryMap.CollectReserved | sys/mem/mm.c:85-105 | kernel and modules rounded out to pages, at most 64 |
| MemoryMap.SweepExact | sys/mem/mm.c:164-191 | the pieces cover exactly the entry minus the reserved ranges, overlapping ones included |
| MemoryMap.SweepEntry | sys/mem/mm.c:164-191 | the loop appends those pieces until the table is full |
| MemoryMap.AddMemoryRegions | sys/mem/mm.c:78-208 | the table holds the first 64 pieces of all usable entries |
| MemoryMap.PiecesExact | sys/mem/mm.c:78-208 | a byte is in some piece exactly when a usable entry offers it and nothing reserves it |
| MemoryMap.PiecesAreFree | sys/mem/mm.c:78-208 | frame by frame: a piece covers a frame exactly when it is usable and free of kernel and modules |
| MemoryMap.Boot | sys/mem/mm.c:78-208 | memory map to bitmap: a frame is free exactly when usable, from 2 on, and outside the kernel and the first 63 modules |
| RoundRobin.TickWraps | sys/time/timer.c:35-40 | a tick takes one from the quantum modulo 2^32 |
| RoundRobin.DispatchAdvances | sys/sched/schedule.c:80-109 | a dispatch serves a waiting thread or brings it nearer by at least the turn of the thread served |
| RoundRobin.HandleKeeps | sys/task/task.c:160-182 | no handler but a kill or an arrival moves threads, and none touches a waiting one it does not end |
| RoundRobin.KillProgress | sys/task/task.c:160-170 | unlinking another thread never makes a waiting one wait longer |
| RoundRobin.AddProgress | sys/sched/schedule.c:158-170 | an arrival adds at most one turn to the wait |
| RoundRobin.CallProgress | sys/ddk/ia32/sysenter.asm:54-104 | a wake-up, kill or arrival in a system call, whose way out does not reschedule, leaves the bound alone but for the arrival's turn |
| RoundRobin.QuickStep | sys/ddk/ia32/isr.asm:53-66 | the same in an interrupt, where a reschedule that was already due takes place |
| RoundRobin.StepProgress | sys/ddk/ia32/isr.asm:53-66 | every event, also with a reschedule already due, serves the waiting thread or leaves it with a bound a tick has lowered |
| RoundRobin.BoundedWaiting | sys/sched/schedule.c:80-156 | in every run a ready, non-idle thread is dispatched before its bound of ticks has passed |
| RoundRobin.BoundIsTurns | sys/sched/schedule.c:62-77 | that bound is one full turn of the current thread and of everyone ahead |
| RoundRobin.RunnableExactly | sys/task/task.c:153-182 | who can run after an event: exactly those who could and were not stopped by it, and those it roused; only the current thread is ever running |
| RoundRobin.OffUntilRoused | sys/task/task.c:160-182 | a thread that blocks, exits, is killed or is marked by a fault is not dispatched again, in any run, before a wake-up names it |
| RoundRobin.StaysOn | sys/sched/schedule.c:124-140 | a thread that can run, preempted or not, can run in every state of a run until it is stopped |
| RoundRobin.ServedOnceRoused | sys/task/task.c:177-182 | a thread woken up or arrived is dispatched within its bound |
| RoundRobin.FaultThenWake | sys/task/task.c:177-182 | a wake-up makes even a terminated thread ready again |
| RoundRobin.GivesUpExactly | sys/sched/schedule.c:124-156 | at a yield, a block or an exit, and at a tick with its quantum used up or a reschedule due, the current thread loses the processor if and only if another thread is ready |
| RoundRobin.NotBack | sys/sched/schedule.c:80-156 | a thread that cannot run is current after an event only if it was current before |
| Scheduler.RunQueue.FindNext | sys/sched/schedule.c:80-109 | the circular scan ends and finds the first ready non-idle thread after the current one, else the first idle one, null exactly when none is ready |
| Scheduler.RunQueue.SelectNextThread | sys/sched/schedule.c:80-109 | the pick with a fresh quantum, all other threads unchanged |
| Scheduler.RunQueue.ScheduleFrom | sys/sched/schedule.c:124-156 | the switch for a current thread on the list or just unlinked |
| Scheduler.RunQueue.ScheduleNext | sys/sched/schedule.c:124-156 | refines the abstract dispatch; only the current thread is RUNNING afterwards |
| Scheduler.RunQueue.AddThreadToScheduler | sys/sched/schedule.c:158-170 | appends to the chain, which stays finite and acyclic; the first thread becomes current |
| Scheduler.RunQueue.RemoveThreadFromScheduler | sys/sched/schedule.c:172-190 | unlinks exactly that thread, found exactly when listed; the chain stays intact |
| Scheduler.RunQueue.InitSchedulerState | sys/sched/schedule.c:111-121 | everyone ready with a full turn, the current thread running with one tick more; refused exactly on an empty list |
| Scheduler.RunQueue.Tick | sys/time/timer.c:35-40 | refines the abstract tick, including 32-bit wrap-around of the quantum |
| Scheduler.RunQueue.YieldCurrentThread | sys/task/task.c:153-158 | refines the abstract yield: the reschedule is due and the timer's handler has run |
| Scheduler.RunQueue.BlockThread | sys/task/task.c:172-175 | the current thread is BLOCKED and a reschedule is due, which refines the abstract block |
| Scheduler.RunQueue.WakeThread | sys/task/task.c:177-182 | READY unless it was running; refines the abstract wake-up, also of a thread that is not listed |
| Scheduler.RunQueue.DeleteThread | sys/task/task.c:160-170 | the current thread is only marked, any other leaves the ring, an unlisted one changes nothing |
| Scheduler.RunQueue.Admit | sys/task/process.c:280 | a new thread enters the ring where the list's end is, which refines the abstract arrival |
| Scheduler.RunQueue.Exit | sys/syscall/syscall.c:88-96 | the exiting thread is unlinked and never dispatched again; with nothing else ready it stays current |
| Scheduler.RunQueue.ReturnFromInterrupt | sys/ddk/ia32/isr.asm:53-66 | handler plus reschedule is exactly one abstract step |
| Scheduler.RunQueue.ReadyWaits | sys/sched/schedule.c:80-156 | a ready, non-idle thread on the list is one the bounded-waiting theorem speaks of |
| Scheduler.RunQueue.Fault | sys/ddk/ia32/exception.c:41-48 | refines the abstract fault: the main thread of the process is marked terminated and stays listed, and a reschedule is due |
| SchedulerRuns.MeansCost | sys/ddk/ia32/isr.asm:53-66 | the event an operation is takes the operation's ticks and turns and ends no thread the operation spares |
| SchedulerRuns.MeansStops | sys/ddk/ia32/isr.asm:53-66 | that event stops the thread the operation stops and rouses nobody but the one it wakes |
| SchedulerRuns.Do | sys/ddk/ia32/isr.asm:53-66 | every operation with its way out, by interrupt or by sysexit, is one abstract step by the event that operation names, on the thread where it stands; it fails exactly for an exit with nothing else ready |
| SchedulerRuns.ServedWithin | sys/sched/schedule.c:80-156 | in a recorded run a ready, non-idle thread has been current after any number of operations that hold as many ticks as its bound and the turns of those that arrived |
| SchedulerRuns.StaysAway | sys/task/task.c:160-182 | in a recorded run a thread stopped and not woken since is current only as long as it never ceased to be |
| SchedulerRuns.BlockedAt | sys/task/task.c:172-175 | in a recorded run the thread that blocks stays current if and only if nothing else is ready |
| SchedulerRuns.Run | sys/sched/schedule.c:80-156 | any sequence of operations on the list is an abstract run, recorded with the trial order before each operation, the event it is and the thread current after it, up to an exit with nothing else ready; every ready, non-idle thread becomes current within its bound; one that has blocked, exited, been deleted or been marked by a fault, once it has lost the processor, does not become current again before it is woken; one that blocks loses it exactly when another is ready |
| Ports.Body | sys/syscall/ipc.c:119-121 | a receiver gets the header and, byte by byte, the payload the header counts |
| Ports.TailIsFree | sys/syscall/ipc.c:50-57 | whatever is written to the tail slot, the queue does not change |
| Ports.Push | sys/syscall/ipc.c:92-93 | advancing the tail appends the message written there |
| Ports.Pop | sys/syscall/ipc.c:116-124 | advancing the head removes the oldest message and keeps tail = head + count mod 12 |
| Ipc.Port.EnqueueMessage | sys/task/message.c:23-32 | full exactly at 12; else the message, byte by byte, is last in the queue and the owner is woken |
| Ipc.SendMessage | sys/task/message.c:35-59 | sender 0, no reply handle; accepted exactly when the port exists, has room and the payload fits, and then last in the queue with the id, kind, protocol, length and bytes sent; else nothing changes |
| Ipc.HandleTable.Append | sys/iomgr/object.c:63-73 | the lowest free slot, -1 exactly when full; no other slot changes and bitmap and slots stay in step |
| Ipc.HandleTable.Delete | sys/iomgr/object.c:75-81 | exactly that slot is emptied and its object returned |
| Ipc.HandleTable.Find | sys/syscall/ipc.c:72-82 | the lowest of slots 0 to 30 holding the object, -1 when none of these does |
| Ipc.ReplyHandleHolds | sys/syscall/ipc.c:68-88 | a translated handle holds the object, no other slot changes, and it is refused exactly when slots 0 to 30 lack the object and no slot is free |
| Ipc.DuplicateExactly | sys/syscall/ipc.c:72-86 | a second handle appears, or the reply is refused, exactly when the object sits only in slot 31 |
| Ipc.ReplyReachesPort | sys/syscall/ipc.c:64-90 | a reply handle naming a port arrives as -1 or as the receiver's own handle to the same object |
| Ipc.OverwriteBody | sys/syscall/ipc.c:50-57 | bytes of an older message are never part of a newer one |
| Ipc.Deliver | sys/syscall/ipc.c:50-96 | a payload length beyond the bytes sent is refused without a trace in the queue; else the stamped message is queued |
| Ipc.AcceptedExactly | sys/syscall/ipc.c:32-57 | a send is accepted if and only if the handle names a port with an owner and room and the bytes given are readable and hold header and payload |
| Ipc.Send | sys/syscall/ipc.c:32-97 | every status exactly when; a failed send leaves queue, owner and tables alone; a successful one queues the message with its id, kind, protocol, length and bytes, the sender's pid and the translated reply handle |
| Ipc.Port.Receive | sys/syscall/ipc.c:110-125 | the oldest message: the header in the head slot and byte by byte its payload; gone even when it could not be copied out; an empty port blocks the caller |
| Ipc.ReceiveCall | sys/syscall/ipc.c:100-126 | every status exactly when, and only the owner's process may take a message |
| IpcRuns.PostInv | sys/syscall/ipc.c:92-96 | queueing and waking keeps the invariant |
| IpcRuns.TakeInv | sys/syscall/ipc.c:110-125 | one pass of the receive loop keeps the invariant |
| IpcRuns.UserSendInv | sys/syscall/ipc.c:50-97 | so does a send, which may add the reply object to the receiver's table |
| IpcRuns.KernelSendInv | sys/ddk/ia32/irq.c:109-130 | so does an interrupt message, which also wakes the subscribed thread |
| IpcRuns.CloseInv | sys/iomgr/object.c:75-81 | so does closing a handle, which ends only the promise about that slot |
| IpcRuns.StepInv | sys/syscall/ipc.c:32-126 | so does every step of sender, kernel, receiver, handle tables and scheduler |
| IpcRuns.RunInv | sys/syscall/ipc.c:32-126 | after every run nothing sent is forgotten; the messages accepted are some of those the events sent, in that order, each with its id, kind, protocol, length and bytes; the queue is what was accepted and not yet taken, in order; sender 0 exactly for kernel messages; a reply handle names the sender's object until closed; no owner sleeps on a message |
| IpcRuns.StepAccepts | sys/syscall/ipc.c:50-96 | each step adds to a port at most the message that step sends |
| IpcRuns.LostExactly | sys/syscall/ipc.c:100-126 | of the threads allowed to receive on a port, no run loses a wake-up of thread t if and only if t owns the port |
| IpcWorld.World.constructor | sys/iomgr/port.h:26-36 | a system of ports, threads and tables in which nothing has been sent yet has the machine's invariant |
| IpcWorld.World.Send | sys/syscall/ipc.c:32-97 | the send code is one machine step: it touches one port, its owner and the owner's table, and no other port, thread or table |
| IpcWorld.World.KernelSend | sys/ddk/ia32/irq.c:109-130 | the relayed interrupt is one machine step |
| IpcWorld.World.Receive | sys/syscall/ipc.c:100-126 | the receive code is one machine step, and the message it returns is the oldest accepted one not yet taken, with the bytes its sender put in |
| IpcWorld.World.Resume | sys/syscall/ipc.c:110-126 | so is every further pass of its loop |
| IpcWorld.World.Switch | sys/sched/schedule.c:124-156 | so is a switch to any ready thread |
| IpcWorld.World.Wake | sys/task/task.c:177-182 | so is a wake-up |
| IpcWorld.World.Kill | sys/task/task.c:160-170 | so is marking a thread terminated |
| IpcWorld.World.Open | sys/iomgr/object.c:63-73 | so is adding an object to a handle table |
| IpcWorld.World.Close | sys/iomgr/object.c:75-81 | so is removing one |
| IpcWorld.World.Run | sys/syscall/ipc.c:32-126 | any sequence of these calls on the objects is the machine's run, and what each port has accepted is what those calls sent, in their order |
| IpcWorld.World.Laws | sys/syscall/ipc.c:32-126 | so after any run each ring holds exactly the messages sent and not taken, in order, with the bytes sent, their stamps and reply handles; bitmaps match slots; no owner sleeps on a message |
| SectorCache.StepNoDuplicates | base/idedrv/rw.c:49-93 | no key is ever cached twice |
| SectorCache.WriteCoherentExactly | base/idedrv/rw.c:212-251 | a write keeps the cache coherent if and only if no surviving slot for that sector disagrees with what it left |
| SectorCache.RunMatches | base/idedrv/rw.c:166-251 | every run of a clean client, failed reads and writes included, gets the bare drive's replies |
| SectorCache.AliasShows | base/idedrv/rw.c:149-164 | two addresses of one sector, or a write that fails half-way: a run of three requests whose replies differ |
| SectorCache.HiddenError | base/idedrv/rw.c:166-205 | a read, then a failing read of the same address: the cache answers where the drive would not |
| SectorCache.CacheTransparentExactly | base/idedrv/rw.c:149-251 | the cached driver is indistinguishable from the bare drive if and only if no sector is written under another address than it is read under, none that is read can be left half written, and no address is read both with and without an error |
| SectorCache.CleanExactly | base/idedrv/rw.c:149-251 | for one set of addresses and a drive that never fails that means: no two of them name one sector; with a failing write among them it never holds |
| SectorCache.NormalKeysInjective | base/idedrv/rw.c:149-164 | 28-bit addresses with bus and drive 0 or 1 always do |
| SectorCache.SlotKeptExactly | base/idedrv/rw.c:49-93 | a cached sector leaves its slot if and only if it is replaced on disk or a miss finds the rotation there; any other miss brings the rotation one slot nearer |
| SectorCache.CachedForFifteen | base/idedrv/rw.c:49-93 | in every run a sector just read is answered from the cache until it is written or fifteen others have been loaded |
| SectorCache.Driver.LoadCache | base/idedrv/rw.c:49-60 | the rotating slot is replaced and the counter wraps at 16 |
| SectorCache.Driver.CheckCacheForSector | base/idedrv/rw.c:63-76 | the first valid slot with that key, -1 exactly when there is none |
| SectorCache.Driver.InvalidateCache | base/idedrv/rw.c:85-93 | every slot with that key is zeroed, all others kept |
| SectorCache.Driver.ReadFromDisk | base/idedrv/rw.c:166-205 | refines the cached read |
| SectorCache.Driver.WriteToDisk | base/idedrv/rw.c:212-251 | refines the cached write in all three outcomes |
| FileReaders.ReadFromDisk | bootmanager/core/storage/diskread.c:92-115 | chunked or not, the sectors asked for in order, and failure exactly when one of them cannot be read; below 1 MiB the count is taken modulo 65536 |
| FileReaders.AskedExactly | bootmanager/core/storage/diskread.c:47-60 | the sectors read are as many as wanted if and only if the destination is above 1 MiB or fewer than 65536 are wanted |
| FileReaders.ReadsUnique | bootmanager/core/fs/fat32/fat32.c:212-257 | what a read returns is determined by the file, the cursor and the size |
| FileReaders.ReadsSplit | bootmanager/core/fs/fat32/fat32.c:212-257 | reading n bytes and then m is reading n + m |
| FileReaders.ReadCluster | bootmanager/core/fs/fat32/fat32.c:228-252 | the sector loop copies the rest of one cluster, or as much as wanted, or stops at the sector in error |
| FileReaders.ReadFileFAT32 | bootmanager/core/fs/fat32/fat32.c:212-257 | the bytes at the cursor along the cluster chain, up to n or the chain's end; -1 exactly at an unreadable sector; the cursor moves by what was read |
| FileReaders.StreamIsChain | bootmanager/core/fs/fat32/fat32.c:95-119 | the file is its clusters concatenated in chain order |
| FileReaders.ChainExtent | bootmanager/core/fs/fat32/fat32.c:108-119 | a position exists exactly when it lies inside the chain |
| FileReaders.ChainSlice | bootmanager/core/fs/fat32/fat32.c:212-257 | a read is that slice of the clusters the code follows, of length min(n, what is left) |
| FileReaders.ClusterIsSlice | bootmanager/core/fs/fat32/fat32.c:94-106 | the data area is the sectors right after the last FAT; cluster 2 is its first stretch and cluster c the one from (c - 2) to (c - 1) clusters on |
| FileReaders.EntryIsLink | bootmanager/core/fs/fat32/fat32.c:108-119 | if bytes 4c to 4c + 3 of the first FAT, right after the reserved sectors, are the little-endian word e, the next cluster is e without its top four bits |
| FileReaders.FollowsLinks | bootmanager/core/fs/fat32/fat32.c:219-256 | following a chain visits the clusters the FAT links, one after another, and stops where the FAT does |
| FileReaders.ReadIsSlice | bootmanager/core/fs/fat32/fat32.c:212-257 | for a volume whose sector numbers fit 32 bits: a read in a file whose clusters the FAT links is that slice of those clusters as they lie in the data area, of length min(n, what is left) |
| FileReaders.FailsAtSector | bootmanager/core/fs/fat32/fat32.c:235-238 | a read that fails has given the bytes of the file up to the sector that cannot be read, which is that cluster's place in the data area |
| FileReaders.ReadFileISO9660 | bootmanager/core/fs/iso9660/iso9660.c:225-259 | the bytes at the cursor up to n or the file size, cut short only at an unreadable sector; ended exactly at the end |
| FileReaders.IsoIsExtent | bootmanager/core/fs/iso9660/iso9660.c:225-259 | a file is consecutive sectors cut off at its size: a read is that slice of them |
| Print.Generate | libc/generic/stdio.c:45-60 | the digits come out reversed and never leave the 66-byte buffer |
| Print.Bputud | libc/generic/stdio.c:45-62 | appends the digits of the number, as far as they fit |
| Print.Convert | libc/generic/stdio.c:164-224 | each conversion appends its text and takes its argument |
| Print.Vsnprintf | libc/generic/stdio.c:151-238 | the longest prefix of the full output that leaves room for the terminator, nothing past it touched, and the full length capped at INT_MAX (section 7.21.6.12 of C11); the full output is the only text the format spells |
| Print.Atoi | libc/generic/stdlib.c:21-38 | blanks, sign and the longest run of digits; overflow exactly when the number exceeds INT_MAX |
| Print.NumberOfDigits | libc/generic/stdio.c:45-62 | in every base from 2 to 16 and either case the printed digits denote the number, with no leading zero |
| Print.NumeralUnique | libc/generic/stdio.c:45-62 | a number has one numeral without leading zeros in each base and case |
| Print.ConvertedExactly | libc/generic/stdio.c:164-224 | what a conversion prints is the one text it is for: %u the decimal numeral, %x and %X the hexadecimal one in small or capital letters, %p the same after 0x, %d and %i the sign and the decimal numeral, %c the character, %s the text or (null), %% a percent sign, %f nothing, any other itself |
| Print.SpelledExactly | libc/generic/stdio.c:151-226 | what a format prints is the one text in which every conversion prints its own argument, in order, and all else stands for itself |
| Print.RenderedInt | libc/generic/stdio.c:177-190 | the full output of the format %d is the signed decimal text |
| Print.AtoiUndoesPrintExactly | libc/generic/stdlib.c:21-38 | atoi gives back what %d printed if and only if it is not INT_MIN |

## Left out

- The kernel's own heap, ELF loading, directory search in FAT32 and ISO 9660, the VGA console, keyboard and PIC drivers, device objects and sections: they would add easier members.
- Translation look-aside buffers and cache invalidation: page walks are always up to date in the model.
- BootHeap.Allocator.Kmalloc: requests above one page are excluded, because the source then uses a null slab cache.
- BootHeap.Run: for the same reason no run contains such a request.
- BootHeap.Allocator.Kfree: pointers into the middle of a block are admitted only where the source rejects them; freeing another address corrupts the heap in the source too.
- Processes.ProcessTable.CreateProcess: requires the two stack frames, and, if the first temporary mapping succeeds, enough frames and temporary slots for the rest, because the source uses those results unchecked; executables above 768 pages are excluded, because the source then writes past its page table; thread and heap allocation and I/O permissions are not modelled.
- Processes.ProcessTable.UserCode: executables above 768 pages are excluded for the same reason.
- Processes.ProcessTable.DeleteProcess: requires that the process maps no paging structure, which SystemRuns.Kernel.Delete shows of every reachable state; object handles and port permissions of the process are not modelled.
- Processes.ProcessTable.CreateThenDelete: nothing runs in between; SystemRuns.Run covers what may.
- SystemRuns.Run: user pages get frames fresh from the allocator or device frames outside the managed range; frames shared by two spaces and devices inside that range are covered by SystemRuns.DeleteIsolationExactly, SystemRuns.DeletePoolExactly and SystemRuns.ShareThenDelete only; kernel mappings avoid the temporary window, as the source's do.
- SystemRuns.Kernel.Do: while the directory in use is a free frame, user mappings and creations are left out, because it belongs to no process any more and because processes are created at boot only; an allocation is left out once no free frame lies below that directory, and SystemRuns.ReuseDirectory says what it would return.
- SystemRuns.Kernel.ScheduleNext: a thread of a process deleted earlier is picked only right after the deletion, because the source then follows a pointer to freed memory.
- VirtualMemory.Vmm.MapSinglePage: physical addresses and the twelve flag bits are kept apart, as the aligned callers do; addresses in the recursive window are excluded, because a store there edits the tables themselves.
- VirtualMemory.Vmm.UnmapSinglePage: addresses in the recursive window are excluded, as for mapping.
- MemoryMap.Boot: exact only when at most 64 pieces arise; MemoryMap.AddMemoryRegions states what is kept otherwise.
- RoundRobin.BoundedWaiting: assumes that nobody kills the waiting thread; ticks while every thread is blocked are outside the model.
- SchedulerRuns.Run: threads that arrive have identifiers of their own, and the run ends at an exit that leaves nothing ready.
- Scheduler.RunQueue.BlockThread: modelled for the current thread only, the only one the kernel blocks.
- Scheduler.RunQueue.Exit: DeleteProcess, which the system call makes in between, is modelled in Processes; the exiting thread is taken to be the main thread of its process, the one DeleteProcess marks terminated.
- Ipc.SendMessage: requires the handle to name an object, because the source dereferences it.
- Ipc.Port.Receive: is one pass of the blocking loop; the loop over several passes is IpcRuns.Step with its Receive and Resume events.
- IpcWorld.World.Run: threads, ports and tables are fixed at the start; handles to them come and go.
- Ipc.Send: whether user memory can be copied is an input; ports are not deleted while messages are in flight.
- SectorCache.CacheTransparentExactly: each request is one step, because the source drops its lock between lookup and copy.
- FileReaders.ReadIsSlice: where sector numbers exceed 32 bits the code wraps; FileReaders.ChainSlice still holds there.
- FileReaders.ReadFileFAT32: the cursor does not wrap at 32 bits, the boot sector's fields are inputs, and sectors per cluster are not 0.
- FileReaders.ReadFileISO9660: the cursor is at most the file size on entry, as every read leaves it.
- Print.Vsnprintf: the arguments have the types the format asks for, as C requires, and the output index does not wrap at 32 bits.
- Nothing here was executed; no claim is made about timing, compilers or hardware.
