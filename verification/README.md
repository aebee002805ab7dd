# Lithium kernel: memory, tasks, programs and names

A Dafny model of the parts of the Lithium x86-64 kernel whose correctness spans
several functions, with machine-checked proofs. `dafny verify dfyconfig.toml`
checks all of it.

**Frames, page tables and copy-on-write.** `Pmm` is the frame allocator on its
bitmap, reference counts, free counter and hint. `Vmm` keeps page tables inside
the same physical memory that holds user pages, and edits them entry by entry as
the kernel does. `Paging`, `Tables`, `Views` and `Walk` give the invariant, which
is local to one entry, one leaf or one frame at a time: a frame's count is the
number of leaves that map it, and a writable leaf is its frame's only leaf.
`Prune` and `Share` carry the destroy and clone loops. `EagerFork` is the
specification: a process sees a map from pages to bytes and permissions, and fork
copies every page at once. Every run of create, fork, destroy, map, unmap, user
store, kernel copy and switch is a run of that specification, and a run that ends
with the boot space alone gives every frame back. `Boot` builds the kernel's own
tables in six fresh frames, as `vmm_init` does, and every run starts from there.

**User memory, files and programs.** `UserMemory` is the page-by-page copy between
kernel and user space, equal to a byte-by-byte copy on the process view. `Files`
keeps the bytes of a file in a block of the kernel heap that is moved when it must
grow; `FileIO` is the chunked read and write calls on top of it, equal to one
operation on the file contents up to the byte that cannot be moved. `Elf` loads an ELF64 image; every byte and
permission of every loaded page is determined. `ExecStack` lays out argv and envp;
reading the page as the startup code does recovers them. `Words` is the byte order
both use. `Exec` puts these together: execve gives the process a new space with the
image and the stack page, changes nothing for any other process, and leaves no trace
when it fails.

**Tasks.** `Life` is the specification: which processes exist, which one runs, in what
order the others get their turns, who waits for whom, and what fork, yield, exit and
waitpid do to that. `Tasks` and `Sched` follow the links of the run queue, the list of
all tasks and the zombie list. Every run of the scheduler is a run of `Life`; in every
reachable state run queue and zombies partition all tasks, one task runs, a blocked task
has a live child to wait for and no zombie to take, and each task is reaped at most once,
after it exited. `Process` joins tasks and address spaces: every run of fork, exit, wait,
yield, execve and memory accesses, from the boot on, is a run of `Life` in which each task
has a space of its own, the running one is the current one, and what one process does no
other process sees.

**Heap.** `HeapLayout` is the heap as it lies in memory, headers and embedded free
lists included, in words that clients also write. `KernelHeap` is kmalloc, kfree
and krealloc; `HeapRun` shows that over any run each block is a private array.

**Paths and names.** `Paths` is the in-place normaliser against a stack of names;
`NameTree` the vnode tree against a flat map from paths to vnodes; `FsRun` runs of
the kernel's own mkdir and file creation and of creat and chdir of several tasks,
from raw paths.

Objects that the kernel updates are classes whose methods change fields and
arrays; what their fields mean is kept in ghost fields, and the lemmas speak about
those values. Frames, tasks, vnodes and spaces are named by numbers.

## Conditions

These are preconditions. Outside them the code does not do what is stated.

- User pages lie at or above 1 GiB (`user/linker.ld:12`); clone and destroy skip
  what is below. New leaves go onto unmapped pages only: `vmm_map_page` overwrites
  a leaf without releasing its frame. No 1 GiB entries exist.
- Fewer than 65535 address spaces exist when one is cloned, so that no count of a
  shared frame passes the limit that `pmm_ref_frame` asserts.
- Pid 1 does not exit, pids do not wrap.
- Heap requests are below 2^32 bytes, which bounds what a file is asked to grow to,
  only live blocks are freed, and the kernel heap address does not wrap.
- The loadable segments of an image share no page with each other or with the stack
  page, and the image is loaded into a space without user pages.
- Lookups are for paths under 256 bytes; creation is for canonical paths, which is
  what path resolution hands down.

One place where a comment in the source promises more than the code does:
`region_mark_free` says it frees `[base, base + len)`, but it rounds the base down,
so an unaligned region frees a frame that it holds only part of
(`Pmm.MarkFreeStaysInside` gives the exact condition, `Pmm.PartFrameFreed` an input).
A read that faults half-way has moved the file offset past bytes that did not arrive
(`FileIO.SysRead`). The normaliser alone fails when an intermediate path is too long,
even if the result is short (`Paths.DetourMustFit`), but no path call can reach that:
their inputs are shorter than the buffer (`Paths.ShortInputFits`).

## Model

| member | source | states |
|---|---|---|
| `Pmm.FrameAllocator.constructor` | kernel/mm/pmm.c:121-124 | every frame starts used and unreferenced |
| `Pmm.FrameAllocator.Scan` | kernel/mm/pmm.c:241-261 | no frame below the hint is free, so the two-pass scan that skips full bytes finds the lowest free frame |
| `Pmm.FrameAllocator.AllocFrame` | kernel/mm/pmm.c:238-263 | first fit: the lowest free frame, with count 1; fails exactly when no frame is free |
| `Pmm.FrameAllocator.FreeFrame` | kernel/mm/pmm.c:265-276 | one reference less; the frame is free exactly when the last one goes; counter, bitmap and hint stay in step |
| `Pmm.FrameAllocator.RefFrame` | kernel/mm/pmm.c:278-286 | one reference more to a used frame |
| `Pmm.FrameAllocator.Refcount` | kernel/mm/pmm.c:288-293 | the count of a frame |
| `Pmm.FrameAllocator.FindRun` | kernel/mm/pmm.c:298-317 | the lowest run of free frames of the length asked for, none exactly when no such run exists |
| `Pmm.FrameAllocator.AllocContiguous` | kernel/mm/pmm.c:295-319 | takes the lowest adequate run, each frame with count 1; fails exactly when there is none; frees nothing and takes nothing else |
| `Pmm.FrameAllocator.RegionMarkFree` | kernel/mm/pmm.c:39-49 | which frames are free afterwards, with the base rounded down and the end clamped |
| `Pmm.FrameAllocator.RegionMarkUsed` | kernel/mm/pmm.c:52-62 | every frame that meets the region is used afterwards, no other frame changes |
| `Pmm.MarkFreeStaysInside` | kernel/mm/pmm.c:38-49 | the frames marked free lie inside the region if and only if the base is aligned, the region ends in the base's own frame, or that frame is past the known ones |
| `Pmm.PartFrameFreed` | kernel/mm/pmm.c:38-49 | an unaligned region that frees a frame it holds only part of |
| `Pmm.SkipFullByte` | kernel/mm/pmm.c:248 | a byte of 0xFF hides no free frame |
| `Pmm.BitIs` | kernel/mm/pmm.c:24-34 | the mask of a frame in its bitmap byte is one shifted by the low three bits of its number |
| `Walk.WalkIsFlat` | kernel/mm/vmm.c:134-150 | the four-level walk for flags finds what one flat map of leaves says, 2 MiB leaves included |
| `Walk.PhysicalIsFlat` | kernel/mm/vmm.c:116-132 | the walk for addresses agrees with the same flat map, for 4 KiB and 2 MiB leaves |
| `Walk.PteIsFlat` | kernel/mm/vmm.c:50-67 | the slot found is the slot of that page, and it is found exactly when its page table exists |
| `Walk.NoHugePdpt` | kernel/mm/vmm.c:85 | no walk meets a 1 GiB entry |
| `Walk.IndexRoundTrip` | kernel/mm/vmm.c:38-48 | the index functions undo make_virt |
| `Walk.LeafDecides` | kernel/mm/vmm.c:83-94 | the processor, which asks every level, lets a user access through exactly where a user leaf does: opening the upper entries never falls behind |
| `Walk.VirtRoundTrip` | kernel/mm/vmm.c:38-48 | make_virt of the indices of an address is its page |
| `Vmm.PageTables.constructor` | kernel/mm/vmm.c:352-441 | takes over the tables that boot has built, the boot space being the only one |
| `Vmm.PageTables.WalkOrAlloc` | kernel/mm/vmm.c:27-36 | follows an entry or links a fresh empty table there, and the entry is open to user accesses afterwards where that is asked for; no leaf and no mapping changes |
| `Vmm.PageTables.OpenEntry` | kernel/mm/vmm.c:83-94 | setting the user bit of an upper entry keeps the invariant and every mapping |
| `Vmm.PageTables.MapPage` | kernel/mm/vmm.c:80-99 | on success the flat map changes at that page alone, on failure nowhere, whatever tables were added; fails only without frames or over a 2 MiB page |
| `Vmm.PageTables.UnmapPage` | kernel/mm/vmm.c:101-114 | removes exactly that 4 KiB leaf; a no-op where there is none |
| `Vmm.PageTables.MapFilledPage` | kernel/proc/elf.c:57-96 | a fresh frame with the given bytes appears at that page and nothing else changes; on failure the frame is given back; four frames always suffice |
| `Vmm.PageTables.MapZeroPage` | kernel/syscall/syscall.c:649-659 | a zero page appears at that page and nothing else changes; on failure nothing changes in any space |
| `Vmm.PageTables.UnmapUserPage` | kernel/syscall/syscall.c:661-671 | the page disappears and its reference is dropped; every other page of every space stands |
| `Vmm.PageTables.HandlePageFault` | kernel/mm/vmm.c:311-341 | no byte and no permission changes in any space; succeeds exactly for a present copy-on-write user page whose frame is unshared or can be copied, and that page is writable afterwards |
| `Vmm.PageTables.CreateAddressSpace` | kernel/mm/vmm.c:152-183 | a new space with the shared kernel half and nothing mapped; fails, with nothing changed, exactly when two frames are not to be had |
| `Vmm.PageTables.DestroyUserAddressSpace` | kernel/mm/vmm.c:185-242 | exactly the tables and pages of that space are gone, all others stand, shared tables untouched |
| `Vmm.PageTables.CloneUserAddressSpace` | kernel/mm/vmm.c:244-309 | succeeds exactly when the frames for the tables it needs are free; then the child has a copy of every page; on failure tables, pages, free frames and every count are as before |
| `Vmm.FaultReuse` | kernel/mm/vmm.c:324-328 | making an unshared copy-on-write leaf writable keeps the invariant and every view |
| `Vmm.FaultCopy` | kernel/mm/vmm.c:330-340 | replacing a shared leaf by one to a copied frame keeps the invariant and every view |
| `Views.CountIsLeaves` | kernel/mm/vmm.c:275-291 | between operations the count of a user frame is the number of leaves that map it, over all spaces |
| `Views.AllocatorDetermined` | kernel/mm/vmm.c:194-309 | equal tables and mappings mean equal free sets and equal counts |
| `Share.SharersBound` | kernel/mm/pmm.c:284 | fewer leaves than spaces share a frame, so a clone cannot overflow its count |
| `Share.FramesTaken` | kernel/mm/vmm.c:244-309 | a clone takes exactly one frame for each table on the way to a mapping |
| `Boot.BootOk` | kernel/mm/vmm.c:359-428 | the six tables of vmm_init, with their supervisor entries, their holes and the higher half, keep the invariant; one space, no user page |
| `Boot.VmmInit` | kernel/mm/vmm.c:352-428 | from any allocator with six free frames: the first 1 GiB maps to itself but for the null page and the guard page, the first 2 MiB also at KERNEL_VMA, no address is open to user accesses, and no other frame changes |
| `Boot.FillFirst` | kernel/mm/vmm.c:381-385 | the first table with its two holes |
| `Boot.FillWindow` | kernel/mm/vmm.c:393-396 | the window directory: one table and 511 leaves of 2 MiB |
| `Vmm.TablesGrown` | kernel/mm/vmm.c:80-99 | mapping a page adds at most three tables |
| `Vmm.SpaceUndone` | kernel/sched/task.c:109-132 | a space that is made, filled and destroyed leaves tables, mappings, free frames and counts as they were |
| `EagerFork.DoFork` | kernel/mm/vmm.c:244-309 | fork is an eager copy of every page, and runs out of memory only when the tables do not fit |
| `EagerFork.DoDestroy` | kernel/mm/vmm.c:194-242 | destroying a space removes its pages and no other |
| `EagerFork.WriteAccess` | kernel/mm/vmm.c:311-341 | a user write, checked by the processor at every level, reaches a frame of its own, after a fault where the page was shared; refused exactly where the page is not effectively writable, or shared with no frame left |
| `EagerFork.UserStore` | kernel/mm/vmm.c:311-341 | a user store changes one byte of one page of one space |
| `EagerFork.Perform` | kernel/mm/vmm.c:152-341 | each operation is a step of the eager specification, and reports want of memory only where frames are wanting |
| `EagerFork.Run` | kernel/mm/vmm.c:152-341 | every run over any number of spaces is a run of the eager specification in which each operation falls short only where frames do; a run from and to the boot space alone restores the free set and every count |
| `EagerFork.AllReturned` | kernel/mm/vmm.c:194-242 | with the same boot tables and no other space, free set and counts are the same |
| `UserMemory.UserPageForCopy` | kernel/syscall/syscall.c:99-126 | finds the frame byte of a user address that may be accessed, breaking sharing before a write; no view changes; refused only where the access is not allowed or a shared page has no frame left for its copy |
| `UserMemory.CopyToUser` | kernel/syscall/syscall.c:128-168 | the range changes byte by byte in the current space and nothing changes in any other; every byte written was writable; on failure a prefix is written and the next byte is not writable, its page is shared and no frame is left, or the range leaves user space |
| `UserMemory.CopyFromUser` | kernel/syscall/syscall.c:128-164 | yields every byte of the range as the process sees it; on failure the next byte is not mapped or the range leaves user space |
| `UserMemory.WriteBytesSplit` | kernel/syscall/syscall.c:141-157 | writing two chunks one after the other is writing both at once |
| `UserMemory.WriteBytesInPage` | kernel/syscall/syscall.c:149-153 | a chunk inside one page is a splice of that page |
| `UserMemory.BytesStored` | kernel/syscall/syscall.c:128-168 | what a copy to user memory wrote is read back byte by byte, and every other byte is as it was |
| `Files.PutByte` | kernel/fs/vfs.c:170 | a byte stored into a word of a block changes that byte of the block alone |
| `Files.StoreBytes` | kernel/fs/vfs.c:170 | memcpy into a heap block changes that range of that block, and no other block |
| `Files.KZalloc` | kernel/mm/heap.c:169-173 | a new block of zeros, all other blocks with their contents; NULL exactly when the heap cannot serve it |
| `Files.Regrow` | kernel/fs/vfs.c:164-168 | krealloc in bytes: the block starts with the old bytes, all other blocks stand; NULL exactly when neither the old block nor the heap has the size |
| `Files.TmpFile.Read` | kernel/fs/vfs.c:146-153 | min(count, size - offset) bytes, none past the end, and byte i is byte offset + i of the contents |
| `Files.TmpFile.EnsureRecord` | kernel/fs/vfs.c:157-161 | the record is allocated once; fails exactly when the heap has no room for it |
| `Files.TmpFile.Grow` | kernel/fs/vfs.c:163-169 | the contents survive the move of the buffer; no block is lost and no other block changes |
| `Files.TmpFile.Write` | kernel/fs/vfs.c:155-174 | the contents with the buffer written over them, whatever regrowth happens; fails, contents unchanged, exactly when the heap refuses the record or the buffer; a grown buffer has twice the need and 64 bytes; the blocks of others stand and none is leaked |
| `Files.TmpFile.Truncate` | kernel/fs/vfs.c:250-252 | empty contents, the capacity kept |
| `Files.OpenFile.Read` | kernel/fs/vfs.c:83-91 | the same from the file offset, which advances by the bytes read |
| `Files.OpenFile.Write` | kernel/fs/vfs.c:93-101 | the offset advances by the bytes written, and not on failure; at any offset, also past the end |
| `Files.PieceIs` | kernel/fs/vfs.c:146-153 | what a read returns, byte by byte, and how much |
| `Files.WrittenRead` | kernel/fs/vfs.c:146-174 | a read of any part of a range just written gives back what was written |
| `Files.WrittenOver` | kernel/fs/vfs.c:170-172 | a write at or before the end determines the contents |
| `Files.WrittenTwice` | kernel/syscall/syscall.c:275-291 | two writes end to end are one write of both buffers |
| `FileIO.SysWrite` | kernel/syscall/syscall.c:270-294 | chunked writing is one write of the user bytes as the process sees them; it stops early only where the next chunk has a byte that cannot be read or leaves user space, or where the heap refuses, and exactly the bytes before are written then |
| `FileIO.SysRead` | kernel/syscall/syscall.c:308-323 | min(count, size - offset) bytes of the file, byte by byte, arrive in user memory of the current space; on a fault a proper prefix of them, because a byte of the chunk cannot be written or its shared page has no frame, and the offset has moved past the whole chunk |
| `Elf.InnerRange` | kernel/proc/elf.c:73-80 | once a segment's file range is accepted the range of each page is too, and no sum leaves 64 bits |
| `Elf.FillPage` | kernel/proc/elf.c:65-84 | each byte of a filled page is its file byte inside p_filesz and zero elsewhere |
| `Elf.MapSegmentPage` | kernel/proc/elf.c:57-96 | maps that page with the segment's permissions, or changes nothing |
| `Elf.LoadSegment` | kernel/proc/elf.c:143-148 | maps the pages of a segment, first to last |
| `Elf.LoadUserImage` | kernel/proc/elf.c:98-161 | succeeds only for accepted images, with the entry address that bytes 24 to 31 of the file spell and the least page-aligned break above every segment; fails only for rejected ones or without frames |
| `Elf.LoadedByte` | kernel/proc/elf.c:129-153 | every byte of every loaded page is its file byte, at the offsets that the program header spells, or zero; writable and no-execute are the PF_W and PF_X bits of the header in the file |
| `Elf.AcceptedIs` | kernel/proc/elf.c:102-141 | what is accepted, field by field over the bytes of the file: identification, machine, sizes, ranges and alignment |
| `Elf.Fields` | kernel/proc/elf.c:24-51 | the fields the loader reads are the little-endian words at the offsets of the format |
| `Elf.Permissions` | kernel/proc/elf.c:86-88 | writable exactly with PF_W, no-execute exactly without PF_X, read off the flags byte of the file |
| `Elf.PagesAre` | kernel/proc/elf.c:143-148 | the pages of a segment are those its memory range reaches into |
| `Elf.NotLoaded` | kernel/proc/elf.c:129-153 | outside the pages of the segments nothing changes |
| `Exec.LoadImage` | kernel/sched/task.c:98-140 | a new space with the image and a zero stack page, the entry address and the break; on failure tables, pages, free frames and every count are as before; an accepted image loads whenever four frames a page and a few more are free |
| `Exec.ReplaceUserElf` | kernel/sched/task.c:368-413 | the process moves to a new space with image and stack contents, with the entry and the break of the image, and its old pages are gone; on failure nothing has changed |
| `Exec.Execve` | kernel/syscall/syscall.c:587-647 | as above, and the stack page reads back as argv and envp from an aligned stack top; fails only for a rejected image, arguments that do not fit or want of frames |
| `Exec.ProcessSees` | kernel/sched/task.c:368-413 | afterwards the process sees every byte and permission of its image, as the bytes of the file spell them, and its stack page |
| `Exec.OthersSee` | kernel/sched/task.c:368-413 | every other process sees what it saw |
| `Exec.LoadUndone` | kernel/sched/task.c:381-387 | a space that was filled and destroyed again leaves tables, mappings, free frames and counts as they were |
| `ExecStack.PushQword` | kernel/syscall/syscall.c:511-520 | the word reads back and its lowest byte comes first, bytes above stand; fails exactly without room |
| `ExecStack.PlaceString` | kernel/syscall/syscall.c:522-534 | the text with its NUL lies at the address returned, bytes above stand |
| `ExecStack.PushPointers` | kernel/syscall/syscall.c:556-581 | both NULL-terminated vectors and argc below the strings, 16-byte aligned; after the size check no push fails |
| `ExecStack.BuildExecStack` | kernel/syscall/syscall.c:536-585 | the startup code recovers exactly argv and envp; aligned; fails exactly for too many strings or when texts, NULs and pointers exceed the page |
| `ExecStack.Crt0Reads` | user/lib/crt0.asm:11-13 | reading argc, argv and envp off the page recovers the texts that were placed |
| `ExecStack.Crt0Means` | user/lib/crt0.asm:11-13 | what the startup code finds, byte by byte: argc, the pointers of argv and a NULL, the pointers of envp and a NULL, each leading to its text and NUL |
| `ExecStack.BytesAdd` | kernel/syscall/syscall.c:522-534 | the room for texts adds up, one byte for each NUL |
| `Words.LeRoundTrip` | kernel/syscall/syscall.c:517-518 | a word written byte by byte reads back |
| `Words.FromLeRoundTrip` | kernel/syscall/syscall.c:517-518 | bytes read as a word are the bytes of that word |
| `Words.LeByte` | kernel/syscall/syscall.c:517-518 | byte k of a word is its digit of weight 256^k |
| `Words.WordIs` | kernel/proc/elf.c:24-51 | words of two, four and eight bytes are the weighted sums of their bytes, lowest first |
| `Sched.Kernel.PickNext` | kernel/sched/sched.c:77-83 | the first task after the current one in ring order that is READY or RUNNING, all passed over BLOCKED or DEAD; or where the scan ends if there is none |
| `Sched.Kernel.SchedAdd` | kernel/sched/sched.c:27-40 | the new task stands right after the current one, the ring stays one cycle of count members |
| `Sched.Kernel.SchedRemove` | kernel/sched/sched.c:42-55 | exactly that task leaves the ring, which stays one cycle of count members |
| `Sched.Kernel.Schedule` | kernel/sched/sched.c:57-122 | from a live task to the first READY or RUNNING one after it, all passed over BLOCKED or DEAD; from a dead task to its parent, the ring keeping its order; the idle fallback is never needed |
| `Sched.Kernel.ReparentChildren` | kernel/sched/task.c:60-75 | exactly the children of the parent given pass to init, which is woken |
| `Sched.Kernel.Zombify` | kernel/sched/task.c:142-150 | the dead one heads the zombie list, its children pass to init, its parent is woken |
| `Sched.Kernel.TakeZombie` | kernel/sched/task.c:160-173 | takes the latest zombie child that matches off both lists, one exactly when there is one |
| `Sched.Kernel.HasChild` | kernel/sched/task.c:152-158 | true exactly when a child, live or dead, matches |
| `Sched.Kernel.Unregister` | kernel/sched/task.c:77-87 | exactly that task leaves the list of all tasks |
| `Sched.Kernel.Waitpid` | kernel/sched/task.c:190-213 | bad arguments are refused; a child is reaped exactly when a zombie matches, is gone, and its status has the low eight bits of the code it exited with in the second byte; no child exactly when none matches |
| `Sched.Kernel.WaitRound` | kernel/sched/task.c:194-212 | one look of the wait: reap the latest match, give up, come back or block, each exactly when it is due, as the specification says; the invariant is kept |
| `Sched.Kernel.ReapDetached` | kernel/sched/task.c:175-188 | the idle loop finds no zombie without a parent: every zombie has a live parent |
| `Sched.Kernel.Fork` | kernel/sched/task.c:237-288 | the child has the next pid, is ready, next in line and a child of the caller; nothing changes on failure |
| `Sched.Kernel.Yield` | kernel/sched/sched.c:124 | the next ready task in line runs, all it overtakes are blocked, and the ring keeps its order |
| `Sched.Kernel.Exit` | kernel/sched/task.c:415-420 | the caller becomes the latest zombie with its code, its parent runs, its children are those of init, which is woken, and the invariant is kept |
| `Sched.Kernel.Run` | kernel/sched/task.c:142-213 | every run of the scheduler is a run of the specification; and over every run run queue and zombies partition all tasks, one task runs, no wakeup is lost, no task is reaped twice or before it exited, and statuses are those of the exits |
| `Sched.NoDeadlock` | kernel/sched/task.c:205-212 | while some task is blocked a task other than idle is READY or RUNNING |
| `Sched.StatusBytes` | kernel/sched/task.c:198-200 | the status is the low eight bits of the code in the second byte, where the shell looks for them |
| `Life.ExitThenWait` | kernel/sched/task.c:142-213 | exit and wait make a pair: the parent of the exited child runs, and its wait for that child or for any takes that child with the low eight bits of its code |
| `Life.CloserEachTurn` | kernel/sched/sched.c:77-83 | each turn brings a ready task nearer |
| `Life.NearerOrSame` | kernel/sched/sched.c:57-124 | tasks that yield or wait leave a ready task where it is or bring it nearer, and nearer whenever another task runs |
| `Life.BoundedWaiting` | kernel/sched/sched.c:57-124 | over every run of yields and waits a task that is ready k places behind the current one has run once the running task has changed k times |
| `Sched.ZombieAlone` | kernel/sched/task.c:160-203 | a zombie is not current, not in the run queue and nobody's parent when it is freed |
| `Sched.IdleFound` | kernel/sched/sched.c:97-98 | the scan cannot miss the idle task |
| `Process.Machine.SwitchSpace` | kernel/sched/sched.c:115-116 | the space of whichever task runs is the current one |
| `Process.Machine.Fork` | kernel/sched/task.c:237-288 | the child has a new space with a copy of every page and is the next in line; fails exactly for idle, without heap memory or without the frames for the tables, and then free set, counts and mappings of user memory are as before |
| `Process.Machine.Exit` | kernel/sched/task.c:415-420 | the caller is the latest zombie with its code, its parent runs in its own space, and the space of the dead task stays until it is reaped |
| `Process.Machine.WaitRound` | kernel/sched/task.c:190-213 | reaps exactly when a zombie matches and gives up exactly when no child does; a reaped child is logged, loses its space and its pages, no other page changes, and that space is never the current one |
| `Process.Machine.Execve` | kernel/syscall/syscall.c:587-647 | the caller goes on in a space of its own and sees there the image, its entry and its break, and a stack page from which the startup code reads argv and envp; no task changes |
| `Process.Machine.Replace` | kernel/syscall/syscall.c:587-647 | execve changes what the caller sees and what no other process sees |
| `Process.Machine.Live` | kernel/sched/task.c:142-288 | fork, exit, wait and yield are steps of the specification of lives, and change nobody's memory but for the copy a child gets and the space a reaped child loses |
| `Process.Machine.Access` | kernel/syscall/syscall.c:649-671 | mapping, unmapping and writing memory reach no page of another process |
| `Process.AccessMeans` | kernel/syscall/syscall.c:649-671 | what mapping, unmapping, storing and copying do to the caller's pages, outright |
| `Process.Machine.Run` | kernel/sched/task.c:89-96 | every run of these calls is a run of the specification of lives; over it each process sees only what it did itself, a child starts with a copy of its parent's memory, nothing of a reaped one is left, calls fall short only where they may, and there are as many spaces as tasks |
| `Process.Start` | kernel/main.c:77-146 | boot leads to such a state: init runs in its own space with its image loaded, its entry and its break known, idle has the boot space and nobody is dead or waits; fails only for a rejected image or without frames |
| `Process.SpacesCount` | kernel/sched/task.c:89-96 | spaces and tasks, zombies included, are equal in number |
| `HeapLayout.BlocksApart` | kernel/mm/heap.c:111-167 | live blocks do not overlap |
| `HeapLayout.BlockAligned` | kernel/mm/heap.h:11 | live blocks are 16-byte aligned and not NULL |
| `HeapLayout.HeadersApart` | kernel/mm/heap.c:18-38 | no word of a live block lies in a slab header or a large-block header |
| `HeapLayout.HeldWord` | kernel/mm/heap.c:96-99 | each word of a live block is held by that block alone |
| `HeapLayout.Poked` | kernel/mm/heap.c:135-137 | a client's store into its block disturbs no header, no free list and no list of slabs |
| `HeapLayout.PokedBlocks` | kernel/mm/heap.c:135-137 | a client's store shows in its block and in no other |
| `HeapLayout.Taken` | kernel/mm/heap.c:135-139 | taking the first free slot keeps the heap sound and hands out a block nobody held |
| `HeapLayout.Given` | kernel/mm/heap.c:181-188 | giving a slot back keeps the heap sound and takes back that block alone |
| `HeapLayout.SlabAdded` | kernel/mm/heap.c:126-133 | a fresh slab in front of its doubly linked list keeps the heap sound |
| `HeapLayout.LargeAdded` | kernel/mm/heap.c:141-165 | a large block over fresh pages keeps the heap sound |
| `HeapLayout.LargeRemoved` | kernel/mm/heap.c:189-206 | unmapping a large block keeps the heap sound and takes back that block alone |
| `HeapLayout.SlotsFit` | kernel/mm/heap.c:71-90 | a slab has as many slots as fit behind its header |
| `KernelHeap.MagicTells` | kernel/mm/heap.c:178-192 | the word at the start of the page tells a slab from a large block: a page count is never the slab magic |
| `KernelHeap.SizeToClass` | kernel/mm/heap.c:53-57 | the smallest class that fits, none above 1024 |
| `KernelHeap.Heap.FindSlab` | kernel/mm/heap.c:121-124 | a slab of the class with a free slot, NULL exactly when there is none |
| `KernelHeap.Format` | kernel/mm/heap.c:71-90 | a header and a free list through all slots, in order, ending in NULL |
| `KernelHeap.Heap.SlabAllocPage` | kernel/mm/heap.c:60-94 | a fresh slab page that no block uses; NULL exactly without a frame or a mapping |
| `KernelHeap.Heap.KMalloc` | kernel/mm/heap.c:111-167 | a new block of the right class or page count, all other blocks with their contents; NULL exactly for size 0 or when no slot, frame or mapping is to be had |
| `KernelHeap.Heap.KFree` | kernel/mm/heap.c:175-207 | that block is gone, all other blocks stand with their contents; NULL is a no-op |
| `KernelHeap.Heap.KRealloc` | kernel/mm/heap.c:209-228 | in place where it fits, else a new block that starts with the old contents; NULL exactly when no such block is to be had, and then the old block stands; size 0 frees |
| `HeapRun.Run` | kernel/mm/heap.c:111-228 | any run of requests and stores is a run on private arrays in which each request succeeds exactly when it can, and the blocks end up aligned, disjoint and clear of every header |
| `Paths.PathPop` | kernel/syscall/syscall.c:185-194 | the buffer goes from the rendering of a stack to that of the stack without its top: to everything up to its last slash, which itself stays only at the front |
| `Paths.PathPush` | kernel/syscall/syscall.c:196-211 | appends a name exactly when the rendering with its NUL fits |
| `Paths.NormalizeAbsolutePath` | kernel/syscall/syscall.c:213-245 | the buffer ends up with the rendering of the folded components; fails exactly when a pushed name does not fit or the path is not absolute |
| `Paths.ResolvePath` | kernel/syscall/syscall.c:247-268 | a relative path continues from the stack of the working directory; the exact condition for success |
| `Paths.NormalForm` | kernel/syscall/syscall.c:213-245 | the result has no empty, "." or ".." component and normalises to itself |
| `Paths.UpOne` | kernel/syscall/syscall.c:229-232 | ".." takes the last name back and stops at the root |
| `Paths.StayOrDown` | kernel/syscall/syscall.c:227-236 | "." changes nothing and a name leads one level down |
| `Paths.FrontFirst` | kernel/syscall/syscall.c:213-245 | only the normal form of the front of a path matters and slashes in a row are one, so that the laws for one name determine every normal form |
| `Paths.NormalizeAgain` | kernel/syscall/syscall.c:213-245 | a result that fitted a buffer normalises into that buffer again |
| `Paths.ComponentsRender` | kernel/syscall/syscall.c:221-232 | splitting a rendering gives the stack back |
| `Paths.RelativeFold` | kernel/syscall/syscall.c:255-267 | joining with the working directory folds on from its stack |
| `Paths.ShortInputFits` | kernel/syscall/syscall.c:196-245 | an input shorter than the buffer never overflows it, whatever its names do |
| `Paths.JoinedFits` | kernel/syscall/syscall.c:255-267 | a relative path that fits when joined to the working directory is resolved |
| `Paths.DetourMustFit` | kernel/syscall/syscall.c:202-204 | the normaliser alone, on a longer input: a path through a name that does not fit fails even if its result is short, and exactly then |
| `NameTree.Vfs.FindChild` | kernel/fs/vfs.c:45-49 | the child of that name, none exactly when there is none |
| `NameTree.Vfs.Lookup` | kernel/fs/vfs.c:31-61 | finds exactly the vnode that the flat map has at the tokens of the path |
| `NameTree.Vfs.VnodeCreate` | kernel/fs/vfs.c:12-27 | one more path in the flat map, every other path and kind as before |
| `NameTree.SplitParentPath` | kernel/fs/vfs.c:179-211 | a canonical path splits into its parent's and its last name; fails exactly for the root or a name of 64 or more |
| `NameTree.Vfs.MkDir` | kernel/fs/vfs.c:213-229 | an existing directory is accepted, anything else there refused; else the path is added exactly when its parent is a directory, its name fits and memory suffices |
| `NameTree.Vfs.CreateFile` | kernel/fs/vfs.c:231-261 | an existing file is accepted, anything else there refused; else the path is added under the same condition |
| `NameTree.CanonicalTokens` | kernel/fs/vfs.c:37-59 | a lookup cuts a canonical path into its stack |
| `NameTree.TokensJoin` | kernel/fs/vfs.c:37-59 | cutting at single slashes undoes joining, empty names included |
| `NameTree.PathClean` | kernel/fs/vfs.c:31-61 | the path of every vnode is canonical, and looking it up finds that vnode |
| `NameTree.SiblingsDiffer` | kernel/fs/vfs.c:213-248 | siblings have different names |
| `FsRun.Resolve` | kernel/syscall/syscall.c:387-394 | a raw path resolves to the canonical path of its target, exactly when it is not empty and fits its buffer, joined to the working directory if it is relative |
| `FsRun.OneName` | kernel/syscall/syscall.c:213-268 | what a name, ".", ".." and an absolute path mean to a task in a directory |
| `FsRun.Perform` | kernel/syscall/syscall.c:387-434 | the kernel's mkdir and file creation, and creat and chdir of a task, as steps on the flat map, and exactly when each succeeds |
| `FsRun.Run` | kernel/syscall/syscall.c:387-434 | over every run the flat map is followed and every working directory names an existing directory |

## Left out

- Hardware: CR3, TLB and `invlpg`, descriptor tables, register saving, interrupts. The current space and the current task are fields, and a switch assigns them.
- Page-table entries: present, write, user, huge, copy-on-write, no-execute and the frame; write-through, cache-disable, accessed, dirty and global bits are not modelled.
- Addresses of frames: frames are numbers and a failed allocation is None, not an address or a sentinel; physical memory is total on allocated frames, so the 1 GiB limit on direct access is not modelled.
- Boot: memory-map parsing is not modelled, so that the free set it leaves is given; the kernel heap, the devices and the timer that start between the tables and init are left out.
- Vmm.PageTables.CreateAddressSpace: a root frame that is given back when the second frame fails keeps its old contents in the model; the code has cleared it by then.
- Vmm.PageTables.MapPage: a leaf that is overwritten is not modelled; the page must be unmapped.
- EagerFork.Run: `sys_brk` and `sys_mmap` are the single pages they map and unmap; their loops and their address choice are left out, and growth that fails half-way is not undone by the code.
- Sched.Kernel.Fork: whether the heap suffices is a parameter; the kernel stack, the register frame, the file table and the working directory of the child are not part of a task record.
- Sched.Kernel.Exit: timer preemption is a yield; the kernel stack that `task_free` releases is left out.
- Process.Machine.Execve: the name, the file read and the descriptors are left out; the failure code does not tell a bad image from want of frames.
- Process.Machine.Fork: the frames behind the kernel heap, where task records and stacks lie, are outside this model.
- Process.Machine.Live: an exit of pid 1 is skipped, since pid 1 does not exit.
- Sched.Kernel.ReparentChildren: the branch for an init that is dead or absent is not modelled, since pid 1 does not exit.
- Life.BoundedWaiting: no claim across fork and exit, where a dying child hands the processor to its parent.
- KernelHeap.Heap.KMalloc: frames and mappings come from a parameter that says how many there are and what new pages hold; the kernel page tables behind heap addresses are not joined to this model. A large request that fails half-way leaves its pages mapped, as the code does.
- KernelHeap.Heap.KFree: the counter of large pages is left out.
- Files.TmpFile.Write: what lies between the end of a file and an offset past it is not defined by the code and not stated; the fields of the record are fields of the class, the record's heap block is only held.
- FsRun.Perform: the descriptor that creat opens afterwards is left out; the paths of mkdir and of the kernel's own files are canonical, as `kernel/main.c:103-131` has them.
- FileIO.SysRead: the keyboard and console cases of descriptors 0 to 2 are left out; which descriptor is which file is left out.
- Elf.LoadUserImage: an image whose segments share pages is outside the precondition; the loader does not check it.
- ExecStack.BuildExecStack: collecting the vectors from user memory is left out; the texts are given.
- NameTree.Vfs.CreateFile: initial contents are left out; the contents of a file are in the file model.
- NameTree.Vfs.Lookup: the lookup hook of a file system is left out, since none is installed.
- Devices, VGA, serial, keyboard, the shell, `kprintf`, power management and user programs: input, output or fixed tables.
