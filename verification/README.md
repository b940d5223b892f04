# Verified models of the JOS kernel, its file server and the lwIP core

This project models the parts of JOS (the MIT 6.828 teaching kernel) and of the lwIP stack
shipped with it whose correctness rests on more than one function, and proves what they are
for. Each module follows one component.

- `Vm`, `Pmap`: two-level page tables, the linked free list and the reference counts of
  `kern/pmap.c`, with building and tearing down an address space (`kern/env.c`) and the page
  system calls. All address spaces together are one flat map from user virtual pages to
  entries, and every operation is stated as a change of that map.
- `CowFork`: copy-on-write fork (`lib/fork.c`) as a state machine whose steps are single
  system calls, single byte copies of the fault handler and single byte writes, for any number
  of environments in any interleaving, which may also allocate, unmap and lend pages and be
  destroyed at any moment. It refines a machine that copies eagerly, as `user/dumbfork.c` does.
- `MemHeap`: the first-fit heap of `net/lwip/core/mem.c`. Headers lie in the heap array itself,
  so writing one destroys any header it overlaps. The heap is proved against lists of blocks.
- `FileSys`, `BlockCache`: the block bitmap, the direct and indirect block map, reading,
  writing and truncation of `fs/fs.c`, and the write-back cache of `fs/bc.c`. The file server
  carries the set of cached blocks, because whether an operation survives depends on it.
- `PipeEof`, `PipeFifo`: end-of-file detection by comparing page reference counts
  (`lib/pipe.c`, `lib/fd.c`), and the shared ring buffer at the level of single loads and
  stores.
- `EnvIds`, `Dispatch`: environment identifiers, the scheduler, and IPC on any number of CPUs
  under the big kernel lock (`kern/env.c`, `kern/sched.c`, `kern/syscall.c`).
- `Timers`: the delta timer list of `net/lwip/core/sys.c` against absolute deadlines, with the
  timed wait of `net/lwip/jos/arch/sys_arch.c` it rests on.
- `Pbufs`, `PbufOrder`: packet buffer chains of `net/lwip/core/pbuf.c` against flat byte
  strings, and the order in which `pbuf_copy` walks two chains.

`dafny verify dfyconfig.toml` checks everything.

## Where the code does not keep a promise

Each of these is modelled as the code has it. The contract or lemma named gives the exact
condition under which the promise holds.

- `sys_page_alloc` takes a page before it looks at its arguments, and a rejected argument loses
  that page: off the free list, mapped nowhere, and no later page call or address-space
  operation brings it back (`Pmap.Memory.SysPageAlloc`, `Pmap.LeakExample`, `Pmap.StaysLeaked`).
- The heap rounds a request up in 32-bit arithmetic. The block granted or kept covers the request
  exactly when the request is at most 2^32 - 4; a request for 2^32 - 1 bytes is granted 12, and
  `mem_realloc`, which promises NULL for a larger size, shrinks the block to 12 for it
  (`MemHeap.GrantedIs`, `MemHeap.ShrunkIs`, `MemHeap.HugeRequestGranted`,
  `MemHeap.HugeRequestShrinks`).
- The cache's fault handler passes the faulting address on unrounded, so a first touch of a
  block survives exactly at its first byte. With a page to be had and a disk that works, a read
  or write therefore kills the server exactly when its first block is uncached and reached past its start, or the pointer to that block lies
  past the first slot of an uncached indirect block (`FileSys.FileServer.FileRead`,
  `FileSys.FileServer.FileWrite`, `FileSys.ReadFaultExample`, `FileSys.SlotFaultExample`).
  Truncation meets the second case alone, and `file_flush` neither, since it starts at slot 0
  (`FileSys.FileServer.FileTruncateBlocks`, `BlockCache.Server.FileFlush`,
  `BlockCache.UnalignedTouchFails`).
- `file_get_block` does not look at the size of the file. It leaves a pointer past the end
  exactly when it adds a block there (`FileSys.GotWithin`, `FileSys.PastEndExample`).
- A pipe read can report end of file with bytes unread: the pipe is found empty, the writer
  writes and closes or is destroyed, and only then the reader asks whether the pipe is closed.
  From the moment the pipe is found empty nothing can be lost exactly when the writer is already
  gone (`PipeFifo.EofDeliversAllIff`). If neither side is ever destroyed there is one more safe
  state, a writer in a call it cannot finish because more bytes are left than the pipe holds
  (`PipeFifo.PeacefulEofIff`, `PipeFifo.EofCanLoseByte`).
- Setting the status of an environment that is on another CPU, setting a blocked receiver
  runnable, and destroying an environment that is already dying on another CPU break dispatch
  safety, and nothing else does. Each is reached by a run from boot (`Dispatch.SafeIff`,
  `Dispatch.UnsafeStatusExample`, `Dispatch.UnsafeWakeExample`, `Dispatch.UnsafeDestroyExample`).
- The comment in `sched_yield` promises a search that starts just after the current environment.
  The code starts at it. Both find the same exactly when the current environment is not runnable
  or no other is (`Dispatch.StartsAtCurrentIff`, `Dispatch.StaysWithCurrent`).
- A timeout that comes late moves every later deadline by as much (`Timers.WaitExactIff`,
  `Timers.OverrunExample`). Timers are never early, but for one case: a head time equal to
  SYS_ARCH_NOWAIT is taken for a request not to wait (`Timers.EarlyOnlyNowait`,
  `Timers.NowaitExample`). A semaphore freed under its waiter is the only other early timeout
  (`Timers.SemWait`).
- `pbuf_cat` and `pbuf_chain` add totals as 16-bit numbers: the chain they leave is consistent
  exactly when the combined length is below 65536 (`Pbufs.PbufCat`, `Pbufs.CatWraps`).
- `pbuf_dechain` promises NULL when the remainder was deallocated. It tests a byte-sized
  count, so with a positive multiple of 256 buffers deallocated it returns the remainder
  (`Pbufs.PbufDechain`, `Pbufs.DechainReturnsDeallocated`).
- `pbuf_copy` promises a copy whenever the target is big enough. Among single packets that is so;
  with an empty buffer behind a source that just fills the target's only buffer, its assertion
  stops the system once every byte is over (`Pbufs.PbufCopyPacket`, `PbufOrder.HaltExample`).

## Model

| member | source | states |
|---|---|---|
| `Vm.RefCountExact` | kern/pmap.c:402-407 | Under the paging invariant the count of every page the allocator manages is the number of user page-table entries, user directory entries and page directories naming it |
| `Vm.FreePageUnmapped` | kern/pmap.c:385-396 | A page on the free list has count 0 and no entry of any address space, no directory entry and no environment names it |
| `Vm.StoreFlat` | kern/pmap.c:908-920 | Because tables are exclusively owned, one store into a page table changes the translation of one user page of one directory and of no other |
| `Vm.RemovedOk` | kern/pmap.c:564-575 | Clearing a mapped entry and dropping its reference keeps the whole invariant, even while another reference is held, and removes exactly one pair from the flat map |
| `Vm.PoppedOk` | kern/pmap.c:368-379 | Taking the head of the free list keeps the invariant and every translation; the page taken had count 0 and was named by nothing |
| `Vm.WithTableOk` | kern/pmap.c:433-459 | Hanging a zeroed page under an empty directory entry keeps the invariant and changes no translation |
| `Vm.WithoutTableOk` | kern/env.c:460-462 | An emptied page table has count exactly 1, and unhooking and freeing it keeps the invariant and every translation |
| `Vm.WithDirOk` | kern/env.c:166-205 | A page made into a directory whose user part is empty keeps the invariant and adds no translation |
| `Vm.InsertedOk` | kern/pmap.c:512-524 | Writing an entry that uses up a held reference restores the invariant and adds one pair to the flat map |
| `Vm.ReleasedOk` | kern/pmap.c:311-354 | Handing an unnamed page with count 0 to the allocator keeps the invariant |
| `Pmap.Memory.constructor` | kern/pmap.c:311-354 | Before any page is handed out the invariant holds and nothing is mapped |
| `Pmap.Memory.PageInit` | kern/pmap.c:311-354 | The free list holds exactly the base pages other than page 0 and the processor-start page, and the pages after the kernel |
| `Pmap.Memory.PageAlloc` | kern/pmap.c:368-379 | NULL exactly when the list is empty; otherwise an unnamed page, zeroed if asked, and no translation changes |
| `Pmap.Memory.PageDecref` | kern/pmap.c:402-407 | The count falls by one and the page joins the list exactly when it reaches 0 |
| `Pmap.Memory.PgdirWalk` | kern/pmap.c:433-459 | Fails exactly when the table is absent and may not or cannot be created, and then changes nothing; otherwise finds the owned table without changing any translation or any user page's count |
| `Pmap.Memory.PageLookup` | kern/pmap.c:537-547 | Finds the mapped page exactly when the two-level walk finds a present entry |
| `Pmap.Memory.PageInsert` | kern/pmap.c:512-524 | On success the flat map changes at that one user page only, also when the same page is inserted again; it fails exactly when a table is needed and no page is free, and then nothing changes |
| `Pmap.Memory.PageRemove` | kern/pmap.c:564-575 | The flat map loses exactly that user page, and a page that carries a held reference survives |
| `Pmap.Memory.EnvSetupVm` | kern/env.c:166-205 | A fresh directory maps no user page, maps itself at UVPT, and is refused exactly when no page is free |
| `Pmap.Memory.EnvFree` | kern/env.c:426-474 | The nested loops leave all other address spaces unchanged; each user page's count falls by exactly the number of this environment's entries for it; the free list gains exactly the pages whose count reached 0, the directory and its tables included; a page lost earlier stays lost |
| `Pmap.RefsSplit` | kern/env.c:426-474 | The entries naming a page are those of one address space plus those of all others |
| `Pmap.TearPage` | kern/env.c:454-458 | Each unmapping inside the loops keeps the account of what has been torn down so far |
| `Pmap.TearEnd` | kern/env.c:465-468 | With all user entries gone, dropping the directory yields exactly the state without that address space |
| `Pmap.UndoPop` | kern/syscall.c:186-212 | Freeing a page just allocated restores the free list and every translation |
| `Pmap.Memory.SysPageAlloc` | kern/syscall.c:186-212 | Success maps the fresh page at one address of one directory and nowhere else; with a page available, -E_BAD_ENV or -E_INVAL come exactly for bad arguments, and then the page is lost; a page lost by an earlier call stays lost |
| `Pmap.Memory.SysPageMap` | kern/syscall.c:230-262 | Each error exactly when its check fails; success copies the source's page to one destination address and no other, and never grants write access the source lacks; failure changes no translation; lost pages stay lost |
| `Pmap.Memory.SysPageUnmap` | kern/syscall.c:271-283 | Succeeds exactly for a known environment and an aligned user address, and removes exactly the translation of that address; lost pages stay lost |
| `Pmap.LeakExample` | kern/syscall.c:186-212 | The counterexample: with one page free, a call for an environment that does not exist leaves that page neither free nor mapped |
| `Pmap.StaysLeaked` | kern/syscall.c:186-212 | What each page operation keeps of a lost page is enough for it to be lost afterwards too |
| `Pmap.OneAddress` | kern/pmap.c:908-920 | A change of one slot of the flat map is a change at one page-aligned address of one directory: no other address has that slot |
| `CowFork.InitInv` | lib/fork.c:164-198 | Any set of environments whose non-shared pages are mapped once satisfies the fork invariant |
| `CowFork.StepInv` | lib/fork.c:22-115 | Every system call, byte copy and byte write keeps it, whatever the other environments are in the middle of, and so do a program's own page calls, a page lent to another environment, and being destroyed at any moment, in the middle of fork or of the fault handler |
| `CowFork.StepRefines` | lib/fork.c:22-115 | Every concrete step is one step of the eager machine, or no step, on what environments see |
| `CowFork.RunRefines` | lib/fork.c:164-198 | Every run from such a state, with any forks, writes, faults, page allocations, unmappings, shared and read-only pages lent within or between environments, and destructions at any moment interleaved, shows a run of the eager machine |
| `CowFork.ReadsAgree` | user/dumbfork.c:25-38 | What an environment would load is what the eager machine holds there |
| `CowFork.WritesIsolated` | lib/fork.c:22-68 | A write changes what no other environment sees outside PTE_SHARE pages |
| `CowFork.MultiplyMappedReadOnly` | lib/fork.c:81-115 | A page with several mappings and no PTE_SHARE is not writable by an environment that is between neither the two calls of duppage nor the calls of the handler |
| `CowFork.DupHidden` | lib/fork.c:81-115 | Mapping a page into the child while the parent can still write it copies nothing yet in the eager view |
| `CowFork.DupCopies` | lib/fork.c:81-115 | On a page the parent cannot write, or a shared or missing one, duppage does to the child exactly what one eager copy does |
| `CowFork.MarkCopies` | lib/fork.c:81-115 | Remapping the parent read-only is the moment the page counts as copied, with whatever the parent wrote in between |
| `CowFork.MarkSame` | lib/fork.c:81-115 | If the parent faulted between the two calls, the copy already stands and the second call changes nothing anyone sees |
| `CowFork.FaultUnmapSame` | lib/fork.c:22-68 | Unmapping the faulting page is invisible, because the private copy is complete |
| `CowFork.CallStep` | kern/syscall.c:186-283 | A program's own allocation or unmapping, a shared or read-only page lent to itself or another, or its end is the same call of the eager machine: a fresh page is zero, a shared page lives as long as somebody maps it, and no other environment sees a change |
| `MemHeap.MallocTiled` | net/lwip/core/mem.c:479-605 | Taking a block, whole or split, leaves the heap tiled without gap or overlap and no two free blocks adjacent |
| `MemHeap.FreeTiled` | net/lwip/core/mem.c:221-254 | Freeing with coalescing both ways keeps the tiling and leaves no two free blocks adjacent |
| `MemHeap.ShrinkTiled` | net/lwip/core/mem.c:354-468 | Shrinking in place keeps the tiling and leaves no two free blocks adjacent |
| `MemHeap.LiveDisjoint` | net/lwip/core/mem.c:479-605 | Live blocks are pairwise disjoint, inside the heap and aligned |
| `MemHeap.MallocLive` | net/lwip/core/mem.c:479-605 | Allocation adds one live block, large enough and disjoint from all others, and changes no other |
| `MemHeap.FreeLive` | net/lwip/core/mem.c:294-340 | Freeing removes exactly that block from the live ones |
| `MemHeap.ShrinkLive` | net/lwip/core/mem.c:354-468 | Shrinking keeps the block where it is, with room for the request, and touches no other live block |
| `MemHeap.FreeUndoesMalloc` | net/lwip/core/mem.c:294-340 | Freeing what was just allocated restores the exact block list |
| `MemHeap.NothingLive` | net/lwip/core/mem.c:259-286 | With nothing live, the heap is the single initial block again |
| `MemHeap.StepTiled` | net/lwip/core/mem.c:294-605 | Every call, failing ones included, keeps the shape invariant |
| `MemHeap.RunTiled` | net/lwip/core/mem.c:259-605 | So does every run from mem_init, and one that freed everything is back at the initial block |
| `MemHeap.RoundedCovers` | net/lwip/include/lwip/mem.h:92 | The rounded size covers the request exactly when rounding does not wrap, and is then less than an alignment unit above it or the minimum |
| `MemHeap.GrantedIs` | net/lwip/core/mem.c:479-605 | The block granted is the one mem_free finds by the pointer handed out, and it covers the request exactly when the request is at most 2^32 - 4 |
| `MemHeap.HugeRequestGranted` | net/lwip/core/mem.c:479-493 | The counterexample: on an empty heap a request for 2^32 - 1 bytes succeeds with 12 |
| `MemHeap.ShrunkIs` | net/lwip/core/mem.c:354-468 | A block shrunk for a request stays where its pointer finds it and covers the request exactly when the request is at most 2^32 - 4 |
| `MemHeap.HugeRequestShrinks` | net/lwip/core/mem.c:354-400 | The counterexample: a request to make a block 2^32 - 1 bytes long shrinks it to 12 |
| `MemHeap.JoinWritten` | net/lwip/core/mem.c:221-254 | The header writes of a merge turn the stored list into the merged one, with prev and next inverse to each other |
| `MemHeap.CutWritten` | net/lwip/core/mem.c:536-559 | The header writes of a split turn the stored list into the split one |
| `MemHeap.TailTooSmall` | net/lwip/core/mem.c:518-519 | Stopping the search at MEM_SIZE_ALIGNED - size loses no block that fits |
| `MemHeap.Heap.constructor` | net/lwip/core/mem.c:259-286 | mem_init writes one free block and a used end marker, with lfree at the start |
| `MemHeap.Heap.PlugHoles` | net/lwip/core/mem.c:221-254 | Both holes around a freed block are closed, headers and lowest-free pointer included |
| `MemHeap.Heap.MemFree` | net/lwip/core/mem.c:294-340 | The stored list becomes the freed and coalesced one; NULL and pointers outside the heap change nothing |
| `MemHeap.Heap.MemMalloc` | net/lwip/core/mem.c:479-605 | NULL exactly for size 0, a size above the heap, or when no free block anywhere fits; otherwise the lowest block that fits, whose pointer mem_free resolves to it, with room for the request exactly when rounding did not wrap; lfree is the lowest free block again |
| `MemHeap.Heap.Search` | net/lwip/core/mem.c:514-531 | The walk from lfree along the next offsets finds the first fit over the whole heap |
| `MemHeap.Heap.MemRealloc` | net/lwip/core/mem.c:354-468 | NULL exactly when the request exceeds the heap or the block, which for a live block means exactly when it is larger than the block and does not wrap when rounded; otherwise the block shrinks in place as the list says, is found by the same pointer, and has room for the request exactly when rounding did not wrap |
| `MemHeap.Heap.UserStore` | net/lwip/core/mem.c:173 | A client overwriting its whole data area destroys no live header |
| `FileSys.FillSlotOwned` | fs/fs.c:174-196 | Giving an unnamed used block to an empty slot keeps every block owned once and changes no other pointer |
| `FileSys.EmptySlotInv` | fs/fs.c:415-429 | Freeing a block and clearing its slot keeps every block owned once, and pointers within their files |
| `FileSys.TakeRoom` | fs/fs.c:57-74 | Allocation fails exactly when no block can be given; otherwise it gives the lowest, one fewer is left, and the next one given is the next lowest |
| `FileSys.GotIs` | fs/fs.c:174-196 | With room for what is missing, getting a block makes exactly that block present, as the block foretold, allocates exactly the missing data and indirect block, and changes no other pointer |
| `FileSys.GotWithin` | fs/fs.c:174-196 | Getting a block leaves no pointer past the end exactly when it lies within the file or was there already |
| `FileSys.PastEndExample` | fs/fs.c:174-196 | The counterexample: block 0 of an empty file is given a block past the end |
| `FileSys.NeedStep` | fs/fs.c:360-411 | The blocks a transfer needs are those for its first block and those the rest needs afterwards |
| `FileSys.UnderFail` | fs/fs.c:360-411 | A transfer that fails on the way, after any number of blocks, fails exactly as the state before its first block foretells |
| `FileSys.SpliceByte` | fs/fs.c:389-411 | Copying into one block changes exactly those bytes of that file and no byte of any other file |
| `FileSys.WroteMore` | fs/fs.c:399-408 | One pass of the write loop extends what is written and leaves everything else readable as it was |
| `FileSys.TruncatedCount` | fs/fs.c:439-455 | Truncation raises the number of free blocks by exactly the number of pointers it drops |
| `FileSys.TruncatedByte` | fs/fs.c:439-466 | Bytes below the new size and all bytes of other files survive truncation |
| `FileSys.FileServer.AllocBlock` | fs/fs.c:57-74 | The lowest free block from 3 on, which no file names, marked used and nothing else changed; refused exactly when all are used |
| `FileSys.FileServer.Touch` | fs/bc.c:29-67 | A first access survives exactly if the block is cached, or is in use and reached at its first byte; then it is cached |
| `FileSys.FileServer.LoadSlot` | fs/fs.c:174-196 | Reading a pointer is fatal exactly if it lies past the first slot of an uncached indirect block |
| `FileSys.FileServer.FileBlockWalk` | fs/fs.c:142-164 | For every block number: each error exactly in its case, no data pointer of any file changes, every block stays owned once, and clearing a new indirect block never faults fatally; pointers stay within the file exactly when no indirect block was added or the file reaches it |
| `FileSys.FileServer.FileGetBlock` | fs/fs.c:174-196 | For every block number: the server dies exactly if the pointer lies past the first slot of an uncached indirect block; -E_INVAL exactly past the largest file; -E_NO_DISK exactly when fewer blocks are free than are missing; otherwise the block is there; every block stays owned once, and pointers within the file exactly when the last block added is within it |
| `FileSys.FileServer.FileFreeBlock` | fs/fs.c:415-429 | Frees exactly the named block and clears exactly its slot, or changes nothing; dies exactly if its pointer cannot be read |
| `FileSys.FileServer.FileTruncateBlocks` | fs/fs.c:439-455 | The file keeps its first blocks, the blocks of all other places of it are free again, and nothing else changes; dies exactly if the first pointer to clear lies past the first slot of an uncached indirect block |
| `FileSys.FileServer.FileSetSize` | fs/fs.c:458-466 | Shrinking truncates, or dies exactly as truncation does; growing changes the size alone; no pointer lies at or past the end |
| `FileSys.FileServer.FileRead` | fs/fs.c:360-381 | Dies exactly if the first block is uncached and reached past its start, or its pointer cannot be read; otherwise succeeds exactly if every hole in the range can be given a block, -E_INVAL coming only past the largest file and -E_NO_DISK only with no free block left; then exactly min(count, size - offset) bytes, each equal to what was there; a range fully backed by blocks changes no state |
| `FileSys.FileServer.FileWrite` | fs/fs.c:389-411 | Dies exactly as reading there would; otherwise succeeds exactly if the range ends within the largest file and enough blocks are free for its missing data and indirect blocks, with the same two errors; on success the whole buffer stands at the offset, otherwise a prefix of it, and every other byte readable before, of this and every other file, is unchanged |
| `FileSys.FileServer.WriteThenRead` | fs/fs.c:360-411 | If a write succeeds, reading the range back finds its blocks cached, succeeds and returns exactly the buffer, across block boundaries and the indirect split |
| `FileSys.ReadFaultExample` | fs/fs.c:360-381 | The counterexample: reading 10 bytes at offset 5 of a 100-byte file whose block is not cached kills the server |
| `FileSys.SlotFaultExample` | fs/fs.c:174-196 | The counterexample: so does asking for block 12 of a file whose indirect block is not cached |
| `BlockCache.EvictIff` | fs/bc.c:76-95 | Dropping a mapped page changes what the server sees exactly when the page differs from the disk; a clean page never does |
| `BlockCache.Server.BcPgfault` | fs/bc.c:29-67 | Survives exactly for an aligned address of an existing block that is not free; then the page is clean and no content changes |
| `BlockCache.Server.Touch` | fs/bc.c:29-67 | An access survives exactly if its block is cached, or exists, is not free and is reached at its first byte; then exactly that block is newly cached and no content changes |
| `BlockCache.UnalignedTouchFails` | fs/bc.c:29-67 | The counterexample: the first touch of a block in use, at its fourth byte, is fatal |
| `BlockCache.Server.FlushBlock` | fs/bc.c:76-95 | Content never changes, the block is on disk and clean, and blocks already written back stay so |
| `BlockCache.Server.FsSync` | fs/fs.c:491-497 | Every block from 1 on is on disk with the content it had |
| `BlockCache.Server.FileFlush` | fs/fs.c:472-488 | With the File structure read through the cache: survives exactly if every pointer met is a block of the disk and the indirect block, when its pointers are needed, is cached or not marked free; then all blocks of the file, its indirect block and the block of its File structure are on disk and no content has changed |
| `BlockCache.SlotBlock` | fs/fs.c:158 | Only the first pointer slot of an indirect block is at an address the fault handler survives |
| `PipeEof.InitInv` | lib/pipe.c:28-72 | Right after pipe the invariant holds |
| `PipeEof.StepInv` | lib/fd.c:174-202 | Every system call of dup, close and the check keeps it under every preemption, and so do fork, exit and kill |
| `PipeEof.RefCounts` | lib/pipe.c:75-89 | The pipe page's count is that of the two descriptor pages plus the operations in flight |
| `PipeEof.ClosedMeansGone` | lib/pipe.c:75-89 | When the check is about to say closed, the other end is mapped nowhere and nothing is in flight |
| `PipeEof.GoneMeansEqual` | lib/pipe.c:75-89 | Conversely, with the other end gone and nothing in flight the counts agree |
| `PipeEof.StaysGone` | lib/fd.c:100-119 | No step brings back an end that has no mapping |
| `PipeEof.NoFalseEof` | lib/pipe.c:75-89 | In every run, once an environment is told the pipe is closed the other end is mapped nowhere, now and in every continuation |
| `PipeFifo.StepInv` | lib/pipe.c:104-172 | Every single load or store of reader and writer, closing of either end, writer giving up for want of a reader, and destruction of either side in the middle of a call keeps the ring-buffer invariant |
| `PipeFifo.Fifo` | lib/pipe.c:104-172 | In every run the bytes returned are a prefix of the bytes stored, at most a bufferful is outstanding, and no unread slot is overwritten |
| `PipeFifo.EofDeliversAllIff` | lib/pipe.c:117-125 | When the reader has found the pipe empty: whatever happens next, destruction included, end of file is not reported with bytes unread exactly if the writer is gone by then |
| `PipeFifo.LoseFrom` | lib/pipe.c:117-125 | From every other such state, also with a writer in the middle of a call of any length, there is a run that reports end of file with bytes unread |
| `PipeFifo.PeacefulEofIff` | lib/pipe.c:117-172 | Over runs in which neither side is destroyed, nothing is lost exactly if the writer is gone, or is in a call with more bytes left than the pipe holds |
| `PipeFifo.EofCanLoseByte` | lib/pipe.c:117-125 | The counterexample: a possible run from the fresh pipe, with nobody destroyed, that ends with a byte unread and end of file reported |
| `EnvIds.IdForm` | kern/env.c:229-233 | The n-th id of a slot in closed form, sign wrap of the 32-bit generation included |
| `EnvIds.IdNamesSlot` | inc/env.h:28-30 | Every id is positive, fits an int32_t and has the slot number in its low bits |
| `EnvIds.IdRepeats` | kern/env.c:229-233 | A slot repeats an id exactly after a multiple of 2^19 - 1 allocations |
| `EnvIds.LiveIdsDistinct` | kern/env.c:215-278 | Live environments have pairwise distinct ids that name their slots |
| `EnvIds.StaleId` | kern/env.c:75-109 | An old id resolves exactly when its slot is live and was reallocated a multiple of 2^19 - 1 times, and never to another slot |
| `EnvIds.EnvTable.constructor` | kern/env.c:117-133 | All slots are free, in ascending order |
| `EnvIds.EnvTable.EnvAlloc` | kern/env.c:215-278 | Each failure exactly in its case and without effect; success takes the head of the free list and gives it its next id |
| `EnvIds.EnvTable.EnvFree` | kern/env.c:471-473 | The slot is free, at the head of the list, and keeps its id for the next generation |
| `EnvIds.EnvTable.Envid2Env` | kern/env.c:75-109 | 0 is the caller; any other id resolves exactly to the live slot that bears it, if the caller may name it |
| `Dispatch.ScanNearest` | kern/sched.c:34-45 | The cyclic search finds a runnable slot if there is one, and the nearest |
| `Dispatch.FindRunnable` | kern/sched.c:34-45 | The loop with its first flag is that search, and finds nothing exactly when nothing is runnable |
| `Dispatch.StartsAtCurrentIff` | kern/sched.c:16-45 | Starting at the current slot, as the code does, and starting just after it, as the comment says, find the same exactly when the current slot is not runnable or no other is |
| `Dispatch.StaysWithCurrent` | kern/sched.c:16-45 | The counterexample: with two runnable slots the code stays with the current one |
| `Dispatch.StepCloser` | kern/sched.c:34-52 | While an environment waits runnable, no kernel entry takes the dispatched slot further from it, and every timer interrupt brings it strictly closer |
| `Dispatch.RunCloser` | kern/sched.c:34-52 | So over a run the distance falls by at least the number of timer interrupts in it |
| `Dispatch.RoundRobin` | kern/sched.c:12-56 | On the whole machine with one CPU: over any run without destruction that holds NENV timer interrupts, whatever calls lie between them, an environment that stays runnable until it is dispatched is dispatched |
| `Dispatch.OnOneCpu` | kern/env.c:530-560 | An environment is running or dying exactly when it is curenv of a CPU, and of one only; a blocked receiver is on none |
| `Dispatch.YieldInv` | kern/sched.c:12-56 | Yielding restores the invariant even if the current environment just stopped running |
| `Dispatch.SendInv` | kern/syscall.c:323-368 | A send, completed or failed half way through its writes, keeps the invariant |
| `Dispatch.RecvInv` | kern/syscall.c:381-398 | Blocking in receive keeps the invariant |
| `Dispatch.DestroyInv` | kern/env.c:481-498 | Destroying an environment that is not dying keeps the invariant |
| `Dispatch.ExoforkInv` | kern/syscall.c:75-94 | A new child that is not runnable keeps the invariant |
| `Dispatch.StepInv` | kern/trap.c:320-364 | Every allowed kernel entry keeps dispatch and rendezvous safe |
| `Dispatch.RunSafe` | kern/syscall.c:323-398 | In every run from boot: running means curenv of exactly one CPU; each completed receive was completed by one send, and what the receiver finds is all from that send |
| `Dispatch.SafeIff` | kern/syscall.c:103-119 | A kernel entry keeps the invariant exactly when it is an allowed one, a condition on the state before it |
| `Dispatch.UnsafeDestroyExample` | kern/env.c:481-498 | The counterexample: a possible run from boot after which a second destroy frees an environment another CPU is on |
| `Dispatch.UnsafeStatusExample` | kern/syscall.c:103-119 | The counterexample: a possible run from boot after which setting the status of an environment running on another CPU breaks dispatch safety |
| `Dispatch.UnsafeWakeExample` | kern/syscall.c:103-119 | The counterexample: the same for setting a blocked receiver runnable |
| `Timers.ViewSorted` | net/lwip/core/sys.c:187-235 | Deadlines never decrease along a delta list |
| `Timers.AddedView` | net/lwip/core/sys.c:187-235 | Insertion on relative times is insertion of the absolute deadline behind all timers due no later, all others unchanged |
| `Timers.RemovedView` | net/lwip/core/sys.c:247-279 | Removal takes out the first match and leaves every other deadline unchanged |
| `Timers.WaitView` | net/lwip/core/sys.c:65-117 | After a wait all remaining deadlines are as before, moved by the time it ended late, or a timeout early, alone |
| `Timers.WaitExactIff` | net/lwip/core/sys.c:65-117 | A wait keeps every remaining deadline exactly when a timeout comes just as the head is due or a message no later, brings them forward exactly when a timeout comes before, and moves all by the same time |
| `Timers.OverrunExample` | net/lwip/core/sys.c:65-117 | The counterexample: a timeout that comes 5 ms after the head was due makes the second timer 5 ms late |
| `Timers.FiresWhenDue` | net/lwip/core/sys.c:65-117 | After every run a timer fires no earlier than it was asked for less the time timeouts were cut short by, and exactly then if no wait ended late or was cut short |
| `Timers.DueAsAsked` | net/lwip/core/sys.c:65-279 | After every run each pending timer is due when it was asked for, late by at most the time waits overran in all and early by at most the time timeouts were cut short in all |
| `Timers.SemWait` | net/lwip/jos/arch/sys_arch.c:169-201 | A wait reports less time than it was given, or a timeout after that time; a timeout comes early only if the time given is SYS_ARCH_NOWAIT, and then at once, or the semaphore was freed |
| `Timers.EarlyOnlyNowait` | net/lwip/jos/arch/sys_arch.c:169-201 | Over every run whose waits end as that function can end them, timeouts are cut short exactly when a head whose time is SYS_ARCH_NOWAIT was waited for without a message there |
| `Timers.NowaitExample` | net/lwip/jos/arch/sys_arch.c:181 | The counterexample: a timer asked for in 2^32 - 2 ms fires at once, and the one behind it is due in 1 ms |
| `Timers.RunRefines` | net/lwip/core/sys.c:65-279 | Over every run, whenever waits end, the delta list is the list of absolute deadlines in which a wait moves the timers behind it by the time it ended late or was cut short, sorted, ties first in first out |
| `Timers.AddedBounded` | net/lwip/core/sys.c:187-235 | Adding a timer keeps every deadline within 32 bits |
| `Timers.BoundedTimes` | net/lwip/core/sys.c:247-279 | Then no entry and no sum of neighbours wraps |
| `Timers.Timeouts.SysTimeout` | net/lwip/core/sys.c:187-235 | The walk with its running subtraction inserts as specified, without wrap |
| `Timers.Timeouts.SysUntimeout` | net/lwip/core/sys.c:247-279 | The walk with its previous pointer removes the first match as specified |
| `Timers.Timeouts.Fetch` | net/lwip/core/sys.c:65-117 | One pass fires the head exactly when it is due or the wait timed out, else shortens it |
| `Pbufs.JoinSplice` | net/lwip/core/pbuf.c:679-732 | Writing into one segment writes at the matching place of the whole and nowhere else |
| `Pbufs.FromFirst` | net/lwip/core/pbuf.c:572-595 | Two chains one after the other spell the two byte strings one after the other |
| `Pbufs.PbufClen` | net/lwip/core/pbuf.c:531-542 | The number of buffers, modulo 256 |
| `Pbufs.PbufFree` | net/lwip/core/pbuf.c:456-522 | Deallocates exactly the leading buffers that had one reference, takes one reference from the next, and leaves the rest; returns the number modulo 256 |
| `Pbufs.PbufCat` | net/lwip/core/pbuf.c:572-595 | The result is linked and spells the concatenation; all totals are right exactly when the combined length is below 65536; a NULL argument changes nothing |
| `Pbufs.CatWraps` | net/lwip/core/pbuf.c:572-595 | The counterexample: two buffers of 40000 bytes make a linked chain whose totals are wrong |
| `Pbufs.PbufChain` | net/lwip/core/pbuf.c:613-620 | As pbuf_cat, and the first buffer of the tail gains one reference |
| `Pbufs.PbufDechain` | net/lwip/core/pbuf.c:630-659 | The first buffer and the rest are two consistent chains that together spell the same bytes; NULL exactly when the number deallocated is not a multiple of 256, or there was no rest |
| `Pbufs.ChainThenDechain` | net/lwip/core/pbuf.c:613-659 | Dechaining undoes chaining: links, totals, bytes and reference counts are as before, and the tail is returned |
| `Pbufs.DechainReturnsDeallocated` | net/lwip/core/pbuf.c:630-659 | The counterexample: with 256 buffers deallocated, a buffer with no reference left is returned |
| `Pbufs.PbufRealloc` | net/lwip/core/pbuf.c:268-327 | The chain left is consistent and spells the prefix of the asked length; the cut-off buffers lose their reference as pbuf_free says; a length not below the total changes nothing |
| `Pbufs.PbufCopy` | net/lwip/core/pbuf.c:679-732 | For any two chains, whatever their totals: the bytes copied are the source's, the target keeps its own after them and the source is untouched; ERR_ARG exactly for NULL or a first total too small, and then nothing changes; ERR_VAL exactly if a packet queue is reached before the loop ends; the stop on a missing target buffer exactly if no queue is met and the target's end is reached first, and then the target is full |
| `Pbufs.PbufCopyPacket` | net/lwip/core/pbuf.c:679-732 | For chains with right totals: two single packets are copied whole, and the stop comes exactly for a target of one buffer and a source of one buffer of that length with an empty one behind it, every byte being over |
| `PbufOrder.CopyEnds` | net/lwip/core/pbuf.c:691-731 | The order in which the two cursors reach the buffers, by bytes before and empty buffers passed, decides how the loop ends, for all lengths and totals |
| `PbufOrder.StillMerged` | net/lwip/core/pbuf.c:696-717 | Every pass moves on the cursor whose next buffer comes first in that order, and both if they come together |
| `PbufOrder.HaltIff` | net/lwip/core/pbuf.c:691-731 | With right totals the stop comes exactly in the one shape of chains |
| `PbufOrder.HaltExample` | net/lwip/core/pbuf.c:691-731 | The counterexample: one byte into a one-byte buffer, with an empty buffer behind the source, stops the system |
| `Pbufs.PbufCopyPartial` | net/lwip/core/pbuf.c:743-779 | Exactly the bytes from offset on, at most len of them and at most to the end |

## Left out

- Vm.RefCountExact: counts entries below UTOP; the kernel's own mappings (`boot_map_region`) take no references and are not modelled.
- Pmap.Memory.PageDecref: reference counts are unbounded; the 16-bit field of the source can wrap.
- Pmap.Memory.PageInsert: TLB invalidation is not modelled.
- Pmap.Memory.SysPageAlloc: permission of the caller over the target (`envid2env`) is a parameter; `EnvIds` models it.
- CowFork.RunRefines: a page that somebody can write and that has no PTE_SHARE is not lent (`spawn` and the file server do that), and other calls on another environment's memory are no steps; a child whose parent ends in the middle of fork is dropped with it, since it never runs; system calls do not run out of memory (the source panics), and no entry has both PTE_SHARE and PTE_COW.
- CowFork.StepInv: only write faults reach the handler; the fault code it tests is the trap number (`kern/trap.c:433`), so its read check has no effect.
- MemHeap.Heap.MemMalloc: each call is atomic; semaphores, protection, statistics and the pool variant are left out.
- MemHeap.Heap.MemFree: a pointer inside the heap must be that of a live block, as the source's assertion demands.
- MemHeap.Heap.MemRealloc: the same for its pointer.
- FileSys.FileServer.FileRead: newly allocated data blocks are not cleared, so nothing is said of bytes never written; off_t is unbounded and sizes are not negative.
- FileSys.FileServer.AllocBlock: the bitmap is a sequence of flags rather than 32-bit words; its blocks and the blocks that hold File structures are taken as cached.
- FileSys.FileServer.Touch: `bc_pgfault` also panics when `sys_page_alloc` finds no page or `ide_read` fails; both are taken to succeed, here and in `BlockCache`.
- BlockCache.Server.FileFlush: what the bitmap says of the indirect block is a parameter, and the block of the File structure is cached, since the caller holds an address in it.
- PipeEof.StepInv: fork and spawn are single steps; one CPU; `env_runs` does not wrap.
- PipeFifo.Fifo: one reader and one writer; the positions do not wrap, and stores become visible in order.
- Dispatch.RunSafe: what becomes of the page argument of a send is a parameter, and `sys_ipc_recv` may leave an old destination address in place, so nothing is said of which page arrives.
- Dispatch.RoundRobin: one CPU, and no environment is destroyed on the way; the drop into the monitor when nothing can ever run is left out.
- EnvIds.EnvTable.EnvAlloc: register contents and IPC fields of the new environment are left out; success of `env_setup_vm` is a parameter.
- Timers.RunRefines: handlers run between waits; the memory pool behind `sys_timeout` is a parameter; entries are a sequence rather than linked nodes, so aliasing between them is not modelled.
- Timers.EarlyOnlyNowait: a semaphore freed under its waiter, which also ends a wait early (net/lwip/jos/arch/sys_arch.c:191-194), is left to `Timers.SemWait`.
- Pbufs.PbufRealloc: `mem_realloc` of the last buffer is not modelled, since it does not move it.
- Pbufs.PbufCopy: buffers do not share payload memory; how many bytes are over when a packet queue is refused is not said.
- `pbuf_alloc`, `pbuf_header` and payload pointers into shared memory.
- Directories, paths, `fs/serv.c` and the formatter `fs/fsformat.c`: a file system that satisfies ownership is the starting point.
- Device and port I/O, boot code, trap frames, `user_mem_check`, the shell and the user programs.
- `lib/malloc.c`: one page allocator for user programs, with no caller in the modelled code.
- Sockets, TCP, UDP, IP, ARP, DHCP and DNS of lwIP: protocol handling above the buffers, timers and heap modelled here.
