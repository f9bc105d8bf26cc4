# loofOS: a verified model of its memory, process and boot-file code

This project models four parts of the loofOS x86 kernel and its boot loader in Dafny, and
proves what they are for.

**Buddy heap** (`BuddyTree`, `BuddyLaws`, `BuddyMemory`, `BuddyList`, `BuddyInit`,
`BuddyHeap`, `BuddyRuns`). The allocator works on a mutable byte array with one-byte headers,
walks by `2^order`, splits in place and coalesces at the XOR address. Its block structure is
specified by a ghost tree: a window of `2^n` bytes is one block or two half windows.
`BuddyList.InvariantIsTree` shows that the tree stands for the source's own invariant on the
list of blocks met by the walk: they tile the heap, each is aligned to its size, and no two
buddies are both free. The top order is arbitrary (3 to 30; the kernel's is 29). The heap has
`2^order + 1` bytes: the byte at `end` lies outside every block and starts as zero, as the
kernel's layout has it.

**Paging** (`PageTables`, `AddressSpaces`, `PagingRuns`, `Paging`). Directory and table words in
the format of 32-bit paging (section 4.3 of the Intel SDM, Volume 3A), tables taken from the
buddy heap, and the stack of free frames whose links lie in the frames, beside every other byte
of them. Everything refines a plain map from (directory, virtual page) to frame, and what a
process finds at its addresses is private to it (`PagingRuns.StepSees`).

**Processes** (`Ring`, `Process`, `Context`, `Timer`, `KernelState`, `Kernel`, `KernelRuns`). The
doubly linked ring of descriptors is proved to move as a sequence of descriptors does; the
interrupt entry, the register pushes and pops and `switch_context` act on a processor with a word
memory; `Timer` joins them into one timer interrupt. `Kernel` joins memory, process queue and
processor, and `KernelRuns` starts the first two processes and then performs any sequence of user
computation with stores to memory, timer interrupts, process creations, state changes and page
requests, each with its whole effect (`KernelRuns.Does`): `KernelRuns.Boot` and
`KernelRuns.RoundTrip` are the end-to-end results.

**Boot** (`Print`, `ExfatVolume`, `ExfatFile`, `ExfatDirectory`,
`ExfatFormat`, `ExfatPath`, `ExfatTree`). `print` with
`%d`, `%x`, `%b`, and the exFAT reader: 32-bit sector arithmetic, table lookup, contiguous and
chained files, directory scan and path resolution into the buffer being scanned (sections 3.1,
4.1, 5.1, 7.4, 7.6 and 7.7 of the Microsoft exFAT specification). `ExfatTree.ReadFromTree` joins
them: on a volume that holds a directory tree, a path gives the bytes of the file it names.

`Bits`, `Division` and `Options` hold shared arithmetic and a datatype.

## Where the code falls short of its purpose

Each of these is proved as an if-and-only-if, with an input on which the code fails.

- A request of `2^32 - 1` bytes wraps to zero and gets an 8-byte block; all other requests for
  which C defines the shifts get room (`BuddyHeap.RequestHasRoom`).
- `init_memory` aligns its blocks only when the number of 8-byte units is zero or a power of two
  (`BuddyInit.InitialAligned`; `BuddyInit.MisalignedInput` has three units).
- With another process in the ring the skip loop of a switch stops exactly when the current or
  another process runs (`Ring.LegalTickIff`); otherwise it follows `next` for ever
  (`Process.SkipLoopStops`). Two processes that halt in turn get there (`Ring.HangInput`).
- Sector numbers are scaled by 512 in 32 bits, so everything past the first 4 GiB of the drive is
  misaddressed (`ExfatVolume.HeapLbaExact`, `ExfatVolume.FatLbaExact`; `ExfatVolume.FarInput` is a
  volume on which both are, `ExfatVolume.SectorsWrap` says where they come out).
- The allocation-table buffer starts at a sector but is indexed from a multiple of its size
  (`ExfatFile.LookupIndex`; in `ExfatFile.WrongWordInput` the entry of cluster 256 is read for
  cluster 128).
- The cluster count is cut to 32 bits (`ExfatFile.CountExact`; in `ExfatFile.TruncatedInput` a file
  of nearly 4 GiB counts as empty).
- An empty file as formatters write it, starting at cluster 0, is taken for a chain unless entry 0
  of the table is zero (`ExfatPath.EmptyFile`); `ExfatPath.EmptyFileInput` is a drive whose table
  starts with the usual media word.
- `allocate_page` pops the free stack through whatever directory is active, at addresses that only
  the kernel's directory takes to the frames (`AddressSpaces.FreeListReached`): under a process's
  directory the first request after start faults (`Paging.FaultInput`). `free_page` pushes a frame
  under the kernel's directory or one that happens to map the page of that number to it
  (`AddressSpaces.LinkReached`).
- `%d` overflows for some ten-digit numbers and for the least one (`Print.PrintDecimal`;
  `Print.TenDigitInputs`).

## Where the model follows the intent

The statements concerned carry a comment.

- `memory_free` hands `addr` to `coalesce_block` (arch/x86/mm/alloc.c:103) where the header's
  address is meant; the model hands over the header's address.
- `free_page` subtracts `KERNEL_BASE` from a table's physical address (arch/x86/mm/paging.c:110)
  where `allocate_page` adds it, and lacks the test for 4 MiB pages its comment promises
  (arch/x86/mm/paging.c:99); the model adds and tests.
- New tables and directories are cleared (arch/x86/mm/paging.c:79, kernel/proc/process.c:129), and
  a failed `kernel_allocate` refuses the request. `create_process` also returns when its first page
  could not be backed, where the source takes a page fault (kernel/proc/process.c:144).
- Once user code runs, nothing in the source activates the kernel's directory again. In a run the
  model activates it for a page request or a process creation, and the current process's afterwards
  (`KernelRuns.PerformMap`, `KernelRuns.PerformDrop`, `KernelRuns.SpawnProcess`).
- `switch_process` frees an ended descriptor before unlinking it (kernel/proc/process.c:49-50);
  the model only unlinks.
- Where the skip loop goes round for ever (kernel/proc/process.c:80-83), the model's method stops
  after one round and says so in its result.

## Model

| member | source | states |
|---|---|---|
| BuddyHeap.RoundBlockSize | arch/x86/mm/alloc.c:57-65 | the least order, at least 3, whose block is larger than the size, for every size below 2^31 |
| BuddyHeap.LastComparison | arch/x86/mm/alloc.c:64 | the order the loop ends with is returned as it is: the last comparison never fires |
| BuddyHeap.RequestOrderIs | arch/x86/mm/alloc.c:57-70 | the order a request is served with is the least one from 3 up whose block is larger than `size + 1` modulo 2^32, in both directions |
| BuddyHeap.ShiftableIs | arch/x86/mm/alloc.c:62 | C defines the shifts for sizes below 0x7FFFFFFF and for 0xFFFFFFFF, no others |
| BuddyHeap.RequestHasRoom | arch/x86/mm/alloc.c:70 | a granted block has room for header and payload exactly when `size + 1` does not wrap to zero |
| BuddyHeap.Heap.SplitBlock | arch/x86/mm/alloc.c:14-24 | the two header bytes written, and no other byte |
| BuddyHeap.Heap.SplitAndMark | arch/x86/mm/alloc.c:75-81 | the chain of splits leaves a used leading block and one free block of each order between, and touches nothing outside the split block |
| BuddyHeap.Heap.Allocate | arch/x86/mm/alloc.c:68-93 | keeps the whole invariant; takes the lowest block that fits, as the tree specification says, or fails and changes nothing; changes only bytes that were free |
| BuddyHeap.Heap.CoalesceBlock | arch/x86/mm/alloc.c:27-52 | the merge loop ends with the header bytes of the fully merged tree; every byte written lies in a block that is free afterwards |
| BuddyHeap.Heap.CoalesceStep | arch/x86/mm/alloc.c:33-50 | the byte read at the XOR address decides exactly whether the buddy is one free block of the same order; at the top order it is the byte at `end` and the loop stops |
| BuddyHeap.Heap.Free | arch/x86/mm/alloc.c:96-104 | keeps the whole invariant; the block structure becomes that of the release specification; used blocks' bytes stay |
| BuddyHeap.Heap.constructor | arch/x86/mm/alloc.c:107-129 | a heap of `2^order + 1` bytes with a zero last byte starts as one free block satisfying the invariant |
| BuddyHeap.FirstGrants | arch/x86/mm/alloc.c:68-93 | on a fresh heap the first request gets the lowest block, and a second one of the same order the block behind it |
| BuddyHeap.FirstHeaders | arch/x86/mm/alloc.c:14-24 | the bytes after the first request: its order with the used bit 0x80, then one free block of each order up to the heap's |
| BuddyHeap.Heap.Store | arch/x86/mm/alloc.h:10-14 | clients may overwrite every byte that is no block's header without disturbing the structure |
| BuddyHeap.Heap.WalkInvariant | arch/x86/mm/alloc.c:73-89 | the header bytes of a valid heap, walked by `2^order`, give a list that tiles, is aligned, has orders 3 to N and no two free buddies |
| BuddyList.WalkReadsTree | arch/x86/mm/alloc.c:73-89 | walking the header bytes meets exactly the blocks of the specification |
| BuddyList.InvariantIsTree | arch/x86/mm/alloc.c:14-104 | the list invariant holds of exactly the block lists of fully coalesced trees |
| BuddyList.NoFreeBuddies | arch/x86/mm/alloc.c:39-40 | in a coalesced heap the block at the XOR address of a free block is never free with the same order |
| BuddyMemory.BuddyWindow | arch/x86/mm/alloc.c:35-37 | flipping bit `order` of the offset gives the other half of the parent block |
| BuddyMemory.BuddyIsHead | arch/x86/mm/alloc.c:33-40 | below the top order the XOR address is the header of a real block of at most the same order, never the middle of one |
| BuddyMemory.TopBuddy | arch/x86/mm/alloc.c:11 | the XOR address of the block that fills the heap is the byte at `end` |
| BuddyMemory.LayoutPlug | arch/x86/mm/alloc.c:14-52 | rewriting the bytes of one window replaces exactly one subtree of the structure |
| BuddyTree.FirstFitSound | arch/x86/mm/alloc.c:73-89 | the walk finds the lowest suiting block, or no block suits |
| BuddyTree.WindowAligned | arch/x86/mm/alloc.c:35-37 | every block's offset is a multiple of its size |
| BuddyTree.NextIsHead | arch/x86/mm/alloc.c:88 | one step of the walk lands on a header or at the end |
| BuddyHeap.WalkStep | arch/x86/mm/alloc.c:73-89 | a header read on the walk suits exactly when its block does, and stepping over it stays inside the heap, the zero byte at `end` included |
| BuddyLaws.AllocOwner | arch/x86/mm/alloc.c:74-84 | a grant takes exactly its bytes, which were free, and keeps every other used byte's block |
| BuddyLaws.FreeOwner | arch/x86/mm/alloc.c:96-104 | a release frees exactly one block's bytes, whatever it merges |
| BuddyLaws.AllocLive | arch/x86/mm/alloc.c:68-93 | the used blocks after a grant are those before and the new one |
| BuddyLaws.FreeLive | arch/x86/mm/alloc.c:96-104 | the used blocks after a release are those before without the released one |
| BuddyLaws.AllocCoalesced | arch/x86/mm/alloc.c:68-93 | a grant leaves no two free buddies |
| BuddyLaws.FreeCoalesced | arch/x86/mm/alloc.c:27-52 | a release leaves no two free buddies |
| BuddyLaws.Canonical | arch/x86/mm/alloc.c:27-104 | coalesced heaps are equal exactly when their used blocks are: the used blocks determine all free ones |
| BuddyLaws.FreesCommute | arch/x86/mm/alloc.c:96-104 | two releases give the same heap in either order |
| BuddyLaws.AllocThenFree | arch/x86/mm/alloc.c:67-104 | releasing what was just granted restores the exact block structure |
| BuddyLaws.DrainInAnyOrder | arch/x86/mm/alloc.c:95-104 | releasing all used blocks in any order gives back the one free block |
| BuddyLaws.AllocComplete | arch/x86/mm/alloc.c:68-93 | a request fails exactly when no aligned window of its size is wholly free |
| BuddyRuns.RunKeepsInvariant | arch/x86/mm/alloc.c:14-129 | every heap reachable by requests, releases and client writes satisfies the list invariant |
| BuddyRuns.RunKeepsLive | arch/x86/mm/alloc.c:68-104 | a used block stays until it is released |
| BuddyRuns.RunsAreCanonical | arch/x86/mm/alloc.c:27-104 | two runs that leave the same used blocks leave the same heap |
| BuddyRuns.PayloadsApart | arch/x86/mm/alloc.c:83-84 | payloads of used blocks are disjoint, hold no header and exclude the byte at `end` |
| BuddyRuns.Perform | arch/x86/mm/alloc.c:68-104 | one operation changes no payload byte of a block it does not release, but a client write puts its byte |
| BuddyRuns.Replay | arch/x86/mm/alloc.c:68-104 | over any run a payload byte that is not released is what its holder wrote there last, or keeps its value |
| BuddyInit.InitMemory | arch/x86/mm/alloc.c:107-129 | for any length the headers of the initial blocks are written and no other byte changes |
| BuddyInit.InitialBits | arch/x86/mm/alloc.c:116-128 | there is a block of an order exactly when that bit of the length is set |
| BuddyInit.InitialOrders | arch/x86/mm/alloc.c:117-127 | the initial blocks' orders rise strictly and none is used |
| BuddyInit.InitialTiles | arch/x86/mm/alloc.c:116-128 | the initial blocks cover all units of 8 bytes without a gap |
| BuddyInit.InitialAligned | arch/x86/mm/alloc.c:113-128 | all initial blocks are aligned exactly when the number of units is zero or a power of two |
| BuddyInit.MisalignedInput | arch/x86/mm/alloc.c:113-128 | three units give a block of 16 bytes at offset 8 |
| Paging.KernelPayloadAligned | arch/x86/mm/alloc.c:11 | kernel heap payloads are multiples of their block size, up to 2^28 |
| Paging.PageRequest | arch/x86/mm/paging.c:79 | a page request is served by a block of order 13 |
| Paging.FirstAddresses | kernel/kernel.c:18-19 | the two requests at start-up get 0xD0000000 and 0xD0000008 |
| Paging.FirstFrames | arch/x86/mm/paging.c:40-95 | the first two pages granted after start are backed by the frames at 0x40000000 and 0x40001000 |
| Paging.Pager.constructor | arch/x86/mm/paging.c:19-46 | after the four loops: the linear map, the kernel half, and all frames on the free stack, lowest first |
| Paging.Pager.KernelAllocate | arch/x86/mm/alloc.c:132-134 | a grant keeps every directory and table in use and is at none of their addresses |
| Paging.Pager.TableFor | arch/x86/mm/paging.c:70-81 | the existing table of a slot, or a new cleared one entered in the directory |
| Paging.Pager.MapTop | arch/x86/mm/paging.c:89-95 | the top frame is popped through the active directory, the kernel's, and entered at one table word |
| Paging.Pager.AllocatePage | arch/x86/mm/paging.c:54-96 | with the kernel's directory active a request that is not refused is one Map step; a refused one changes nothing under any directory |
| Paging.Pager.UnmapAt | arch/x86/mm/paging.c:115-119 | the frame's link is written through the active directory, and the frame pushed |
| Paging.Pager.FreePage | arch/x86/mm/paging.c:100-122 | with a directory active that leads to the frame's link a mapped page is one Unmap step; anything else, 4 MiB pages included, changes nothing |
| Paging.Pager.StoreUser | arch/x86/mm/paging.c:25-32 | a store in user mode takes effect exactly where the directory was granted a page, and then is one Store step; otherwise it faults and changes nothing |
| Paging.FaultInput | arch/x86/mm/paging.c:89-92 | after start and with one process directory, the free stack is not even mapped under it |
| Paging.Pager.NewDirectory | kernel/proc/process.c:129-133 | a cleared directory whose kernel half equals the kernel's |
| Paging.Pager.UserMissesKernelMemory | arch/x86/mm/paging.c:57-96 | no user address reaches a heap byte, a header, a directory or a table |
| PageTables.MapPageKeepsInv | arch/x86/mm/paging.c:90-95 | mapping a page keeps words, free stack and map consistent |
| PageTables.UnmapPageKeepsInv | arch/x86/mm/paging.c:113-120 | freeing a page keeps words, free stack and map consistent |
| PageTables.AddTableKeepsInv | arch/x86/mm/paging.c:79-80 | a fresh table in an empty slot keeps them consistent |
| PageTables.AddDirectoryKeepsInv | kernel/proc/process.c:129-133 | a new directory keeps them consistent |
| PageTables.PutByteKeepsInv | arch/x86/mm/paging.c:40-45 | overwriting any byte of a frame that is not free keeps words, free stack and map consistent |
| PageTables.ByteAtPut | arch/x86/mm/paging.h:19-22 | a byte written to a frame, link word included, is read back, and no other byte changes |
| PageTables.LinkBytes | arch/x86/mm/paging.h:19-22 | the link word of a frame is its first four bytes, lowest first |
| AddressSpaces.TableEntryFields | arch/x86/mm/paging.c:77-80 | a page-aligned table address survives the shift by 12 and back |
| AddressSpaces.EntryCases | arch/x86/mm/paging.c:71-77 | the present and size bits of a directory entry tell exactly whether the slot is large, has a table (and which), or is empty |
| AddressSpaces.WalkInNumbers | arch/x86/mm/paging.c:19-32 | what the walk does with entries given as numbers: 4 MiB with the size bit 0x80, a table with flags 7, nothing for an even word |
| AddressSpaces.EntryWords | arch/x86/mm/paging.c:25-32 | the words that the code writes, as numbers |
| AddressSpaces.KernelOnly | arch/x86/mm/paging.c:25-32 | every word of a kernel half, and of the kernel's directory, is present and writable, and closed to user mode |
| AddressSpaces.KernelHalf | arch/x86/mm/paging.c:30-32 | every directory translates each kernel address `v` to `v - KERNEL_BASE` |
| AddressSpaces.KernelLinearMap | arch/x86/mm/paging.c:26-28 | the kernel directory maps user addresses onto the frames, one GiB up |
| AddressSpaces.UserHalf | arch/x86/mm/paging.c:61-95 | the two-level walk of a process directory equals the plain map |
| AddressSpaces.UserReach | arch/x86/mm/paging.c:25-32 | in user mode the walk with its permission bits reaches exactly the pages granted: nothing in the kernel half, nothing under the kernel's directory |
| AddressSpaces.LinkReached | arch/x86/mm/paging.c:114-116 | the link of frame f is reached exactly under the kernel's directory, or where the active one maps page f to frame f |
| AddressSpaces.FreeListReached | arch/x86/mm/paging.c:89-92 | the link of the top free frame is reached exactly under the kernel's directory |
| AddressSpaces.UserWritesStayInFrames | arch/x86/mm/paging.c:89-95 | a user mapping leads to memory at or above 0x40000000 and never into a free frame |
| AddressSpaces.NoSharing | arch/x86/mm/paging.c:54-122 | no physical byte is visible at two user addresses, of one process or two |
| AddressSpaces.FramesConserved | arch/x86/mm/paging.c:40-122 | free and mapped frames are disjoint and add up to all 0xC0000 |
| AddressSpaces.MapThenUnmap | arch/x86/mm/paging.c:54-122 | mapping and freeing a page restores the whole paging state |
| AddressSpaces.UnmapThenMap | arch/x86/mm/paging.c:54-122 | freeing and mapping a page gives the same frame back |
| PagingRuns.StepTranslates | arch/x86/mm/paging.c:54-122 | on the two-level walk of every directory: a granted page leads to the frame on top of the stack, a freed page nowhere, every other address is translated as before; a new directory reaches the kernel half only |
| PagingRuns.StepSees | arch/x86/mm/paging.c:54-122 | what a process finds at an address changes only by its own store to that address, or when that page is granted or freed |
| PagingRuns.AddressMap | arch/x86/mm/paging.c:19-95 | the address map of every directory in numbers |
| PagingRuns.RunSafety | arch/x86/mm/paging.c:54-122 | after any run over any number of directories: frames conserved, kernel half shared, user half as mapped |
| PagingRuns.MappingPersists | arch/x86/mm/paging.c:54-122 | an address that translates leads to the same physical byte over any run that does not free its page |
| PagingRuns.ContentsPersist | arch/x86/mm/paging.c:54-122 | a byte that a process has at an address stays over any run that neither stores there by that process nor frees its page |
| PagingRuns.GrantThenFree | arch/x86/mm/paging.c:54-122 | granting a fresh page and freeing it leaves at most an empty table |
| Ring.StepWellFormed | kernel/proc/process.c:29-88 | descriptors stay distinct, only the current process can be ended, and a completed switch leaves a running process current |
| Ring.RunWellFormed | kernel/proc/process.c:29-171 | the same over any run |
| Ring.StepCloser | kernel/proc/process.c:80-83 | a waiting running process makes the skip loop stop and comes closer with every switch |
| Ring.BoundedWaiting | kernel/proc/process.c:78-83 | a running process at distance d is current within d timer interrupts, whatever is created, halted or ended |
| Ring.LegalTickIff | kernel/proc/process.c:57-83 | with another process in the ring the skip loop stops exactly when the current or another process is running |
| Ring.RoundRobin | kernel/proc/process.c:57-83 | a switch goes to the nearest running process behind the current one; those passed over and, unless it has ended, the one left go to the end in order |
| Ring.RoundRobinAlone | kernel/proc/process.c:80-83 | with no other running process the current one, when it runs, goes on |
| Ring.UpdateStep | kernel/proc/process.c:169-171 | a state change sets the current process's state, to any of the three, and nothing else |
| Ring.Saved | kernel/proc/process.c:35-76 | what a switch saves, field by field: registers only of a running process; from kernel mode the stack segment 0x10 and the frame's address, from user mode a zero stack word |
| Ring.HangInput | kernel/proc/process.c:80-83 | two processes that halt in turn: a legal run after which the skip loop never stops |
| Process.SkipLoopStops | kernel/proc/process.c:80-83 | following the `next` pointers meets a process that is not halted exactly when there is one on the ring |
| Ring.RunKeepsDescriptor | kernel/proc/process.c:29-171 | a process that is never current keeps its whole descriptor |
| Ring.ContextPreserved | kernel/proc/process.c:35-76 | a saved process is running and has the interrupted registers, its kernel stack and its directory when it is current again, after any run |
| Process.Scheduler.Insert | kernel/proc/process.c:155-165 | insertion just before the current process, with `next` and `prev` inverse on one cycle |
| Process.Scheduler.UpdateProcess | kernel/proc/process.c:169-171 | only the current process's state changes |
| Process.Scheduler.SaveCurrent | kernel/proc/process.c:38-76 | the registers stored in the current descriptor, and no link or other descriptor touched |
| Process.Scheduler.Unlink | kernel/proc/process.c:57-58 | the remaining processes form one cycle |
| Process.Scheduler.SkipHalted | kernel/proc/process.c:80-83 | the loop stops on the first process that is not halted, or has gone once round a ring of halted ones |
| Process.Scheduler.SwitchProcess | kernel/proc/process.c:29-88 | for every ring: nothing happens exactly when there is no other process; the skip loop never ends exactly when the step is not legal; otherwise the linked ring moves as the step of the sequence |
| Context.StructLayout | arch/x86/core/registers.h:6-23 | the register structs in memory, field by field at their byte offsets |
| Context.Machine.SaveRegisters | arch/x86/drivers/timer.s:3-28 | the pushes lay out the register structs of the handler, with the frame's address in the stack slot; then the four data segments are the kernel's, 0x10 |
| Context.Machine.RestoreRegisters | arch/x86/drivers/timer.s:30-46 | the pops and the return restore what lies on the stack |
| Context.Machine.SwitchContext | kernel/proc/process.s:4-63 | user and kernel exits: registers, directory and the frame returned through |
| Context.Machine.CallSwitchContext | kernel/proc/process.c:88 | called with its arguments by value it resumes exactly them |
| Timer.Enter | arch/x86/drivers/timer.s:3-28 | the handler's arguments describe the interrupted thread; it starts with the kernel's data segments and, but for the low half of `eax`, the thread's general registers |
| Timer.TimerInterrupt | arch/x86/drivers/timer.c:40-49 | without a switch the thread goes on unchanged; with one the process made current is loaded; all descriptors stay loadable; of memory only the words just below the stack's top change; it never ends exactly when the skip loop does not |
| Timer.UserThreadResumes | kernel/proc/process.s:5-63 | an interrupted user thread is resumed register for register after any run |
| Timer.KernelThreadResumes | kernel/proc/process.s:54-63 | an interrupted kernel thread gets back its registers and directory, and goes on where it was exactly when its three frame words are intact |
| Kernel.Kernel.CreateProcess | kernel/proc/process.c:94-166 | with the kernel's directory active before and after: created exactly when the heap has a descriptor and four pages and two frames are free; it joins the ring with a descriptor, a kernel stack and a directory that were not in use, its two pages backed by the two top frames and its code in the first; no existing address space changes |
| Kernel.Kernel.WriteCode | kernel/proc/process.c:141-150 | the five code bytes are found at address zero of the new directory exactly when its first page is backed |
| Kernel.Kernel.NewAddressSpace | kernel/proc/process.c:129-139 | the stack page and the first page get the two top frames, each exactly when there is a frame and the heap had pages for the tables; other address spaces keep pages and contents |
| Kernel.Kernel.AddressSpacesAgree | kernel/proc/process.c:130-133 | every process sees the kernel half alike and its own user half; every operation of the kernel keeps what this rests on |
| Kernel.Kernel.KernelStacksApart | kernel/proc/process.c:127 | a kernel stack shares no byte with another one, with a directory, a table, a descriptor or a heap header, and no user address reaches it |
| Kernel.Kernel.EnterUserland | kernel/proc/process.c:21-24 | the current process is loaded, with its kernel stack for interrupts |
| Kernel.Kernel.TimerInterrupt | arch/x86/drivers/timer.c:40-49 | an interrupt of a user thread keeps the whole kernel invariant, changes only words of that process's kernel stack, and again leaves a user thread of the current process running |
| Kernel.Kernel.UpdateState | kernel/proc/process.c:169-171 | a state change keeps the kernel invariant |
| Kernel.Kernel.MapOwn | arch/x86/mm/paging.c:54-96 | with the kernel's directory active, a page request of the current process is one Map step when it can be granted and changes nothing otherwise; it keeps the kernel invariant and every other address space with its contents |
| Kernel.Kernel.StoreByte | arch/x86/mm/paging.c:25-32 | a byte stored by user code takes effect exactly in a granted page, is then found at its address, and keeps the invariant and every other address space |
| Kernel.Kernel.DropOwn | arch/x86/mm/paging.c:100-122 | freeing a page is one Unmap step when it is mapped and changes nothing otherwise; it keeps the invariant and every other address space |
| KernelState.FirstRun | kernel/proc/process.c:96-127 | a new process starts at its entry point in user mode with interrupts on, selectors 0x1B and 0x23, stack pointer 0xBFFFFFFC, all other general registers zero, its own directory and kernel stack; its stack pointer translates exactly when its stack page was granted |
| KernelState.CodeIsLoop | kernel/proc/process.c:143-148 | the code is a jump whose target is its own start |
| KernelState.StackTopIs | kernel/proc/process.c:127 | every kernel stack starts four bytes below the end of its page |
| KernelState.NewPages | kernel/proc/process.c:136-139 | the stack pointer of a new process leads to the last word of the frame that was on top of the free stack, address 0 to the start of the next one |
| KernelState.StoresSeen | arch/x86/mm/paging.c:25-32 | after any sequence of stores user code finds what it stored last at each address that it may use, and at the others what was there |
| KernelState.ProcessesGrow | kernel/proc/process.c:95-129 | allocations of any kind leave every process its descriptor, kernel stack and directory |
| KernelState.SwitchOk | kernel/proc/process.c:29-88 | so does a timer interrupt of a user thread, even one whose skip loop never ends |
| KernelRuns.Boot | kernel/kernel.c:18-51 | from the memory that start-up leaves, after its two requests of four bytes, two processes are created, both with entry point 0 and user selectors, and user code of the first one runs, with its code in its own memory |
| KernelRuns.Perform | kernel/proc/process.c:21-171 | the whole effect of every act on queue, kernel heap, paging state and running thread: a page request granted or refused, a page freed, stores in order, a process created with its memory, a state set, a timer interrupt; it keeps the kernel invariant and changes no address space, page contents or kernel stack but those of the current process; only an interrupt can fail to end |
| KernelRuns.Run | kernel/proc/process.c:21-171 | any sequence of acts is a run of the queue, each act with its whole effect on the state the one before left, up to an interrupt that never ends; processes never current keep all their memory: map, page contents and kernel stack |
| KernelRuns.ServedInTime | kernel/proc/process.c:78-83 | in any completed sequence of acts with d timer interrupts, a running process d places behind the current one is current at some point |
| KernelRuns.RoundTrip | arch/x86/drivers/timer.s:3-46 | a user thread interrupted by the timer goes on with every register it had, the same address space and the same bytes in it when its process is current again after a timer interrupt, whatever ran and stored in between |
| Print.PrintDecimal | boot/x86/print.c:44-71 | the canonical decimal, exactly for the numbers whose reversal stays in 32 bits |
| Print.PrintableIs | boot/x86/print.c:47-62 | the condition in numbers: not the least number, and the reversed digits below 2^31 |
| Print.NineDigitsPrintable | boot/x86/print.c:57-62 | every number of at most nine digits is printable |
| Print.TenDigitInputs | boot/x86/print.c:57-62 | 2147483641 is printable; 1999999999 and the least number are not |
| Print.ReversedMeaning | boot/x86/print.c:57-62 | the loop's reversed number is the number the digits spell backwards |
| Print.ReversedDigits | boot/x86/print.c:57-70 | reversal with the recorded length gives the digits back, trailing zeros included |
| Print.DecimalRoundTrip | boot/x86/print.c:44-71 | the canonical decimal reads back as the number |
| Print.PrintHex | boot/x86/print.c:81-91 | eight hexadecimal digits that read back as the value |
| Print.PrintBinary | boot/x86/print.c:92-102 | thirty-two binary digits that read back as the value |
| Print.Print | boot/x86/print.c:17-128 | the format loop prints what its recursive meaning says |
| Print.PlainText | boot/x86/print.c:35-124 | a format without `%` prints itself and takes no argument |
| Print.OneDirective | boot/x86/print.c:41-102 | a single `%d`, `%x` or `%b` prints exactly its argument |
| Print.DirectivesInNumbers | boot/x86/print.c:38-112 | `%d` of a word is the signed number it stands for, `%c` its low byte; an unknown directive prints nothing and takes no argument; a missing argument is undefined |
| Print.RenderAppend | boot/x86/print.c:35-124 | formats compose: the second one starts at the arguments the first one left |
| ExfatVolume.HeapLbaExact | boot/x86/fs/exfat.c:37-39 | the sector of a cluster is right exactly when it lies in the first 4 GiB |
| ExfatVolume.FatLbaExact | boot/x86/fs/exfat.c:42-44 | the sector of a table entry is right exactly when it lies in the first 4 GiB |
| ExfatVolume.FarInput | boot/x86/fs/exfat.c:37-44 | on a volume past 4 GiB both sectors come out at the start of the partition |
| ExfatVolume.SectorsWrap | boot/x86/fs/exfat.c:37-49 | on every volume all three numbers come out modulo 2^23 sectors, cluster 0 two clusters before the first one |
| ExfatVolume.SectorsInNumbers | boot/x86/fs/exfat.c:37-49 | the sectors of a cluster and of table entries on a given volume |
| ExfatVolume.EntryInNumbers | boot/x86/fs/exfat.c:136 | table entries are little-endian words, one for each cluster from the start of the table |
| ExfatVolume.ClusterSizeExact | boot/x86/fs/exfat.c:47-49 | the cluster size is right exactly below the same bound |
| ExfatVolume.BiosRead | boot/x86/bios.c:8-29 | consecutive sectors of the drive replace part of the buffer, nothing else |
| ExfatFile.LookupIndex | boot/x86/fs/exfat.c:134-151 | the buffer index is the cluster's own exactly when its table sector is a multiple of the sectors in a cluster |
| ExfatFile.LookupReads | boot/x86/fs/exfat.c:131-151 | the word looked up is the table entry of the cluster at that index, right or wrong |
| ExfatFile.LookupExact | boot/x86/fs/exfat.c:131-151 | the word looked up is the cluster's table entry |
| ExfatFile.WrongWordInput | boot/x86/fs/exfat.c:131-151 | on a drive whose entry 128 ends a chain the source reads 5, the entry of cluster 256 |
| ExfatFile.CountExact | boot/x86/fs/exfat.c:164 | the returned count is the clusters needed exactly when the rounded-up length fits 32 bits |
| ExfatFile.CountWraps | boot/x86/fs/exfat.c:164 | in any case the count is that of the rounded-up length modulo 2^32 |
| ExfatFile.NeededIsLeast | boot/x86/fs/exfat.c:164 | the clusters needed are the fewest that hold the length |
| ExfatFile.TruncatedInput | boot/x86/fs/exfat.c:164 | a length of 2^32 - 1 counts as no cluster |
| ExfatFile.ClustersUnique | boot/x86/fs/exfat.c:136-161 | the drive determines a file's clusters |
| ExfatFile.ChainAcyclic | boot/x86/fs/exfat.c:147-160 | a terminated chain visits no cluster twice |
| ExfatFile.TwoClusters | boot/x86/fs/exfat.c:137-158 | a zero entry makes a file contiguous; otherwise entries name the next cluster until 0xFFFFFFFF or 0xFFFFFFF7 |
| ExfatFile.FileByte | boot/x86/fs/exfat.c:140-149 | the bytes of a file are those of its clusters' sectors, cluster after cluster |
| ExfatFile.LoadContiguous | boot/x86/fs/exfat.c:137-141 | the clusters of a contiguous file in order at the start of the buffer |
| ExfatFile.LoadChain | boot/x86/fs/exfat.c:143-160 | the walk ends, having written the chain's clusters in order |
| ExfatFile.LoadFile | boot/x86/fs/exfat.c:124-164 | either kind of file is loaded, clusters in order, and the count for its length returned |
| ExfatDirectory.MatchSet | boot/x86/fs/exfat.c:90-120 | a match depends on the file's own name only, whatever the name buffer still holds |
| ExfatDirectory.FindFile | boot/x86/fs/exfat.c:83-170 | the scan steps over whole entry sets and finds the first file with the name, or none |
| ExfatDirectory.LookupFirst | boot/x86/fs/exfat.c:86-122 | of several files with the name the first one is taken |
| ExfatDirectory.NamedInNumbers | boot/x86/fs/exfat.c:106-116 | the file's name is compared in upper case, and as a whole |
| ExfatDirectory.DirectoryInNumbers | boot/x86/fs/exfat.c:86-128 | a directory given byte by byte, with a label and a file whose name takes two name entries, has that one file, with its name, first cluster and length |
| ExfatFormat.SetRead | boot/x86/fs/exfat.h:51-95 | an entry set in the format's layout is read as the file it encodes, whatever stands in the fields that are not looked at |
| ExfatFormat.ScanReadsBack | boot/x86/fs/exfat.c:86-170 | scanning any directory in the format gives exactly its files in order, whatever other entries lie between and whatever the unused fields hold |
| ExfatPath.ReadFileHelper | boot/x86/fs/exfat.c:81-175 | the clusters of the file found replace the start of the buffer its directory was found in, however many its length says there are; a missing name changes nothing |
| ExfatPath.EmptyFile | boot/x86/fs/exfat.c:130-160 | a file that starts at cluster 0 can be followed exactly when entry 0 of the table is zero and its length counts as no cluster |
| ExfatPath.EmptyFileInput | boot/x86/fs/exfat.c:130-160 | with the media word in entry 0 an empty file is taken for a chain that goes on from cluster 0xFFFFFFF8 |
| ExfatPath.ComponentsSplit | boot/x86/fs/exfat.c:189-205 | separators, repeated, leading or trailing, do not change a path's components |
| ExfatPath.OneComponent | boot/x86/fs/exfat.c:193 | a name without separators is one component |
| ExfatPath.KernelPath | boot/x86/stage2.c:43 | the components of the kernel's path, with separators before, between and behind |
| ExfatPath.ReadFile | boot/x86/fs/exfat.c:179-209 | the whole buffer and the size after resolving the path's components from the root, each file found loaded over its directory |
| ExfatTree.TreeResolves | boot/x86/fs/exfat.c:81-209 | on a volume that holds a tree, every path that meets no unreadable file can be read and leads to the content of the node it names, or to nothing exactly when the tree has nothing there or something empty |
| ExfatTree.ReadFromTree | boot/x86/fs/exfat.c:179-209 | the buffer starts with the bytes of the file the path names; the number returned is its size in whole clusters |

## Left out

- BuddyHeap.Heap.Free: the caller must pass a live payload address, as the source assumes; other addresses are not modelled.
- BuddyHeap.RoundBlockSize: sizes of 2^31 and more, where C leaves the shift by 32 undefined.
- Paging.Pager: directories and tables are objects of 1024 words, one for each heap payload, not bytes of the heap array; that payloads are disjoint and keep their bytes is `BuddyRuns.PayloadsApart` and `BuddyRuns.Replay`.
- Paging.Pager.StoreUser: the page fault handler, which halts; a store that faults has no effect here. What user code computes from what it reads is arbitrary.
- Ring: states other than the three the header names; `update_process` accepts any byte.
- Process.Scheduler.SaveCurrent: freeing an ended process's descriptor, stacks, tables and directory.
- Context.Machine: the stack frames of the C functions between the wrapper and `switch_context`, the interrupt acknowledgement and the interrupt flag.
- Kernel.Kernel.TimerInterrupt: interrupts of the kernel itself; `Timer.TimerInterrupt` has them.
- KernelRuns.Perform: how a user thread asks the kernel for a process, a page or a state change; the source has no system calls.
- Print.Print: `%s`, whose loop tests the pointer and not the character, and the varargs mechanics; arguments are a sequence of words.
- ExfatVolume: drives with sectors of another size than 512 bytes; `init_exfat` beyond a given boot record and an up-case table over ASCII.
- ExfatPath.ReadFile: directories that are not well formed, roots of more than one cluster, and files larger than the buffer.
- ExfatTree.ReadFromTree: paths through a file that the source cannot load (`ExfatTree.Readable`), or behind a file that is no directory, whose bytes the source scans as a directory; `ExfatPath.ReadFile` says what that gives when they look like one.
- ExfatFormat.SetRead: entry sets with secondary entries behind the name entries.
- Port I/O, timer and interrupt controllers, display and serial drivers, the ARM kernel, descriptor tables, paging control registers, boot sectors, panic and exception handlers: device plumbing.
