# Verification of the kernel's core

This project models the parts of a small RISC-V kernel and its shell that hold the most state, and
proves what they keep. Each part follows its source file: records that the source changes in place are
classes, its loops are loops, its global tables are fields.

- **Red-black tree** (`kernel/rbtree.c`; `RbShape`, `RbBalance`, `RbOrder`, `RbLinks`, `RbTree`). Heap
  nodes with parent, left and right pointers and a colour; the sentinel serves as nil and as the end, and
  its child links cache the first and the last node. A ghost tree gives the shape; a position in it (a
  focus and the path above it) carries the proofs of rotation, insertion and erasing. `Valid` says at
  once: all links agree, red nodes have black children, all black heights are equal, the root is black,
  the sentinel's three links and the size are right, and the in-order sequence is sorted for any strict
  weak order.
- **Allocator** (`kernel/mem.c`; `AllocHeap`, `AllocSteps`, `AllocLinks`, `AllocRefines`, `AllocSpares`,
  `AllocLost`, `AllocChoice`, `Alloc`). An ownership map says for every page and every small block who holds it; the class
  holds the words in memory, the list heads and the page table, and is kept in step with that map. Blocks
  keep what their holders write; which block or pages a call takes, and which calls lose pages, is said of
  owners and live blocks alone.
- **Scheduler, semaphores, sleep, exit and wait** (`kernel/proc.c`, `kernel/lock.c`; `SchedModel`,
  `SchedInv`, `SchedCore`, `SchedSems`, `SchedLinks`, `SchedFamily`, `SchedRuns`, `SchedExit`, `SchedTurns`).
  A transition system
  for any number of tasks, CPUs, semaphores and spinlocks. A step runs from one lock acquisition or
  context switch to the next, so every interleaving of those is a run. Where `sched` panics its CPU stops.
- **Page tables** (`kernel/vm.c`, Sv39 of section 4.4 of the RISC-V Privileged Architecture v1.12;
  `VmTables`, `VmFree`, `Vm`, `VmCopy`). Tables in memory, related to a flat map from pages to leaf
  entries; copying to and from user memory, page by page, against its byte-by-byte meaning.
- **Memory regions** (`kernel/mmap.c`; `Mmap`, `MmapCopy`). Region trees on top of the red-black tree;
  fork's copy and `munmap` on top of both trees and page tables.
- **Virtio block driver** (`kernel/virtio_disk.c`, sections 2.6 and 5.2 of Virtio 1.1; `VirtioState`,
  `Virtio`). Driver, device and interrupt handler over the shared rings with their 16-bit indices.
- **Buffer cache** (`kernel/bio.c`; `BioCache`, `Bio`, `BioProtocol`). The linked list as a ring, the
  cache as a value, and the protocol of the tasks that use it.
- **Shell parser** (`user/sh.c`; `ShParse`, `ShTrees`, `ShGrammar`, `ShRoundTrip`, `Shell`, `ShBuffer`). The
  recursive descent over the character buffer, the termination of the words in place, and a grammar over
  tokens that the parser is proved to accept exactly.

`Common` holds what they share.

Three results are about places where an obvious claim is false:

- `sched` does panic for a caller of P that holds a spinlock and blocks. `SchedRuns.PanicRun` is such a
  run (`iput` in `kernel/fs.c:232-241` has the same shape); `SchedRuns.BlockingP`,
  `SchedRuns.BlockingSleep` and `SchedInv.SchedPanics` say exactly when it happens.
- After fork, `is_pagetable` takes the pages of a private region with the write permission alone for
  tables. `MmapCopy.WriteOnlyMisread` is such a region; `MmapCopy.ForkWellFormed` says that the tables of
  parent and child are well formed if and only if no region with a present page loses its last permission.
- `bigfind` can leak pages (`kernel/mem.c:303-310`). `AllocLost.LeakingState` is a state reached by three
  calls in which it does; `AllocLost.PagesConserved` says that it conserves pages if and only if the page
  list is empty, or has a run of the size asked for, or ends with the last page of the heap.

The order of a comparison function, the contents of memory that a page is made of, and everything a
device decides are parameters.

## Model

| member | source | states |
|---|---|---|
| RbTree.RbTree.Erase | kernel/rbtree.c:276-476 | Erasing any node of any valid tree ends and leaves a valid tree (links, colours, black heights, sentinel, size, order) whose in-order sequence is the old one without exactly that node; the other nodes keep their identity, and the result is the node's successor |
| RbTree.RbTree.Insert | kernel/rbtree.c:478-629 | The new node goes behind all its equals; without `multi` it is refused if and only if an equivalent node exists, which is then returned with the tree unchanged |
| RbTree.RbTree.NodeInsert | kernel/rbtree.c:478-567 | Linking a red node in at a free place and rebalancing upwards gives a valid shape with the node at that place of the sequence |
| RbTree.RbTree.LowerBound | kernel/rbtree.c:189-209 | The first node not before the value, in at most 2 log2(n + 1) steps |
| RbTree.RbTree.UpperBound | kernel/rbtree.c:211-231 | The first node after the value, in at most 2 log2(n + 1) steps |
| RbTree.RbTree.EqualRange | kernel/rbtree.c:233-274 | The two-phase search gives exactly the lower and the upper bound |
| RbTree.RbTree.Find | kernel/rbtree.c:760-767 | An equivalent node if there is one, the sentinel if and only if there is none |
| RbTree.RbTree.Next | kernel/rbtree.c:80-100 | The successor, at the cost the tour of the tree charges to that node |
| RbTree.RbTree.Prev | kernel/rbtree.c:51-77 | The predecessor; from the sentinel the last node |
| RbTree.RbTree.Traverse | kernel/rbtree.h:157-174 | The loop over all nodes visits them in order and follows at most 2n links in total |
| RbTree.RbTree.EraseRange | kernel/rbtree.c:796-818 | The nodes of the range go, the others stay in order, and the count is their number |
| RbTree.RbTree.EraseValue | kernel/rbtree.c:820-828 | Exactly the nodes equivalent to the value go, and their number is returned |
| RbTree.RbTree.ClearFree | kernel/rbtree.c:706-727 | Every node is handed over exactly once, in order, and the tree ends empty |
| RbOrder.LogarithmicHeight | kernel/rbtree.h:172-174 | A red-black tree of n nodes is at most 2 log2(n + 1) high |
| RbOrder.TourCost | kernel/rbtree.c:80-100 | The link steps of a whole tour add up to less than twice the number of nodes |
| RbOrder.BoundsEncloseEquivalents | kernel/rbtree.c:820-828 | Between lower and upper bound lie exactly the nodes equivalent to the value, for any strict weak order |
| RbBalance.Straighten | kernel/rbtree.c:478-567 | An inner red-red conflict becomes an outer one by one rotation, with the same order and black heights |
| RbBalance.FarRedCase | kernel/rbtree.c:276-476 | A missing black is made good by a rotation when the sibling's far child is red |
| Alloc.Allocator.Run | kernel/mem.c:125-468 | Over every sequence of malloc, free of blocks held and writes by their holders, ownership and memory stay in step, the blocks held are exactly the live ones, each holds what was last written to it, and pages are lost if and only if some request leaked |
| Alloc.Allocator.Malloc | kernel/mem.c:322-348 | Up to a page the least power of two from 8 on that is enough, beyond it whole pages; a small block is the lowest free one of its class, pages are the lowest free run, and only without one are pages taken at the top; nothing else changes hands, no live block changes, neither its size nor the words inside it; NULL exactly for requests beyond the largest run; pages are lost if and only if the request leaks |
| Alloc.Allocator.Free | kernel/mem.c:350-468 | Freeing a live block returns exactly that block to the list its page's word names: its pages become free if it was made of whole pages, and no other page changes hands; the words inside the other live blocks are unchanged, and no page is lost |
| Alloc.Allocator.SmallFind | kernel/mem.c:191-211 | The second block of the class list, after stocking the class with a page if only its head is left |
| Alloc.Allocator.BigFind | kernel/mem.c:225-281 | The first fitting run of the page list is taken and nothing else; otherwise new pages, alone or behind the tail; exactly the pages named are lost, none if and only if the request does not leak |
| Alloc.Allocator.UserWrite | kernel/mem.c:350-468 | Whatever a holder writes inside its block, lists and ownership stay in step |
| Alloc.Allocator.Init | kernel/mem.c:173-188 | After start-up each class has one page, cut into blocks, and nothing is handed out |
| Alloc.Allocator.Log2 | kernel/mem.c:47-60 | The least exponent whose power reaches the size |
| AllocLost.PagesConserved | kernel/mem.c:225-320 | A request for two pages or more loses no page if and only if the list is empty, has such a run, or ends with the heap's last page; otherwise exactly one page from the top and the trailing run, unless that is the whole list |
| AllocLost.LeakingState | kernel/mem.c:303-310 | Two pages taken after start-up and the first one freed: a request for two pages now leaks |
| AllocHeap.LiveBlocksDisjoint | kernel/mem.c:322-468 | Live blocks do not overlap and lie inside the registered heap |
| AllocHeap.LiveApartFromLists | kernel/mem.c:322-468 | No live block meets a free page or a listed block, class heads included |
| AllocRefines.LinksOutsideBlock | kernel/mem.c:350-468 | The words that link the lists lie outside all live blocks |
| AllocChoice.GrantedSize | kernel/mem.c:322-348 | What each kind of request is granted: the least power of two, or the least number of pages, that is enough |
| AllocChoice.SmallChoice | kernel/mem.c:191-211 | The block given is the lowest free one of its class; only a class without one gets a page, the lowest free one or a new one, and then its first block is given |
| AllocChoice.RunChoice | kernel/mem.c:225-281 | The pages given are the lowest run that is free; without one they start where free pages reach the top of the heap; no other page changes hands unless it is lost |
| AllocRefines.PageTableSuffices | kernel/mem.c:125-134 | The page table has room for every page that can come to the heap |
| AllocLinks.FirstFitIsLowest | kernel/mem.c:225-281 | First fit by address takes the lowest possible run |
| AllocLinks.NoRunNoPages | kernel/mem.c:225-281 | When the search fails there is no such run of free pages at all |
| AllocLinks.ReleaseUndoesClaim | kernel/mem.c:427-464 | Freeing a run just taken restores free list and ownership exactly |
| AllocLinks.PushUndoesPop | kernel/mem.c:369-386 | Freeing a small block just taken restores its class exactly |
| AllocLinks.PopIsMinimum | kernel/mem.c:191-211 | A small request gets the lowest free block of its class |
| SchedRuns.RunInv | kernel/proc.c:179-448 | Every state of every run satisfies the whole invariant of tasks, locks, CPUs, parents, semaphores and signals |
| SchedRuns.StepInv | kernel/proc.c:179-448 | Each of the 23 steps keeps that invariant |
| SchedRuns.NeverOnTwoCpus | kernel/proc.c:179-286 | In every interleaving no task is current on two CPUs, and a runnable task whose lock is free executes nowhere |
| SchedRuns.MutualExclusion | kernel/lock.c:148-210 | A semaphore that starts at 1 admits one task at a time |
| SchedRuns.InsideCounted | kernel/lock.c:148-210 | Tasks past their P and before their V are at most the P's let through less the V's |
| SchedRuns.SemaphoreCounts | kernel/lock.c:156-210 | At every moment the queue has max(0, -value) tasks, no more P's are through than the initial value and the V's allow, and tasks are released in the order of arrival |
| SchedRuns.WakeupsArrive | kernel/lock.c:156-210 | No wakeup is lost between queueing and sleeping: a sleeper is queued and there is no unit for it |
| SchedRuns.NoChildLost | kernel/proc.c:320-383 | With wait_lock free, a parent blocked in wait has no zombie child whose exit is over, also after reparenting and fake signals |
| SchedRuns.ReapedOnce | kernel/proc.c:353-383 | A zombie is freed only when it is off every CPU, and not again before a new task has been put into its entry |
| SchedRuns.BlockingP | kernel/lock.c:156-184 | At the swtch of a blocking P, sched goes on if and only if the caller held no lock when it called P |
| SchedRuns.BlockingSleep | kernel/proc.c:405-431 | At the swtch of sleep, sched goes on if and only if the caller held just the lock it passed |
| SchedRuns.PanicRun | kernel/fs.c:232-241 | A run in which a task takes a semaphore twice with a spinlock held, and sched panics on the number of locks |
| SchedExit.ForkedHasParent | kernel/proc.c:457-500 | In every run a task made by fork has a living parent until it is freed: the task that forked it, as long as that is not freed itself, or else task 0 |
| SchedExit.ExitHandsOver | kernel/proc.c:320-351 | In every run, when an exit lets go of wait_lock, each child of the task is task 0's child, all other tasks have the parents they had, its own parent has been signalled once, and task 0 once for every child |
| SchedExit.WakeupWakes | kernel/proc.c:435-449 | In every run a task to whose entry wakeup has come can run if it slept on the channel, and sleeps on it later only if it has gone to sleep since |
| SchedExit.SleepsUntilWoken | kernel/proc.c:405-433 | In every run a task that calls sleep is asleep on the channel as soon as the lock it passed is free, and stays so until a wakeup on that channel comes to its entry |
| SchedTurns.LooksInTurn | kernel/proc.c:179-222 | In every run the entries that a CPU's scheduler looks at follow one another around the table, and it takes an entry exactly if its task is named and can run |
| SchedInv.SchedPanics | kernel/proc.c:260-278 | Of sched's checks only the one on the number of locks can fail, exactly when a spinlock of the caller is still held |
| SchedInv.BlocksOnlyWithoutZombies | kernel/proc.c:353-383 | The same as NoChildLost for every state with the invariant |
| SchedInv.ReapedOnceOffCpu | kernel/proc.c:353-383 | What a successful wait frees has left its CPU for good, and is then nobody's child |
| Vm.PageTables.Walk | kernel/vm.c:147-165 | The walk ends at the entry for the address; with `alloc` it may add tables, and never changes what the tables mean |
| Vm.PageTables.Map | kernel/vm.c:77-96 | Exactly the requested pages are mapped; how far it comes when memory ends or a page is mapped already; without `remap` nothing was mapped at any page done |
| Vm.PageTables.Unmap | kernel/vm.c:99-124 | Exactly the requested pages are unmapped, and with `do_free` their memory is freed once each, in order; it stops at the first page whose entry is not valid or has no other flag |
| Vm.PageTables.MapAndUnmap | kernel/vm.c:77-124 | Mapping succeeds only where nothing was mapped; unmapping the same pages then succeeds exactly if some permission was given, and every entry of every tree is as before |
| Vm.PageTables.WalkAddr | kernel/vm.c:127-144 | The physical address of a byte whose entry is valid and for the user, bit by bit; 0 for anything else |
| Vm.PageTables.FreeTable | kernel/vm.c:172-191 | Below any table, each table page is released exactly once |
| Vm.PageTables.FreePageTable | kernel/vm.c:172-191 | All table pages of a well-formed tree and no others are released, each once; other address spaces keep their meaning |
| VmTables.UnmapUndoesMap | kernel/vm.c:77-124 | Unmapping the range just mapped gives the old flat map back, if nothing was mapped there |
| VmTables.Digits | kernel/vm.c:147-165 | The three indices of a walk are the digits of the page number in base 512 |
| VmTables.AddTableOk | kernel/vm.c:147-165 | A new table keeps the tables an unshared three-level tree |
| VmTables.PteRoundTrip | kernel/vm.c:77-96 | An entry has the page number in its upper bits and the permissions and V in the lower ten, and gives both back |
| VmCopy.Copier.CopyOut | kernel/vm.c:246-268 | The bytes are written one after the other up to the first unmapped page, each to where its address lies if no byte is aliased, and no other byte changes |
| VmCopy.Copier.CopyIn | kernel/vm.c:271-291 | The bytes are read one after the other up to the first unmapped page |
| VmCopy.Copier.OutAndIn | kernel/vm.c:246-291 | copyout then copyin over a range succeeds exactly if the range is mapped, and gives the bytes back if they are not aliased |
| VmCopy.Copier.CopyInStr | kernel/vm.c:293-318 | Page by page, the same result and the same buffer as byte by byte |
| VmCopy.Copier.FetchStr | kernel/vm.c:328-341 | Byte by byte, the string, its length, or -1 |
| VmCopy.AddrMeans | kernel/vm.c:127-144 | A user byte lies at its offset in the page of its entry, if the entry is valid and for the user |
| VmCopy.StrMeans | kernel/vm.c:293-341 | The result is n if and only if a string of length n ends within the limit, and the buffer then holds it with its zero byte |
| VmCopy.CopyRoundTrip | kernel/vm.c:246-291 | What was written and read back byte by byte is the same |
| VmCopy.UnaliasedPages | kernel/vm.c:246-291 | Different pages of memory behind different pages of the range leave no byte aliased |
| Mmap.MmapObj.Map | kernel/mmap.c:203-238 | The region goes to its place by start address; a panic exactly if a region starts there or both sharing flags are set; kernel-placed regions go to the mark, which moves up; the region is what was asked for, bit by bit; the account of the window is kept |
| Mmap.MmapObj.FindRegion | kernel/mmap.c:244-255 | The region with the greatest start not above the address |
| Mmap.MmapObj.Remove | kernel/mmap.c:406-439 | Exactly the region that starts at the address goes |
| Mmap.ContainingIsFound | kernel/mmap.c:244-255 | Any region that contains the address is the one found, unless the found one overlaps it |
| Mmap.Run | kernel/mmap.c:203-238 | Over every sequence of mapping and unmapping calls of positive size, with no caller's address in the window, kernel-placed regions never overlap and no address of the window is given twice |
| Mmap.KernelPlacesApart | kernel/mmap.c:203-238 | A region the kernel places is never refused and overlaps no other |
| MmapCopy.CopyMmap | kernel/mmap.c:353-402 | The child has the parent's regions and mark, both share exactly the parent's present pages, with the flags the region has, for the user, and without W if it is private; it fails whenever a present page lies in two regions or was there in the child before, and otherwise only without memory |
| MmapCopy.CopyMeans | kernel/mmap.c:353-402 | For each page, bit by bit: parent and child have the same entry for the memory that was there, valid, for the user, with R and X as the region has them and W if it is not private; all other pages are as before |
| MmapCopy.ForkWellFormed | kernel/mmap.c:353-402 | After the copy the tables of the parent, and those of the child, are well formed if and only if every region with a present page stays readable or executable |
| MmapCopy.SharedIsLeaf | kernel/vm.c:167-170 | A shared entry is a leaf exactly if its region stays readable or executable; otherwise is_pagetable accepts it |
| MmapCopy.WriteOnlyMisread | kernel/vm.c:167-170 | A private region with the write permission alone is such a region |
| MmapCopy.Munmap | kernel/mmap.c:406-439 | The region and exactly its pages go; -1 if and only if no region starts there; a panic exactly at an entry without flags |
| Virtio.Disk.Alloc3Desc | kernel/virtio_disk.c:209-220 | Three different free descriptors, or none taken when fewer are free |
| Virtio.Disk.Start | kernel/virtio_disk.c:223-293 | A request is submitted with its own three descriptors, for the sectors of its block exactly if 32 bits are enough; a task waits for descriptors only if 21 requests are in flight |
| Virtio.Disk.DeviceTake | kernel/virtio_disk.c:243-287 | From rings and descriptors alone the device reads back what was asked for: direction, buffer, and the sectors that the block covers |
| Virtio.Disk.Intr | kernel/virtio_disk.c:301-334 | Whatever the device does between the rounds, in the end nothing reported is unseen and `disk` is cleared on exactly the buffers of the requests seen |
| Virtio.Disk.Finish | kernel/virtio_disk.c:290-299 | The request's three descriptors and no others are freed |
| VirtioState.TriplesDisjoint | kernel/virtio_disk.c:163-220 | Requests in flight own disjoint descriptor triples |
| VirtioState.DescriptorsConserved | kernel/virtio_disk.c:163-220 | Free descriptors and three for each request in flight are 64 |
| VirtioState.FullMeans21 | kernel/virtio_disk.c:234-240 | Fewer than three free descriptors means 21 requests in flight |
| VirtioState.RingsHold | kernel/virtio_disk.c:270-334 | No ring overwrites an entry not yet consumed, and 16-bit indices are equal only if the counts are |
| VirtioState.ChainSays | kernel/virtio_disk.c:243-268 | A request's chain of descriptors says what was asked for, with the lengths and directions of the three parts |
| VirtioState.BlocksApart | kernel/virtio_disk.c:223-293 | No sector belongs to requests in flight for different blocks |
| BioCache.VictimIsLeastRecent | kernel/bio.c:56-73 | The buffer taken for a new block is the least recently released one that nobody uses |
| BioCache.CachedIsFound | kernel/bio.c:41-54 | A cached block is found in its buffer, and nothing else changes |
| Bio.BCache.BGet | kernel/bio.c:40-74 | The two loops over the linked list compute exactly that, and the ring of all buffers is kept |
| Bio.BCache.Unref | kernel/bio.c:101-122 | The last release puts the buffer in front of the ring, with the others in the order they had; any other release leaves the ring as it is |
| Bio.UnlinkRing | kernel/bio.c:101-122 | Two stores take an entry out of the ring |
| Bio.FrontRing | kernel/bio.c:18-38 | Four stores put an entry behind the head |
| BioProtocol.VictimFreedFirst | kernel/bio.c:56-122 | In every run the buffer that a new block gets has no users, and of all buffers without users it is the one that lost its last user first, or never had one |
| BioProtocol.RunInv | kernel/bio.c:18-122 | Every state of every run of users keeps the invariant of cache, holders and disk |
| BioProtocol.HeldOnce | kernel/bio.c:40-98 | In every run a block is held by one task at most |
| BioProtocol.UnheldIsDisk | kernel/bio.c:77-122 | In every run a valid buffer that nobody holds equals its disk block |
| BioProtocol.ReadIsDisk | kernel/bio.c:77-89 | In every run what bread returns is what the disk has for the block asked for |
| BioProtocol.ReadLastWritten | kernel/bio.c:77-98 | Whoever reads a block gets what was last written to it, through whichever buffers it has gone since |
| ShGrammar.ParsesGrammar | user/sh.c:260-444 | The parser returns a tree for a line if and only if the grammar derives that tree from the line's tokens, whichever of the five blanks lie between them |
| ShGrammar.RefusedOnly | user/sh.c:325-444 | The parser panics exactly on the lines from which the grammar derives nothing |
| ShBuffer.ParseText | user/sh.c:325-491 | Through the buffer, for any line: it succeeds exactly if the grammar derives the line, and the pointers found spell the tree derived |
| ShRoundTrip.TokensTrip | user/sh.c:260-444 | Any line with the tokens of a tree, whatever blanks lie between and around them, parses to that tree |
| ShRoundTrip.RoundTrip | user/sh.c:263-444 | Parsing the printed form of any command tree with at most nine arguments each gives the tree back |
| ShBuffer.ParsePrinted | user/sh.c:325-491 | The same through the buffer: parsing and terminating the printed line in place succeeds, and the pointers found spell the tree |
| Shell.ParseCommand | user/sh.c:325-340 | The parser over the buffer computes the parsing function, and afterwards every recorded word is a C string equal to its token |
| Shell.Line | user/sh.c:342-357 | The recursive parser ends, with the remaining input as the measure, and computes its function |
| Shell.NulTerminate | user/sh.c:447-491 | NULs are written behind exactly the recorded words |
| Shell.WordsSurvive | user/sh.c:447-491 | Every NUL falls outside all recorded words |

## Left out

- Alloc.Allocator.Malloc: nothing is promised about the state after a panic for lack of memory, where the kernel halts.
- Mmap.MmapObj.Map: the allocation of physical pages (`alloc_phy`, `uvm_mappages`) is not modelled; addresses do not wrap around at 2^64.
- Mmap.MmapObj.constructor: `high_level` is taken to start at 0, which the source leaves unset.
- MmapCopy.CopyMmap: asks for regions inside the address space whose permissions fit into the ten flag bits; beyond them the source's `|` would change the address in the entry.
- Vm.PageTables.Map: asks for an aligned address, a positive size and ten flag bits. For an unaligned address the source's loop runs past the range, and ends with -1 or with the remap panic.
- Vm.PageTables.FreePageTable: asks for tables whose leaves carry R, W or X; ForkWellFormed says when fork leaves them so.
- Vm.PageTables.FreeTable: `do_free` is 0; only `copy_pagetable` (kernel/vm.c:203), which nothing else calls, passes 1.
- BioProtocol.HeldOnce: the semaphore of a buffer is seen as its holder, so that one buffer has one holder is what the P asks for; SchedRuns.MutualExclusion proves it of the semaphore. That one block has one holder is proved here.
- A full task table: `sys_fork` dereferences NULL then (kernel/proc.c:459-467), where `SchedModel.DoForkLook` simply goes back.
- Virtio.Disk.Start: the device does not act between the single stores of one submission; it reads only entries below the available index, which is stored last.
- Virtio.Disk.Intr: requests that the device fails are not part of this model; the driver panics on them.
- Physical-page reference counts and the page-fault path (kernel/mmap.c:16-89, kernel/mmap.c:263-350).
- `sys_kill` and `force_exit` (kernel/proc.c:386-393): a task that kills itself switches out while RUNNING, which `SchedInv.StateOk` excludes.
- The closing of files by `free_task` in wait, with the zombie's lock and wait_lock held (kernel/proc.c:309-317); P, V and sleep are modelled for callers that hold spinlocks in general.
- The interrupt-enable state of `push_off` and `pop_off`; interrupts come as yield and wakeup steps. Sleep locks (kernel/lock.c:111-146), which are built of sleep and wakeup.
- The exit status that wait passes on, task names and the process dump.
- Liveness and fairness of spinlocks, of the scheduler and of waiting for descriptors.
- `copy_pagetable`, `fetchaddr`, the TLB, memory fences and the kernel's own page table (kernel/vm.c:20-58).
- User pages and page tables are kept in separate memories in VmCopy.
- Device set-up of virtio (kernel/virtio_disk.c:64-160), other devices, traps and ELF loading.
- A buffer is in one request at a time: its holder has the buffer's semaphore (kernel/bio.c).
- `bpin` and `bunpin`; block device 0, which marks an unused buffer; writers write back before they release.
- The heap nodes of the shell's commands, which are values here, filled in when an exec node is complete; `runcmd`, `getcmd` and `main`.
- The parameter `left` of `rb_insert_node`, always 0; the uncounted range erase; the data of the sentinel; a size beyond `size_t`.
- The allocator's lock, its printing, `managererr`, and the overflow of `_log2`'s shift for sizes beyond 2^30, which `mm_malloc` refuses before anything is taken.
