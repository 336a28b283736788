# A verified model of the kernel's data structures and allocators

This project models the parts of a small x86 kernel that everything else rests on, and proves
what they promise, for all inputs and over all runs:

- the red-black interval tree (`libs/rb_tree.c`): `RbShape`, `RbSpec`, `RbLinks`, `RbInsert`,
  `RbRemove`, `RbDelete`, `RbTree`, `RbFacts`;
- the allocator of virtual areas (`mm/vmalloc.c`) with its three views of one address range:
  `VmAreas`, `VmLists`, `Vmalloc`, `VmRuns`, `VmStale`,
  `VmFaults`;
- the two buddy allocators (`mm/page.c`, `mm/kmalloc.c`): `BuddyGeometry`, `BuddyTiling`,
  `BuddyState`, `BuddyAlloc`, `BuddyFree`, `BuddyClash`, `BuddyRelease`, `BuddyCycle`, `BuddyInit`,
  `BuddyPages`, `BuddyFresh`;
- the multi-CPU scheduler and its spinlock (`schedule/schedule.c`, `libs/lock.c`): `Sched`,
  `SchedSafety`, `SchedSteps`, `SchedRuns`, `SchedFair`, `SchedCalls`,
  `SchedStatus`, `SchedPlace`;
- the lock-free byte ring and the growing queue (`libs/fifo.c`, `libs/queue.c`): `FifoIndex`,
  `FifoSteps`, `FifoRuns`, `FifoFlow`, `Fifo`, `Queue`, `RingWindow`;
- two-level page tables and object caches (`mm/page_table.c`, `mm/slab.c`): `PageWords`,
  `PageTable`, `PageMap`, `Slab`, `SlabCache`;
- number printing and parsing (`libs/string.c`): `Numbers`, `NumberText`,
  `NumberGrammar`;
- intrusive lists, bit tricks and size classes (`include/list.h`, `include/bitops.h`,
  `include/log2.h`): `List`, `Log2`; with `Bits`, `Modulo` and `Distinct` underneath.

`dafny verify dfyconfig.toml` checks everything.

## How the model is built

Pointers are numbers, 0 is the null pointer, and memory that several pointers reach is a map that
the methods take and give back (`Memory` in `RbLinks`, `Links` in `List`, `State` in `BuddyState`).
The loops of the source are loops here and write the same fields in the same order. What an
allocation returns is a parameter, so that its failure is covered. Where the source keeps an object
alive across calls there is a class with the invariant `Valid()`: `RbTree.RbTree`,
`Vmalloc.VmSpace`, `BuddyPages.PageAllocator`, `Fifo.Fifo`, `Queue.Queue`, `PageMap.AddressSpace`,
`SlabCache.KmemCache`. The scheduler and the fifo are machines in which any CPU, or either thread,
may take the next step; a run is any sequence of such steps.

A tree in memory is tied to an inductive tree by a path and a subtree (`RbLinks.At`), so that the
fixup loops can be followed node by node. The buddy allocators are tied to an exact tiling of the
valid frames by aligned blocks (`BuddyTiling.Tiling`).

## What does not hold

Each of these is stated with the exact condition under which the code does what it should.

- The coalescing loops of `free_pages` and `free_blocks` test that a buddy is free but not that it
  has the same order. `BuddyRelease.Release` proves that the allocator stays sound if and only if
  every buddy on the way has the order of the block it joins, and that otherwise no reading of the
  lists makes sense any more. The early allocator gets there in five calls
  (`BuddyPages.EarlyMismatch`); the page allocator by adding four frames, taking one and giving it
  back (`BuddyFresh.FourFrames`). `BuddyFresh.FreshCycle` says for memory just added exactly which
  blocks can be taken and given back.
- Allocating and freeing restores the free blocks if and only if the buddy of the block that was
  split is not free or the block was of the largest order (`BuddyCycle.RoundTrip`); of two frames
  taken and given back one by one, one block is left (`BuddyFresh.TwoFrames`).
- `free_vma` never puts an area back on a free list. At most one area is ever on one, always the
  last of the address range, and once it has been swallowed nothing can be allocated any more:
  `VmFaults.FirstCycle` gets there in two calls.
- `alloc_vma` of length 0 breaks the tiling (`VmFaults.ZeroLength`).
- `free_vma` unlinks areas that are no longer on a list, so an area off the lists may still point at
  a record that has been freed. If `kmalloc` gives that memory for the next remainder, nothing is
  wrong at once: `Vmalloc.AllocVma` keeps the three views in agreement if and only if the length is
  positive and the tree gets its node. But when the area that points there is unlinked for the second
  time, the stale link comes alive. That can never happen if every area whose `prev` is the record has
  the head of the remainder's list as its `next` (`Vmalloc.Usable`): the invariant `StateOk` is then
  kept, and `Vmalloc.FreeVma` keeps it. Otherwise it always can: freeing the area that points there,
  if it is live, and then the live area after it makes one list run into the head of another, and no
  reading of the lists agrees with the areas any more (`VmStale.StaleStrikes`). `VmFaults.ReusedRecord`
  is such a run from the start. On plain lists instead of linked ones the views agree over every run
  (`VmRuns.FromInit`), and the linked ones follow them as long as every record is usable
  (`VmRuns.FollowRun`).
- An area that ends the address range can be handed out but not freed: the first assert of
  `free_vma` asks for an end below the end of the range. `Vmalloc.FreeVma` halts exactly then,
  `Vmalloc.HandedOutFreeable` says which requests get such an area, and `VmFaults.FullRange` gets
  there by asking for 262143 pages and then for 524288.
- `kmalloc_early` divides the size without rounding up and gives too small a block exactly when
  something is lost and the quotient is a power of two (`Log2.EarlyFits`); nine bytes get eight.
- `round_up_page` wraps for sizes within a page of 4 GB (`Log2.PagesChoice`).
- A slab page with more than 256 objects lists the first object twice, because indices are bytes
  (`Slab.FreshPage`), and hands it out again while it is live (`Slab.Drain`); among the kernel's caches that is the one of 8 bytes (`Slab.KmallocCaches`).
  A cache of 1-byte or page-sized objects has no room for any (`Slab.Layout`).
- `to_str` prints the least integer as a lone minus sign; every other integer survives printing and
  parsing (`NumberText.DecimalRoundTrip`).
- The runtime validator of the tree compares each node with its children only and accepts trees
  that are not sorted (`RbFacts.ValidatorIsLocal`).
- Queued threads are not always RUNNABLE: `schedule` puts the old thread on the queue and unlocks it
  before it writes the thread's state. A queued thread is RUNNABLE unless its own CPU has put it back
  and is about to mark it, and is then still RUNNING (`SchedRuns.SafeFromBoot`);
  `SchedStatus.QueuedRunning` is a run of seventeen steps from boot to such a state.
- Current threads are not always RUNNING: the thread that follows one that has exited is never marked
  and runs as RUNNABLE (`SchedStatus.ReturnStatus`, `SchedStatus.ExitDecides`).
- `thread_exit` comes back to its caller if and only if the queue is empty when `schedule` looks at it
  (`SchedStatus.ExitReturns`).
- A slab page that was once full stays on the full list when objects come back, and is passed over
  until it is empty (`SlabCache.FullPassed`): `kmem_cache_alloc` takes a new page if and only if the
  partial list is empty, and `SlabCache.PassedOver` is a run in which it does so though another page
  has room.
- A thread is put at the front of its queue, yet does not cut in before a thread that the CPU has
  already peeked at; the waiting laws count only threads that really cut in, and
  `SchedCalls.LateThread` is a run with one that does not.
- `page_map` and `page_unmap` take the number of pages from the size alone. They reach every byte of
  the range if and only if it is empty or the offset of its start in a page and the remainder of
  `size - 1` by a page add up to less than a page (`PageMap.Coverage`); two bytes across a page
  boundary get one page (`PageMap.Uncovered`).
- `fifo_len` and the indices are right if and only if the sum they take stays below 4 GB
  (`FifoIndex.FifoLen`, `FifoIndex.Advance`), as it does for every buffer of up to 2 GB.
- The comment above `strtol` promises a `0X` prefix. Hexadecimal digits after `0x` are read to their
  end (`NumberGrammar.SmallPrefix`); after `0X` they are not read at all, and the number is 0
  (`NumberGrammar.CapitalPrefix`), so that the two agree only on digits worth nothing
  (`NumberGrammar.PrefixIff`).

## Model

| member | source | states |
|---|---|---|
| `RbTree.RemoveKey` | libs/rb_tree.c:386-455 | exactly the one stored range that contains the key goes, or -EINVAL and nothing changes when there is none; the node freed is the one that held it and every other node keeps its range; the tree in memory is again sorted, linked both ways, black-rooted, without red-red edges and of equal black heights |
| `RbTree.InsertRange` | libs/rb_tree.c:252-308 | NULL exactly for an inverted or overlapping range or want of memory, with nothing changed; otherwise the range joins the sorted ranges and the new node holds it, no other node's range changes, and all tree invariants hold again |
| `RbRemove.RemoveFixup` | libs/rb_tree.c:310-384 | from a tree one black node short at any focus, also an empty one, the loop ends in a red-black tree with the same ranges and the same nodes |
| `RbRemove.ShortLeft` | libs/rb_tree.c:319-348 | one round of the loop with the short subtree on the left: either the tree is whole or the deficit has moved up, by a measure that shrinks |
| `RbRemove.ShortRight` | libs/rb_tree.c:349-380 | the mirror image of a round |
| `RbRemove.RedSiblingStep` | libs/rb_tree.c:322-327 | case 1: rotating a red sibling up keeps every path's blacks and leaves a black sibling |
| `RbRemove.BlackSiblingStep` | libs/rb_tree.c:329-332 | case 2: painting the sibling red moves the deficit to the parent |
| `RbRemove.NearNephewStep` | libs/rb_tree.c:334-340 | case 3: turns a red near nephew into a red far one |
| `RbRemove.FarNephewStep` | libs/rb_tree.c:342-347 | case 4: borrowing the far nephew's black ends the deficit |
| `RbInsert.InsertFixup` | libs/rb_tree.c:210-250 | from one possible red-red edge at a new node the loop ends in a red-black tree with the same ranges and nodes |
| `RbInsert.RecolourStep` | libs/rb_tree.c:217-221 | a red uncle moves the red-red edge up two levels |
| `RbInsert.OuterStep` | libs/rb_tree.c:227-229 | the outer rotation removes the red-red edge |
| `RbInsert.InnerStep` | libs/rb_tree.c:223-226 | the inner rotation turns the inner case into the outer one |
| `RbLinks.RotateLeft` | libs/rb_tree.c:168-187 | the pointer writes of a rotation turn the tree in memory into the rotated tree, parents included, and touch nothing else |
| `RbLinks.RotateRight` | libs/rb_tree.c:189-208 | the mirror image |
| `RbShape.RotatedLeftInorder` | libs/rb_tree.c:168-187 | a rotation keeps the order of the ranges |
| `RbShape.RotatedRightInorder` | libs/rb_tree.c:189-208 | a rotation keeps the order of the ranges |
| `RbDelete.RemoveNode` | libs/rb_tree.c:398-451 | splicing out a node, itself or its successor, and the fixup it calls for, leave the other ranges in order in a red-black tree |
| `RbDelete.Splice` | libs/rb_tree.c:398-446 | the tree in memory after the splice, short of one black exactly when the node spliced out was black |
| `RbDelete.SpliceTwo` | libs/rb_tree.c:401-446 | with two children: the successor takes the node's place and colour |
| `RbDelete.SpliceOne` | libs/rb_tree.c:406-420 | with at most one child: the child takes the node's place |
| `RbDelete.Leftmost` | libs/rb_tree.c:401-403 | the loop finds the next node in order, which has no left child |
| `RbTree.FindSlot` | libs/rb_tree.c:260-274 | the descent reports an overlap exactly when some stored range overlaps; otherwise it finds the hole where the range belongs |
| `RbTree.Hang` | libs/rb_tree.c:280-298 | the new node is linked into the hole; the third branch is never reached |
| `RbTree.Search` | libs/rb_tree.c:153-166 | the same answer as a linear scan over all ranges, in at most as many steps as the tree is high |
| `RbTree.RbTree.Insert` | libs/rb_tree.c:252-308 | over any run: what insertion answers and stores |
| `RbTree.RbTree.Remove` | libs/rb_tree.c:386-455 | over any run: what removal answers and leaves |
| `RbTree.RbTree.Find` | libs/rb_tree.c:153-166 | over any run: lookup agrees with a scan of the contents |
| `RbSpec.InsertedSorted` | libs/rb_tree.c:252-308 | a range that overlaps none keeps the ranges sorted and disjoint |
| `RbSpec.RemovedInserted` | libs/rb_tree.c:386-455 | removing a key of a range just inserted gives back the ranges before |
| `RbFacts.ValidateIff` | libs/rb_tree.c:71-151 | exactly which trees the runtime validator accepts, and that it counts black height |
| `RbFacts.ValidatorNeverFires` | libs/rb_tree.c:137-151 | on every tree the operations maintain, the validator accepts |
| `RbFacts.ValidatorIsLocal` | libs/rb_tree.c:71-88 | the validator also accepts a tree that is not sorted |
| `RbFacts.HeightBlack` | libs/rb_tree.c:107-135 | black height bounds the number of nodes from below and the height from above |
| `RbFacts.HeightBound` | libs/rb_tree.c:153-166 | a red-black tree of n ranges is at most twice the binary logarithm of n + 1 high |
| `RbFacts.TreeIterate` | libs/rb_tree.c:489-510 | the walk along the links calls back on the ranges in order up to and including the first non-zero answer, which it returns |
| `RbFacts.Iterate` | libs/rb_tree.c:512-516 | on every tree the operations maintain, that order is ascending |
| `RbFacts.FirstAnswer` | libs/rb_tree.c:489-510 | the answer is that of the first callback that does not return zero, and zero if there is none |
| `Vmalloc.AllocVma` | mm/vmalloc.c:104-154 | an area exactly when the one on the free lists is large enough and the remainder gets its record; list, free lists and tree still agree if and only if the length is positive and the tree got its node, and no reading of them agrees otherwise; the invariant on stale links is kept if and only if the length is positive and the remainder's record is usable |
| `Vmalloc.FreeVma` | mm/vmalloc.c:69-102 | given any live area, whatever the free lists hold: its first assert fails exactly when the area ends the range; otherwise the area merges with its free neighbours and leaves the tree, and both adjacency asserts hold; under the invariant list, free lists and tree agree again |
| `Vmalloc.HandedOutFreeable` | mm/vmalloc.c:69-141 | an area handed out can be freed exactly when a remainder was split off behind it |
| `Vmalloc.TakeTail` | mm/vmalloc.c:111-141 | the search over the lists and the split: the size assert and the order assert hold |
| `Vmalloc.TailFits` | mm/vmalloc.c:111-119 | an area on the list of the rounded-up order or above is long enough |
| `Vmalloc.RestOrder` | mm/vmalloc.c:131-133 | what is split off goes on no higher a list than the area came from |
| `Vmalloc.MergePrev` | mm/vmalloc.c:78-87 | the loop swallows the free area before; unlinking it from a list it is no longer on does no harm |
| `Vmalloc.MergeNext` | mm/vmalloc.c:89-98 | the same for the area after |
| `Vmalloc.FindVma` | mm/vmalloc.c:50-67 | the live area around an address, exactly when there is one and the tree got its node |
| `VmFaults.FirstCycle` | mm/vmalloc.c:69-154 | after allocating and freeing the first area no request can be met any more |
| `VmFaults.ZeroLength` | mm/vmalloc.c:104-154 | asking for nothing, first thing, breaks the tiling |
| `VmFaults.FullRange` | mm/vmalloc.c:69-154 | two requests after which a live area of a sound state cannot be freed |
| `VmFaults.ReusedRecord` | mm/vmalloc.c:69-154 | calls from the start, the last of them a `free_vma`, after which list 18 runs into the head of list 19 and no reading of the lists agrees with the areas |
| `VmStale.StaleStrikes` | mm/vmalloc.c:69-154 | from every sound state: an allocation whose record is not usable, followed by at most two calls of `free_vma`, leaves a list that runs into another head; areas and tree are still right |
| `VmRuns.FromInit` | mm/vmalloc.c:69-154 | on plain lists, over every run of positive requests and frees from the start: the areas tile the range in order without adjacent free ones, the tree holds exactly the live ones whose node it got, and the lists at most the last |
| `VmRuns.AlwaysAgree` | mm/vmalloc.c:69-154 | every such call keeps the three views in agreement |
| `VmRuns.Follow` | mm/vmalloc.c:69-154 | in every sound state a call of `alloc_vma` with a usable record, or of `free_vma`, does to areas, lists and tree in memory what it does to plain ones |
| `VmRuns.FollowRun` | mm/vmalloc.c:69-154 | any run from the start does so up to the first record that is not usable |
| `Vmalloc.InitialOk` | mm/vmalloc.c:278-304 | the initial state is good, with the one area on list 19 |
| `Vmalloc.VmSpace.Alloc` | mm/vmalloc.c:104-154 | over any run: when the views agree and when the invariant is kept, each as an if and only if; which areas the tree lacks |
| `Vmalloc.VmSpace.Free` | mm/vmalloc.c:69-102 | over any run: halts exactly for an area that ends the range; the three views agree, and lists once empty stay empty |
| `VmAreas.AllocKeeps` | mm/vmalloc.c:121-141 | the areas still tile the range without gap, overlap or adjacent free areas |
| `VmAreas.AllocLive` | mm/vmalloc.c:142 | the area handed out overlaps no live one, so the tree accepts it |
| `VmAreas.SwallowPrev` | mm/vmalloc.c:78-84 | swallowing the free area before keeps the tiling |
| `VmAreas.SwallowNext` | mm/vmalloc.c:89-95 | swallowing the free area after keeps the tiling |
| `VmAreas.Released` | mm/vmalloc.c:100 | an area with no free neighbour becomes free without making two adjacent ones |
| `VmLists.StaleUnlinked` | mm/vmalloc.c:85 | a second `list_remove` of an area already off its list leaves every list as it was |
| `VmLists.Handover` | mm/vmalloc.c:135-140 | inserting the remainder and removing the area leaves the remainder alone on its list, whatever its record was before |
| `VmLists.HandoverStale` | mm/vmalloc.c:135-140 | the stale links stay harmless if and only if those to the remainder's record are those of its list |
| `VmLists.Poisons` | mm/vmalloc.c:135-140 | otherwise a later `list_remove` of the area that points there would write the head of another list into the remainder |
| `VmLists.Strikes` | mm/vmalloc.c:84-86 | that `list_remove` makes the list run into the other head, and no other one prevents it |
| `VmLists.StrikesHead` | mm/vmalloc.c:95-97 | if the remainder is unlinked as well, the one head leads straight to the other |
| `BuddyRelease.Release` | mm/page.c:179-200 | `free_pages`, and `free_blocks` alike, given a live block: the tiling, lists, flags and orders are sound afterwards if and only if every free buddy on the way has the order of the block it joins, and then exactly the coalesced block has become free, at the head of its list |
| `BuddyAlloc.Allocate` | mm/page.c:146-177 | `alloc_pages`, and `alloc_blocks` alike: a block exactly when some free block of the zone is large enough: aligned, of the order asked for, not live before, cut from the first on the list of a smallest that would do, the upper halves freed; the tiling is kept and both asserts hold |
| `BuddyAlloc.SplitLoop` | mm/page.c:160-167 | splitting down frees exactly the upper halves, each a valid block |
| `BuddyCycle.RoundTrip` | mm/page.c:140-200 | allocating and freeing restores the free blocks if and only if the buddy of the block split is not free or the block was of the largest order |
| `BuddyCycle.Regrown` | mm/page.c:184-196 | the coalescing loop joins exactly the halves that splitting cut off |
| `BuddyCycle.MismatchRun` | mm/kmalloc.c:59-109 | five calls from the initial state after which no set of free blocks agrees with the lists |
| `BuddyPages.EarlyMismatch` | mm/kmalloc.c:91-149 | the same from `kmalloc_early_init` on |
| `BuddyClash.BadEnd` | mm/page.c:184-198 | once a buddy of another order has been joined, whatever the loop does next, free and live blocks never tile the frames again |
| `BuddyClash.BadStep` | mm/page.c:184-196 | what the loop keeps after such a join: one index it can never take as a buddy |
| `BuddyFree.MergeStep` | mm/page.c:191-195 | joining a free buddy of the same order keeps the tiling |
| `BuddyTiling.SplitTiling` | mm/kmalloc.c:74-81 | a block and its XOR buddy of the next lower order tile what the block tiled |
| `BuddyTiling.MergeTiling` | mm/kmalloc.c:95-105 | two buddies of one order merge into a block that tiles the same |
| `BuddyTiling.BuddyIsHead` | mm/page.c:49-52 | in a tiling a valid buddy is the head of a block that is no larger |
| `BuddyGeometry.BuddyHalves` | mm/kmalloc.c:44-47 | an aligned block and its XOR buddy are the halves of the next larger aligned block |
| `BuddyState.OneZone` | mm/page.c:54-63 | a block lies in one zone |
| `BuddyInit.AddFreePages` | mm/page.c:77-130 | every aligned group of 1024 frames in the range becomes one free block of order 10, every other frame of it a free block of order 0, all in their own zone; everything else is as it was; the recursion ends |
| `BuddyInit.CutHeads` | mm/page.c:107-129 | which frames of a range on one side of the boundary head which blocks |
| `BuddyInit.BoundaryHeads` | mm/page.c:86-94 | splitting at the boundary cuts no group |
| `BuddyInit.InitFreePages` | mm/page.c:65-75 | exactly the blocks that fill the range become free, and the closing assert holds |
| `BuddyInit.InitThree` | mm/page.c:117-129 | single frames, largest blocks, single frames |
| `BuddyInit.BoundaryApart` | mm/page.c:86-94 | no block crosses the boundary of high memory |
| `BuddyInit.EarlyInit` | mm/kmalloc.c:136-149 | one free block of the largest order tiles all indices |
| `BuddyPages.PageAllocator.constructor` | mm/page.c:202-212 | no frames, no blocks |
| `BuddyPages.PageAllocator.AddFreePages` | mm/page.c:77-130 | over any run: the new frames are free, as whole groups and single frames; live blocks are untouched |
| `BuddyFresh.FirstLarge` | mm/page.c:77-177 | the first request for more than a frame succeeds if and only if the range added holds a whole group in the zone asked for |
| `BuddyPages.PageAllocator.AllocPages` | mm/page.c:140-177 | over any run: when a block is found, that none of its frames is in another live block, and that all are of the zone asked for |
| `BuddyPages.PageAllocator.FreePages` | mm/page.c:179-200 | over any run: sound if and only if the orders agree |
| `BuddyFresh.FreshCycle` | mm/page.c:65-200 | from memory just added, taking a block and giving it back is sound if and only if it came from a block of the largest order, or its buddy is not free, or the buddy of the pair they make is not |
| `BuddyFresh.FrameBack` | mm/page.c:179-200 | the same for any single frame given back among single frames and largest blocks |
| `BuddyFresh.AddTakeGive` | mm/page.c:77-200 | the same as a run of the three calls on any range |
| `BuddyFresh.FourFrames` | mm/page.c:77-200 | four frames added, one taken and given back: no reading of the lists tiles them |
| `BuddyFresh.TwoFrames` | mm/page.c:77-200 | two frames added, one taken and given back: sound, but the free blocks are not what they were |
| `SchedRuns.AlwaysSafe` | schedule/schedule.c:78-187 | over every interleaving on any number of CPUs: the invariant holds |
| `SchedPlace.Lands` | schedule/schedule.c:78-118 | over every interleaving a new thread is in its creator's hands and nowhere else until the list operation, which puts it at the front of the queue of the CPU asked for, or of the creator's own if there is no such CPU |
| `SchedPlace.LandsAlone` | schedule/schedule.c:78-118 | undisturbed, that takes three steps |
| `SchedRuns.SafeFromBoot` | schedule/schedule.c:78-222 | from boot, over every interleaving: a thread is live exactly when it is in some place, and never in two of current, a queue, a CPU's hands; sections on one lock exclude each other; a queued thread is runnable, or its own CPU is about to mark it so and it is still marked as running |
| `SchedStatus.QueuedRunning` | schedule/schedule.c:172-176 | a run from boot to a queued thread marked as running |
| `SchedStatus.ReturnStatus` | schedule/schedule.c:171-186 | when `schedule` ends, the new thread is marked as running if the old one was put back, and as runnable if it had exited |
| `SchedStatus.ExitDecides` | schedule/schedule.c:171 | which of the two happens |
| `SchedStatus.ExitReturns` | schedule/schedule.c:37-155 | whatever the other CPUs do, an exit comes back to its caller if and only if the queue is empty when it is looked at |
| `SchedStatus.PeekTakes` | schedule/schedule.c:157-166 | otherwise another thread is picked |
| `SchedRuns.NextKeeps` | schedule/schedule.c:147-187 | every single step of every CPU keeps the invariant |
| `SchedRuns.PeekDiffers` | schedule/schedule.c:154-161 | the queue found non-empty without the lock is still non-empty, its first thread is runnable and is never the current one |
| `SchedRuns.BootOk` | schedule/schedule.c:189-222 | the state after `schedule_init` on every CPU is good |
| `SchedSafety.TakeMoves` | schedule/schedule.c:165-167 | removal moves just that thread from the queue into the CPU's hands |
| `SchedSafety.SwitchSwaps` | schedule/schedule.c:169 | old and new current change places, and are different threads |
| `SchedSafety.PutBackMoves` | schedule/schedule.c:172-174 | the old thread goes back on exactly one queue |
| `SchedSafety.AddMoves` | schedule/schedule.c:115-118 | a new thread goes on exactly one queue |
| `SchedSafety.FreeDies` | schedule/schedule.c:178-186 | an exited thread is nowhere once it is freed |
| `SchedSafety.CasEnters` | libs/lock.c:9-20 | a successful `cmpxchg` finds the section empty |
| `SchedSafety.UnlockLeaves` | include/lock.h:14-17 | unlocking leaves the section empty |
| `SchedFair.Turn` | schedule/schedule.c:147-187 | bounded waiting: a queued thread is taken by its CPU at turn number k + 1 + the threads that cut in meanwhile, and at no other, where k threads were to go first |
| `SchedFair.WaitOverRun` | schedule/schedule.c:115-187 | over every run in which a thread waits, its wait is what it was, plus the cuts, less the turns |
| `SchedFair.WaitStep` | schedule/schedule.c:115-174 | what each step of each CPU does to the wait; exits and other CPUs' switches do nothing |
| `SchedFair.CallsAreTurns` | schedule/schedule.c:154-167 | while a thread waits, each call of `schedule` on its CPU takes exactly one thread |
| `SchedCalls.Scheduled` | schedule/schedule.c:147-187 | bounded waiting in calls: a queued thread becomes its CPU's current one through call number k + 1 + the threads that cut in, and through no other, whatever the other CPUs do |
| `SchedCalls.NoMoreCalls` | schedule/schedule.c:147-187 | while a thread waits, its CPU makes at most that many calls of `schedule` |
| `SchedCalls.HandoverRun` | schedule/schedule.c:166-169 | over every run: a thread taken is the current one two steps of its CPU later |
| `SchedCalls.LateThread` | schedule/schedule.c:115-167 | a run in which a thread goes ahead on the queue of one that has been picked, and does not cut in |
| `FifoRuns.AlwaysPrefix` | libs/fifo.c:15-104 | over every interleaving of one producer and one consumer, at byte steps: what was consumed is a prefix of what was produced, every answer is the right stretch of it |
| `FifoFlow.Delivered` | libs/fifo.c:6-104 | from `fifo_init`, over every interleaving: the bytes sent, with those of a call under way, are exactly the bytes that the calls let in were given, in order; what was consumed is a prefix of them and every answer the stretch it says it is |
| `FifoFlow.Refines` | libs/fifo.c:15-104 | at every moment of every interleaving the ring shows what a plain queue of bytes driven by the same calls has |
| `FifoFlow.FedOverRun` | libs/fifo.c:49-59 | the plain queue's stream is the concatenation of what was let in |
| `FifoFlow.WriteCall` | libs/fifo.c:49-59 | a whole `fifo_in`, whatever the consumer does meanwhile: exactly its bytes are appended |
| `FifoFlow.ReadCall` | libs/fifo.c:75-95 | a whole `fifo_out` or `fifo_out_peek` answers the next bytes of the stream, exactly as many as asked for, and passes them or none |
| `FifoFlow.SkipCall` | libs/fifo.c:97-104 | a whole `fifo_skip` passes exactly that many and answers nothing |
| `FifoRuns.FromInit` | libs/fifo.c:6-104 | every unread byte is still in its slot |
| `FifoRuns.Clear` | libs/fifo.c:35-47 | the slot a producer writes next holds no byte still to be read |
| `FifoRuns.NextKeeps` | libs/fifo.c:49-104 | every step of either thread keeps the invariant |
| `FifoRuns.Refused` | libs/fifo.c:51-52 | a call is refused exactly when the stream leaves no room, or not enough bytes |
| `FifoSteps.Slot` | libs/fifo.c:41-44 | each byte of the two copies goes where the wrapped offset says |
| `FifoRuns.Unread` | libs/fifo.c:61-73 | what has been sent and not yet passed is in the ring from the read index on |
| `Fifo.Fifo.In` | libs/fifo.c:49-59 | all bytes are appended, or -ENOSPC and nothing changes, exactly when there is no room |
| `Fifo.Fifo.Out` | libs/fifo.c:75-85 | the oldest bytes are taken, or -ENOENT and nothing changes |
| `Fifo.Fifo.Peek` | libs/fifo.c:87-95 | the oldest bytes are shown and stay |
| `Fifo.Fifo.Skip` | libs/fifo.c:97-104 | the oldest bytes are dropped |
| `Fifo.WindowGrows` | libs/fifo.c:35-57 | copying in behind the contents appends, wrapped or not |
| `Fifo.WindowSplits` | libs/fifo.c:61-73 | the two copies out read the contents in order |
| `Fifo.Moves` | libs/fifo.c:15-18 | the length grows and shrinks with the indices |
| `FifoIndex.FifoLen` | libs/fifo.c:15-18 | the remainder of 32-bit words is the number of bytes if and only if the sum of indices does not wrap |
| `FifoIndex.FifoAvail` | libs/fifo.c:20-23 | the room, less one slot, under the same condition |
| `FifoIndex.Advance` | libs/fifo.c:56 | the published index has moved on by the bytes copied, if and only if the sum does not wrap |
| `Queue.Queue.Enqueue` | libs/queue.c:79-92 | appends, growing first when full, from any layout; -ENOMEM and nothing changes exactly when full and out of memory |
| `Queue.Queue.Dequeue` | libs/queue.c:94-102 | takes the oldest element, or -ENOENT when empty |
| `Queue.Queue.Expand` | libs/queue.c:50-77 | twice the capacity, the same elements in order |
| `Queue.Queue.Unwrapped` | libs/queue.c:58-70 | one copy or two lay the elements out from the start |
| `Queue.Queue.Size` | include/queue.h:41-48 | the number of elements |
| `Queue.QueueFull` | include/queue.h:44-45 | full exactly when one slot is left |
| `RingWindow.WindowDrops` | libs/queue.c:99-100 | advancing the front drops the oldest elements |
| `PageMap.PageMap` | mm/page_table.c:46-65 | exactly the pages counted get entries, with consecutive frames and the flags; every other entry is as it was; the loop counter does not wrap |
| `PageMap.Coverage` | mm/page_table.c:46-83 | exactly when the pages that the loops visit cover every byte of the range |
| `PageMap.PageUnmap` | mm/page_table.c:67-83 | exactly the pages counted lose their entries |
| `PageMap.MapRefines` | mm/page_table.c:46-65 | as a flat map from page numbers to frames and rights, mapping is an update by the whole range; a page may be written if and only if the write flag is given and its directory entry was missing or allows writing |
| `PageMap.UnmapRefines` | mm/page_table.c:67-83 | unmapping takes the whole range out of the flat map, and changes no other page's rights |
| `PageMap.MapUnmap` | mm/page_table.c:46-83 | unmapping what was just mapped restores the flat map if and only if nothing in the range was mapped before |
| `PageMap.AddressSpace.Map` | mm/page_table.c:46-65 | over any run: the flat map after mapping; in a directory built by such calls, a page can be written exactly when it was mapped with the write flag |
| `PageMap.AddressSpace.Unmap` | mm/page_table.c:67-83 | over any run: the flat map after unmapping |
| `PageTable.GetPte` | mm/page_table.c:22-39 | the entry's table and index; a directory entry that is missing becomes the address of a fresh page plus the present and write flags, every other one is as it was; the new table is zeroed, so no translation changes |
| `PageTable.TableAdded` | mm/page_table.c:29-35 | a fresh table is shared with no other directory entry, and its entry is its address plus 3 |
| `PageTable.WrittenEntry` | mm/page_table.c:58-59 | a write shows at one page number only |
| `PageWords.Indices` | include/memory.h:125-126 | the two indices are the digits of the page number |
| `PageWords.BaseIs` | include/memory.h:128 | `page_base` clears the offset |
| `PageWords.EntryReads` | mm/page_table.c:41-44 | address and flags read back from an entry, which is present |
| `SlabCache.KmemCache.Alloc` | mm/slab.c:90-112 | over any run: the object was not live, lies below the index stack, and is live now; the assert holds; a new page is taken if and only if the partial list is empty; both lists afterwards |
| `SlabCache.FullPassed` | mm/slab.c:90-112 | a page on the full list is never taken, whether or not it has room |
| `SlabCache.PassedOver` | mm/slab.c:56-126 | a run in which a page with room is passed over |
| `SlabCache.KmemCache.Free` | mm/slab.c:114-126 | over any run: just that object is no longer live; an empty page leaves the cache, any other stays on its list |
| `SlabCache.PopOk` | mm/slab.c:56-72 | taking an index keeps every page's stack a duplicate-free list of the objects not live, and pages on the partial list have room |
| `SlabCache.PushOk` | mm/slab.c:74-88 | giving an index back keeps the same |
| `SlabCache.IndexRoundTrip` | mm/slab.c:12-23 | an object's address gives back its index |
| `SlabCache.ObjectsApart` | mm/slab.c:12-38 | objects of a page overlap neither each other nor the index stack |
| `Slab.TakeOk` | mm/slab.c:61-64 | the object handed out was not live |
| `Slab.ReturnOk` | mm/slab.c:78-81 | the assert holds, the index stack is right again, and the object given back is the next to be handed out |
| `Slab.FreshPage` | mm/slab.c:33-41 | a fresh page lists its objects once each if and only if there are at most 256 |
| `Slab.Drain` | mm/slab.c:25-64 | which objects a fresh page hands out; they are all different if and only if there are at most 256 of them |
| `Slab.InitPage` | mm/slab.c:25-45 | the index stack of a fresh page, through bytes, and how many objects and indices it has |
| `Slab.Layout` | mm/slab.c:33-37 | objects and index stack fit, and there is room for no more of either; there is an object exactly for sizes above 1 and below a page |
| `Slab.FillsUnique` | mm/slab.c:33-37 | only one pair of numbers does that |
| `Slab.KmallocCaches` | mm/kmalloc.c:192-199 | how many objects a page of each of the eight kernel caches holds; only the one of 8 bytes has more than 256 |
| `NumberText.DecimalRoundTrip` | libs/string.c:222-272 | parsing what `to_str` prints gives the integer back if and only if it is not the least one |
| `NumberText.HexRoundTrip` | libs/string.c:634-661 | `hex_to_value` accepts what `to_hex` prints and gives back the same 32 bits, for every word |
| `NumberText.ToStr` | libs/string.c:393-416 | the decimal numeral, with its sign, in the buffer |
| `NumberGrammar.PrintsUsual` | libs/string.c:393-416 | every integer but the least is printed in decimal digits of its value without leading zeros, after a minus sign exactly if it is negative |
| `NumberText.DecimalLength` | libs/string.c:393-416 | eleven characters are enough for every integer |
| `NumberText.ToHex` | libs/string.c:421-439 | eight hexadecimal digits after `0x` |
| `NumberText.Strtol` | libs/string.c:222-272 | blanks, sign, prefix and the longest run of digits, with the exact value modulo 2^32 |
| `NumberGrammar.Reads` | libs/string.c:222-272 | for every text of blanks, an optional sign, a prefix the base allows, digits of the base it leaves, and a rest that does not go on with one: the signed value of exactly those digits modulo 2^32, and where they end |
| `NumberGrammar.PrefixIff` | libs/string.c:239-246 | for every string of hexadecimal digits: `0X` and `0x` before it are read alike if and only if it is worth nothing |
| `NumberGrammar.SmallPrefix` | libs/string.c:239-264 | for every string of hexadecimal digits: after `0x` all of them are read, for their exact value modulo 2^32 |
| `NumberGrammar.CapitalPrefix` | libs/string.c:213-264 | whatever follows `0X`, the number is 0 and ends after its zero |
| `NumberText.HexToValue` | libs/string.c:644-661 | refuses exactly a wrong prefix or digit; otherwise the exact value modulo 2^32 |
| `Numbers.ReverseStr` | libs/string.c:381-388 | the stretch is reversed in place and the rest untouched |
| `Numbers.PutDigits` | libs/string.c:408-411 | the loop writes the digits from the lowest on |
| `Numbers.NumeralRoundTrip` | libs/string.c:256-264 | the value of a numeral is the number it was printed from |
| `Log2.FlsCode` | include/bitops.h:5-42 | one plus the position of the highest set bit, for every 32-bit word |
| `Log2.RoundupSmallest` | include/log2.h:6-12 | the least exponent whose power of two is enough |
| `Log2.RounddownLargest` | include/log2.h:14-19 | the greatest exponent whose power of two fits |
| `Log2.CacheChoice` | mm/kmalloc.c:159-163 | up to 1024 bytes: the smallest cache that fits, and the assert holds |
| `Log2.PagesChoice` | mm/kmalloc.c:165-166 | above: the smallest run of pages that fits, exactly when rounding up does not wrap |
| `Log2.EarlyFits` | mm/kmalloc.c:111-121 | when the early allocator's block is large enough |
| `Log2.EarlyLeast` | mm/kmalloc.c:111-121 | no smaller order fits, and the next larger one always does |
| `Log2.EarlyShort` | mm/kmalloc.c:114 | nine bytes get eight |
| `List.Insert` | include/list.h:24-30 | the new node follows the given one in the ring; other nodes are untouched |
| `List.InsertBefore` | include/list.h:16-22 | the new node becomes the last of the ring |
| `List.Remove` | include/list.h:42-46 | the ring without the node, which keeps its own links |
| `List.StaleRemove` | include/list.h:42-46 | removing a node again empties the list it was once alone on |
| `List.Size` | include/list.h:63-72 | the loop ends and counts the members |
| `List.EmptyIff` | include/list.h:48-51 | empty exactly when the head follows itself |

## Left out

- Boot code, descriptors, interrupt controllers, devices, the file system, the shell and printing:
  hardware, or plumbing with only easy claims.
- Context switches, stacks, trap frames and the per-thread directory in `proc`: only queue
  membership and thread state are modelled. In particular the path that frees a thread already
  queued when its directory cannot be made is not.
- Preemption inside `schedule`: a CPU finishes a call before its next one starts.
- `SchedPlace.Lands`: the CPUs of the model are all `MAX_CPU` of them; a queue may belong to one that was
  never started, and a thread put there then never runs.
- The spin limit assert of `spin_lock`, which is about how long a section lasts.
- `thread_sleep`, `thread_wakeup` and timers: their list calls pass the arguments in the opposite
  order from `include/list.h`.
- Thread groups, which are shared between CPUs but guarded by per-CPU locks.
- Weak memory: the fifo and the scheduler step under sequential consistency. A list insertion is one
  step; its last write is the one that unlocked readers see.
- Node ids and the `total` field of the red-black tree, which nothing but the dump reads;
  `tree_delete`.
- `tree == NULL` in the tree's operations.
- `Vmalloc.AllocVma`: lengths that are not whole pages, which no caller passes. Falling out of the
  search loop is taken to return NULL.
- `Vmalloc.AllocVma`: other users of `kmalloc`. What they write into a freed record that an area off
  the lists still points at, or what that area's second unlinking writes into theirs, is not modelled.
- `Vmalloc.FindVma`: its second lock call is taken to be the unlock, and its asserts to be the answer
  that there is no area.
- The error path of `__vmalloc`, `vmap` and the mapping of areas.
- `BuddyRelease.Release`: removing a block from a list it is not on changes nothing here. It happens
  only after a join of different orders. That no reading of the lists is sound then is proved of the
  lists so modelled; in the source such a removal may also damage the links of other lists.
- `page_to_virt`, `virt_to_page` and other conversions by a constant offset.
- `Fifo.Fifo.In`: buffers above 2 GB; `FifoIndex.FifoLen` says when their index sums wrap.
- `Queue.Queue.Expand`: an allocation size beyond 32 bits. The old array is not freed, as in the source.
- `PageMap.MapRefines`: flags beyond twelve bits, which would disturb the frame.
- `PageMap.PageMap`: ranges that touch the directory's own entry or pass 4 GB; and running out of table pages, where the source follows a null
  page. The pages of the pool are fresh and distinct.
- Translation caches.
- `SlabCache.KmemCache.Alloc`: running out of pages, where the source follows a null page; and sizes
  for which `Slab.FreshPage` or `Slab.Layout` says no.
- `NumberText.Strtol`: signed overflow, undefined in C, is taken to wrap.
- `NumberText.ToStr`: buffers shorter than what is printed, since the length argument is not used.
