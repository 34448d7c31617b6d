# A verified model of sealloc

sealloc is a randomized `malloc` that does not hand out the same memory twice for as long as it stays
mapped. Its safety rests on several hand-written data structures that are updated in place and have to
agree with each other. This project models them in Dafny, from the two-bit node states up to `malloc`,
`free`, `realloc` and `calloc`, and proves what they are for: over every sequence of calls, for every
random draw, and for all inputs but the few listed under "Left out", for which the original fails.

`dafny verify dfyconfig.toml` checks the whole project.

## How it is built

| files | what they model |
|---|---|
| `TreeIndex`, `PackedStates`, `Utils` | index arithmetic of complete binary trees; two-bit states packed into bytes; `ctz` |
| `JumpList`, `ChunkSpec`, `ChunkTree`, `ChunkIndex`, `Chunk`, `ChunkTheorems` | one chunk: the buddy tree of node states and, beside it, an index of the available nodes of every level, kept as doubly linked lists of relative distances (`src/chunk.c`) |
| `MetaTree`, `MetaFree`, `MetaSearch`, `MetaTurns`, `InternalAllocator`, `MetaTheorems` | the buddy allocator for the allocator's own records, with its explicit depth-first search (`src/internal_allocator.c`) |
| `Coprime`, `Run` | the order in which a run hands out its regions, and their life cycle (`src/run.c`, `scripts/generators.py`) |
| `SizeClass` | size classes and the 32-bit rounding trick (`src/size_class.c`) |
| `LinkedList`, `Bin`, `BinTable` | the intrusive lists, one bin, and the 43 bins of the arena (`src/container_ll.c`, `src/bin.c`) |
| `AddressSpace`, `MetaPool`, `ChunkPool`, `HugePool` | the operating system, and the lists of metadata arenas, chunks and huge mappings (`src/arena.c`) |
| `World`, `WorldSteps`, `OneTime`, `ArenaFacts`, `Arena` | the whole: who owns each byte and each record, what has ever been handed out, and the four entry points (`src/arena.c`, `src/sealloc.c`) |

Code that works in place is modelled in place: chunks, metadata arenas, runs, bins, lists and the arena
are classes whose methods overwrite arrays and fields with the loops and branches of the original.
Ghost state says what the tables mean. For a chunk it is the sequence of runs ever handed out and the
set of those released; for a metadata arena the set of live blocks; for a run the start and step of
its walk. Each method is proved against that meaning, and lemmas state what follows for all runs.

Chunks are modelled for every depth from 1 to 15 and metadata arenas for every depth from 2 to 58; the
original's depths are 11 and 18.

On top, each pool shows the arena a plain table of values (`ChunkView`, `RunView`, `HugeView`). `World`
states over these tables what every call keeps (`WorldOk`):

* each mapped byte has exactly one owner: a chunk, a huge mapping or a metadata arena, and nothing is
  mapped at address 0 (`MemoryOk`);
* the runs in use of all chunks are exactly the runs listed in the bins (`RunsMatch`);
* the live metadata blocks are exactly the listed records, one each, and each is the smallest block that
  holds its record (`RecordsOk`);
* the pointers handed out and not yet freed, with their usable sizes, are exactly the regions marked as
  allocated and the huge mappings (`LiveIs`).

`Arena.Ready` adds that the parts share no state and that every bin is either unused or holds at least
255 and at most 1279 free regions. Each of the four calls keeps `Ready`, and is `OneCall`: the regions it
hands out consist of bytes that no earlier call has handed out, unless they have been unmapped since
(`OneTime.NeverTwice`). Random draws are arbitrary numbers, and the operating system may place a mapping at
any page but the first that overlaps no other mapping, so all results hold for every choice.

## Where the code differs from its documentation or its purpose

The model follows the code.

* `src/sealloc/chunk.h:63-71` says that the size of a region is stored divided by 16; `src/chunk.c:204`
  stores the size itself.
* `src/sealloc/chunk.h` says that a run is found from any pointer inside it; `src/chunk.c:388-438` answers
  for the first leaf of a run only (`Chunks.Chunk.GetRunPtr`).
* `ctz` (`src/utils.c:12-19`) does not count trailing zeros. It returns the position of the highest set bit,
  which is the same for the powers of two it is applied to (`Utils.Ctz`).
* `internal_alloc` does not always return `NULL` when nothing fits. If more than half of the arena is
  requested, that much is free in total, something is live, and all live blocks lie in the same half,
  the search backs out of the root (`src/internal_allocator.c:155-160`), enters it again with doubled
  sizes, and returns an address behind the arena. `MetaTheorems.StraysIff` states exactly when this
  happens, `MetaTheorems.StrayExample` gives an instance, and `MetaTheorems.OriginalArena` shows that it
  cannot happen for records of up to 4 MB.
* `internal_alloc` does not end for every request. If no memory is free the root is full or used, and a
  request of size 0, which passes the guard (`src/internal_allocator.c:115`), goes from the root to
  index 0 and back for ever. `MetaTheorems.EndsIff` shows that this is the only case.
* `run_validate_ptr` (`src/run.c:195-206`) reads the bitmap after it has tested the alignment of the
  pointer, but does not test whether the slot exists. `Runs.BehindBitmap` shows that exactly one offset
  of a run makes it read behind the bitmap: the one right behind the last region, if it is still inside
  the run and the number of regions is a multiple of 4. `Bins.TailClasses` lists the eight classes that
  have such an offset, and `Bins.TailExample` gives one.
* `realloc` to size 0 rounds the size of a region of a run to class 0 (`src/size_class.c:24-27`) and looks
  up a bin for it, for which `src/arena.c:297` has an assertion. Without assertions it finds the bin of
  the class of 16384 bytes, and divides by zero in `bin_init` if that bin has not been used
  (`BinTables.BinTable.GetZeroBin`). `Arenas.Arena.Realloc` states both outcomes.
* `calloc` does not test whether `nmemb * size` is more than 64 bits can hold (`src/sealloc.c:272`). The
  region is large enough exactly if it is not (`ArenaFacts.ArrayFits`); for 2^32 members of 2^32 bytes
  it has 16 bytes (`ArenaFacts.ArrayExample`).
* Rounding up to pages wraps around to 0 exactly for sizes above 2^64 - 4096
  (`AddressSpaces.PageRoundsUp`). `realloc` then moves a huge region to one of 16 bytes
  (`src/sealloc.c:211-213`, `ArenaFacts.ReallocFits`). `malloc` asks for a mapping of length 0, which the
  system refuses, and `arena_morecore` asks again for ever (`src/arena.c:73-86`).
* `chunk_deallocate_run` accepts any address in the first leaf of a run and unmaps as many bytes as the
  run has from there on (`src/chunk.c:356-385`), so that the range is the run only for its start address,
  which is what its caller passes.
* `src/sealloc/arena.h` says that a chunk's guard page is unmapped with it; `src/arena.c:241-251` frees the
  record only.
* The comments in `src/arena.c:308` and `src/arena.c:313` give the bins of the medium and large classes as
  32 to 34 and 35 to 43; they are 32 to 35 and 36 to 42 (`SizeClass.BinIndex`).

## Model

| member | source | states |
|---|---|---|
| Utils.Ctz | src/utils.c:12-19 | the loop computes the floor of the binary logarithm, and 0 for 0 |
| PackedStates.GetAfterSet | src/chunk.c:65-81 | writing one two-bit field of a byte changes that field to the new state and no other |
| PackedStates.StateArray.Set | src/internal_allocator.c:48-56 | the packed write replaces one state of the sequence of states and keeps all others |
| JumpList.RelinkBlock | src/chunk.c:221-244 | letting the neighbours of a block of consecutive listed nodes skip it yields the list without that block, in order, with all remaining distances right |
| JumpList.ListUnique | src/chunk.c:142-273 | an ascending list is determined by its members |
| ChunkSpec.LevelTells | src/chunk.c:161-162 | the links of a node and the first index of its level tell whether it is listed |
| ChunkSpec.ProbeListed | src/chunk.c:287-309 | whatever is drawn, the probing and the walk end on a listed node of the level |
| ChunkSpec.PickReaches | src/chunk.c:287-309 | every listed node of the level is chosen by some 32-bit draws |
| ChunkSpec.PickMeans | src/chunk.c:287-309 | the first probe that hits an available node decides; without probes, or if none hits, the node with as many available ones before it as the draw says modulo their number |
| ChunkSpec.PickFair | src/chunk.c:299-300 | where nothing is probed, equally many 32-bit draws choose each node of the list, up to one |
| Chunks.Chunk.constructor | src/chunk.c:91-114 | a fresh chunk is well formed: every node but the root is listed on its level, nothing has been handed out |
| Chunks.Chunk.UnlinkAncestors | src/chunk.c:160-199 | the upward loop takes exactly the node and its available ancestors off the lists of their levels and keeps all lists exact |
| Chunks.Chunk.UnlinkSubtree | src/chunk.c:215-253 | the downward loop takes exactly the descendants of the node off the lists of the levels below |
| Chunks.Chunk.PurgeSubtree | src/chunk.c:255-265 | the second downward loop clears the links of the descendants, so that unavailable nodes hold (0, 0) again |
| Chunks.Chunk.AllocateWithNode | src/chunk.c:142-273 | handing out an available node keeps tree, index and region sizes in agreement with the history, extends the history by that node, and returns its address |
| Chunks.Chunk.ProbeNodes | src/chunk.c:288-296 | the random probes hit only available nodes of the level |
| Chunks.Chunk.WalkNodes | src/chunk.c:299-308 | the walk from the first index along the stored distances reaches the wanted node of the list |
| Chunks.Chunk.AllocateRun | src/chunk.c:275-310 | the result is `NULL` exactly if the level of the requested size has no available node; otherwise the node selected by the draws is handed out |
| Chunks.Chunk.CoalesceUnmappedNodes | src/chunk.c:314-326 | the climb marks ancestors for as long as the sibling is marked, and stops at the right node |
| ChunkTree.CoalesceCorrect | src/chunk.c:314-326 | after a release the marking ends with every node in the state that the sets of handed-out and released nodes demand |
| Chunks.Chunk.DeallocateRun | src/chunk.c:356-385 | succeeds exactly for addresses in the first leaf of a run in use; the range to unmap has the length of that run and starts at the address; the result is true exactly if the released nodes cover the whole chunk; afterwards no node is DEPLETED |
| Chunks.Chunk.GetRunPtr | src/chunk.c:388-438 | answers exactly for pointers into the first leaf of a run in use, with the base, size and region size of that run (0 for large classes) |
| ChunkTheorems.OneTimeAllocation | src/chunk.c:201-273 | over its whole life, releases included, a chunk never hands out overlapping runs |
| ChunkTheorems.RunAligned | src/chunk.c:201-273 | every run lies inside its chunk and is aligned to its own size relative to the chunk's base |
| ChunkTheorems.IndexDetermined | src/chunk.c:142-273 | the nodes handed out determine every entry of the three tables of the index |
| ChunkTheorems.EmptyIffNone | src/chunk.c:284-285 | the list of a level is empty exactly if no node of the level is available |
| ChunkTheorems.NoOverflow | src/sealloc/chunk.h:49-52 | distances and counts fit their 16-bit fields in every reachable chunk |
| ChunkTheorems.CoveredIffLeaves | src/chunk.c:314-354 | a node is covered by released nodes exactly if every leaf below it lies under a released node |
| ChunkTheorems.WholeReleased | src/chunk.c:383-384 | a chunk is reported as fully unmapped exactly if every leaf has been handed out and released |
| MetaTree.FreeIsApart | src/internal_allocator.c:146-182 | a visible FREE node overlaps no live block |
| MetaTree.LeavesAdd | src/internal_allocator.c:122-123 | a new block adds exactly its own leaves to the memory in use |
| MetaTree.FullEnd | src/internal_allocator.c:92-104 | when the climb of `coalesce_full_nodes` stops, the whole tree is canonical again |
| MetaFree.SplitEnd | src/internal_allocator.c:59-70 | when `mark_nodes_split` stops, the whole tree is canonical for the remaining live blocks |
| MetaFree.Descend | src/internal_allocator.c:230-248 | going to the half that contains the pointer loses no live block that starts there |
| MetaSearch.FitHeightBounds | src/internal_allocator.c:152-171 | the height searched for belongs to the smallest block that holds the request |
| MetaSearch.BlockedNode | src/internal_allocator.c:152-201 | below a node that the search backs out of, no block of the requested size is free |
| MetaSearch.StepBack | src/internal_allocator.c:152-201 | backing out keeps the search invariant (address and size match the node; nothing free of the requested size lies to the left) and advances the position in the walk around the tree |
| MetaSearch.StepDivide | src/internal_allocator.c:172-183 | splitting a free node keeps the search invariant, and the tree is ready for one of its left descendants to be taken |
| MetaSearch.StepTake | src/internal_allocator.c:164-171 | a free node that fits is the free block of its size with the lowest address, unless the search has left the tree |
| MetaTurns.SearchEnds | src/internal_allocator.c:118-219 | a search in a tree with some memory free takes a node or comes back to the root from the right after finitely many turns of the loop |
| MetaTurns.CirclesForEver | src/internal_allocator.c:118-219 | a search in a tree whose root is full or used never does either, whatever is requested |
| MetaSearch.EndOfSearch | src/internal_allocator.c:117-219 | when the search comes back to the root from the right, nothing fits and the tree is unchanged |
| InternalAllocators.InternalAllocator.constructor | src/internal_allocator.c:31-38 | a fresh arena is canonical with no live block and all memory free |
| InternalAllocators.InternalAllocator.CoalesceFull | src/internal_allocator.c:92-104 | marks ancestors FULL for as long as the sibling is FULL or USED |
| InternalAllocators.InternalAllocator.Alloc | src/internal_allocator.c:106-219 | terminates, for every request of at least one byte and for every arena with free memory; returns `NULL` exactly if no free block fits, and then changes nothing; otherwise the first fit becomes live and exactly its size is debited; when the search strays, the outcome is stated as it is |
| InternalAllocators.InternalAllocator.Find | src/internal_allocator.c:222-249 | the descent finds the live block that starts at the pointer exactly if there is one |
| InternalAllocators.InternalAllocator.Free | src/internal_allocator.c:222-260 | succeeds exactly on start addresses of live blocks, removes that block, and credits exactly its size |
| MetaTheorems.HistoryIndependence | src/internal_allocator.c:59-104 | the live blocks alone determine the free memory and every visible node state |
| MetaTheorems.AnswerIndependence | src/internal_allocator.c:106-219 | the live blocks alone determine what the next request gets |
| MetaTheorems.LiveBlocksDisjoint | src/internal_allocator.c:106-219 | live blocks never overlap |
| MetaTheorems.BlockFacts | src/internal_allocator.c:106-219 | every block lies inside the arena and is aligned to its size |
| MetaTheorems.AllocThenFree | src/internal_allocator.c:106-260 | calling the one after the other restores the live blocks, the free memory and the visible tree |
| MetaTheorems.EndsIff | src/internal_allocator.c:115-219 | the guard refuses the request, or the search comes to an end, exactly if the request is for at least one byte or some memory is free |
| MetaTheorems.AllFreed | src/internal_allocator.c:74-88 | the root is FREE, and all memory free, exactly if nothing is live |
| MetaTheorems.FirstFitByAddress | src/internal_allocator.c:106-219 | the block handed out is the smallest power-of-two multiple of 32 that holds the request, and the lowest free one of its size |
| MetaTheorems.StraysIff | src/internal_allocator.c:155-160 | the search leaves the tree exactly if more than half of the arena is requested, that much is free, something is live, and all live blocks lie in one half |
| MetaTheorems.StrayExample | src/internal_allocator.c:155-160 | in the original's arena of 8 MB, with one live block of 32 bytes, a request for 4194305 bytes leaves the tree although nothing fits |
| MetaTheorems.StrayRun | src/internal_allocator.c:155-160 | on a fresh arena of 8 MB, a request for one byte and then one for 4194305 bytes leads there: the second gets an address behind the arena |
| MetaTheorems.OriginalArena | src/sealloc/internal_allocator.h:7-16 | 2^18 leaves of 32 bytes are 8 MB, and no request of up to 4 MB strays |
| Coprime.CoprimesAre | scripts/generators.py:20-22 | the list of steps holds exactly the numbers from 1 to n that are coprime to n, in ascending order |
| Coprime.CoprimesDetermined | scripts/generators.py:20-22 | no other ascending list has these members, so every draw selects the step that the table of the original has there |
| Coprime.GcdIsGreatest | scripts/generators.py:20-22 | what the list is filtered by is a common divisor, and every common divisor divides it |
| Coprime.Bezout | scripts/generators.py:20-22 | the greatest common divisor is an integer combination of its arguments |
| Coprime.WalkIsPermutation | src/run.c:149-150 | with a coprime step, n steps from any start visit every slot exactly once |
| Coprime.OtherStepsRepeat | src/run.c:149-150 | with any other step the walk is back at its start after fewer than n steps |
| Runs.Run.constructor | src/run.c:110-136 | the draws choose the step by its position among all coprime steps, and the slot where the walk starts; all regions are free |
| Runs.Run.Allocate | src/run.c:139-160 | the next region of the walk is FREE and becomes ALLOC; the counters stay exact; the original's sanity check never fails |
| Runs.Run.ValidatePtr | src/run.c:187-210 | answers exactly for start addresses of regions in use, for every pointer into the run for which the bitmap is not read behind its end |
| Runs.BehindBitmap | src/run.c:195-206 | the one offset of a run for which the bitmap is read behind its end, and when it exists |
| Runs.Run.Deallocate | src/run.c:213-222 | succeeds exactly for start addresses of regions in use; that region becomes ALLOC_FREE, and nothing else changes |
| Runs.StatesAdvance | src/run.c:139-222 | over any sequence of allocations and releases no region goes back to an earlier state, and a released one stays released |
| Runs.HandedOutOnce | src/run.c:139-222 | a region that has been handed out is not free at any later time |
| Runs.Run.StatusMeaning | src/run.c:224-227 | depleted means that no region is free, freeable that all have been released, and freeable implies depleted |
| Runs.Drain | src/run.c:139-160 | a fresh run hands out every region exactly once, in the order of its walk, and the regions do not overlap |
| Runs.RegionsDisjoint | src/run.c:160 | different regions of a run do not overlap, and none leaves the run |
| SizeClass.Smear | src/size_class.c:10-22 | or-ing a number with itself, shifted by its leading ones, doubles the number of leading ones |
| SizeClass.NPow2 | src/size_class.c:10-22 | the 32-bit trick computes the least power of two that is at least n, and 0 where it wraps |
| SizeClass.NextPow2Least | src/size_class.c:10-22 | that number is a power of two, the least one not below n, and less than twice n |
| SizeClass.ClassIsLeast | src/size_class.c:24-36 | a request gets the least class that can hold it, with less than 16 bytes of waste for small requests and less than half of the region for others |
| SizeClass.ClassMonotone | src/size_class.c:24-36 | rounding up keeps the order and is the identity on classes |
| SizeClass.BinIndex | src/arena.c:295-322 | the index computed for a class is the bin of that class, among 43 |
| SizeClass.BinsDistinct | src/arena.c:295-322 | no two bins serve the same class |
| SizeClass.ClassesAre | src/sealloc/size_class.h:10-22 | the classes are the multiples of 16 up to 512 and the powers of two from 1024 to 1 MB |
| SizeClass.IsSizeAligned | src/size_class.c:42-49 | true exactly for classes, for 0, and beyond 1 MB for the further doublings of 16384 that fit into 32 bits |
| LinkedList.List.Add | src/container_ll.c:9-27 | puts the entry in front of the sequence of entries |
| LinkedList.List.Del | src/container_ll.c:28-43 | removes exactly that entry from the sequence and resets its links |
| LinkedList.List.Find | src/container_ll.c:44-52 | finds the entry with a key exactly if there is one |
| Bins.ElemsBounds | src/bin.c:17-29 | a run has as many regions of its class as fit, between 1 and 1024; it has four pages, and exactly one region for large classes |
| Bins.TailClasses | src/bin.c:17-29 | the eight classes whose runs have an offset at which the bitmap is read behind its end |
| Bins.TailExample | src/bin.c:17-29 | a run of 204 regions of 80 bytes has it at offset 16320 |
| Bins.Bin.Init | src/bin.c:12-31 | sets up an unused bin for a class |
| Bins.Bin.AddRun | src/bin.c:33-41 | lists a fresh run as the first active one; the counters stay the sum over the active runs and their number |
| Bins.Bin.CountersBound | src/bin.c:33-41 | a bin never has more active runs than free regions, and the bits of a bitmap are at most 2048 |
| Bins.Bin.GetRunForAllocation | src/bin.c:49-65 | the walk never runs off the list and selects the active run that the draw demands |
| Bins.Bin.RetireRun | src/bin.c:67-73 | moves a run from the active to the inactive list |
| Bins.Bin.DeleteRun | src/bin.c:43-47 | takes a run off the inactive list |
| Bins.Bin.GetRunByAddr | src/bin.c:75-82 | finds a run by its address exactly if the bin has it, on either list |
| Bins.Bin.AllocateRegion | src/sealloc.c:34-41 | takes the next region in the walk of the active run that the draw selects; that run goes to the front of the inactive list exactly if it has no region left |
| Bins.Bin.ReleaseRegion | src/sealloc.c:121-130 | releases the region in use at the pointer, if any; the run leaves the bin exactly if that was its last one, and then it was on the inactive list |
| BinTables.BinTable.GetBin | src/arena.c:295-323 | returns the bin of a class, set up at its first use, and changes no other |
| BinTables.BinTable.AllocateRegion | src/sealloc.c:34-41 | takes the region that the draw selects in that bin, and changes no other |
| BinTables.BinTable.GetZeroBin | src/arena.c:295-323 | size 0 leads to the bin of the least large class, if that has been set up |
| MetaPools.MetaPool.Alloc | src/arena.c:137-167 | returns a new block that holds the record, the first fit of the first listed arena that has one; if all listed arenas refuse, it comes from one mapped for it, which is listed first; all other blocks stay |
| MetaPools.MetaPool.Free | src/arena.c:169-188 | succeeds exactly for addresses of live blocks of any arena, and removes exactly that block |
| MetaPools.BlocksApart | src/arena.c:137-167 | live blocks of all arenas share no byte |
| ChunkPools.ChunkPool.AllocateRun | src/arena.c:190-208 | the first listed chunk with room hands out the node of the right size that the draws choose; otherwise no chunk has room |
| ChunkPools.ChunkPool.GetChunkFromPtr | src/arena.c:253-272 | returns the first chunk behind a position of the list whose range contains the pointer |
| ChunkPools.ChunkPool.Locate | src/sealloc.c:85-97 | finds a run in whose first leaf the pointer lies exactly if some chunk has one |
| HugePools.HugePool.Replace | src/arena.c:388-390 | lets a listed record describe another mapping |
| AddressSpaces.PageRoundsUp | src/sealloc/utils.h:17 | in 64 bits, rounding up to pages yields at least the number exactly if it is at most 2^64 - 4096, and 0 for all larger ones |
| World.OneRun | src/sealloc.c:77-117 | a byte belongs to at most one run in use, of one chunk and one bin |
| World.RegionsDisjointAndMapped | src/sealloc.c:44-75 | regions in use, huge ones included, are pairwise disjoint and mapped |
| World.SpentOnce | src/sealloc.c:44-75 | a byte has been handed out with at most one region, of those of all runs that are still listed and all huge mappings |
| World.LiveAligned | src/sealloc.c:44-75 | a pointer in use is not `NULL` and is a multiple of 16, and of a page if its region is larger than two pages |
| World.PlaceOwned | src/sealloc.c:44-75 | every byte of a region in use belongs to its chunk or to its mapping |
| World.AnswersOnce | src/sealloc.c:85-97 | at most one chunk answers for an address, and its answer is a run of some bin, even where a newer mapping lies in released memory of an older chunk |
| World.LiveAnswers | src/sealloc.c:85-97 | for every region in use its own chunk answers |
| World.MappingSilent | src/sealloc.c:98-107 | no chunk answers for a huge mapping in use |
| World.InfoIsClass | src/sealloc.c:108-114 | what a chunk tells about a run identifies its class |
| WorldSteps.NewRun | src/arena.c:190-221 | handing out and recording a run keeps the whole invariant |
| WorldSteps.FreshBase | src/bin.c:37 | no bin has a run yet where a new one is handed out |
| WorldSteps.TakeRegion | src/sealloc.c:34-41 | handing out a region keeps the whole invariant, and its address was not in use |
| WorldSteps.FreeRegion | src/sealloc.c:121-125 | releasing a region keeps the whole invariant |
| WorldSteps.ReleaseRun | src/sealloc.c:127-135 | releasing a run, unmapping its memory, freeing its record and, with the last run, the record of its chunk keeps the whole invariant |
| WorldSteps.NewHuge | src/arena.c:336-355 | a new huge mapping keeps the whole invariant |
| WorldSteps.DropHuge | src/arena.c:393-404 | removing a huge mapping keeps the whole invariant |
| WorldSteps.MoveHuge | src/arena.c:357-391 | moving a huge mapping keeps the whole invariant and its record |
| OneTime.HandingOut | src/sealloc.c:44-75 | a region handed out by `malloc` shares no byte with any region handed out before, whether it has been freed or not |
| OneTime.RunLasts | src/sealloc.c:127-135 | releasing a run takes nothing off the memory that has been handed out but what it unmaps |
| OneTime.NeverTwice | src/sealloc.c:44-268 | over any sequence of calls, a byte that is handed out by two of them has been unmapped in between |
| ArenaFacts.ArrayFits | src/sealloc.c:270-273 | the region that `calloc` gets holds the array exactly if its number of bytes is below 2^64 |
| ArenaFacts.ArrayExample | src/sealloc.c:270-273 | 2^32 members of 2^32 bytes get 16 bytes |
| ArenaFacts.ReallocFits | src/sealloc.c:167-182 | a huge region gets at least the new size exactly if that is at most 2^64 - 4096, and 16 bytes otherwise |
| ArenaFacts.UsableIsSize | src/sealloc.c:44-75 | what `malloc` rounds a request up to is the least class that holds it, or beyond 1 MB the least multiple of a page |
| ArenaFacts.ServedIsNewSize | src/sealloc.c:184-243 | the same for `realloc`, for huge regions after rounding up to pages, and with the two cases where the arithmetic of the original leaves another size |
| Arenas.Arena.constructor | src/arena.c:90-135 | a fresh arena satisfies the whole invariant |
| Arenas.Arena.LiveRegions | src/sealloc.c:44-75 | between any two calls, regions in use are mapped and share no byte |
| Arenas.Arena.RecordsApart | src/arena.c:137-188 | the allocator's own records lie in mapped memory, and share no byte with each other or with a region in use |
| Arenas.Arena.AddRun | src/arena.c:190-221 | adds one run to a bin: the one that the draws choose in the first listed chunk with room, or in one new chunk, which is mapped only if no listed chunk has room and is listed first; step and start of the run are as drawn; keeps the whole invariant and all memory contents |
| Arenas.Arena.SupplyRuns | src/arena.c:278-293 | brings a bin to at least 256 free regions with as few runs as possible, and maps chunks only where no listed one has room |
| Arenas.Arena.AllocateWithBin | src/sealloc.c:19-42 | a run is added exactly if fewer than 256 regions are free, and one always suffices; otherwise the region is the one that the draw selects; afterwards at least 255 and at most 1279 regions are left |
| Arenas.Arena.CountersFit | src/sealloc/bin.h:30-38 | free regions and active runs of a bin never reach 1280 |
| Arenas.Arena.Locate | src/sealloc.c:77-117 | maps each pointer in use to its own chunk, run and bin, or to its huge record, and changes nothing |
| Arenas.Arena.FreeWithMetadata | src/sealloc.c:119-136 | frees exactly the region at the pointer, or fails exactly if none in use starts there and then changes nothing; the record and the memory of the run are given back exactly if this was its last region, and the record of the chunk exactly if then all of the chunk has been released |
| Arenas.Arena.Malloc | src/sealloc.c:44-75 | the new region is not `NULL`, is aligned and was not in use; its size is the least class that holds the request, or beyond 1 MB the least multiple of a page, and nothing else changes; none of its bytes has been handed out before, unless it has been unmapped since; runs are added only as far as the stock of the bin demands, chunks only where no listed one has room, and metadata arenas only where all listed ones refuse |
| ArenaFacts.TailIff | src/run.c:195-206 | among the pointers into runs in use, the condition of `Free` and `Realloc` excludes exactly those for which the bitmap is read behind its end |
| Arenas.Arena.Free | src/sealloc.c:138-165 | succeeds exactly for `NULL` and for pointers in use; exactly that region goes out of use, and no other memory changes; its bytes count as handed out until they are unmapped |
| Arenas.FreeBetween | src/sealloc.c:44-165 | a region that is freed shares no byte with the next one, except where it has been unmapped |
| Arenas.Arena.ReallocateHuge | src/arena.c:357-391 | moves a huge region, keeps its first bytes, and leaves every other region alone |
| Arenas.Arena.Realloc | src/sealloc.c:184-268 | on all four paths the new region starts with the old bytes (as many as both sizes allow), no other byte is written, the old pointer is dead, and every other region in use keeps its contents; the new size is the least class or multiple of a page that holds what is asked for, huge regions being asked for in whole pages; runs and chunks are added as for `malloc`; page rounding wraps around as in the original; fails exactly for pointers not in use, and for size 0 where the original divides by zero |
| Arenas.Arena.Calloc | src/sealloc.c:270-279 | the new region is not `NULL` and has the size that a request of `nmemb * size` bytes in 64 bits gets; runs, chunks and metadata arenas are added as for `malloc`; exactly that many bytes are cleared, no other byte is written, and every other region in use keeps its contents; `NULL` exactly for an empty array |

## Left out

- Arenas.Arena.Free: takes any pointer but one right behind the last region of a run in use whose number of regions is a multiple of 4 (`ArenaFacts.AtTail`). For such a pointer, and for no other (`ArenaFacts.TailIff`), the original reads behind the bitmap of the run; what it finds there is not part of this model.
- Arenas.Arena.FreeWithMetadata: has the same condition.
- Bins.Bin.ReleaseRegion: has the same condition, for the runs of its bin.
- Runs.Run.Deallocate: has the same condition, for its run (`Runs.BehindBitmap`).
- Runs.Run.ValidatePtr: has the same condition, for its run (`Runs.BehindBitmap`).
- Arenas.Arena.Realloc: has the same condition, and that of `Malloc` on the size, except for a huge region or a pointer not in use.
- Arenas.Arena.Malloc: takes requests of up to 2^64 - 4096 bytes. For larger ones, and for no others, page rounding leaves 0 (`AddressSpaces.PageRoundsUp`), and the original does not return.
- Arenas.Arena.Calloc: has that condition on `nmemb * size` in 64 bits.
- MetaPools.MetaPool.Alloc: takes records of up to 4 MB; the largest of the original has 21600 bytes, and larger ones could stray (`MetaTheorems.StraysIff`).
- InternalAllocators.InternalAllocator.Alloc: excludes a request of size 0 to an arena without free memory, for which, and for no other, the original's search never ends (`MetaTheorems.EndsIff`).
- Wrap-around of 64-bit addresses: the system may place a mapping at any address, however large. Sizes do wrap around, and the 16-bit and 32-bit counters of chunks, runs and bins are shown not to.
- The contents of `src/sealloc/generator.h`: the tables are taken to hold what `scripts/generators.py` computes.
- Mapping and unmapping system calls, probing and its restarts (`src/platform.c`, `src/arena.c:18-88`): a mapping is a fresh zeroed range of pages, an unmapping removes a range, and neither fails.
- The pseudo-random generators and seeds (`src/random.c`): every draw is an arbitrary number.
- AArch64 memory tagging in `src/run.c` and `src/sealloc.c`.
- Logging, statistics and the exported `malloc` wrappers. Error exits are results of methods, or are proved not to be taken.
- The linkage fields inside chunk, run, huge and arena records are list entries that refer to their record, with the record's address beside it; the bytes of records in the metadata memory are not modelled.
- Trivial accessors such as `chunk_is_full`, beyond their contracts.
