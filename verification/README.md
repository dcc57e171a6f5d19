# A verified model of the boundary-tag allocator

The project models `mymalloc/allocator.c`: a malloc/free/realloc package over one growing
arena, with its checker, its validator and the checking and utilization runs of its driver, and proves
what they promise for every run.

## How the model is built

Memory is one array of 64-bit words (`MemLib.Arena`). Everything the allocator knows is in
those words and in the 64 entries of `bins`: headers with two tag bits, footers that overlap
the last payload word of a free chunk, list and trie links in the payload of free chunks.
The methods load and store those words as the C code does, one store at a time. Beside them
runs ghost state: the heap as a map from chunk addresses to sizes and tag bits (`Tiling`),
and the free index as a map from slots to circles of chunks (`IndexModel`), where a slot is
a bin and, for bins 32 to 63, a position in that bin's trie.

`Allocator.Valid` ties the two together: memory is tiled by chunks whose headers and footers
say what the ghost heap says; the bins and all link words are exactly the ghost index; every
free chunk is in exactly one of the end of the heap, the victim, or the one bin its size
selects; a clear previous-in-use bit is believable. Every public operation keeps `Valid`, on
every path, and states its effect on the ghost heap, on the live blocks (`HeapModel.Live`)
and on the words of every live block (`HeapOps.Untouched`).

| file | what it models |
|---|---|
| `Bits.dfy`, `Layout.dfy` | shifts, logarithm, header words, size classes |
| `MemLib.dfy` | the arena and `mem_sbrk` |
| `Tiling.dfy`, `HeapOps.dfy` | the heap as a tiling; headers, footers, splitting and joining in place |
| `Rings.dfy`, `Fields.dfy`, `IndexModel.dfy`, `IndexChanges.dfy` | circular lists, link words, the abstract free index |
| `TrieChanges.dfy`, `TrieRemoval.dfy`, `TrieSearch.dfy`, `BestFit.dfy` | insertion, removal and search in the size tries |
| `FreeIndex.dfy` | the bins: insert, remove and search methods |
| `HeapModel.dfy`, `ExactTags.dfy`, `HeapFacts.dfy` | each call on the heap, exact tags, conservation, collapse |
| `AllocatorSteps.dfy`, `ReallocSteps.dfy`, `Allocator.dfy` | the stores of each helper; malloc, free and the six realloc paths |
| `Places.dfy`, `Determinism.dfy` | what each call makes of the bins and the victim, and that it has one outcome |
| `Checker.dfy` | `my_checker` and its helpers |
| `Trace.dfy`, `Client.dfy`, `Tables.dfy` | traces, blocks held by a client, the tables of a trace and the history of a run |
| `Histories.dfy` | a trace has one history |
| `Validator.dfy`, `Driver.dfy` | `eval_mm_valid`, `eval_mm_util`, `eval_mm_check` and the loop over the traces |
| `Runs.dfy` | runs from `my_init` that show what the allocator does not promise |
| `Reuse.dfy` | runs from `my_init` that show which chunk the next malloc gets |

## What is proved

* Safety of whole runs: `Validator.Validator.EvalValid` replays any well-formed trace. No
  check on alignment, bounds, overlap or contents fails; the only way not to pass is a malloc
  or realloc that finds the arena exhausted, and the request is named. What every request
  met and made of the heap is returned too, step by step (`Tables.History`).
* The driver's loop: traces that grow and give everything back can be evaluated one after the
  other on one allocator, three times each, with only `my_init` in between
  (`Driver.EvaluateAll`). Each ratio is the one of the trace's history. Only the first
  evaluation of a trace can find no room: the others meet the same heaps.
* The free index: insertion and removal, including the promotion of a leaf, keep every trie
  well formed and change the set of indexed chunks by exactly the chunk named. An inserted
  chunk gets the one slot its size belongs to (`TrieChanges.Indexed`), and the leaf that is
  promoted is fixed by which children there are (`TrieRemoval.Successor`): through the left
  child and from there right wherever there is a right child, or else through the right child
  and from there left. The whole index after a removal is stated (`TrieRemoval.TakenOut`). The
  searches find a fitting chunk whenever the searched bins hold one, and which chunk serves a
  request is stated exactly (`AllocatorSteps.Picked`).
* Where free chunks go: every call states the whole index and the victim afterwards
  (`Places.MallocPlaces`, `FreePlaces`, `ShrinkPlaces`, `GrowPlaces`), on every path of
  realloc too. The rest of a chunk cut for malloc is the victim, and the victim so far goes to
  its bin; a merged chunk and the rest of a resized block go to their bins unless they are
  merged into the end of the heap.
* One outcome: these statements leave no choice (`Determinism`), so the heap, the index, the
  victim and the place of every block are a function of the requests made since `my_init`
  (`Histories.HistoryOnce`). Runs in `Reuse` follow them to the next malloc: `PromotedRun`
  through the promotion of a leaf, `VictimRun` through a rest that is the victim, `MergedRun`
  through a merged chunk in its bin, `RestRun` through the rest of a grown block.
* Contents: all six realloc paths keep the first min(old, new) words, among them the moves
  over the old header, and leave every other live block as it was. Which path is taken is
  stated too (`ReallocSteps.GrowStep`).
* Tags: malloc, free and growing realloc keep previous-in-use bits exact and no two
  neighbours free. A shrinking realloc keeps them exact if and only if it does not cut a
  block whose successor is in use (`HeapModel.CutsBeforeBlock`); otherwise only the one-way
  reading of the bits survives, which is what every backward merge relies on. The checker
  passes exactly when the bits are exact, so in `Driver.EvalCheck` it fails at exactly the
  first such cut.
* Conservation: chunks and headers add up to the arena, so what clients hold at once never
  exceeds the heap and utilization is at most one. The ratio itself is stated in numbers on
  `Driver.EvalUtil`; for the trace of one malloc of 60000 bytes it is 60000 / 60368
  (`Driver.RatioRun`).

A trace is growing (`Trace.Growing`) when no realloc asks for less than its block was asked
to hold and no block that is reallocated is huge. Such a trace never cuts a block. Huge
blocks that are only allocated and freed do no harm; a huge block that is reallocated may,
because a huge request is served by a whole chunk of any larger size, which a realloc to a
slightly larger size then cuts.

Seven things one might expect are not so, and the model says exactly when they are.

* When nothing is live the bins need not be empty, although `my_init` clears only bin 0. They
  are if and only if the tags are exact (`Allocator.Allocator.Collapses`).
  `Runs.ShrinkingRun` is a run of five calls after `my_init` in which the checker fails and
  `my_init` must not be called again.
* The search of a large request's own bin is not always a best fit. It is one if and only if
  nothing strictly below the last right sibling of the request's path is smaller than both
  that sibling and every fitting node on the path (`BestFit.BestFitExactly`).
  `Runs.MissedFit` is a run in which it is not.
* The search of the bins above may read the entry after the last bin. It does if and only if
  nothing in the own bin fits, at most fifteen bins lie above it, and they are empty
  (`TrieSearch.ReadsPastBins`); malloc and realloc say when a call comes to that
  (`AllocatorSteps.AsksPast`). Right after `my_init` it is every large request from 64 KB on
  that is not huge (`TrieSearch.EmptyReadsPastBins`); `Runs.PastBinsRun` is one.
* `mem_sbrk` takes an int, so it sees only the low 32 bits of an increment. It grants what it
  was asked for or nothing if and only if these bits are all there is, or make a negative
  number, or make more than there is room for (`MemLib.AllOrNothingExactly`). Exactly
  otherwise the end-of-heap chunk then reaches above the break
  (`Allocator.Allocator.AskForMore`), and a request that would ask for such an increment always
  comes to that point (`Allocator.Allocator.GrowUnsoundly`, `ReallocSteps.UnsoundIsReached`). All sizes up to 2^31 are sound;
  right after `my_init` the first that is not is 2^32 + 38825 (`AllocatorSteps.FirstUnsound`).
  `Runs.UnsoundRun` is a run that spoils the heap.
* The test whether a chunk can be split adds to the request in 64 bits. It is right if and only
  if the request is below 2^64 - 32 bytes (`Tiling.SplitTest`); from there to 2^64 - 8 it calls
  every chunk large enough.
* A request covers the size asked for if and only if that is below 2^64 - 7; above, malloc
  serves 24 bytes and realloc cuts its block to 24 (`Layout.RequestTrick`).
* Not all assertions hold. The one at line 760 fails exactly when the chunk that is absorbed is
  followed by one whose previous-in-use bit is set (`HeapModel.AbsorbsStale`), which exact tags
  rule out; it does in `Runs.ShrinkingRun`. The one at line 922 fails exactly when both
  neighbours of a block that grows are free, the next is not the end of the heap, and all
  three together are too small (`ReallocSteps.Pinched`), exact tags or not; it does in
  `Runs.PinchedRun`. The one at line 463 follows, for a huge chunk, a parent word that nobody
  wrote (`Checker.InsertHugeAsserting`). The one at line 735 fails for the sizes that wrap.

Assertions are on for the whole program or off for the whole program. Off, which is how the
Makefile builds it by default, `my_checker` cannot fail. On, `Driver.EvalCheck` ends at exactly
the first request that cuts its block right before a block in use or is pinched.

Where comments and code disagree the code is followed: the comment above `small_malloc`
speaks of trying further small bins, which the default `SMALL_BIN_SEARCH_MAX` of 0 never
does, and the comment above `my_free` places the clearing of the successor's bit last while
the code does it first.

## Model

| member | source | states |
|---|---|---|
| Bits.MaxWord | mymalloc/allocator.c:712 | the xor and mask expression on 64-bit words is the larger argument |
| Layout.RequestTrick | mymalloc/allocator.c:720-721 | on every 64-bit size the ALIGN and MAX macros compute the request that the model uses; it covers the size asked for if and only if that is below 2^64 - 7, and is 24 bytes otherwise |
| Layout.RequestWords | mymalloc/allocator.c:720-721 | a request is at least 24 bytes; it covers the size asked for, with less than 8 bytes to spare above 24, exactly when rounding up stays within 64 bits |
| Tiling.SplitTest | mymalloc/allocator.c:479 | the splitting test on 64-bit words is the test on numbers exactly for requests below 2^64 - 32 bytes |
| Layout.LargeIndexPrefix | mymalloc/allocator.c:148-154 | the bin of a large size and its two leading bits determine each other; it is at most 63 exactly for sizes that are not huge |
| Layout.LargeIndexMonotone | mymalloc/allocator.c:148-154 | larger sizes never get a lower bin |
| Layout.LargeBinRange | mymalloc/allocator.c:57-63 | a size is in bin n of 32 to 63 if and only if it is in the documented range of n |
| Layout.ListBinRange | mymalloc/allocator.c:52-56 | bins 3 to 31 hold one size each and bin 2 exactly the sizes above the huge cutoff |
| Layout.HigherBinFits | mymalloc/allocator.c:601-621 | any chunk in a large bin above the request's own bin is larger than the request |
| MemLib.Arena.Sbrk | mymalloc/memlib.c:77-95 | the break moves by the increment, of any number of bytes, or for a negative or too large one not at all |
| MemLib.AllOrNothingExactly | mymalloc/memlib.c:77-95 | an increment passed as an int is granted as asked or not at all if and only if its low 32 bits are all there is, or are negative, or exceed the room left |
| AllocatorSteps.IntSizesSound | mymalloc/mdriver.h:59 | every size that a trace can hold asks only for increments that are granted as asked or refused |
| Allocator.Allocator.AskForMore | mymalloc/allocator.c:694-697 | after asking for more storage the end-of-heap chunk ends at the break if and only if the increment was granted as asked or not at all |
| AllocatorSteps.UnsoundIsLast | mymalloc/allocator.c:692-699 | a request whose increment is granted in part is larger than every chunk and cannot be split off the end of the heap |
| Allocator.Allocator.GrowUnsoundly | mymalloc/allocator.c:692-699 | such a request finds no chunk, is granted in part, and leaves an end-of-heap chunk that reaches above the break |
| ReallocSteps.UnsoundIsReached | mymalloc/allocator.c:976-999 | a realloc of that kind finds no room in the chunks around its block |
| AllocatorSteps.FirstUnsound | mymalloc/allocator.c:692-699 | after my_init every request below 2^32 + 38825 bytes is sound; that one is granted no byte and succeeds |
| Runs.UnsoundRun | mymalloc/allocator.c:692-699 | a run from my_init in which 2^32 + 38840 bytes are asked for, eight are granted, and the end-of-heap chunk reaches above the break |
| HeapOps.HeaderBits | mymalloc/allocator_helper.h:15-19 | setting or clearing one tag bit leaves the size and the other bit alone |
| Tiling.SplitTiled | mymalloc/allocator.c:482-495 | cutting a chunk in two leaves an exact tiling |
| Tiling.JoinTiled | mymalloc/allocator.c:752-767 | joining a chunk and its successor leaves an exact tiling |
| HeapFacts.Conserved | mymalloc/allocator_helper.h:34-38 | the bytes of all chunks with their headers, plus eight, are the bytes from the first chunk to the break |
| HeapFacts.PayloadsApart | mymalloc/allocator_helper.h:66-74 | payloads lie inside the heap and share no word |
| Rings.RingGrows | mymalloc/allocator.c:449-452 | the four stores that link a chunk before another make one longer circle |
| Rings.RingShrinks | mymalloc/allocator.c:246-248 | bypassing a chunk leaves a circle of exactly the others |
| TrieChanges.ShiftIsDepth | mymalloc/allocator.c:393-425 | a node's shift is two below the top bit of its bin at the root and one less per level |
| TrieChanges.DepthBound | mymalloc/allocator.c:393-425 | a node lies no deeper than its bin's top bit allows, at most 19 levels below the root |
| TrieChanges.ShiftStaysAboveTwo | mymalloc/allocator.c:393-409 | a search that has to go on never stands at shift 2, so shifts never run out |
| FreeIndex.FreeIndex.InsertInList | mymalloc/allocator.c:440-456 | a list bin gains exactly this chunk |
| FreeIndex.FreeIndex.RemoveFromList | mymalloc/allocator.c:319-333 | a list bin loses exactly this chunk, the others keeping their order |
| FreeIndex.FreeIndex.Search | mymalloc/allocator.c:393-411 | the descent ends at the node of this size, wherever in the trie it is, or at the free place on its path |
| FreeIndex.FreeIndex.InsertPeer | mymalloc/allocator.c:394-408 | a size already present joins that node's circle |
| FreeIndex.FreeIndex.InsertNode | mymalloc/allocator.c:412-433 | a new size becomes a node in the free place, at the root or below its parent |
| FreeIndex.FreeIndex.InsertLargeChunk | mymalloc/allocator.c:379-434 | insertion keeps the whole index well formed and adds exactly this chunk, at the end of the circle in the one slot where its size belongs |
| FreeIndex.FreeIndex.InsertChunk | mymalloc/allocator.c:459-469 | the same for any size |
| FreeIndex.FreeIndex.LinkChunkWithParent | mymalloc/allocator.c:160-180 | the parent's word that pointed to the chunk, or the bin, now points to the replacement |
| FreeIndex.FreeIndex.LinkChildrenWithParent | mymalloc/allocator.c:184-191 | the children are handed over and point back |
| FreeIndex.FreeIndex.FindReplacement | mymalloc/allocator.c:193-214 | the successor of the node, cut off with its circle: the leaf through the left child that is reached by going right wherever there is a right child or, without a left child, the one through the right child reached by going left; NULL exactly for a leaf |
| FreeIndex.FreeIndex.RemoveSingle | mymalloc/allocator.c:216-241 | a leaf is cut off, and the circle of any other node's successor comes in the node's place; nothing else in the index changes |
| FreeIndex.FreeIndex.RemovePeer | mymalloc/allocator.c:243-257 | a peer leaves its circle, or hands the node to the next one; the others keep their order |
| FreeIndex.FreeIndex.RemoveLargeChunk | mymalloc/allocator.c:287-313 | removal keeps the whole index well formed and removes exactly this chunk: its circle closes behind it, a leaf without peers goes, any other node without peers is replaced by its successor |
| FreeIndex.FreeIndex.RemoveChunk | mymalloc/allocator.c:335-340 | the same for any size |
| Determinism.OneSuccessor | mymalloc/allocator.c:193-214 | the presence of children fixes one successor |
| Determinism.TakenOutOnce | mymalloc/allocator.c:287-313 | the index after a removal is fixed by the index before and the chunk |
| Determinism.OneSlot | mymalloc/allocator.c:379-434 | a chunk of a given size has one slot to go to |
| Reuse.PromotedRun | mymalloc/allocator.c:193-241 | a run from my_init that frees 376, 264, 256, 312 and 296 bytes: malloc of 376 takes the root of the trie, 296 comes in its place, and malloc of 272 gets that chunk whole |
| FreeIndex.FreeIndex.FindSmallest | mymalloc/allocator.c:556-566 | following the first child there is meets a node of the smallest size in the trie |
| FreeIndex.FreeIndex.FindInBin | mymalloc/allocator.c:581-600 | the search of the request's bin finds a fitting chunk if there is one, one of exactly the size if there is one, and the smallest among the nodes on the request's path and their right siblings |
| BestFit.BestFitExactly | mymalloc/allocator.c:581-600 | what the search finds is a best fit of the bin if and only if nothing strictly below the last right sibling of the path is smaller than both that sibling and every fitting path node |
| BestFit.OffPath | mymalloc/allocator.c:586-600 | a fitting chunk off the path lies at or below a right sibling of the path |
| BestFit.DeeperIsSmaller | mymalloc/allocator.c:586-600 | chunks below a deeper right sibling are smaller than those below a shallower one |
| Runs.MissedFit | mymalloc/allocator.c:581-600 | a run from my_init in which free of 256, 376 and 328 bytes builds the trie and malloc of 264 takes the chunk of 376 |
| FreeIndex.FreeIndex.NextBin | mymalloc/allocator.c:548-575 | the smallest chunk of the first non-empty trie among those inspected, NULL if and only if they are empty |
| FreeIndex.FreeIndex.NextBinUpTo64 | mymalloc/allocator.c:601-621 | the same for the loop that lets n reach 64, and exactly when that reads past the bins |
| FreeIndex.FreeIndex.FindBestChunk | mymalloc/allocator.c:581-624 | own bin first, else the smallest chunk of the first non-empty bin above; whatever is found fits; the entry after the last bin is read if and only if nothing fits, at most fifteen bins lie above and all are empty |
| TrieSearch.EmptyReadsPastBins | mymalloc/allocator.c:604-607 | with empty bins that is every large request from 65536 bytes on |
| Runs.PastBinsRun | mymalloc/allocator.c:604-607 | the first malloc after my_init, of 65536 bytes, reads the entry after the last bin |
| FreeIndex.FreeIndex.FindHuge | mymalloc/allocator.c:626-641 | the smallest huge chunk that fits, the first of that size in the bin |
| Determinism.OnePick | mymalloc/allocator.c:714-740 | for any size, the index and the victim fix the chunk that serves a request before the end of the heap is considered |
| Allocator.Allocator.SplitChunk | mymalloc/allocator.c:482-495 | the rest of a free chunk becomes a free chunk; headers and footers follow and no block in use is touched |
| Allocator.Allocator.CombineChunks | mymalloc/allocator.c:752-767 | two free neighbours become one, and a victim among them is forgotten; the assertion on the next chunk's bit holds if and only if that bit is clear |
| ExactTags.NothingStale | mymalloc/allocator.c:760 | with exact tags that assertion always holds |
| Allocator.Allocator.RemoveChunkOrVictim | mymalloc/allocator.c:358-363 | a free chunk leaves the one place that held it: the victim's, or its bin as RemoveChunk says |
| Allocator.Allocator.TakeVictim | mymalloc/allocator.c:522-533 | the victim serves the request if and only if it is large enough, cut to size when the rest makes a chunk, which then is the victim; the index stays as it is |
| Allocator.Allocator.SmallMalloc | mymalloc/allocator.c:514-579 | exact bin, then victim, then the smallest chunk of the next non-empty trie, in that order; a rest becomes the victim, and the victim so far goes to the bin of its size |
| Allocator.Allocator.TrieMalloc | mymalloc/allocator.c:658-683 | victim, then the best the tries offer, the rest becoming the victim and the victim so far going to the bin of its size |
| Allocator.Allocator.HugeMalloc | mymalloc/allocator.c:626-645 | the smallest fitting chunk of the huge bin, never cut |
| Allocator.Allocator.EndOfHeapMalloc | mymalloc/allocator.c:692-703 | the end-of-heap chunk is extended as far as needed and its front taken; NULL if and only if the arena is exhausted |
| HeapModel.Shortfall | mymalloc/allocator.c:692-697 | it is extended exactly when fewer than 32 bytes would be left, and then so that 344 are left |
| Allocator.Allocator.Malloc | mymalloc/allocator.c:714-740 | one free chunk, the one the search order selects, is cut and becomes live; no other block changes; the index and the victim afterwards; NULL changes nothing and means no room; exactly when the call reads past the bins |
| Determinism.MallocLeaves | mymalloc/allocator.c:562-566 | served by the victim, the rest is the victim and the bins are as before; served by a chunk of a bin that is cut, the rest is the victim and the bins lose the chunk and gain the old victim; otherwise the victim is unchanged |
| Reuse.VictimRun | mymalloc/allocator.c:677-681 | a run from my_init in which malloc of 512 cuts a chunk of 1024 and the next malloc gets the front of its rest |
| HeapModel.MallocLive | mymalloc/allocator.c:714-740 | malloc adds exactly one live block, of the request to three words more unless the request is huge |
| Allocator.Allocator.Free | mymalloc/allocator.c:788-822 | the block is merged backward and forward as the tags allow; no other block changes; the chunks merged leave their places and the merged chunk goes to the bin of its size, or becomes part of the end of the heap; the assertion at line 760 fails exactly when the merge forward meets a set bit |
| Determinism.FreeLeaves | mymalloc/allocator.c:803-819 | the victim is NULL afterwards if it was merged and the old one otherwise; the bins hold what they held, less the chunks merged, plus the merged chunk unless the end of the heap comes next |
| Reuse.MergedRun | mymalloc/allocator.c:815-819 | a run from my_init in which a merged chunk of 56 bytes is in its bin, so that malloc of 24 takes a new block after it |
| HeapModel.FreeLive | mymalloc/allocator.c:788-822 | free removes exactly this block from the live blocks |
| Allocator.Allocator.SplitMallocdChunk | mymalloc/allocator.c:859-869 | a block in use is cut; what stays keeps its contents |
| Allocator.Allocator.ReallocSmaller | mymalloc/allocator.c:871-891 | the block stays where it is, cut when the rest makes a chunk, the rest merged forward when it can be and put in its bin unless the end of the heap comes next |
| Determinism.ShrinkLeaves | mymalloc/allocator.c:879-889 | the victim is NULL afterwards if it was merged and the old one otherwise; the bins lose the chunk merged and gain the rest unless the end of the heap comes next |
| Allocator.Allocator.ResizeChunkAndSplit | mymalloc/allocator.c:893-903 | a block that took in its neighbours keeps the request, the rest goes to the bin of its size, the victim stays, and the successor's bit is settled |
| Determinism.NearbyLeaves | mymalloc/allocator.c:893-951 | after growth into neighbours the victim is NULL if it was taken in and the old one otherwise; the bins lose what was taken in and gain the rest |
| Reuse.RestRun | mymalloc/allocator.c:897 | a run from my_init in which realloc leaves a rest of 120 bytes in its bin, so that malloc of 24 takes a new block after it |
| Allocator.Allocator.ReallocChunkAndAfter | mymalloc/allocator.c:905-916 | grows in place into the free chunk after it, NULL if and only if that is the end of the heap or too small |
| Allocator.Allocator.ReallocChunkAndBefore | mymalloc/allocator.c:918-933 | moves down into the free chunk before it with its contents; the assertion that the next chunk is in use holds if and only if it is |
| Allocator.Allocator.GrowNearby | mymalloc/allocator.c:976-989 | the first neighbour or pair of neighbours with room is used, NULL if and only if none has; the assertion at line 922 fails exactly for a block between two free chunks that are together too small |
| Runs.PinchedRun | mymalloc/allocator.c:922 | a run from my_init with exact tags throughout in which it fails |
| Allocator.Allocator.ReallocChunkBeforeAndAfter | mymalloc/allocator.c:935-951 | takes in both free neighbours and moves down with its contents |
| Allocator.Allocator.ReallocChunkAfterExtendHeap | mymalloc/allocator.c:953-974 | grows into the end of the heap, extended if needed, and gives the rest back; bins and victim stay as they are |
| HeapModel.Lacking | mymalloc/allocator.c:960-967 | the end of the heap is extended exactly when fewer than 32 bytes would be left, and then so that 376 are left |
| Allocator.Allocator.DefaultRealloc | mymalloc/allocator.c:824-857 | malloc, copy and free, the bins and the victim changing as in those |
| Allocator.Allocator.CopyWords | mymalloc/allocator.c:929-930 | the destination holds the words the source held, also when they overlap, and nothing else changes |
| Allocator.Allocator.ReallocLarger | mymalloc/allocator.c:976-999 | the first of the growing paths that has room is taken; contents and other blocks are kept on all of them; what each makes of the index and the victim |
| Allocator.Allocator.Realloc | mymalloc/allocator.c:1002-1011 | the block becomes one that serves the request with its contents kept; the index and the victim afterwards, whichever path is taken; exact tags stay exact if and only if no block was cut right before a block in use; with exact tags an assertion fails if and only if the block was pinched |
| Allocator.Allocator.FirstChunk | mymalloc/allocator.c:118-126 | the first chunk starts at the first aligned address, and is refused if and only if the arena has no room for it there |
| Allocator.Allocator.Init | mymalloc/allocator.c:118-135 | with every bin but bin 0 empty, aligning the break and resetting bin 0 gives a valid heap of one chunk |
| Allocator.Allocator.Collapses | mymalloc/allocator.c:118-135 | when nothing is live, bins 1 to 63 are empty if and only if the tags are exact and free chunks apart; the heap is then one chunk reaching the break |
| Allocator.Allocator.TagsFit | mymalloc/allocator_helper.h:66-74 | headers and footers fit in 32 bits, so in 64-bit words |
| ExactTags.MallocExact | mymalloc/allocator.c:714-740 | malloc keeps the tags exact and free chunks apart |
| ExactTags.FreeExact | mymalloc/allocator.c:788-822 | so does free |
| ExactTags.ResizeExact | mymalloc/allocator.c:893-903 | so does the resizing step of every growing realloc |
| ExactTags.ShrinkExact | mymalloc/allocator.c:871-891 | cutting a block keeps the tags exact if and only if the next chunk is free |
| HeapFacts.OneChunk | mymalloc/allocator.c:788-822 | an exactly tagged heap with no live block is one chunk |
| HeapFacts.EmptyIsExact | mymalloc/allocator.c:118-135 | a heap with no live block and no chunk in a bin is one chunk with exact tags |
| HeapFacts.ShrinkPreventsCollapse | mymalloc/allocator.c:871-891 | from the initial heap two mallocs, one cut and two frees leave nothing live and two free chunks side by side |
| Runs.ShrinkingRun | mymalloc/allocator.c:871-891 | the same run on the allocator: the checker fails after the cut, the assertion at line 760 in the last free, and at the end the bins are not empty |
| Checker.IsCircularlyLinkedList | mymalloc/my_checker.c:5-20 | on any two chains of links that come back, yes if and only if they are equally long |
| Checker.CircleOrbits | mymalloc/my_checker.c:5-20 | on a circle of the index both chains come back after the whole circle |
| Checker.IsValidChunkPointer | mymalloc/my_checker.c:22-32 | yes exactly for the addresses of chunks and for the last word of the heap |
| Checker.ChunkNotInTree | mymalloc/my_checker.c:34-46 | no exactly for the nodes and peers of the subtree |
| Checker.ChunkNotInBin | mymalloc/allocator.c:303 | for a whole bin, no exactly for its chunks |
| Checker.RemoveLargeAsserting | mymalloc/allocator.c:287-313 | the assertions of remove_large_chunk on its trie never fail |
| Checker.InsertLargeAsserting | mymalloc/allocator.c:379-434 | nor do those of insert_large_chunk |
| Checker.InsertHugeAsserting | mymalloc/allocator.c:459-469 | the assertion after the insertion of a huge chunk holds if and only if the word that happens to be in the parent's place is NULL, 1 or leads back |
| Checker.IsValidPointerTree | mymalloc/my_checker.c:52-68 | on any child words that end, yes if and only if every node below is free of loops, is its children's parent and has the bin number |
| Checker.TrieUnfolds | mymalloc/my_checker.c:52-68 | every trie of the index ends and has only valid nodes |
| Checker.LargeChunkSound | mymalloc/allocator_helper.h:94-98 | a trie chunk's parent points back from the child word its size selects |
| Checker.TagsAgree | mymalloc/my_checker.c:112-118 | the tag checks pass for a chunk exactly when its successor's bit says whether it is in use |
| Checker.MyChecker | mymalloc/my_checker.c:83-126 | the walk ends and passes exactly when all previous-in-use bits are exact and the end-of-heap chunk's is set |
| Checker.ExactPasses | mymalloc/my_checker.c:83-126 | exact tags and separated free chunks make it pass |
| Driver.EvalCheck | mymalloc/mdriver.c:649-705 | over any well-formed trace, without assertions only a request that finds no room fails; with them the program ends at exactly the first request that cuts its block right before a block in use or is pinched |
| Client.RangesApart | mymalloc/validator.h:76-81 | the byte ranges of two live blocks never overlap |
| Client.PatternMoved | mymalloc/validator.h:196-207 | after realloc the new block starts with the old block's pattern |
| Validator.Validator.AddRange | mymalloc/validator.h:56-92 | a range is accepted if and only if it is aligned, in the heap and apart from all others |
| Validator.Validator.RemoveRange | mymalloc/validator.h:95-115 | the first range with this start goes, nothing else |
| Validator.Validator.DoAlloc | mymalloc/validator.h:155-178 | a malloc request never fails a check |
| Validator.Validator.DoRealloc | mymalloc/validator.h:180-216 | a realloc request never fails a check, contents included |
| Validator.Validator.DoFree | mymalloc/validator.h:218-224 | a free request keeps everything the validator believes |
| Validator.Validator.EvalValid | mymalloc/validator.h:130-241 | every well-formed trace passes unless the named request finds no room; the steps of the run are those of the heap model; when everything is freed the bins are empty if and only if the tags are exact, which they are unless some realloc cut its block right before a block in use; until then an assertion fails if and only if a request is pinched |
| Histories.HistoryOnce | mymalloc/validator.h:130-241 | two runs of one trace meet the same heaps, bins, victims and blocks, as far as both go |
| Histories.ServedAgain | mymalloc/mdriver.c:264-279 | a trace that has been served to the end is refused nothing on another run |
| Tables.Tables.AllFreed | mymalloc/mdriver.c:264-281 | after a trace that gave everything back, the next may start with my_init alone if and only if the tags are exact |
| Driver.SumInjected | mymalloc/mdriver.c:494-581 | a sum over block indices is bounded by the sum over their distinct chunks |
| Driver.AskedBelowHeap | mymalloc/mdriver.c:494-581 | what is allocated at any time is less than the heap of that time |
| Driver.EvalUtil | mymalloc/mdriver.c:494-581 | the ratio times the larger of the final heap and 40960 is the larger of the true high-water mark and 40960; the mark never exceeds the heap, so the ratio is at most one; the bins are left empty as after eval_mm_valid |
| Driver.RatioRun | mymalloc/mdriver.c:575-580 | the trace of one malloc of 60000 bytes has the ratio 60000 / 60368 |
| Driver.Evaluate | mymalloc/mdriver.c:264-279 | a trace that grows and gives everything back leaves the bins empty after each of its three evaluations; the ratio is that of its history; nothing fails but a request of the trace that finds no room |
| Driver.EvaluateAll | mymalloc/mdriver.c:264-281 | any list of such traces is evaluated to the end, each to the ratio of its history, unless a request of the first that is not finds no room |

## Left out

- Malloc: requests of which `mem_sbrk` would grant a part (`AllocatorSteps.GrowthSound`), beyond the store shown in `GrowUnsoundly`, because the code goes on in storage it was not granted; requests from 2^64 - 32 bytes on, for which the splitting test is wrong.
- Realloc: the same requests (`AllocatorSteps.TailSound`).
- FindBestChunk: what the code does when the word after the last bin is not NULL; the search goes on as if it were.
- Init: the storage for the first chunk is required (`FirstChunk` says when it is refused), because the code does not test for that and writes through the failure value.
- Sbrk: the atomic fetch-and-add is sequential, and the message and errno on failure are not modelled.
- CopyWords: the order in which memcpy and memmove copy is a choice of the model; overlapping moves always go down.
- IsCircularlyLinkedList: links that never come back to the chunk, on which the code does not end.
- IsValidPointerTree: child words that never end, on which the code does not end.
- IsValidChunkPointer: pointers past the last word of the heap, for which the walk leaves the heap.
- MyChecker: a failed assertion makes the answer no instead of ending the program; the early way out for more than 64 bins and the walk over an invalid heap are not covered.
- AddRange: the range list is a sequence, newest first, not a chain of heap nodes.
- EvalUtil: a failed malloc or realloc, which ends the driver, ends the loop with no ratio.
- EvalCheck: the assertion at line 463 for huge chunks, which reads a word that the model leaves open; after an assertion has failed the model finishes the call.
- EvalValid: with assertions on, which of them ends the program once a block has been cut right before a block in use.
- EvaluateAll: the program without assertions; `eval_mm_speed` and the timing; what happens after a trace that does not fit, when `my_init` meets bins that are not empty.
- Arena: addresses are words, so payloads are 8-aligned by construction and the arena starts 8-aligned; it holds at most 2^31 bytes (the driver's is 50 MB).
- Assertions inside the allocator other than those on tries and those at lines 463, 760 and 922. The links that the program with assertions clears in a new block (line 734) are the client's to overwrite and are not cleared.
- Return codes of the insert and remove functions, which no caller reads.
- Links left in chunks that are no longer free.
- NULL passed to free or realloc, double free, and pointers that were not handed out: outside the contract of the code.
- The tuned values of `EXTENSION_SIZE` and `INITIAL_CHUNK_SIZE`; the defaults are used. `SMALL_BIN_SEARCH_MAX` is 0, so the scan at lines 535 to 546 never runs.
- The rest of the driver (options, trace files, timing, reports), the other allocators, the timing code, the style linter and the tuning scripts.
