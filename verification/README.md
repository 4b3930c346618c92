# Verified models of the PHP 5.6.17 engine

This project models the memory manager of the Zend engine and seven smaller parts of the same source
tree, and proves what they promise. `dafny verify dfyconfig.toml` checks all of it.

## The memory manager

`zend_alloc.c` is modelled word by word: memory is a map from addresses to words, and list heads, trie
slots, cache heads and the segment list lie in it at their offsets in the heap structure. The build is the
64-bit release one: no debug data, no heap protection, no cookies, safe unlinking on (header 16, smallest
block 32, alignment 8, small sizes below 544).

| file | content |
|---|---|
| `Words`, `Memory`, `Sums` | machine words, the size macros, memory and rings, totals |
| `Trie`, `TrieOps`, `TrieIndex` | bitwise tries of large free blocks, as values and in memory |
| `Index`, `IndexOps`, `IndexSteps`, `Bitmaps`, `LostBits` | buckets, tries and rest list as one index of the free blocks |
| `Search`, `BestFit`, `LargeSearch`, `FreeSearch` | the searches of the allocator |
| `Tiling`, `HeapMemory`, `HeapOps`, `SegmentOps`, `Release`, `HeapFacts` | segments cut into blocks, boundary tags, cache lists, and the one carving step behind alloc, free, realloc and flush |
| `HeapEffects` | which outcome an operation has, and what becomes of the heap, as predicates on the heap before and after |
| `ZendHeap` | the heap as a class, with the functions of the source as methods |
| `HeapTheorems`, `Runs`, `LostBlock`, `LostBitRun`, `BestFitRun` | what validity means, whole client runs, the one run that breaks it, one that loses a bit and one that misses the best fit |

`Heap.Valid()` says: every segment is exactly tiled by aligned blocks between a first-block mark and a
guard; tags agree with their copies; free blocks are coalesced and indexed exactly once; bitmaps, rest
counter, cache lists and the five byte counters are right; live blocks hold what was asked for. Every
operation keeps it, with one exception found in the source: when the storage refuses to resize a segment
whose free tail has already been unlinked, the tail is on no list afterwards (`Heap.LosesNext` is the exact
condition, `LostBlock.Damage` a run).

Where the code does less than its comments or names suggest, the exact statement is proved instead:

* "best" and "smallest" fits among large blocks are exact hits or fits below twice the optimum. The walk
  to the smallest block of a trie finds it exactly if the root is the smallest (`SmallestIffRoot`), the
  search in the own trie of a request by a condition on its path (`BestFitIff`), the whole search by both
  (`SearchLargeBlock`; `BestFitRun.Miss` is a run that fails it);
* a flush lowers `cached` but not `size`; the ghost counter `flushed` is the difference, and is 0 as long as
  no allocation has failed;
* the small bitmap is exact only until a bit is lost (ghost flag `tidy`, cleared exactly by the step of
  `LostBitIff`; `LoseBit` is a run). A search misses a small block exactly if its bit is clear.

The storage handlers are a map of regions: an allocation names the address it would get (`hint`) and
succeeds exactly if that region is free; a resize works in place or by moving to `hint`. A fatal error
(`zend_mm_safe_error`) is an outcome that ends the run. A cell of memory is what the map holds at an
address; the allocator itself uses aligned cells only. The block size is any power of two;
with one below 32 every new segment is refused (`TinyUnit`).

## The other parts

* `Tsrm`, `TsrmChains`, `TsrmResource`, `TsrmLink`, `TsrmShutdown`: threads, entries and resource ids. In the state
  machine, critical sections that walk over all entries are one step per entry, so that lock-free readers
  see every intermediate state; `ts_resource_ex` is also written out as a procedure, with a table that
  other threads may replace before each lock. The thread id passed to it is that of the caller.
* `Cow`, `CowRuns`: refcounts and reference sets against a store of plain values.
* `Constants`, `Ast`, `AstMeaning`, `AstBuild`: the constant table, constant expressions with in-place folding,
  the rules of what they mean, growing nodes. The operators of the engine are parameters.
* `Printer`: `print_r`, nested and flat, on cyclic graphs.
* `Modules`: ordering and starting extensions, with or without cyclic dependencies. A module that fails to
  start is dropped and ends the loop over the registry, but `zend_startup_modules` still returns success.
* `VaArgs`: the argument parser; whether an argument fits a type letter is a parameter.
* `Diff`: the line diff of the test runner; the line comparison is a parameter.

## Model

| member | source | states |
|---|---|---|
| Words.HighBit | php-5.6.17/Zend/zend_alloc.c:691-696 | the position of the leading one of a non-zero word, below 64 |
| Words.LowBit | php-5.6.17/Zend/zend_alloc.c:719-730 | the lowest set bit: it is set and none below it is |
| Words.BlockSizeCheck | php-5.6.17/Zend/zend_alloc.c:1086-1086 | low and high bit of a word agree exactly for powers of two, which is the check on the block size |
| Words.SetBitBits | php-5.6.17/Zend/zend_alloc.c:752-752 | setting bit i of a bitmap changes that bit and no other |
| Words.ClearBitBits | php-5.6.17/Zend/zend_alloc.c:819-819 | clearing bit i of a bitmap changes that bit and no other |
| Words.TopBit | php-5.6.17/Zend/zend_alloc.c:756-760 | the bit tested at each turn of a trie descent is the next lower bit of the size |
| Words.TrueSizeSpec | php-5.6.17/Zend/zend_alloc.c:546-546 | every wrap of the 64-bit rounding is seen by `true_size < size`; otherwise the result is the least aligned block that holds header and payload; a wrapped size is always small, so the check on the small path misses nothing |
| Words.BucketIndexBijective | php-5.6.17/Zend/zend_alloc.c:548-550 | small sizes and bucket numbers 0..63 are in order-preserving bijection |
| Words.SegmentSizeSpec | php-5.6.17/Zend/zend_alloc.c:1965-1976 | every wrap of the segment rounding is seen by `segment_size < true_size`, exactly when it happens; otherwise the segment is a multiple of the block size, holds block, header and guard, and is less than one unit too large |
| Words.SafeAddressExact | php-5.6.17/Zend/zend_alloc.c:2499-2524 | safe_address is nmemb * size + offset when that fits into a word, and an error otherwise |
| TrieOps.InsertKeepsShape | php-5.6.17/Zend/zend_alloc.c:742-777 | insertion adds exactly the one block and keeps the rule that a subtree at depth d shares the d bits below the leading one |
| TrieOps.RemoveKeepsShape | php-5.6.17/Zend/zend_alloc.c:795-866 | removal, by ring unlinking, head replacement, leaf substitution or clearing a slot, takes out exactly the one block and keeps that rule |
| IndexSteps.InsertPoint | php-5.6.17/Zend/zend_alloc.c:756-776 | the descent ends after at most as many turns as the bucket number, at the node where the abstract insertion takes place |
| IndexSteps.FindLeaf | php-5.6.17/Zend/zend_alloc.c:811-826 | the descent to the substitute leaf ends at the leaf that the abstract removal uses, with its slot |
| TrieIndex.CaseLeafSwap | php-5.6.17/Zend/zend_alloc.c:811-840 | cutting the leaf and putting it in place of a lone block, word by word, yields the index without that block; block, parent slot and children pass the tree checks |
| TrieIndex.CaseSwap | php-5.6.17/Zend/zend_alloc.c:828-866 | replacing the head of a ring by its predecessor yields the index without the head |
| TrieIndex.CaseLeaf | php-5.6.17/Zend/zend_alloc.c:813-820 | clearing the slot of a childless lone block yields the index without it; the trie becomes empty exactly if the slot is the root slot |
| IndexSteps.LinksSafe | php-5.6.17/Zend/zend_alloc.c:802-864 | on every indexed block all safe-unlinking comparisons hold, so none of the panics is reachable |
| ZendHeap.Heap.AddToFreeList | php-5.6.17/Zend/zend_alloc.c:734-793 | the index gains exactly the block, in its bucket or trie; bitmaps stay right; only link words of free blocks and list slots change |
| ZendHeap.Heap.RemoveFromFreeList | php-5.6.17/Zend/zend_alloc.c:795-866 | the index loses exactly the block, whichever list it was on; no panic; the new small bitmap is given exactly, and a bit counts as lost from here on exactly under the condition of LostBitIff |
| ZendHeap.Heap.AddToRestList | php-5.6.17/Zend/zend_alloc.c:868-897 | the block becomes the youngest of the rest list; if 16 large blocks were there, the oldest blocks up to and including the first large one move to their free lists; the loop ends |
| ZendHeap.Heap.InitSlots | php-5.6.17/Zend/zend_alloc.c:899-924 | all lists, tries and caches are empty |
| ZendHeap.Heap.constructor | php-5.6.17/Zend/zend_alloc.c:1049-1119 | a new heap of any power-of-two block size is valid, whatever memory held before |
| HeapFacts.TinyUnit | php-5.6.17/Zend/zend_alloc.c:1965-1980 | with a block size below 32 every segment is refused, so that such a heap never holds a block |
| ZendHeap.Heap.DelSegment | php-5.6.17/Zend/zend_alloc.c:926-936 | the segment leaves list, storage and tiling; every other block keeps tags and contents |
| LostBits.LostBitIff | php-5.6.17/Zend/zend_alloc.c:852-859 | taking a small block off the rest list keeps the small bitmap exact if and only if not (it was alone there and its bucket holds exactly one block) |
| LostBitRun.LoseBit | php-5.6.17/Zend/zend_alloc.c:852-859 | a client run from startup in which that happens: two allocations and a resize after which a bucket holds a block and its bit is clear |
| Search.SmallestIffRoot | php-5.6.17/Zend/zend_alloc.c:1878-1884 | the walk to the smallest block of a trie finds it if and only if the root is the smallest |
| Search.WalkMissesSmallest | php-5.6.17/Zend/zend_alloc.c:1857-1879 | a trie on which it does not |
| Search.PathBestSpec | php-5.6.17/Zend/zend_alloc.c:1826-1869 | the search path of a request through its own trie: it ends with no fit exactly if the trie has none, with the exact size if it is there, and otherwise with some fitting size of the trie or of the right subtree last passed by |
| BestFit.BestFitIff | php-5.6.17/Zend/zend_alloc.c:1826-1869 | the path finds the least fitting size if and only if no right subtree was passed by, or the best size on the path is at most the smallest of the one passed last, or the root of that one is its smallest |
| BestFit.PathMissesBestFit | php-5.6.17/Zend/zend_alloc.c:1826-1869 | a trie and a request for which it does not, although a smaller block fits |
| BestFitRun.Miss | php-5.6.17/Zend/zend_alloc.c:1826-1869 | a client run from startup in which it does not: of three free blocks that fit, a request is given the middle one |
| LargeSearch.SearchLargeBlock | php-5.6.17/Zend/zend_alloc.c:1814-1885 | NULL exactly if no trie block fits; an exact block whenever one exists; otherwise a fit smaller than twice any fitting size; a least fit if and only if the condition above holds in the own trie of the request or, if that has no fit, the next trie has its smallest block at the root. And which block: the one behind the head of the ring of the size that the walk settles on, or the head if it is alone |
| FreeSearch.SearchSmall | php-5.6.17/Zend/zend_alloc.c:1929-1938 | the head of the first bucket with a set bit, the smallest fit among the small blocks whose bit is set; NULL exactly if no fitting small block has its bit set |
| FreeSearch.ExactSees | php-5.6.17/Zend/zend_alloc.c:1929-1938 | while the bits are exact, that is every small block |
| FreeSearch.SearchRestList | php-5.6.17/Zend/zend_alloc.c:1947-1962 | the smallest fit of the rest list, of equal ones the youngest, or NULL exactly if it has none |
| FreeSearch.FindFree | php-5.6.17/Zend/zend_alloc.c:1929-1962 | small buckets first, then the tries, then near the limit the rest list, and which block of each; NULL exactly if every fitting block is on the rest list while the limit is far, or in a small bucket whose bit is lost; a block from the tries is a least fit exactly under the condition of the large search |
| ZendHeap.Heap.AllocInt | php-5.6.17/Zend/zend_alloc.c:1887-2064 | which outcome occurs, and the whole heap afterwards, from the heap as it was. The size overflows: out of memory and nothing changes. A cached block of the size: its first one is returned, `cached` falls by the size and index, counters and other blocks are as before. Else a free block: the one of the search order is taken, cut to size, charged to `size` and `peak`, its remainder filed. Else a new segment, or the limit error exactly by the limit formula, or out of memory exactly if the storage refuses, both with the cache flushed. A block is new, aligned and large enough, every other live block is unchanged and the heap stays valid in all cases |
| ZendHeap.Heap.AllocFound | php-5.6.17/Zend/zend_alloc.c:2022-2063 | a found block passes the linkage check, leaves the index and is cut to the size asked for, or given whole if less than a smallest block would be left; the remainder is filed in the free lists, never on the rest list; `size` and `peak` grow by what is given |
| ZendHeap.Heap.AllocSegment | php-5.6.17/Zend/zend_alloc.c:1964-2020 | limit error exactly on overflow or limit, out of memory exactly if the limit allows the segment and the storage refuses it; otherwise a segment laid out with first-block mark and guard, its remainder on the rest list exactly for oversized blocks; `real_size` grows by the segment, and both peaks are the larger of before and now |
| ZendHeap.Heap.AllocCached | php-5.6.17/Zend/zend_alloc.c:1910-1923 | the first cached block of the size is reused and `cached` falls by its size; sizes, peaks, index and all other blocks are as before |
| ZendHeap.Heap.Place | php-5.6.17/Zend/zend_alloc.c:2033-2059 | the run becomes one used block and, if at least a minimal block is left, one free block, which goes to the rest list exactly if asked to; payload cells and other live blocks are kept |
| ZendHeap.Heap.FreeInt | php-5.6.17/Zend/zend_alloc.c:2067-2128 | the block is no longer live, every other live block is unchanged, no other becomes live, and the heap is valid again. A small block heads the cache list of its size exactly while the cache is below its bound; any other is merged with exactly its free neighbours and filed in the free lists, or leaves with its segment, and its size leaves `size`; a null pointer changes nothing |
| ZendHeap.Heap.ReleaseBlock | php-5.6.17/Zend/zend_alloc.c:2108-2126 | block and free neighbours become one free block or leave with their segment; exactly the released bytes leave the total in use |
| ZendHeap.Heap.CachePush | php-5.6.17/Zend/zend_alloc.c:2090-2105 | a small block goes to the front of the cache list of its size and stays tagged as used |
| ZendHeap.Heap.FreeCache | php-5.6.17/Zend/zend_alloc.c:939-980 | every cache list is empty and `cached` is 0 at the end; tiling, coalescing and index are restored; live blocks are unchanged; `real_size` falls by the segments returned; `size` keeps counting the flushed bytes, which are exactly the bytes that were cached |
| ZendHeap.Heap.FlushList | php-5.6.17/Zend/zend_alloc.c:943-978 | one list is worked off to its end, the successor surviving each release; the other lists are untouched |
| ZendHeap.Heap.ReallocInt | php-5.6.17/Zend/zend_alloc.c:2130-2375 | which outcome occurs, and the whole heap afterwards. A block that is large enough stays and is cut to the size asked for, the tail merged with a free block behind it and filed in the free lists, or is left as it is if the tail would be less than a smallest block. With a cached block of the size the contents move there and the old block heads its own cache list. If the free block behind suffices, the two together are cut in the same way. Else a segment that the block has to itself is resized, by the limit formula and the storage, or a new block is allocated as AllocInt says and the old one freed as FreeInt says. On each path `size` changes by exactly the difference of the blocks and `peak` follows. On success the leading min(old, new) payload cells are at the new address, all other live blocks are unchanged and the heap is valid; in general it is valid if and only if not LosesNext, and if LosesNext then only the free block behind is missing from the lists |
| ZendHeap.Heap.Shrink | php-5.6.17/Zend/zend_alloc.c:2155-2180 | the block ends with the size asked for, or with its own if the tail would be less than a smallest block; the tail, merged with a free block behind it, is filed in the free lists and leaves `size` |
| ZendHeap.Heap.SwapCached | php-5.6.17/Zend/zend_alloc.c:2183-2224 | contents move to the first cached block of the new size and the old block heads the cache list of its own size; `cached` changes by the difference and its bound is kept; `size` and the index stay |
| ZendHeap.Heap.GrowIntoNext | php-5.6.17/Zend/zend_alloc.c:2229-2263 | the two blocks together are cut to the size asked for, or kept whole if less than a smallest block would be left; the remainder goes to the rest list exactly if it ends the segment that the block begins; `size` grows by the difference |
| ZendHeap.Heap.GrowSegment | php-5.6.17/Zend/zend_alloc.c:2276-2363 | resizing a segment that the block has to itself: the limit error exactly on overflow or limit, out of memory exactly if the storage cannot resize within the limit, and otherwise success, in place or moved, with the segment size, the cut, the counters and the peaks given exactly |
| ZendHeap.Heap.MoveBlock | php-5.6.17/Zend/zend_alloc.c:2366-2374 | an allocation with the whole effect of AllocInt, a copy, and a release with the whole effect of FreeInt; or the failure of the allocation |
| ZendHeap.Heap.LosesWhen | php-5.6.17/Zend/zend_alloc.c:2264-2316 | when a storage refusal leaves the free block behind off every list: exactly if it was free and unlinked for a resize within the limit |
| LostBlock.Damage | php-5.6.17/Zend/zend_alloc.c:2264-2316 | a concrete run (100 bytes, then 300 with a refusing storage) that ends in such a heap: the block behind is tagged free in memory and on no list |
| ZendHeap.Heap.NoCounterWraps | php-5.6.17/Zend/zend_alloc.c:2006-2009 | `real_size`, `cached` and `size` without the flushed bytes stay below the word size, so that their unsigned arithmetic does not wrap; `size` itself is covered as long as nothing has been flushed |
| ZendHeap.Heap.MemoryUsage | php-5.6.17/Zend/zend_alloc.c:2710-2721 | real usage is the sum of the segments, usage the sum of live blocks plus flushed bytes |
| ZendHeap.Heap.SetLimit | php-5.6.17/Zend/zend_alloc.c:2701-2708 | the limit never falls below the block size |
| HeapTheorems.LivePayloads | php-5.6.17/Zend/zend_alloc.c:1887-2375 | on every valid heap each live payload is aligned, large enough, inside its segment and outside the heap structure, and any two are disjoint |
| HeapTheorems.SegmentKeepsUser | php-5.6.17/Zend/zend_alloc.c:2120-2126 | every segment holds a block in use |
| HeapTheorems.NoFreeNeighbours | php-5.6.17/Zend/zend_alloc.c:2110-2126 | no two free blocks touch, and the size tag of every block is the previous-size tag of its successor |
| HeapTheorems.IndexPartition | php-5.6.17/Zend/zend_alloc.c:734-897 | a block is on some list exactly if it is free, on one list only, and on the right one for its size |
| HeapTheorems.WalkSegment | php-5.6.17/Zend/zend_alloc.c:509-530 | walking a segment by its size tags meets all its blocks without gap and ends at the guard in its last bytes |
| Runs.Execute | php-5.6.17/Zend/zend_alloc.c:1887-2375 | every legal client program reads from the heap what it would read from independent arrays. The run has a trace from the given heap on, of valid heaps that hold exactly the objects of the program at each point; each heap follows from the one before by the exact effect of the operation, every operation done comes to a success in its heap, and the program stops early exactly at one that comes to a fatal error |
| Runs.SaneIff | php-5.6.17/Zend/zend_alloc.c:1887-2375 | the heaps of a trace are valid in the full sense |
| Runs.RunFresh | php-5.6.17/Zend/zend_alloc.c:1049-1119 | the same from startup on, from an empty heap and with the limit set there |
| Tsrm.StepKeepsInv | php-5.6.17/TSRM/TSRM.c:215-560 | every step of every thread keeps: one linked entry per thread in its bucket, slot counts, slots null exactly for done ids, TLS pointers, mutex balance, objects in one slot until destroyed once |
| Tsrm.EveryRun | php-5.6.17/TSRM/TSRM.c:120-560 | so does every interleaving of any number of threads, from startup |
| Tsrm.FastPath | php-5.6.17/TSRM/TSRM.c:323-338 | the lock-free path returns what the chain search would, exactly as long as the entry was not swept by another thread; after that the pointer dangles and the search finds nothing |
| Tsrm.SlotNullIffDone | php-5.6.17/TSRM/TSRM.c:288-297 | between critical sections an entry has one slot per id, null exactly if the id is done |
| Tsrm.RunKeepsSlot | php-5.6.17/TSRM/TSRM.c:215-560 | over every run, an object stays in the slot of its thread and id until it is destroyed: what a thread was once given for an id it is given again |
| Tsrm.RetryFinds | php-5.6.17/TSRM/TSRM.c:345-369 | the recursive call after an allocation finds the entry, unless it was swept in between |
| Tsrm.SweptRun | php-5.6.17/TSRM/TSRM.c:484-526 | this happens from startup on: for any two threads of one bucket, a run in which the second leaves the first with a dangling pointer |
| TsrmResource.Manager.ResourceEx | php-5.6.17/TSRM/TSRM.c:307-384 | lock, search, allocation with the unlock inside, recursive call: at every return, on every path and whatever other threads do to the table in between, the mutex is unlocked as often as locked and was never locked twice; the value is read from the entry of the thread in its chain; undisturbed, an entry is added at the end of the chain exactly if there was none, and the recursion is one deep. The first fetch of a thread gets the array of its new entry for id 0, NULL for an id that is done, and for id j + 1 the object that was made for j |
| TsrmResource.Manager.AllocateNew | php-5.6.17/TSRM/TSRM.c:270-303 | entered with the mutex and left without it, with a new entry behind the last one of the chain and every other chain as before |
| TsrmShutdown.Shutdown | php-5.6.17/TSRM/TSRM.c:165-192 | the loops over buckets, entries and slots free exactly the objects made and not yet destroyed, each once and after its destructor |
| TsrmChains.Bucket.Search | php-5.6.17/TSRM/TSRM.c:347-369 | the loop over a chain finds the entry of the thread exactly if there is one |
| TsrmChains.Bucket.FreeThread | php-5.6.17/TSRM/TSRM.c:442-480 | the loop unlinks the entry of the thread and no other |
| TsrmChains.Bucket.Sweep | php-5.6.17/TSRM/TSRM.c:484-526 | the loop leaves, in order, exactly the entries of the calling thread in its bucket |
| TsrmLink.FreeThreadStep | php-5.6.17/TSRM/TSRM.c:442-480 | on linked entries that hold the chains of a state, the loop of ts_free_thread is the FreeThread step |
| TsrmLink.SweepAll | php-5.6.17/TSRM/TSRM.c:484-526 | the sweep steps of one critical section lead to the chain of own entries, in order |
| TsrmLink.SweepSteps | php-5.6.17/TSRM/TSRM.c:484-526 | the loop of ts_free_worker_threads is such a run |
| TsrmLink.AllocateStep | php-5.6.17/TSRM/TSRM.c:270-303 | allocate_new_resource is the Allocate step, on the whole table |
| TsrmLink.SearchAgrees | php-5.6.17/TSRM/TSRM.c:345-369 | the search finds an entry exactly if the state machine has one for the thread |
| TsrmLink.FetchSlot | php-5.6.17/TSRM/TSRM.c:70-88 | id 0 returns the array of the entry, and id j + 1 an object exactly if slot j of the entry in the state machine holds it |
| TsrmLink.FetchAll | php-5.6.17/TSRM/TSRM.c:70-88 | between critical sections an id is out of range exactly beyond the last one, NULL exactly if it is done, and else an object made and not yet destroyed |
| TsrmLink.FetchApart | php-5.6.17/TSRM/TSRM.c:70-88 | two ids, or the same id of two threads, never return the same object |
| TsrmLink.FetchStep | php-5.6.17/TSRM/TSRM.c:307-384 | an undisturbed ts_resource_ex is a run of the state machine, empty or lock, allocate, lock, found; the table afterwards is that of its last state, and what it returns is the array or the slot of the thread's entry there |
| Cow.Store.Separate | php-5.6.17/Zend/zend.h:779-789 | a shared slot gets a zval of its own with the same value and the old one loses a holder, and nothing else changes; a slot that is alone is left as it is; refcounts stay the numbers of holders |
| Cow.Store.SeparateIfNotRef | php-5.6.17/Zend/zend.h:791-794 | no value and no alias changes, and afterwards only aliases share the zval |
| Cow.Store.SeparateToMakeIsRef | php-5.6.17/Zend/zend.h:796-800 | no value and no alias changes |
| Cow.Store.Replace | php-5.6.17/Zend/zend.h:816-829 | exactly the reference set of the destination changes value; a copy is made exactly if the zval is shared by value |
| Cow.Store.PassArg | php-5.6.17/Zend/zend.h:831-839 | the argument gets the value and is nobody's alias; it shares the zval, with one holder more, exactly if that is no reference, and otherwise gets a copy |
| Cow.Store.Drop | php-5.6.17/Zend/zend_execute.h:74-88 | the other slots keep values and aliases; the zval is freed exactly with its last holder, and is no reference any more exactly from one holder on; every other zval is untouched |
| Cow.Store.GetParameters | php-5.6.17/Zend/zend_API.c:85-117 | fails exactly on too few arguments; otherwise unobservable, and each parameter is shared by its aliases only |
| Cow.Store.UpdateStatic | php-5.6.17/Zend/zend_API.c:3806-3836 | exactly the reference set of the property takes the value, also for temporaries; which zvals are taken over, copied, released and freed is given exactly |
| CowRuns.Execute | php-5.6.17/Zend/zend.h:779-839 | every program over variables, copies and references reads what it reads from a store of plain values with shared locations, and ends with no more zvals than locations still named, so nothing is leaked |
| Constants.RegisterLookup | php-5.6.17/Zend/zend_constants.c:470-521 | a registration is refused exactly for a known key or the reserved name; afterwards exactly the key and, for a case-insensitive constant, the spellings of it that are not entered themselves are read as the new value, and every other name as before |
| Constants.RegisteredIsFound | php-5.6.17/Zend/zend_constants.c:310-434 | with namespaces, whether a registered constant is found under the name it was registered with: without a leading separator exactly unless it is case-insensitive and that spelling was already entered with another value; with one exactly if the name read that value before, since the search skips the separator and the registration keeps it |
| Constants.SeparatorHides | php-5.6.17/Zend/zend_constants.c:311-315 | a name with a leading separator reads after its registration what it read before |
| Constants.SeparatorLost | php-5.6.17/Zend/zend_constants.c:311-315 | a constant with such a name that is entered and not found |
| Constants.FoundBehindSeparator | php-5.6.17/Zend/zend_constants.c:311-315 | every registered name is found with one more separator in front, under the condition for names without one |
| Constants.RegisterGrows | php-5.6.17/Zend/zend_constants.c:470-521 | registrations only add entries |
| Constants.LookupStable | php-5.6.17/Zend/zend_constants.c:273-300 | under growth of the table a found constant keeps its value if and only if it was found under its own spelling, or that spelling is not entered later with another value |
| Constants.SameFindIff | php-5.6.17/Zend/zend_constants.c:386-434 | the same for a search with a namespace and its fallback to the global name: it gives the same result later if and only if the spelling, the namespaced name or the global name is not entered with another value in between; a found constant stays found |
| Constants.Shadowed | php-5.6.17/Zend/zend_constants.c:273-300 | a case-insensitive constant whose value changes for one spelling when a case-sensitive one is registered |
| Constants.SameKeyIff | php-5.6.17/Zend/zend_constants.c:386-434 | two names have the same key exactly if they differ only in the case of letters in front of the last separator |
| Constants.NamespaceCase | php-5.6.17/Zend/zend_constants.c:386-434 | names that differ only in the case of the namespace read the same constant |
| Constants.NewlyFound | php-5.6.17/Zend/zend_constants.c:386-434 | a case-sensitive registration makes exactly these names found, of those that were not |
| AstMeaning.EvalMeans | php-5.6.17/Zend/zend_ast.c:105-348 | evaluation gives a value exactly if the expression means it by the rules: a conditional takes its second operand, or its first if that is left out, or its third; the short circuits; operands in order; array elements put in from left to right with optional keys; an undefined unqualified constant as the last part of its name. So a meaning is unique, and there is none exactly on a fatal error |
| AstMeaning.FoldMeans | php-5.6.17/Zend/zend_ast.c:105-348 | the same for evaluation with in-place folding, which is fatal exactly if the expression means nothing |
| AstMeaning.SelectTakes | php-5.6.17/Zend/zend_ast.c:291-304 | a conditional is exactly the operand taken; the one not taken may be anything, even an error, and is not folded |
| AstMeaning.ShortCircuit | php-5.6.17/Zend/zend_ast.c:269-290 | and and or are conditionals on truth values, with the second operand untouched when the first decides |
| AstMeaning.FoldReduces | php-5.6.17/Zend/zend_ast.c:253-268 | folding replaces constants by what they stand for and changes nothing else in the tree |
| Ast.FoldValue | php-5.6.17/Zend/zend_ast.c:105-348 | evaluation with in-place folding gives the value of evaluation without mutation |
| Ast.FoldedForGood | php-5.6.17/Zend/zend_ast.c:253-268 | after a successful evaluation in a class scope the folded tree has that value in every environment |
| Ast.EvalStable | php-5.6.17/Zend/zend_ast.c:105-348 | if each constant that evaluation reads keeps its meaning, by the exact condition on its name, growth of the table does not change the value or the fatal error |
| Ast.FoldingUnobservable | php-5.6.17/Zend/zend_ast.c:253-268 | then folded and unfolded tree agree in the later environment |
| Ast.LeafFoldIff | php-5.6.17/Zend/zend_ast.c:253-268 | for a single constant they agree if and only if its name keeps its meaning |
| Ast.UndefinedSticks | php-5.6.17/Zend/zend_ast.c:255-260 | with an undefined constant they do not: the name stays in the folded tree as a string |
| Ast.NoScopeNoFold | php-5.6.17/Zend/zend_ast.c:261-267 | without a class scope the tree is left alone |
| Ast.CompileTimeValue | php-5.6.17/Zend/zend_ast.c:87-103 | a compile-time-constant tree has the same value in all environments |
| Ast.CopyAlike | php-5.6.17/Zend/zend_ast.c:350-369 | a copy evaluates and folds like the original |
| AstBuild.Dynamic.Add | php-5.6.17/Zend/zend_ast.c:74-80 | the child is stored inside the allocation, also after the unsigned short count has wrapped; the children are those before and the new one, except that at the wrap all are lost |
| AstBuild.Dynamic.NoneLostIff | php-5.6.17/Zend/zend_ast.c:74-80 | the node has every child ever added if and only if there were fewer than 65536 |
| Printer.Printer.Print | php-5.6.17/Zend/zend.c:399-451 | the output is the rendering that cuts off tables on the path, on any finite graph, cyclic or not; it equals the rendering without marks if and only if nothing is cut off; every apply counter is restored; the recursion ends |
| Printer.Printer.PrintTable | php-5.6.17/Zend/zend.c:403-445 | a table is entered only if it is not being printed already; its counter is restored on both paths; the text is longer than the one without marks by one mark for each table cut off, and equal to it exactly if none is |
| Printer.Printer.PrintElements | php-5.6.17/Zend/zend.c:134-216 | all elements in order, nested or flat |
| Printer.MarkedIff | php-5.6.17/Zend/zend.c:340-391 | the text with the recursion mark differs from the text without it exactly if `Cuts` |
| Printer.CutsIff | php-5.6.17/Zend/zend.c:340-391 | and `Cuts` holds exactly if some walk from the table comes back to a table on the way |
| Printer.UncutSame | php-5.6.17/Zend/zend.c:134-193 | without a cut, a table prints the same wherever it is printed from |
| Printer.KeyShown | php-5.6.17/Zend/zend.c:134-216 | the text of a table that is not cut off holds, for each element, the key in brackets and the rendering of the value |
| Printer.ScalarShown | php-5.6.17/Zend/zend.c:134-216 | every scalar that can be reached by a walk without repetition is in the text behind its key, as are class names and array heads |
| Modules.RankIff | php-5.6.17/Zend/zend_API.c:1769-1802 | dependencies have no cycle exactly if a rank falls along each of them |
| Modules.SortEndsIff | php-5.6.17/Zend/zend_API.c:1769-1802 | the loop with its restarts ends if and only if the dependencies have no cycle, and only then an ordered permutation of the registry exists at all |
| Modules.CycleRestarts | php-5.6.17/Zend/zend_API.c:1780-1795 | with a cycle of any length the loop has not ended after any number of turns, and no order would satisfy it |
| Modules.FindLater | php-5.6.17/Zend/zend_API.c:1778-1797 | the two inner loops find the first listed dependency that sits behind the module |
| Modules.SortModules | php-5.6.17/Zend/zend_API.c:1769-1802 | without cycles the loop ends, in the state the turns lead to: a permutation in which no unstarted module stands before one it names |
| Modules.StartModule | php-5.6.17/Zend/zend_API.c:1712-1766 | a module starts exactly if its required modules are started and its startup function succeeds; refused, it is left unstarted, and after a failing startup function it keeps the mark |
| Modules.StartupModules | php-5.6.17/Zend/zend_API.c:1882-1887 | after the sort, in the order that the turns lead to, all modules are started if and only if each is started already or has its required modules registered and a succeeding startup function; otherwise the first module in order that has not is dropped from the registry and the ones behind it stay as they were |
| VaArgs.Count | php-5.6.17/Zend/zend_API.c:743-809 | specifications with a bad letter or two varargs letters are refused; otherwise the minimum is what stands before the last bar, or everything, the maximum is the number of letters or none, and the trailing letters are those behind the varargs letter |
| VaArgs.ParseVaArgs | php-5.6.17/Zend/zend_API.c:729-885 | the parse succeeds if and only if there is no bad letter and at most one varargs letter, the number of arguments is at least the minimum, at most what was passed and, without varargs, at most one for each letter, each argument fits its letter, and the part of the specification that is read has no modifier without a letter, no two bars in a row and no bar behind an empty run. It then fills leading slots, one run of varargs and trailing slots as Layout says; a varargs array is left exactly if there are more arguments than letters, and never after a failure |
| VaArgs.TwoBars | php-5.6.17/Zend/zend_API.c:835-882 | with two bars in a row the letter behind them counts for the maximum and can never be filled: the parse fails for it and succeeds without it |
| VaArgs.LayoutCoversAll | php-5.6.17/Zend/zend_API.c:835-882 | such a layout consumes every argument exactly once, in order |
| VaArgs.LayoutFillsPrefix | php-5.6.17/Zend/zend_API.c:835-882 | and fills a prefix of the letters, in order |
| Diff.CountArrayDiff | php-5.6.17/run-tests.php:2149-2189 | the look-ahead ends, and counts the pairs of a genuine alignment: the lines that match at once plus the most behind a skip on either side, as far as the budget reaches |
| Diff.LookAhead | php-5.6.17/run-tests.php:2205-2219 | the first line is set aside exactly if its side promises more or nothing is promised behind the second, and the second exactly if the first promises no more |
| Diff.GenerateArrayDiff | php-5.6.17/run-tests.php:2191-2256 | the alignment is the greedy one: at a mismatch the side that promises more is skipped, or both if neither promises anything. The output lists, once each and in order, exactly the lines of either text without a partner, those set aside interleaved and then the rest; equal texts give no output; all loops end |
| Diff.Merge | php-5.6.17/run-tests.php:2223-2245 | the two lists of lines set aside are interleaved without losing or reordering any: runs of consecutive lines stay together, else the smaller number first |

## Left out

- Storage back ends, configuration from the environment, debug and protection data, leak reports, heap checks and random cookies: calls into the system, or absent from the modelled build.
- zend_mm_shutdown, the reserve block and the heap that lives in its own first block: they would add long but easy members.
- The refcount is an unbounded number: the 32-bit wrap of a zval with 2^32 holders is not modelled.
- ZendHeap.Heap.NoCounterWraps: `size` itself is not bounded once the cache has been flushed, because the source never subtracts the flushed bytes; the model counts them in `flushed`, without the wrap of `size_t`.
- Ast.FoldValue: folding is modelled on values; update in place and sharing of subtrees are not captured, nor are the operators, special constants, class constants (names with `::`) and self-referencing constants.
- Constants.LookupStable: special constants such as `__CLASS__` are not in the table.
- Tsrm.StepKeepsInv: constructors, destructors and thread handlers do not call back into the manager, interpreter contexts are not switched, and memory exhaustion is not modelled; a critical section that handles a single entry is one step; the destructor calls that `ts_free_thread` and `ts_free_worker_threads` make with NULL, for slots of ids that are done, destroy nothing here.
- TsrmResource.Manager.ResourceEx: an id beyond the array, which the source reads without a check, is an outcome of its own.
- Tsrm.FastPath: the reallocation of a storage array while another thread reads it without the lock is one atomic step.
- Printer.Printer.Print: property names are given unmangled and property tables are not temporary; scalars are printed by their text.
- Modules.StartupModules: the effect of a fatal core error on the process is not modelled; the registry is as the loop leaves it.
- Modules.StartModule: what the module globals and startup functions do is not modelled, only whether they succeed.
- VaArgs.ParseVaArgs: type conversions are a parameter, and error messages are not modelled.
- Diff.GenerateArrayDiff: the formatting of line numbers is not modelled.
- Cow.Store.Separate: a value is opaque, so arrays that hold references, whose copies share elements, are outside the refinement.
- Cow.Store.Drop: the registration of possible roots with the cycle collector is not modelled.
- The rest of the repository: builtin functions, closures, class declaration wrappers, error handling, start and stop of the engine.
