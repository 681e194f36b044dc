# Verified model of the bjrk-edge core

bjrk-edge is an event-driven server core written in C. This project models the parts of its core whose
correctness is an argument about states, histories and encodings, and proves those arguments in Dafny 4.11:

| files | subject | source |
|---|---|---|
| `Shmtx` | the process mutex: atomic steps of any number of processes | `bjrk-edge_shmtx.c` |
| `Slab*`, `Words` | the shared-memory slab allocator: page runs, chunk bitmaps, slot lists | `bjrk-edge_slab.c` |
| `RB*` | the red-black tree with one shared sentinel, and timer order across the wrap of the clock | `bjrk-edge_rbtree.c` |
| `Queue*` | the circular doubly linked queue and its merge sort | `bjrk-edge_queue.c`, `.h` |
| `Radix*` | the 32-bit radix tree | `bjrk-edge_radix_tree.c` |
| `OpenFile*` | the open file cache: entries, LRU queue, reference counts, descriptors | `bjrk-edge_open_file_cache.c` |
| `Hash*` | the byte-packed hash table, and the compiler of wildcard names to nested hashes | `bjrk-edge_hash.c` |
| `Output*` | the output chain: copying and recycling buffers behind a slow filter | `bjrk-edge_output_chain.c`, `bjrk-edge_buf.c` |
| `Conf*` | the configuration tokenizer, its refilled buffer, and the spelling of configurations | `bjrk-edge_conf_file.c` |
| `Pool*` | memory pools, and arrays that grow in them | `bjrk-edge_palloc.c`, `bjrk-edge_array.c` |
| `Inet*` | IPv4 and IPv6 text | `bjrk-edge_inet.c` |
| `Resolver*` | names in DNS queries and responses | `bjrk-edge_resolver.c` |
| `Json*` | the two passes of the JSON encoder | `bjrk-edge_json.c`, `bjrk-edge_string.c` |
| `Proxy*` | version 2 of the PROXY protocol | `bjrk-edge_proxy_protocol.c` |
| `Common`, `Separated`, `Numbers`, `Sprintf` | texts, digits and small types that several of these use | `bjrk-edge_string.c` |

What the C code updates in place is updated in place here: a class has the fields of the C structure, and
records in an array or a sequence stand for memory, an index for a pointer. A ghost value says what the
records mean (blocks, a tree, a sequence, a map of routes), `Valid()` ties the two together, every method
says how it changes the meaning, and lemmas about the meaning say what a user of the structure relies on.
For the encodings, writer and reader are each proved against a definition of what a text or a message means,
and the definitions are proved to be inverse to each other. `dafny verify dfyconfig.toml` checks everything.

Some statements one would like to make are false of the code. The model keeps the code; this is exactly when
they hold:

* The open file cache loses a descriptor if and only if a name, looked at twice by one open, leads away from
  the cached file and back to it (`OpenFileCache.Cache.Open`, `OpenFileCache.FlipExample`).
* Its bookkeeping is right after an open if and only if the cached answer was trusted or the name did not lead
  to a directory with the number of the cached open file. The number is the inode without the device, so it may.
  Otherwise a directory entry keeps the number of a descriptor that is closed, or that belongs to handles of
  the old entry (`OpenFileCache.Cache.Open`, `OpenFileCache.AliasExample`).
* `ngx_slab_free` leaves a sound pool if and only if the address is not one of the chunks that an in-page
  bitmap occupies (`Slab.Pool.FreeLocked`, `SlabLive.FreeingABitmapChunk`), and it reads one of the pool's own
  records if and only if the address is in the pages: before `start` it reads none and refuses, and behind the
  last page the range test lets more through, in every pool at least `pool->end` itself (`Slab.FreeExample`).
* `ngx_slab_init` keeps its records inside the segment if and only if there is room for the slots and one
  record. The modules that make zones ask for eight pages (`Slab.Layout`).
* A small allocation stays inside its block, for every used part of it, if and only if the end of the block is
  aligned: `(size_t) (p->d.end - m)` wraps around (`PoolRegions.OverrunsIffUnaligned`).
* Tokenizing through the buffer is tokenizing the whole file if and only if no word or comment is longer than
  the buffer; a comment counts from its `#` (`ConfFile.Reader.ReadToken`, `ConfSpelling.CommentExample`).
* The text of an IPv6 address parses if and only if it is neither ::255.255.255.255 nor
  ::ffff:255.255.255.255, whose last part looks like INADDR_NONE (`Inet.TextRoundTrip`).
* A name in a DNS query reads back if and only if no label is longer than 63 and there are at most 127; the
  builder declines only labels longer than 255 (`Resolver.QueryReadsBack`, `Resolver.LabelExample`).
* A PROXY protocol message reads back if and only if its length fits 16 bits, which the writer does not test
  (`ProxyMessage.MessageReads`, `ProxyMessage.LengthExample`). All callers of the writer pass a buffer of 4096
  bytes, so none of them gets that far.
* `ngx_radix32tree_delete` follows a NULL pointer if and only if /0 is deleted and no other prefix has a route,
  as in a tree just created (`Radix.RadixTree.Delete`, `Radix.DeleteExample`).
* `ngx_hash_init` divides by zero if and only if there are no names and the bucket size is 8 to 23
  (`HashTable.Hash.Init`, `HashTable.InitExample`). A name is found if and only if no name with a null value is
  before it in its bucket (`HashLayout.FoundUnlessHidden`).

## Model

| member | source | states |
|---|---|---|
| Shmtx.StepKeepsInv | src/core/bjrk-edge_shmtx.c:62-196 | every atomic action of every process keeps lock ownership, conservation of wake-ups, counter ranges and "no sleeper is forgotten" |
| Shmtx.RunInv | src/core/bjrk-edge_shmtx.c:62-196 | that invariant holds in every state of every interleaving of any number of processes |
| Shmtx.AtMostOneInside | src/core/bjrk-edge_shmtx.c:63-134 | at most one live process is between lock and unlock, and the lock word names it |
| Shmtx.WakeupsAreConserved | src/core/bjrk-edge_shmtx.c:91-129 | wait + semaphore + posts under way = registered waiters; a free lock with a sleeper and an empty semaphore always has a process that will look again or wake it |
| Shmtx.WaitStaysInRange | src/core/bjrk-edge_shmtx.c:165-196 | with n processes wait stays within -n..n and the semaphore within n, so reading wait as signed is sound |
| Shmtx.SleeperCanEnter | src/core/bjrk-edge_shmtx.c:91-196 | from every reachable state in which a process sleeps some continuation lets it in, unless the owner died and nobody is there to break its lock |
| Shmtx.StepNoLostWakeup | src/core/bjrk-edge_shmtx.c:165-196 | one step cannot lose a wake-up, also when wakeup sees wait <= 0 and gives up |
| Slab.Layout | src/core/bjrk-edge_slab.c:99-160 | for every segment: there are pages if and only if one page fits behind one record; records and page-aligned pages then lie between the slots and the end without overlap, and less than two pages and their records are wasted; the records stay inside the segment if and only if it has room for the slots and one record, and with less than the slots need the size wraps around |
| Slab.Pool.constructor | src/core/bjrk-edge_slab.c:99-160 | the new pool is one maximal free run, empty slot lists, zero counters |
| Slab.Pool.AllocPages | src/core/bjrk-edge_slab.c:677-730 | fails exactly if no free run is long enough; otherwise the front of the first long enough run of the list becomes one live run and nothing else changes |
| Slab.Pool.SplitOffPages | src/core/bjrk-edge_slab.c:683-722 | cutting a run keeps records, tails, back-pointers, the list and the free count consistent |
| Slab.Pool.FreePages | src/core/bjrk-edge_slab.c:733-810 | the block is gone, and the free runs are maximal again: merged on both sides, never two adjacent |
| Slab.Pool.JoinRight | src/core/bjrk-edge_slab.c:752-774 | after the right join no free run follows; live blocks are untouched |
| Slab.Pool.JoinLeft | src/core/bjrk-edge_slab.c:776-800 | after the left join, through the back-pointer of the tail, no free run precedes; live blocks are untouched |
| Slab.Pool.TakeSmall | src/core/bjrk-edge_slab.c:221-263 | the lowest free chunk of the in-page bitmap is taken, and the page leaves its slot list exactly if it was the last; the "page is busy" branch is unreachable |
| Slab.Pool.TakeExact | src/core/bjrk-edge_slab.c:265-289 | the same for the bitmap in the record's word |
| Slab.Pool.TakeBig | src/core/bjrk-edge_slab.c:291-320 | the same for the bitmap in the upper half of the record's word |
| Slab.Pool.CarvePage | src/core/bjrk-edge_slab.c:328-398 | a fresh page has its first chunk after the bitmap taken, nothing else, and is alone on its slot list |
| Slab.Pool.AllocLocked | src/core/bjrk-edge_slab.c:183-417 | a request fails exactly when there is neither a page run nor a half-used page of its class, which for more than 2048 bytes is: no free run has that many bytes; it then changes no block; otherwise exactly one block of the right class or run length, free before, is live; requests and failures are counted in the class |
| Slab.SizeClass | src/core/bjrk-edge_slab.c:207-217 | the shift loop finds the smallest chunk of at least 8 bytes that holds the request |
| Slab.Pool.FreeLocked | src/core/bjrk-edge_slab.c:460-674 | of the addresses in the pages exactly those where a live block starts and those of a bitmap's own chunks are freed; a live block is removed alone; every refused address leaves every record, word and counter as it was; the pool is sound afterwards if and only if it was no bitmap chunk; from the end of the last page up to `end` inclusive, and only there, the record read is not one of the pool's |
| Slab.Pool.FreeBitmapChunk | src/core/bjrk-edge_slab.c:476-543 | freeing a bitmap's own chunk in any valid pool leaves records and bitmaps that fit no blocks and no lists at all |
| Slab.Pool.FreeChunk | src/core/bjrk-edge_slab.c:474-625 | the chunk's bit is cleared, a full page returns to its slot list, an emptied page returns to the page layer |
| Slab.Pool.SmallIsEmpty | src/core/bjrk-edge_slab.c:508-527 | the emptiness test of the in-page bitmap is right: no chunk is in use |
| Slab.Pool.Store | src/core/bjrk-edge_slab.c:183-417 | a write of a process into memory it was granted cannot damage the allocator |
| Slab.Pool.IsSettled | src/core/bjrk-edge_slab.c:183-674 | every pool between calls meets the premises of the client's lemmas, and a page is on its slot list exactly when it has a used and a free chunk |
| SlabLive.LiveRangesAreDisjoint | src/core/bjrk-edge_slab.c:183-417 | two granted ranges are the same or do not overlap, and all lie inside the pages |
| SlabLive.BitmapIsNotLive | src/core/bjrk-edge_slab.c:331-357 | no granted range overlaps the words of an in-page bitmap |
| SlabLive.LiveMayBeFreed | src/core/bjrk-edge_slab.c:460-474 | every granted address is one that free accepts |
| SlabLive.AllocAddsOne | src/core/bjrk-edge_slab.c:183-417 | a successful request adds exactly one range that was not live, aligned to its chunk or page: of 8 to 2048 bytes, a power of two, and less than twice the request if more than 8; or of whole pages of 4096 bytes, less than one page more than the request |
| Slab.LargeRequest | src/core/bjrk-edge_slab.c:191-206 | for more than 2048 bytes there is no room exactly if every free run has fewer bytes |
| SlabSpec.PagesAreEnough | src/core/bjrk-edge_slab.c:191-206 | so many pages are enough exactly if the bytes fit into them |
| SlabSpec.PageOfChunks | src/core/bjrk-edge_slab.c:328-398 | the chunks of a class fill the page, and the bitmap, if it is in the page, takes the least number of chunks with a bit for each |
| SlabLive.FreeRemovesOne | src/core/bjrk-edge_slab.c:460-674 | a successful free removes exactly the range at that address |
| SlabLive.FreeUndoesAlloc | src/core/bjrk-edge_slab.c:183-674 | allocating and freeing at once restores all blocks, free runs included |
| SlabLive.OnListWhenHalfUsed | src/core/bjrk-edge_slab.c:219-326 | a page is on the list of its slot if and only if it has both a used and a free chunk |
| SlabLive.FreeingABitmapChunk | src/core/bjrk-edge_slab.c:476-506 | in any sound pool a bitmap's own chunk looks taken, and clearing its bit leaves records and bitmaps that fit no blocks and no lists |
| Slab.FreeExample | src/core/bjrk-edge_slab.c:460-543 | after one request for 8 bytes, freeing the first address of the page succeeds and leaves no sound pool |
| SlabFacts.BitmapBroken | src/core/bjrk-edge_slab.c:489-506 | a small-chunk page whose bitmap lacks the bit of one of its own chunks is part of no sound pool |
| SlabBlocks.FreeRunsAreDetermined | src/core/bjrk-edge_slab.c:677-810 | maximal free runs depend on the live blocks only, not on the history |
| SlabBlocks.NothingLiveIsOneRun | src/core/bjrk-edge_slab.c:733-810 | with everything freed the pool is the one run it started as |
| SlabChunks.SmallFull | src/core/bjrk-edge_slab.c:243-254 | all bitmap words are ones exactly if every chunk is used |
| SlabChunks.BigFull | src/core/bjrk-edge_slab.c:303-310 | the upper half equals the mask exactly if every chunk is used, and is zero exactly if none is |
| SlabChunks.SmallTake | src/core/bjrk-edge_slab.c:229-241 | setting one bit adds one chunk to the set the bitmap encodes |
| SlabChunks.SmallGive | src/core/bjrk-edge_slab.c:489-499 | clearing one bit removes one chunk |
| Words.BitInNumbers | src/core/bjrk-edge_slab.c:229-241 | bit i of a word is the digit of 2^i |
| Words.SetInNumbers | src/core/bjrk-edge_slab.c:229-241 | setting and clearing a bit adds and subtracts 2^i, if there is something to do |
| Words.ShiftInNumbers | src/core/bjrk-edge_slab.c:291-310 | shifts are products and quotients, and masks are remainders |
| SlabMoves.SplitOff | src/core/bjrk-edge_slab.c:683-722 | the record writes of a split, seen as a change of the block map |
| SlabMoves.Absorb | src/core/bjrk-edge_slab.c:752-800 | the record writes of a join, seen as a change of the block map |
| RBTree.Tree.Insert | src/core/bjrk-edge_rbtree.c:24-93 | colour rules, equal black heights and parent links hold; the in-order contents gain exactly this node, behind all keys not greater and before all greater ones |
| RBTree.Tree.InsertValue | src/core/bjrk-edge_rbtree.c:96-153 | the walk ends at the node's place in plain or timer order and hangs a red leaf there |
| RBTree.Tree.Rebalance | src/core/bjrk-edge_rbtree.c:48-92 | the insert fixup ends and restores the rules without changing the order |
| RBTree.Tree.LeftRotate | src/core/bjrk-edge_rbtree.c:318-345 | the links after the rotation form the rotated tree, the rest is untouched |
| RBTree.Tree.RightRotate | src/core/bjrk-edge_rbtree.c:348-375 | its mirror image |
| RBTree.Tree.Delete | src/core/bjrk-edge_rbtree.c:156-315 | the rules hold; the in-order contents lose exactly this node; other keys are kept |
| RBTree.Tree.TakeOutVia | src/core/bjrk-edge_rbtree.c:206-240 | the successor takes the node's links and colour, though it may be its own child; the order loses the node alone; the record is cleared |
| RBTree.Tree.FixDelete | src/core/bjrk-edge_rbtree.c:248-312 | the delete fixup, which finds an empty place through the sentinel's parent, ends and restores the rules without changing the order |
| RBTree.Tree.Next | src/core/bjrk-edge_rbtree.c:378-404 | the node that follows in the order, or none after the last |
| RBTree.Tree.Min | src/core/bjrk-edge_rbtree.h:76-85 | the first node in the order |
| RBRules.HeightIsLogarithmic | src/core/bjrk-edge_rbtree.c:10-15 | the height is at most 2 log2(n + 1) |
| RBRules.RotateEndsInsert | src/core/bjrk-edge_rbtree.c:65-68 | with a black uncle one rotation ends the insertion |
| RBRules.TurnOutward | src/core/bjrk-edge_rbtree.c:60-63 | an inner grandchild becomes an outer one |
| RBRules.RecolorKeeps | src/core/bjrk-edge_rbtree.c:53-57 | with a red uncle the only possible fault moves two levels up |
| RBRules.RedSibling | src/core/bjrk-edge_rbtree.c:252-257 | a red sibling is replaced by a black one, the shortage stays |
| RBRules.PassUp | src/core/bjrk-edge_rbtree.c:259-261 | the shortage moves to the parent |
| RBRules.FarChildRed | src/core/bjrk-edge_rbtree.c:264-269 | the far child of the sibling becomes red |
| RBRules.Repaired | src/core/bjrk-edge_rbtree.c:271-275 | the last rotation makes up for the missing black node |
| RBOrder.LessIsRank | src/core/bjrk-edge_rbtree.c:121-153 | timers within half the clock compare by their distance from the base, across the wrap |
| RBOrder.LessIsSigned | src/core/bjrk-edge_rbtree.c:121-153 | one timer is before another exactly if the signed difference of the two 64-bit numbers is negative |
| RBOrder.SortedInsert | src/core/bjrk-edge_rbtree.c:96-153 | a node at its place keeps the keys sorted, also around the clock |
| RBDelete.DeleteKeepsOrder | src/core/bjrk-edge_rbtree.c:156-315 | deletion keeps the others sorted |
| RBDelete.DeleteUndoesInsert | src/core/bjrk-edge_rbtree.c:24-315 | insert then delete gives the old contents |
| RBDelete.NodesAreDistinct | src/core/bjrk-edge_rbtree.c:24-315 | a linked tree holds each node once |
| Queue.Memory.InsertBefore | src/core/bjrk-edge_queue.h:43-50 | the node enters the ring at that place and only ring records are written |
| Queue.Memory.Remove | src/core/bjrk-edge_queue.h:83-85 | exactly this node leaves the ring |
| Queue.Memory.Split | src/core/bjrk-edge_queue.h:90-96 | one ring becomes two well-formed rings |
| Queue.Memory.Add | src/core/bjrk-edge_queue.h:99-103 | two rings become one |
| Queue.Memory.Middle | src/core/bjrk-edge_queue.c:21-49 | the slow pointer stops at element n / 2 |
| Queue.Memory.Merge | src/core/bjrk-edge_queue.c:77-106 | in-place merging by relinking gives the merge of the two rings |
| Queue.Memory.Sort | src/core/bjrk-edge_queue.c:54-74 | the sort ends, the ring is well formed and holds MergeSorted of what it held, other records are untouched |
| QueueOrder.SortIsStable | src/core/bjrk-edge_queue.c:52-74 | for any total preorder the result is sorted, a permutation, and stable |
| QueueOrder.StableSortIsUnique | src/core/bjrk-edge_queue.c:52-74 | there is only one such result |
| QueueOrder.SortPermutes | src/core/bjrk-edge_queue.c:54-106 | for any comparison at all the nodes are kept |
| Radix.RadixTree.Insert | src/core/bjrk-edge_radix_tree.c:108-170 | BUSY exactly if the prefix has a route; otherwise that route alone is added |
| Radix.RadixTree.Delete | src/core/bjrk-edge_radix_tree.c:173-233 | OK exactly if the prefix had a route, which alone is removed while useless nodes go to the free list; the NULL parent of the root is followed exactly if /0 is deleted and no other prefix has a route |
| Radix.DeleteExample | src/core/bjrk-edge_radix_tree.c:173-233 | deleting /0 from a tree just created follows the NULL parent |
| Radix.RadixTree.Find | src/core/bjrk-edge_radix_tree.c:236-263 | the value of the longest prefix with a route |
| Radix.RadixTree.Alloc | src/core/bjrk-edge_radix_tree.c:463-488 | a node that is neither in the tree nor free any more; free list first, then the page |
| RadixShape.ShapeIsCanonical | src/core/bjrk-edge_radix_tree.c:108-233 | equal routes mean equal paths: the shape does not depend on the history |
| RadixShape.NodeServesRoute | src/core/bjrk-edge_radix_tree.c:212-230 | every node but the root leads to a route |
| RadixShape.LoneRoot | src/core/bjrk-edge_radix_tree.c:173-233 | the root has no children exactly if no other prefix has a route |
| RadixShape.LongestIsUnique | src/core/bjrk-edge_radix_tree.c:236-263 | the longest match has one value only |
| RadixShape.PrefixInNumbers | src/core/bjrk-edge_radix_tree.c:108-263 | with a mask of n leading ones an address matches a route exactly if both have the same quotient by 2^(32 - n) |
| OpenFileCache.Cache.Open | src/core/bjrk-edge_open_file_cache.c:143-486 | for every answer of the file system: it is looked at if and only if the name is unknown, or has no answer, or the last look at it is `valid` seconds or more ago or had other symlink settings, or the caller asks for another file; without a look the answer is the one of the last look; after a look the answer, its time and its settings are kept if the open succeeds or errors are to be kept; an opened file comes with exactly one new handle on its descriptor, the entry is the most recently used, has the answer and one use more; the bookkeeping (tree, queue, current, counts, owners of descriptors) is right afterwards if and only if the cached answer was trusted or the name did not lead to a directory with the cached file's number; otherwise the answer is a directory with a descriptor that is closed or belongs to handles of the file; a descriptor is lost exactly if the name flips |
| OpenFileCache.AnswerAgain | src/core/bjrk-edge_open_file_cache.c:226-251 | an entry whose answer is trusted was looked at less than `valid` seconds ago with the same settings, its answer is the one of that look, and this look stays the last; the use is counted |
| OpenFileCache.LookedAgain | src/core/bjrk-edge_open_file_cache.c:226-460 | an entry whose answer is not trusted was looked at too long ago or with other settings, or for another file; the new answer is the last look from then on; the use is counted, or counting starts at one for a new entry |
| OpenFileCache.LookedFirst | src/core/bjrk-edge_open_file_cache.c:352-420 | an unknown name has no look to rely on; its first answer is the last look, and its first use is counted |
| OpenFileCache.Cache.Cleanup | src/core/bjrk-edge_open_file_cache.c:1017-1028 | one handle is given back; the entry's descriptor is closed if and only if it was the last one and the entry was expired or is seldom used; all other handles keep their open descriptors |
| OpenFileCache.Cache.CloseCached | src/core/bjrk-edge_open_file_cache.c:1031-1074 | the descriptor is closed if and only if no handle is left and the entry was expired or is seldom used; an expired entry without handles is freed; otherwise it goes to the head of the queue |
| OpenFileCache.Cache.Expire | src/core/bjrk-edge_open_file_cache.c:1094-1142 | one to three entries leave the end of the queue, the inactive ones and the last one when forced; exactly their descriptors without handles are closed, and other entries are untouched |
| OpenFileCache.Cache.OpenAndStat | src/core/bjrk-edge_open_file_cache.c:839-945 | at most one new descriptor remains open, exactly when the answer holds it |
| OpenFileCache.NothingElseIsOpen | src/core/bjrk-edge_open_file_cache.c:143-486 | with all handles back, the open descriptors are those of the cached entries and those lost to a flip |
| OpenFileCache.LostForGood | src/core/bjrk-edge_open_file_cache.c:253-330 | a lost descriptor stays open and no entry knows it |
| OpenFileCache.FlipExample | src/core/bjrk-edge_open_file_cache.c:253-330 | a concrete state and concrete answers that lose a descriptor |
| OpenFileCache.AliasExample | src/core/bjrk-edge_open_file_cache.c:253-330 | a concrete state and a concrete answer for which the bookkeeping is wrong afterwards |
| OpenFileCache.UpdateShows | src/core/bjrk-edge_open_file_cache.c:396-460 | an update gives the entry the answer; the bookkeeping is right if the answer fits the entry, and wrong if it is a directory with a descriptor |
| OpenFileState.HandedOutIsOpen | src/core/bjrk-edge_open_file_cache.c:1017-1074 | a descriptor handed out is open until its handle is given back |
| OpenFileSteps.DropHandle | src/core/bjrk-edge_open_file_cache.c:1017-1042 | one handle less is one count less |
| OpenFileSteps.Evict | src/core/bjrk-edge_open_file_cache.c:1094-1142 | an evicted entry lives on for its handles only |
| HashTable.Hash.Init | src/core/bjrk-edge_hash.c:251-486 | building succeeds exactly if the settings allow it, with the chosen size; each bucket then holds its elements in order, in its own memory, null-terminated; it divides by zero exactly if there are no names and the bucket size is 8 to 23 |
| HashTable.InitExample | src/core/bjrk-edge_hash.c:251-310 | a hash of no names with buckets of 8 bytes divides by zero |
| HashTable.Hash.Find | src/core/bjrk-edge_hash.c:12-49 | walking the bytes of the bucket finds the first element of that name |
| HashTable.FindsEveryName | src/core/bjrk-edge_hash.c:12-49 | for distinct names every name gets its value and every other name null |
| HashTable.Reading | src/core/bjrk-edge_hash.c:20-46 | the bytes at an element's start are its value, length and lower-case name, and the next element starts where the sizes say |
| HashTable.StartsApart | src/core/bjrk-edge_hash.c:383-420 | the memory of two buckets does not overlap |
| HashTable.FindSize | src/core/bjrk-edge_hash.c:293-345 | the search finds the first size whose buckets all fit, or the largest allowed |
| HashTable.ChosenIsLeast | src/core/bjrk-edge_hash.c:293-345 | the chosen size is the least one from the start on at which all buckets fit, or the largest allowed if none does |
| HashTable.FirstSizeIs | src/core/bjrk-edge_hash.c:296-303 | the search begins at the largest size less 1000 for many names, and else where buckets of two-pointer elements hold all names, in numbers |
| HashLayout.NextElement | src/core/bjrk-edge_hash.c:42-44 | the reader's alignment step is the writer's element size |
| HashLayout.BucketAnswers | src/core/bjrk-edge_hash.c:12-49 | a bucket search answers for the whole list of names |
| HashLayout.FoundUnlessHidden | src/core/bjrk-edge_hash.c:12-49 | of different names one is found if and only if no name with a null value is before it in its bucket |
| HashLayout.LowerForgetsCase | src/core/bjrk-edge_hash.c:435 | lower-case names are equal exactly if the names differ in the case of letters A to Z only, and hold no capitals |
| HashLayout.LowByteFirst | src/core/bjrk-edge_hash.c:432-435 | numbers lie in memory with their low byte first |
| HashWildcard.WildcardInit | src/core/bjrk-edge_hash.c:489-631 | for sorted names without conflicts the nested hashes give every name the value of its last matching key |
| HashWildcard.FindHead | src/core/bjrk-edge_hash.c:52-143 | scanning labels from the end is the lookup of the reversed name |
| HashWildcard.FindTail | src/core/bjrk-edge_hash.c:146-207 | scanning labels from the front is the lookup of the name |
| HashWildcard.FindsLongest | src/core/bjrk-edge_hash.c:52-207 | the result is the value of the longest wildcard that matches, or nothing |
| HashWildcard.GroupEnds | src/core/bjrk-edge_hash.c:540-558 | the inner loop stops exactly where the names stop sharing the label |
| HashLevel.LevelAnswers | src/core/bjrk-edge_hash.c:489-631 | searching the packed hash of one level of the nested hashes gives the tagged value of a label, or null, as the model's map of the level does |
| HashLevel.LevelIsBuildable | src/core/bjrk-edge_hash.c:489-631 | the labels of a level are distinct names with values, as building a packed hash of them needs |
| HashLevel.TagsRead | src/core/bjrk-edge_hash.c:84-140 | the two low bits tell the four kinds of slots apart, and the rest is the pointer |
| HashLevel.FindIsLookup | src/core/bjrk-edge_hash.c:52-207 | finding in the packed hashes of all levels, with the tests of the low bits, gives what the nested hashes of the model give, for head and tail wildcards and every name |
| HashLevel.PutTable | src/core/bjrk-edge_hash.c:489-631 | the nested hashes can always be laid out in memory, level below level, with aligned places of their own |
| HashNames.LastMatchIsLongest | src/core/bjrk-edge_hash.c:489-631 | in the sort order the last match is the longest |
| HashNames.LessDecides | src/core/bjrk-edge_string.c:896-920 | the first different character decides, and a dot is before all others; a name is before its extensions |
| HashNames.WildcardMeaning | src/core/bjrk-edge_hash.c:907-939 | ".x" is for x and every name below it, "*.x" for the names below only |
| HashNames.ReversedTwice | src/core/bjrk-edge_hash.c:907-939 | reversing the labels twice is the identity |
| OutputChain.Context.Output | src/core/bjrk-edge_output_chain.c:41-246 | whatever the filter sends and answers, sent followed by unsent bytes and marks are the accepted ones in order; every buffer the filter was called with is one it can do with by the flags of the buffer (a mark only; or in memory if it needs that or files are not sent, not read-only if it needs to write, without a file if files are not sent), and every buffer that was copied is none; what stays in the input waits only because all allowed buffers are busy; at most num buffers are allocated |
| OutputChain.Context.Judge | src/core/bjrk-edge_output_chain.c:249-306 | a buffer goes as it is if and only if the filter can do with it once a buffer in memory has forgotten its file, which it does if files are not sent |
| OutputChain.Context.Step | src/core/bjrk-edge_output_chain.c:107-206 | the first input buffer is dropped if it means nothing, moves on itself and unchanged if the filter can do with it, and is copied otherwise, unless there is no buffer to copy to |
| OutputChain.Context.Filter | src/core/bjrk-edge_output_chain.c:236-240 | the filter is called with the chain that was built, all of whose buffers it can do with |
| OutputChain.Context.CopyBuf | src/core/bjrk-edge_output_chain.c:504-665 | bytes move from an input buffer that the filter cannot do with to the current buffer, none lost, and the marks go with the last fragment; the filter can do with the copy |
| OutputChain.Context.GetBuf | src/core/bjrk-edge_output_chain.c:428-501 | a new empty buffer within the allowance, of the configured size, or of the size of the last part of a chain if that is smaller, or if it is up to a quarter larger and there is one buffer only |
| OutputChain.Context.UpdateChains | src/core/bjrk-edge_buf.c:184-223 | up to the first own buffer that is not fully sent, own buffers become free and empty, the last one first, and foreign ones are dropped; that buffer and all behind it stay busy; no other buffer changes |
| OutputChain.Context.Send | src/core/bjrk-edge_buf.c:271-314 | exactly the given number of bytes goes, from the front on, or all there are; the marks go with them; the chain then starts with an unsent byte |
| OutputChain.Context.Gather | src/core/bjrk-edge_output_chain.c:107-206 | the inner loop ends and keeps the stream |
| OutputChain.Context.Take | src/core/bjrk-edge_output_chain.c:309-375 | new buffers are appended to what waits |
| OutputBufs.CopyPart | src/core/bjrk-edge_output_chain.c:504-665 | a fragment followed by the rest of its source means what the source meant |
| OutputBufs.SendPart | src/core/bjrk-edge_buf.c:271-314 | what is sent followed by what is left is what was there |
| OutputSteps.SentIsNowhere | src/core/bjrk-edge_buf.c:184-223 | a buffer is recycled only when it is fully sent and in no other list |
| OutputSteps.Recycle | src/core/bjrk-edge_buf.c:206-221 | recycling changes nothing that is still to be sent |
| OutputSteps.CopyStep | src/core/bjrk-edge_output_chain.c:183-205 | one copy keeps all lists apart and the stream unchanged |
| OutputSteps.ForgetFile | src/core/bjrk-edge_output_chain.c:249-306 | dropping the file half of a buffer in memory keeps its bytes |
| ConfFile.Reader.ReadToken | src/core/bjrk-edge_conf_file.c:502-817 | whatever the buffer is refilled with when, the code, the arguments, the line and the place where reading goes on are those of the whole file at once if and only if the word or comment fits the buffer; otherwise the code is an error |
| ConfFile.Reader.Parse | src/core/bjrk-edge_conf_file.c:158-330 | reading token after token through the buffer builds the tree of directives and blocks of the file, and fails exactly if a token fails or does not fit, a brace is not matched, or the file ends in a block |
| ConfFile.Reader.Refill | src/core/bjrk-edge_conf_file.c:556-603 | the started word moves to the front, the buffer holds what follows in the file, and the position in the file stays |
| ConfFile.Reader.Word | src/core/bjrk-edge_conf_file.c:763-800 | the copying loop gives the unescaped text of the word |
| ConfSpelling.FileReads | src/core/bjrk-edge_conf_file.c:158-817 | however a configuration is spelled (words with and without quotes, escapes, variables in braces, any blanks and comments), it is read through the buffer as the tree it stands for if and only if no word and no comment is too long; otherwise parsing fails |
| ConfSpelling.SpelledMeans | src/core/bjrk-edge_conf_file.c:158-817 | every tree of directives with names has such a spelling, whatever bytes are in the arguments |
| ConfSpelling.ArgumentsRead | src/core/bjrk-edge_conf_file.c:615-817 | spelled arguments are read as what they stand for up to `;` or `{`, and fit exactly if each does |
| ConfSpelling.PlainWordsRead | src/core/bjrk-edge_conf_file.c:658-817 | words of ordinary characters with one blank between them, and `;` or `{` behind the last, are exactly the arguments |
| ConfSpelling.QuotedReads | src/core/bjrk-edge_conf_file.c:658-751 | a word in single or double quotes is one argument, and something has to stand behind its closing quote |
| ConfSpelling.WordReads | src/core/bjrk-edge_conf_file.c:658-760 | a word and the blank behind it are one argument: without quotes it goes up to the blank, and `{` belongs to it behind `$` only |
| ConfSpelling.UnitsUnescape | src/core/bjrk-edge_conf_file.c:772-797 | a backslash is dropped before quotes and backslashes, stands with t, r and n for a tabulator, CR and LF, and stays before all else |
| ConfSpelling.GapLeads | src/core/bjrk-edge_conf_file.c:613-695 | blanks and comments up to their line feeds are passed over |
| ConfSpelling.ParenthesisLeads | src/core/bjrk-edge_conf_file.c:647-649 | a closing parenthesis right behind a quote begins the next word |
| ConfSpelling.LastCommentReads | src/core/bjrk-edge_conf_file.c:531-625 | a last comment needs no line feed, and fits up to 4096 bytes with its `#` |
| ConfSpelling.CommentExample | src/core/bjrk-edge_conf_file.c:556-603 | a file that is one comment of 4097 bytes has no token, but reading it through the buffer is an error |
| ConfSpelling.Misplaced | src/core/bjrk-edge_conf_file.c:667-690 | `;` and `{` without arguments, and `}` behind arguments, are errors |
| ConfSpelling.Unfinished | src/core/bjrk-edge_conf_file.c:531-549 | the end of the file behind arguments is an error |
| ConfSpelling.UnfinishedWord | src/core/bjrk-edge_conf_file.c:531-549 | so is the end of the file inside a word, with or without quotes |
| ConfSpelling.BadBehindQuote | src/core/bjrk-edge_conf_file.c:632-656 | any character but a blank, `;`, `{` or `)` behind a closing quote is an error |
| ConfSpelling.LinesCount | src/core/bjrk-edge_conf_file.c:613-621 | for every file the line goes up by the number of line feeds that were read |
| ConfSpelling.TreeLines | src/core/bjrk-edge_conf_file.c:158-330 | the same for a whole configuration with its blocks |
| Pool.Pool.constructor | src/core/bjrk-edge_palloc.c:18-46 | a pool of one block, with nothing handed out |
| Pool.Pool.Alloc | src/core/bjrk-edge_palloc.c:122-249 | over every history the region handed out shares no byte with one in use, with a block's header or with the list of large allocations, and lies in its block or is a new large allocation; it is aligned if asked for; nothing else changes |
| Pool.Pool.AllocSmall | src/core/bjrk-edge_palloc.c:147-206 | if a block from the current one on has the room, the first such block serves the request, and only its mark of used memory moves; otherwise a new block at the end of the chain does, and the failures are counted |
| Pool.Pool.CountFailures | src/core/bjrk-edge_palloc.c:202-206 | every block that was tried, but the last of the chain, has failed once more; blocks are tried again exactly from the first on that had failed less than five times |
| Pool.Pool.Free | src/core/bjrk-edge_palloc.c:277-296 | exactly the large allocations can be freed, each alone |
| Pool.Pool.Reset | src/core/bjrk-edge_palloc.c:99-119 | nothing is in use any more, and all blocks are kept |
| PoolRegions.OverrunsIffUnaligned | src/core/bjrk-edge_palloc.c:147-174 | the room computed after aligning wraps around, so that a region beyond the block is handed out, for some used part of the block if and only if the end of the block is not aligned |
| PoolRegions.Grow | src/core/bjrk-edge_array.c:57-68 | the last region of a block may grow into the rest of the block |
| PoolArray.Array.Push | src/core/bjrk-edge_array.c:47-91 | the new element is inside the array's own memory, which has one place more if it grows in place and twice the places if it moves; all earlier elements are kept; everything else in use keeps its place and its contents |
| PoolArray.Array.PushN | src/core/bjrk-edge_array.c:94-141 | the same for any number of elements at once; an array that moves gets twice the larger of its places and the new elements |
| PoolArray.Array.Destroy | src/core/bjrk-edge_array.c:30-44 | elements and header are given back exactly if each is the last thing in the first block; nothing else changes |
| Inet.InetAddr | src/core/bjrk-edge_inet.c:19-57 | the value of four decimal numbers up to 255, where nothing counts as 0, and INADDR_NONE for every other text and for 255.255.255.255 |
| Inet.Inet6Addr | src/core/bjrk-edge_inet.c:64-174 | the text is accepted if and only if it means an address by its pieces between colons, and then the bytes are that address |
| Inet.Inet6Ntop | src/core/bjrk-edge_inet.c:295-369 | a buffer of less than 45 characters gets nothing; otherwise the text is at most 45 characters and is the printed form, with the first longest run of at least two zero groups compressed |
| Inet.FindGap | src/core/bjrk-edge_inet.c:304-331 | the loop finds the first longest run of at least two zero groups |
| Inet.TextRoundTrip | src/core/bjrk-edge_inet.c:64-369 | the printed form is unique, and parsing it gives the address back if and only if it is neither ::255.255.255.255 nor ::ffff:255.255.255.255 |
| Inet.BytesRoundTrip | src/core/bjrk-edge_inet.c:64-369 | the same for the 16 bytes: what is parsed from the text of these bytes are these bytes and no others |
| InetText.ReadsBack | src/core/bjrk-edge_inet.c:295-369 | the exact result of parsing the printed form of any address |
| InetText.GapIsUnique | src/core/bjrk-edge_inet.c:304-331 | there is one such run only |
| Numbers.OneMoreDigit | src/core/bjrk-edge_inet.c:19-174 | each further digit counts, with what is before it ten or sixteen times |
| Numbers.DigitsAreWorth | src/core/bjrk-edge_inet.c:132-152 | digits 0 to 9 and letters a to f of both cases are worth 0 to 15, and nothing else is a digit |
| Sprintf.SprintfNum | src/core/bjrk-edge_string.c:484-569 | at least width characters, padded in front, decimal or hexadecimal with small or capital letters, cut off at the end of the buffer; nothing behind them changes |
| Resolver.Copy | src/core/bjrk-edge_resolver.c:3975-4069 | the first, bounded pass rejects loops, bad labels and ends outside the message; when it accepts, the second, unchecked pass follows the same labels and pointers, ends, stays in the message and fills exactly the bytes that were counted |
| Resolver.CreateNameQuery | src/core/bjrk-edge_resolver.c:3663-3757 | a name is declined exactly if a label is empty or longer than 255; otherwise the query is header, labels with their lengths, end and question |
| Resolver.QueryReadsBack | src/core/bjrk-edge_resolver.c:3663-4069 | the name in a query reads back as its lower-case self if and only if no label is longer than 63 and there are at most 127 |
| Resolver.QueryFields | src/core/bjrk-edge_resolver.c:3663-3757 | read as numbers, a query has its identification, asks for recursion, has one question and no records, and ends with type A and class IN |
| Resolver.LabelExample | src/core/bjrk-edge_resolver.c:3663-4069 | a name of one label with 64 letters is put into a query and does not read back from it |
| ResolverNames.EncodedReads | src/core/bjrk-edge_resolver.c:3975-4069 | labels of 1 to 63 bytes are read in as many steps as there are labels, and one more |
| ResolverNames.PointerReads | src/core/bjrk-edge_resolver.c:3975-4069 | labels and the two bytes 192 + t / 256 and t % 256, for any t below 16384 in the message, are read as these labels and the name at t, in a step for each label and one more |
| ResolverNames.LoopIsRejected | src/core/bjrk-edge_resolver.c:3975-4039 | a pointer to itself takes too many steps, however many are allowed |
| Resolver.PointerExample | src/core/bjrk-edge_resolver.c:3975-4069 | the bytes 0xC0 0x0C lead to the name behind the header |
| Json.Render | src/core/bjrk-edge_json.c:64-83 | rendering fails exactly if the computed length is no size; otherwise the text fits the computed length and a JSON reader gets the tree back from it |
| Json.Length | src/core/bjrk-edge_json.c:86-311 | the length pass computes the room of the tree, or an error exactly if that is no size |
| Json.Encode | src/core/bjrk-edge_json.c:137-317 | the encode pass writes the text of the tree behind what is there, and no byte behind it changes |
| Json.RoomIsEnough | src/core/bjrk-edge_json.c:86-311 | the text of a tree is never longer than its room, and shorter exactly by what numbers of less than 20 bytes and `true` leave |
| Json.EscapeLength | src/core/bjrk-edge_string.c:1910-1938 | the first pass of escaping counts exactly what the second adds |
| Json.EscapeJson | src/core/bjrk-edge_string.c:1940-1986 | the second pass writes the escaped string |
| JsonText.RoundTrip | src/core/bjrk-edge_json.c:64-317 | what is written for a tree is one JSON text that means the tree, whatever bytes are in names and strings |
| JsonText.StringReads | src/core/bjrk-edge_string.c:1904-1986 | an escaped string reads back |
| ProxyProtocol.V2Write | src/core/bjrk-edge_proxy_protocol.c:678-748 | writing fails exactly if the buffer is smaller than the message or than the largest header; otherwise the message is there, with lengths and checksum patched in |
| ProxyProtocol.WriteHeader | src/core/bjrk-edge_proxy_protocol.c:1013-1148 | signature, command, family and addresses, promoted to IPv6 or reduced to IPv4 |
| ProxyProtocol.WriteTlv | src/core/bjrk-edge_proxy_protocol.c:1213-1233 | type, length and value are written, or there is no room |
| ProxyProtocol.WriteSsl | src/core/bjrk-edge_proxy_protocol.c:1236-1285 | the nested values are written first, then type and length in front of them |
| ProxyProtocol.V2Read | src/core/bjrk-edge_proxy_protocol.c:385-543 | of any bytes the reader makes what the protocol says, and a message that is taken ends inside them |
| ProxyMessage.ReadsOneMessage | src/core/bjrk-edge_proxy_protocol.c:385-543 | of any bytes the reader takes the header and as many as its length says, inside of what there is, and its answer does not depend on what follows |
| ProxyMessage.NothingIsLost | src/core/bjrk-edge_proxy_protocol.c:385-543 | for any bytes, addresses, ports and values of an answer, written one after the other, are the message again |
| ProxyMessage.ReadsTcp | src/core/bjrk-edge_proxy_protocol.c:385-543 | any bytes with 0x21 at 12: with 0x11 behind it the addresses and ports are at 16, 20, 24 and 26, with 0x21 at 16, 32, 48 and 50, and with anything else there are none |
| ProxyMessage.TcpBytes | src/core/bjrk-edge_proxy_protocol.c:1013-1148 | the bytes of a written TCP message: signature, 0x21, 0x11 or 0x21, the length with its high byte first, addresses and ports |
| ProxyMessage.CrcBytes | src/core/bjrk-edge_proxy_protocol.c:1302-1339 | a message ends with 3, the length 4 and the checksum, high byte first |
| ProxyMessage.SslBytes | src/core/bjrk-edge_proxy_protocol.c:1236-1285 | the SSL value begins with 0x20, its length, the flags and the result of the verification |
| ProxyMessage.PromotedAddresses | src/core/bjrk-edge_proxy_protocol.c:1013-1148 | next to an IPv6 address an IPv4 address is written behind ::ffff, and the family is IPv6 |
| ProxyMessage.DemotedAddresses | src/core/bjrk-edge_proxy_protocol.c:1013-1148 | two addresses behind ::ffff are written as IPv4 addresses |
| ProxyProtocol.LookupTlv | src/core/bjrk-edge_proxy_protocol.c:633-675 | the first value of a type, none, or broken |
| ProxyMessage.MessageReads | src/core/bjrk-edge_proxy_protocol.c:385-748 | the reader takes exactly the written message off the stream, with the addresses in their family, ports and values, if and only if the length fits its 16-bit field |
| ProxyMessage.LengthExample | src/core/bjrk-edge_proxy_protocol.c:678-748 | a message whose length is 65536 says 0, and the reader takes its header only |
| ProxyMessage.LookupsAnswer | src/core/bjrk-edge_proxy_protocol.c:633-675 | lookups in what was read find the first written value of every type, also inside the SSL value |
| ProxyMessage.ChecksumIsRight | src/core/bjrk-edge_proxy_protocol.c:1302-1339 | the checksum stored is that of the whole message with the checksum zeroed |

## Left out

- Slab.Pool.FreeLocked: for addresses from the end of the last page up to `end` the model stops where the source reads the record behind the last one, because what that memory says is not known.
- Slab.Pool.constructor: constants are those of a 64-bit machine with 4096-byte pages and `min_shift` 3; pointers are indices, and the two low bits of `prev` are a field of their own; the mutex around the locked functions, zeroing, log messages and junk filling are left out. A pool has at least one page.
- Slab.Layout: addresses are below 2^56.
- RBTree.Tree.Delete: of the cleared record of the deleted node it promises the zero key; that its links are cleared as well is stated by the methods that take it out.
- RBTree.Tree.InsertValue: one method for both insert functions, which differ in the comparison; nodes are places in one array.
- Shmtx.RunInv: the variant with file locks, failing semaphore calls, spin and pause counts, and reuse of process numbers are left out; a process dies only while it holds the lock.
- Queue.Memory.Remove: the debug variant that clears the links of the removed node is left out.
- Queue.Memory.Sort: the sentinel of the second half is a record that is added for the call and gone afterwards; the comparison is a function of the nodes.
- Radix.RadixTree.Insert: masks stand for their leading ones, values are not the mark for no value; preallocation, failing allocation and the 128-bit functions, which are the same walk over bytes, are left out.
- OpenFileCache.Cache.Open: the index is a map by name instead of a tree by checksum and name; vnode events, a call without a cache, `test_only`, times, sizes, read-ahead and directio, the 24-bit width of the count, failing allocation and cache teardown are left out; the kernel hands out unused descriptors and non-zero errors.
- HashTable.Hash.Init: the cache line is 64 bytes.
- HashWildcard.WildcardInit: a nested hash is a map of its labels there; `HashLevel.FindIsLookup` shows that finding in packed hashes with tagged values, level by level, gives the same answers, for labels in lower case and aligned pointers. Names that do not sort, or that mean the same, are excluded as in the source.
- HashNames.LessDecides: names hold no capitals, and no character up to the blank, which the source takes the dot for.
- HashNames.WildcardMeaning: `ngx_hash_add_key` with its checks for duplicates and `ngx_hash_find_combined` are left out; only what the keys it makes mean is stated.
- OutputChain.Context.Output: the filter is anything that takes the chain over and sends any number of bytes from its front; aio, threads, directio and the sendfile limit are off, reading a file succeeds, input buffers carry foreign tags, buffers without bytes and marks mean nothing, the `recycled` flag is left out, and after an error the context is not used again.
- ConfFile.Reader.ReadToken: the line that is reported for a word that does not fit is not stated; reading the file succeeds; the dump of the file, messages, and whether the input is a file or a parameter are left out. Directive dispatch and include globbing are not part of this model.
- ConfFile.Reader.Parse: every directive is accepted, and every block is parsed by a call of the function itself, as the block directives do; custom handlers are left out.
- Pool.Pool.Alloc: where the heap puts a block or a large allocation is given by the caller and is apart from everything in use; `ngx_pmemalign`, `ngx_pcalloc`, cleanup handlers, destruction and failing allocation are left out.
- PoolArray.Array.constructor: elements have at least one byte and arrays at least one place; the header is part of `Destroy` only.
- Inet.InetAddr: the result is in host order, where the source swaps bytes and its callers swap them back. URLs and CIDR texts are left out.
- Resolver.CreateNameQuery: the second query for AAAA, which differs in identification and type, and the 16-bit width of the query length are left out, as are timers, networking and the response state machine.
- Json.Render: the function table is a match; names of list elements are not written, so they do not come back. The reader takes JSON without insignificant white space.
- ProxyProtocol.V2Write: what OpenSSL says of a connection is input, and the CRC32c is any function; version 1 of the protocol and the names of values are left out.
- ProxyProtocol.V2Read: addresses stay bytes; their text is that of `Inet`. The signature is compared by the caller.
- Buffer helpers `ngx_chain_add_copy` outside the output chain and `ngx_chain_coalesce_file`, MD5, SHA-1, SipHash and Murmur, regular expressions, sockets, signals and process control are left out.
