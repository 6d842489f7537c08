# A verified model of the HiKV store and the containers under it

HiKV (`bufferevent_single/Hikv`) keeps key-value records in an append log per partition, finds them by a
two-choice hash index, and indexes them in order in a FAST-FAIR B+-tree that backend threads feed from
queues. This project models that store, its tree down to the single word stores of a page, the persistent
copy under the log, and the concurrent containers of the vendored `tbb/` headers, and proves what they
promise. To check all files: `dafny verify dfyconfig.toml`.

| file | models |
|---|---|
| `PageData`, `Page`, `Reader`, `Split` | one tree page: shifting inserts and removals, the scan that runs beside them, the split; store by store |
| `Rows`, `BTree`, `Descent`, `TreeSplit` | the whole tree for one writer: insert, lookup, range scan, shape; lookups while a split is on its way to the root; its split is that of the page |
| `HashTable`, `Plog`, `Hikv`, `Restore`, `Pipeline` | the hash index, the log, a partition, the rebuilding of the tree, the queues between logs and tree |
| `Ntstore` | the overlapping copy with streaming stores and flushes |
| `PriorityQueue`, `HashMap`, `Aggregator`, `Ets`, `LruCache` | the containers |
| `Random`, `Bits` | the generator; powers of two |

How the models are built:

- A page is a class with two slot arrays. Its methods return the trace of the states between their stores, and
  the contracts speak of every state of the trace. The scan in `Reader` makes each of its loads at a time of
  its own choosing, anywhere between the writer's stores.
- The tree is a class over an arena of pages named by index. A ghost field holds, for every level, the row of
  entries of that level; the contracts equate the lowest row, all records in key order, with sorted insertion,
  lookup and filter.
- Containers with locks are classes with sequential methods; where the protocol is the point (`Aggregator`,
  `Ets`, `Pipeline`, `LruCache`), it is a state machine in which one step is one access by one thread, and the
  theorems hold in every state of every run.
- Keys of 64 bytes are integers: the numbers whose digits are the bytes, which memcmp orders alike
  (`Hikv.KeyOrder`). `Plog` and `Hikv` work on the bytes. The two hashes of a key are
  arbitrary non-zero numbers that no other key shares. Flushes, fences and streaming stores move bytes between
  ghost sets. Memory is sequentially consistent.

Where the code does not do what it seems to promise:

- `nvmem_memcpy` with length 0 to an address that is not on a cache line copies one byte
  (`Ntstore.MovesLen` says exactly when that matters, `Ntstore.StrayByte` is a call that overwrites a byte).
- The first record of a partition has offset 0, which the lookup takes for "absent": `Hikv.Partition.Search`
  finds a stored key if and only if the first record has another key; `Hikv.FirstIsHidden` inserts a record and
  does not find it.
- A record that the hash index refuses (`HashTable.FiveKeys` is a run that ends so) stays in the log and reaches
  the tree by its queue, but is lost to the tree that is rebuilt from the hash index (`Restore.RestorePartition`).
- The log does not look at its room; a record goes beyond the partition's end exactly when there was none
  (`Plog.Plog.Append`). The promised share of records always has room (`Plog.ShareFits`).
- `all_queue_empty` can answer true while two records of a partition are not yet in the tree
  (`Pipeline.TwoMissing`); the queues it looks at are those of the backend threads only, and a partition without
  one takes 65537 records and blocks (`Pipeline.Unserved`, `Pipeline.Blocked`, `Pipeline.ReachesBlocked`).
- While an internal page has been cut and its parent not been told, keys from the split key up to the first key in
  the sibling, and no others, are sent one child too far left (`Split.FrameReads`); `btree_search` makes up for it
  by the sibling links (`BTree.BTree.Search`).
- The parent mask of a bucket is computed with a 32-bit shift, which is defined exactly for indices below 2^32
  (`HashMap.ParentIs`); the operations that split buckets ask for a table of that size.
- `enable_segment` lets the new buckets of an empty table begin as split. The table stays sound exactly when the
  buckets below are all split (`HashMap.InitialShape`), which need not be so after all keys were erased
  (`HashMap.InitialGap`); `HashMap.Table.Rehash` says exactly when its result is sound.
- The comment in `enumerable_thread_specific.h` says that each array has half the size of its predecessor. That
  holds if and only if the thread that installs the larger one has a number that fits in the smaller one
  (`Ets.DoublesExactly`); in `Ets.Jumps` an array of 16 slots is put above one of 4.
- A cache of history length 0 asks an empty list for its last key as soon as a last use ends, and a cache with a
  history never does (`LruCache.Cache.SignalEndOfUsage`, `LruCache.NoHistory`).
- A page hides a key exactly when its pointer equals its left neighbour's (`Page.EqualPointersHide`,
  `Page.HiddenEntry`), so inserts ask for pointers that differ; log addresses always do.

## Model

| member | source | states |
|---|---|---|
| Page.InsertAtomic | bufferevent_single/Hikv/obj/btree.h:606-699 | After any number of stores of insert_key the visible slots of the page are exactly the old entries, or exactly the old entries with the new one in its place, decided by a single store; a NULL ends them, right behind or one hidden slot further, and none comes earlier; they are in key order if the old ones were and the key is new |
| Page.Page.InsertKey | bufferevent_single/Hikv/obj/btree.h:606-699 | The loop's stores are the ones InsertAtomic speaks of, one trace state per store; afterwards the page holds the sorted insertion, NULL-terminated, with the count, last_index at the last entry of the old count, and an even counter, one step on in 8 bits if it was odd and the same if not |
| Page.Page.InsertSlots | bufferevent_single/Hikv/obj/btree.h:614-692 | The shifting loop visits every state of the insertion in order and leaves the last one |
| Page.Page.RemoveKey | bufferevent_single/Hikv/obj/btree.h:250-291 | The key's entry disappears with the first store, and every later state of the trace reads as the entries without it, in key order, with a NULL at their end and none earlier; it fails exactly when the key is absent, and then changes no slot; the counter ends odd, one step on if it was even |
| Page.Page.RemoveSlots | bufferevent_single/Hikv/obj/btree.h:256-284 | The same for the loop alone, with the number of its stores |
| Page.Page.Count | bufferevent_single/Hikv/obj/btree.h:219-247 | From any hint that is not too large, in either direction, the count is the number of entries |
| Page.Page.SearchLeafSlots | bufferevent_single/Hikv/obj/btree.h:962-1042 | On any slots in key order, even where neighbours have the same pointer, the leaf scan in the direction the counter asks for returns the pointer of the first visible slot with the key, NULL if there is none |
| Page.Page.SearchInternalSlots | bufferevent_single/Hikv/obj/btree.h:1044-1117 | On such slots the internal scan, forward or backward, returns the pointer left of the first visible slot with a larger key |
| Page.LeafAnswers | bufferevent_single/Hikv/obj/btree.h:962-1042 | On sorted entries a leaf scan returns the pointer of the key if its slot is visible, and NULL otherwise and for keys that are not there |
| Page.InternalAnswers | bufferevent_single/Hikv/obj/btree.h:1044-1117 | An internal scan returns the pointer of the last key that is not larger, or the leftmost one |
| Page.FromTheRight | bufferevent_single/Hikv/obj/btree.h:1083-1105 | Read from the right, an internal page sends a key to the last visible slot whose key is not larger: the slots behind it that are not visible repeat its pointer, so both directions agree |
| Page.EqualPointersHide | bufferevent_single/Hikv/obj/btree.h:975-988 | In any sorted entries a key is found if and only if its pointer differs from its left neighbour's; otherwise the answer is NULL |
| Page.HiddenEntry | bufferevent_single/Hikv/obj/btree.h:975-988 | Inserting a second key with the pointer of the first makes such a page |
| Reader.Scan | bufferevent_single/Hikv/obj/btree.h:962-1042 | A forward leaf scan that runs while one insert_key is going on, on a page of any length, never misses a key that was there and never returns another key's pointer; it sees the new key if it began after the publishing store |
| Reader.ReadSlot | bufferevent_single/Hikv/obj/btree.h:972-997 | Reading one slot in four loads at any four moments: it accepts only the sought key's own pointer, or passes on with nothing missed |
| Reader.Accepted | bufferevent_single/Hikv/obj/btree.h:984-997 | Whatever store comes between the loads, the double check of key and neighbouring pointer lets only the key's pointer through |
| Reader.Rejected | bufferevent_single/Hikv/obj/btree.h:984-997 | A rejected slot was not the last place where an old key could be seen: it still lies ahead |
| Split.SplitPage | bufferevent_single/Hikv/obj/btree.h:752-842 | From the first to the last store of a split a search that starts at the old page and follows the link reads the old entries, or the new ones, but for the stranded keys of a cut internal page; at the end both pages hold their halves, with the new key in the proper one, last_index of each is that of its last entry, and the old page's counter is even and different: two steps on in 8 bits if it was even, one if it was odd |
| Split.SplitAndCount | bufferevent_single/Hikv/obj/btree.h:219-247 | After a split count, starting from last_index, finds on the old page half of the entries and one more if the new key is there, and on both together all of them, less the one that an internal page turns into a leftmost pointer; the counter clause spelled out |
| Split.FrameReads | bufferevent_single/Hikv/obj/btree.cc:97-105 | In every such state a leaf search answers every key as one list of entries does; an internal search does if and only if the page is not cut or the key lies outside the stretch from the split key to the sibling's first key, and inside it ends exactly one child to the left |
| Split.RightFrame | bufferevent_single/Hikv/obj/btree.h:814-820 | Every state of the insertion into the new sibling is such a state |
| Split.LeftFrame | bufferevent_single/Hikv/obj/btree.h:806-813 | Every state of the insertion into the old page is such a state |
| Split.BuildSibling | bufferevent_single/Hikv/obj/btree.h:752-782 | The new page holds the upper half of the entries; an internal one takes the middle pointer as its leftmost |
| Split.CutPage | bufferevent_single/Hikv/obj/btree.h:752-804 | Linking the sibling first and cutting slot m afterwards never loses a key of a leaf, and strands exactly the keys named in FrameReads of an internal page; m is half the count, last_index is m - 1, and the counter is even and different, by two or one modulo 256 |
| Split.CutFirst | bufferevent_single/Hikv/obj/btree.cc:97-105 | A leaf cut in two answers every key as the whole |
| Split.CutRoute | bufferevent_single/Hikv/obj/btree.h:1044-1117 | An internal page cut in two routes every key as the whole |
| Split.LeafScanIs | bufferevent_single/Hikv/obj/btree.h:962-1042 | A scan of raw slots, in whatever condition, answers from the visible entries |
| Split.InternalScanIs | bufferevent_single/Hikv/obj/btree.h:1044-1117 | The same for internal pages |
| BTree.BTree.Insert | bufferevent_single/Hikv/obj/btree.cc:116-135 | Inserting a fresh key keeps the shape of the tree and makes its records the sorted insertion of the key |
| BTree.BTree.Store | bufferevent_single/Hikv/obj/btree.h:703-842 | A key that is missing at one level is stored there, in the page that covers it or one right of it, and every split is told to the level above until the tree is complete |
| BTree.BTree.StoreFull | bufferevent_single/Hikv/obj/btree.h:752-842 | The overflow branch: the two halves, then the parent or a new root |
| BTree.BTree.NewRoot | bufferevent_single/Hikv/obj/btree.cc:15-48 | From a split root with nothing above it and its sibling, the new root makes a complete valid tree with the records unchanged |
| BTree.BTree.InsertInternal | bufferevent_single/Hikv/obj/btree.cc:137-155 | The descent to the given level finds the page where the separator is missing |
| BTree.BTree.Search | bufferevent_single/Hikv/obj/btree.cc:88-114 | At any moment, while new pages on any level still lack a parent entry or a split root its new root, descent and sibling links return the pointer stored with the key, NULL if there is none |
| BTree.BTree.WaitingCanSearch | bufferevent_single/Hikv/obj/btree.h:815-843 | A split whose parent has not been told, on any level, leaves a tree that Search accepts |
| BTree.BTree.HalvedCanSearch | bufferevent_single/Hikv/obj/btree.h:820-831 | So does a split root before the new root is set |
| Descent.CutSearchable | bufferevent_single/Hikv/obj/btree.h:783-818 | So does the moment when the sibling is linked, the old page cut, and the new key in neither |
| Descent.Turn | bufferevent_single/Hikv/obj/btree.cc:91-105 | From a page at or left of the one that covers the key, one turn of the descent leads to the next page of the row, still not past it, or to a page at or left of the covering one below |
| BTree.BTree.SearchRange | bufferevent_single/Hikv/obj/btree.cc:242-263 | A range scan writes the pointers of the keys strictly between the bounds, in key order, each once |
| BTree.BTree.ScanLeaves | bufferevent_single/Hikv/obj/btree.h:847-952 | The scan of the leaf chain is that filter, and the last leaf it reads is the first one with a key above the lower bound that is not below the upper one, or the last of all |
| BTree.BTree.PageShape | bufferevent_single/Hikv/obj/btree.h:703-842 | In every valid tree pages are linked in key order, their own keys lie between the neighbouring separators, counters are even, and every page but the root has at least its minimal fill and at most cardinality - 1 entries |
| BTree.BTree.SubtreeRange | bufferevent_single/Hikv/obj/btree.h:703-842 | All records under a page lie between its key in the row and its right neighbour's |
| BTree.BTree.Separates | bufferevent_single/Hikv/obj/btree.h:703-842 | All records under an internal page's entry are not below its key and below the next entry's |
| BTree.BTree.HeightBound | bufferevent_single/Hikv/obj/btree.h:703-842 | A tree of height h >= 2 has at least 2f(f+1)^(h-2) records, f being the least fill (2 for the capacity of the source) |
| BTree.BTree.FivePerPage | bufferevent_single/Hikv/obj/btree.h:752-842 | With the capacity of the source, 5, every page has at most 5 entries and every page but the root at least 2, two levels have at least 4 records and eight levels at least 2916 |
| TreeSplit.TreeSplits | bufferevent_single/Hikv/obj/btree.h:752-820 | The split of the tree model is the split of Split.SplitPage: the same halves, middle key, leftmost pointers, links and counters, and no other page changes |
| BTree.LookupInserted | bufferevent_single/Hikv/obj/btree.cc:116-135 | Sorted insertion changes the answer for the new key only |
| BTree.InsertRun | bufferevent_single/Hikv/obj/btree.cc:116-135 | Any run of btree_insert with distinct keys, from an empty tree, leaves a valid tree with the sorted records of the run |
| BTree.FindAfterRun | bufferevent_single/Hikv/obj/btree.cc:88-135 | After any such run btree_search returns, for each key, the pointer stored with it, and NULL for every other key |
| BTree.ScanAfterRun | bufferevent_single/Hikv/obj/btree.cc:242-263 | After any such run btree_search_range writes exactly the pointers of the keys strictly between the bounds, in ascending key order, each once |
| HashTable.Table.Insert | bufferevent_single/Hikv/obj/hashtable.h:57-108 | insert fails exactly when both candidate buckets are full, and then changes nothing; otherwise the key goes to the first free slot, and in each bucket the used slots stay a prefix |
| HashTable.Table.Search | bufferevent_single/Hikv/obj/hashtable.h:110-132 | search returns the value of the key's earliest successful insert, and 0 if there was none |
| HashTable.SeatIs | bufferevent_single/Hikv/obj/hashtable.h:75-105 | The order of the candidate slots: slot i of the first bucket, then slot i of the second, for i from 0 to 3 |
| HashTable.PutSound | bufferevent_single/Hikv/obj/hashtable.h:75-105 | Taking the first free slot keeps all older entries where they are found, and keeps the used slots a prefix |
| HashTable.Hit | bufferevent_single/Hikv/obj/hashtable.h:118-130 | A matching signature in the right bucket belongs to an insert of this key, with its value |
| HashTable.FoundFirst | bufferevent_single/Hikv/obj/hashtable.h:118-130 | The first match in the order of the loop is the earliest insert |
| HashTable.FiveKeys | bufferevent_single/Hikv/obj/hashtable.h:57-108 | A run of inserts of new keys one of which is refused |
| Hikv.Partition.Insert | bufferevent_single/Hikv/obj/hikv.h:243-260 | The key's and the value's bytes join the log in any case, the answer tells whether the hash index took the record, the record's address is the task for the tree, and index, log and memory keep agreeing |
| Hikv.Partition.Search | bufferevent_single/Hikv/obj/hikv.h:262-281 | A lookup returns the value bytes, in memory, of the key's earliest stored record; it finds a stored key if and only if the first record of the partition has another key |
| Hikv.FoundIsEarliest | bufferevent_single/Hikv/obj/hikv.h:262-281 | What the index answers is the offset of the earliest stored record of the key |
| Hikv.FirstIsHidden | bufferevent_single/Hikv/obj/hikv.h:262-281 | A call sequence: a record is inserted, stored, and not found |
| Hikv.KeyOrder | bufferevent_single/Hikv/obj/btree.h:43-96 | memcmp orders keys as the numbers whose digits they are, and different keys have different numbers |
| Plog.Plog.Append | bufferevent_single/Hikv/obj/plog.h:57-70 | The record's 320 bytes are the given key and value, at a multiple of 16; every older record and every byte outside stays as it was; the record lies within the partition exactly when there was room |
| Plog.Plog.constructor | bufferevent_single/Hikv/obj/plog.h:22-55 | The partition begins at the first multiple of 16 of its memory, empty, ends 480 bytes per record of its share after the raw address, and has room for its share of the records |
| Plog.ShareFits | bufferevent_single/Hikv/obj/plog.h:24-38 | Whatever the alignment cost, the partition's share of the records fits |
| Plog.SpaceIs | bufferevent_single/Hikv/obj/plog.h:24 | The space of a partition is exactly 480 bytes, one and a half records, for every record of its share |
| Plog.Appended | bufferevent_single/Hikv/obj/plog.h:57-70 | One more record written behind the others leaves all of them readable |
| Restore.RestorePartition | bufferevent_single/Hikv/obj/hikv.h:116-138 | Going through all slots puts exactly the stored records of the partition into the tree, and keeps what was there |
| Restore.AllSlots | bufferevent_single/Hikv/obj/hikv.h:121-137 | The used slots of a partition are exactly its stored records |
| Pipeline.PrefixIndexed | bufferevent_single/Hikv/obj/threadpool.cc:42-92 | In every reachable state the tree has a prefix of each log in the log's order; the queue, of at most 65536 entries, holds the rest in order but for one record in the backend's hands and one in the server's |
| Pipeline.TestPasses | bufferevent_single/Hikv/obj/threadpool.cc:80-92 | In every reachable state a server that holds a record gets past the test if and only if fewer than 65536 tasks wait in its queue, stays as it is if and only if 65536 wait, and changes nothing else |
| Pipeline.StepInv | bufferevent_single/Hikv/obj/threadpool.cc:42-92 | Every step of every thread keeps that |
| Pipeline.ScanSees | bufferevent_single/Hikv/obj/hikv.h:305-321 | At any moment the pointers of the inserted records inside a range are those of the indexed prefixes |
| Pipeline.DrainedScan | bufferevent_single/Hikv/obj/hikv.h:305-321 | Once drained, inserting the logs one after the other gives the same tree |
| Pipeline.ScanNow | bufferevent_single/Hikv/obj/hikv.h:305-321 | btree_search_range on the tree of any reachable state with distinct keys writes exactly the records of the indexed prefixes strictly inside the range, in ascending order, each once |
| Pipeline.ScanDrained | bufferevent_single/Hikv/obj/hikv.h:305-321 | On the tree of a drained state it writes the sorted filter of the logs |
| Pipeline.PopFinds | bufferevent_single/Hikv/obj/threadpool.cc:44-47 | A backend thread that saw its queue non-empty always gets a task |
| Pipeline.EmptyIsNearly | bufferevent_single/Hikv/obj/threadpool.cc:94-104 | With all queues empty at most two records of a partition are missing, and none exactly when neither thread holds one |
| Pipeline.TwoMissing | bufferevent_single/Hikv/obj/threadpool.cc:94-104 | A run after which the queues are empty and two records are missing |
| Pipeline.Unserved | bufferevent_single/Hikv/obj/threadpool.cc:67-92 | A partition without a backend thread has nothing in the tree and at most 65537 records |
| Pipeline.Blocked | bufferevent_single/Hikv/obj/threadpool.cc:80-92 | Its server, once at the full queue, stays there in every run |
| Pipeline.ReachesBlocked | bufferevent_single/Hikv/obj/threadpool.cc:80-92 | A run that gets there, after 65537 records, with 65536 in the queue, while all_queue_empty answers true |
| Pipeline.Drains | bufferevent_single/Hikv/obj/threadpool.cc:42-65 | With a backend thread for every partition there is always a run, without further inserts, that drains everything |
| Ntstore.Memory.NvmemMemcpy | bufferevent_single/Hikv/ntstore/ntstore.c:415-429 | For source and destination in any position, overlapping or not, the destination becomes what the source was, no other byte changes, and at the last fence every byte was streamed or flushed after its last ordinary store |
| Ntstore.Memory.Forward | bufferevent_single/Hikv/ntstore/ntstore.c:260-325 | The upward copy: head, blocks of 256, 128 and 64 bytes, tail; every streaming store aligned to its width |
| Ntstore.Memory.Backward | bufferevent_single/Hikv/ntstore/ntstore.c:327-413 | The same downward |
| Ntstore.Memory.SmallNoFlush | bufferevent_single/Hikv/ntstore/ntstore.c:46-147 | Copies of up to 64 bytes in overlapping pieces, all loaded before the first is stored |
| Ntstore.Memory.FlushOpt | bufferevent_single/Hikv/ntstore/ntstore.c:31-44 | Every cache line that meets the range is flushed |
| Ntstore.NextPiece | bufferevent_single/Hikv/ntstore/ntstore.c:46-147 | A piece that overlaps what was already stored completes the copy, since it was loaded before |
| Ntstore.Direction | bufferevent_single/Hikv/ntstore/ntstore.c:415-429 | The unsigned difference of the addresses tells exactly when going up is safe |
| Ntstore.CopyUp | bufferevent_single/Hikv/ntstore/ntstore.c:260-325 | Going up, copying k and then n bytes is copying k + n |
| Ntstore.CopyDown | bufferevent_single/Hikv/ntstore/ntstore.c:327-413 | The same going down |
| Ntstore.MovesLen | bufferevent_single/Hikv/ntstore/ntstore.c:46-147 | Memory ends up as after a copy of exactly len bytes if and only if len is positive, or the destination begins a cache line, or the byte copied besides was the same |
| Ntstore.StrayByte | bufferevent_single/Hikv/ntstore/ntstore.c:46-147 | A call with length 0 that overwrites a byte |
| PriorityQueue.Queue.HandleOperations | bufferevent_single/Hikv/tbb/concurrent_priority_queue.h:354-435 | The operations of a batch, each exactly once and with the results given, have an order that a sequential priority queue allows: each successful pop takes a maximum, each failed one finds it empty; afterwards all of the data is one heap with the elements that order leaves |
| PriorityQueue.Run | bufferevent_single/Hikv/tbb/concurrent_priority_queue.h:354-435 | Any run of batches from an empty queue is one such history |
| PriorityQueue.Queue.FirstPass | bufferevent_single/Hikv/tbb/concurrent_priority_queue.h:354-401 | The first pass: every operation is in the history, waits, or is postponed, and elements, results and postponed pops are exactly those that FirstAnswers speaks of |
| PriorityQueue.FirstAnswers | bufferevent_single/Hikv/tbb/concurrent_priority_queue.h:360-401 | The first pass answers every push, and a pop if and only if it does not postpone it, and then with an element that the same batch pushed earlier and that beats the top of the old heap; postponed pops are kept latest first, and the old heap is untouched |
| PriorityQueue.Queue.SecondTurn | bufferevent_single/Hikv/tbb/concurrent_priority_queue.h:403-429 | A postponed pop fails exactly on an empty queue, takes the last element if that waits and beats the top, and else the top, whose place the last element fills |
| PriorityQueue.MaxPriority | bufferevent_single/Hikv/tbb/concurrent_priority_queue.h:403-429 | A maximum is an element of the queue whose priority none exceeds |
| PriorityQueue.Queue.SecondPass | bufferevent_single/Hikv/tbb/concurrent_priority_queue.h:403-429 | The postponed pops, and the order in which waiting pushes join the history |
| PriorityQueue.Queue.Heapify | bufferevent_single/Hikv/tbb/concurrent_priority_queue.h:438-452 | The data become one heap of the same elements |
| PriorityQueue.Queue.Reheap | bufferevent_single/Hikv/tbb/concurrent_priority_queue.h:456-473 | The top is replaced by the last element and the heap restored, within and beyond the mark |
| PriorityQueue.Chain | bufferevent_single/Hikv/tbb/concurrent_priority_queue.h:354-435 | Histories of successive batches form one history |
| PriorityQueue.Conserved | bufferevent_single/Hikv/tbb/concurrent_priority_queue.h:354-435 | In a history what is left and what was popped is what there was and what was pushed |
| PriorityQueue.TopIsMax | bufferevent_single/Hikv/tbb/concurrent_priority_queue.h:403-429 | The first element of the heap is a maximum of it |
| PriorityQueue.ReflectPopLast | bufferevent_single/Hikv/tbb/concurrent_priority_queue.h:372-386 | A pop that takes the last waiting element although larger ones wait is a maximum at a moment when those are not pushed yet |
| PriorityQueue.ReflectPopTop | bufferevent_single/Hikv/tbb/concurrent_priority_queue.h:403-429 | A pop that takes the top is a maximum, and the element that fills its place joins the history next |
| PriorityQueue.FlushAll | bufferevent_single/Hikv/tbb/concurrent_priority_queue.h:431-435 | The pushes that still wait at the end can be ordered last |
| HashMap.Table.RehashBucket | bufferevent_single/Hikv/tbb/concurrent_hash_map.h:651-681 | For indices below 2^32 the recursion ends, every node is again in the first finished bucket of its way, split buckets stay closed under clearing the top bit, no node is lost and nothing above the bucket is touched |
| HashMap.ParentIs | bufferevent_single/Hikv/tbb/concurrent_hash_map.h:655 | The 32-bit parent mask gives the index without its top bit if and only if the index is below 2^32; beyond, the shift is undefined |
| HashMap.Refine | bufferevent_single/Hikv/tbb/concurrent_hash_map.h:651-681 | Finishing a bucket takes to it exactly the hashes whose low bits are its index, and no other |
| HashMap.SplitPlaced | bufferevent_single/Hikv/tbb/concurrent_hash_map.h:661-680 | The loop's test on the low bits moves the right nodes |
| HashMap.Table.Divide | bufferevent_single/Hikv/tbb/concurrent_hash_map.h:661-680 | The loop over the parent's list |
| HashMap.Table.Acquire | bufferevent_single/Hikv/tbb/concurrent_hash_map.h:633-643 | An acquired bucket is finished, with the same contents in the table |
| HashMap.Table.CheckCollision | bufferevent_single/Hikv/tbb/concurrent_hash_map.h:237-256 | The bit search ends; if it sees no race, the bucket chosen with the old mask still holds every node of that hash, and if it does, the nodes are in a higher bucket |
| HashMap.Table.CheckMaskRace | bufferevent_single/Hikv/tbb/concurrent_hash_map.h:228-236 | The same against the current mask, however far the table has grown since |
| HashMap.NextIs | bufferevent_single/Hikv/tbb/concurrent_hash_map.h:237-256 | The next bucket up decides: unfinished, the old one is still the home; finished, the home is higher |
| HashMap.Table.Find | bufferevent_single/Hikv/tbb/concurrent_hash_map.h:1112-1188 | From any outdated mask find returns a node with the key if and only if there is one |
| HashMap.Table.Insert | bufferevent_single/Hikv/tbb/concurrent_hash_map.h:1112-1188 | insert adds the node exactly when the key is absent, and grows the table exactly when it is as full as its mask: to mask 255 if that was smaller, else to twice the buckets |
| HashMap.Table.FirstInsert | bufferevent_single/Hikv/tbb/concurrent_hash_map.h:182-272 | The first insert into a new table leaves it with that one node and 256 buckets |
| HashMap.Table.Erase | bufferevent_single/Hikv/tbb/concurrent_hash_map.h:1240-1274 | erase takes out the one node with the key, and fails exactly when there is none |
| HashMap.Table.Locate | bufferevent_single/Hikv/tbb/concurrent_hash_map.h:1119-1156 | The retry loop ends and answers for the whole table |
| HashMap.Table.EnableSegment | bufferevent_single/Hikv/tbb/concurrent_hash_map.h:182-206 | Growing adds unsplit buckets only, loses no node, and makes the mask 255 if it was smaller and 2 * mask + 1 otherwise |
| HashMap.NextMaskValue | bufferevent_single/Hikv/tbb/concurrent_hash_map.h:182-206 | From a full mask below 255 the segments up to 7 come at once and the mask becomes 255, as from mask 1; from 255 on one segment doubles the buckets |
| HashMap.HomeGrown | bufferevent_single/Hikv/tbb/concurrent_hash_map.h:182-206 | While the new buckets are unsplit, more bits of the hash lead to the bucket that fewer bits led to |
| HashMap.SlotOf | bufferevent_single/Hikv/tbb/concurrent_hash_map.h:137-149 | Every index lies in the segment computed for it |
| HashMap.IndexOf | bufferevent_single/Hikv/tbb/concurrent_hash_map.h:137-149 | Every offset of a segment is an index of that segment, so the two are a bijection |
| HashMap.SegmentsBelow | bufferevent_single/Hikv/tbb/concurrent_hash_map.h:137-149 | A full mask covers exactly the segments up to its own |
| HashMap.Table.MarkLevels | bufferevent_single/Hikv/tbb/concurrent_hash_map.h:217-226 | The recursion over the segments marks exactly the unsplit buckets below one, and ends |
| HashMap.MarkStep | bufferevent_single/Hikv/tbb/concurrent_hash_map.h:217-226 | One turn of its loop adds one child and all below it |
| HashMap.HomeMarked | bufferevent_single/Hikv/tbb/concurrent_hash_map.h:1304-1313 | Marking all below a bucket gives each of them to itself and leaves every other home alone |
| HashMap.Table.SplitAllBuckets | bufferevent_single/Hikv/tbb/concurrent_hash_map.h:1288-1315 | Scanning the last segment leaves every node of a sound table in bucket hash & mask, with none lost, and does nothing where that segment is split |
| HashMap.Table.Rehash | bufferevent_single/Hikv/tbb/concurrent_hash_map.h:1286-1315 | rehash makes room for the asked size, growing no further than to 255 or to the first mask that suffices, and loses no node; the table is sound afterwards if and only if it had nodes, or did not have to grow, or was all split, and then every node is in bucket hash & mask |
| HashMap.InitialShape | bufferevent_single/Hikv/tbb/concurrent_hash_map.h:182-206 | Buckets that begin as split are sound if and only if all buckets below are split |
| HashMap.InitialGap | bufferevent_single/Hikv/tbb/concurrent_hash_map.h:182-206 | A table for which they are not |
| Aggregator.RunSafe | bufferevent_single/Hikv/tbb/aggregator.h:108-177 | In every run of any number of threads one thread at a time handles operations and one waits to, the plain store of the flag never hides another, no operation is run twice or missing when its caller returns, and none is touched after it is finished, even if its address is used again |
| Aggregator.StepInv | bufferevent_single/Hikv/tbb/aggregator.h:73-177 | Every step of every thread keeps the invariant |
| Aggregator.Moves | bufferevent_single/Hikv/tbb/aggregator.h:73-177 | A thread that does not spin can take its step |
| Aggregator.SomebodyMoves | bufferevent_single/Hikv/tbb/aggregator.h:108-177 | While any thread is inside, some thread does not spin: there is no deadlock |
| Aggregator.Finishes | bufferevent_single/Hikv/tbb/aggregator.h:108-177 | From every reachable state, without any new operation, there is a run after which a given thread that was inside is back and its operation has been run |
| Aggregator.Submits | bufferevent_single/Hikv/tbb/aggregator.h:108-120 | A thread outside can always begin with an operation at any address not in use; its number has never been run |
| Aggregator.Executes | bufferevent_single/Hikv/tbb/aggregator.h:103-177 | After every run a thread outside can execute an operation: there is a run at whose end it is back, and an operation that had not been run before is run and returned |
| Ets.RunSafe | bufferevent_single/Hikv/tbb/enumerable_thread_specific.h:171-241 | In every run of any number of threads no array is more than half full, every probe stays within half a turn, each thread creates one local and is answered with no other, and no two threads share one |
| Ets.RunReturns | bufferevent_single/Hikv/tbb/enumerable_thread_specific.h:171-241 | In every run each return of a thread appends exactly one answer, its own local, marked as existing if and only if it was answered before, and leaves its slot with that pointer in an array; no other step answers anything |
| Ets.FinishesAlone | bufferevent_single/Hikv/tbb/enumerable_thread_specific.h:171-241 | From every reachable state a thread inside that runs alone comes out with one more answer, and with its slot in the top array if it was not already inserting into an older one |
| Ets.CallAlone | bufferevent_single/Hikv/tbb/enumerable_thread_specific.h:171-241 | A whole call that is not interfered with, after any run, gives exactly one answer and leaves the thread's key and local in the top array |
| Ets.StepInv | bufferevent_single/Hikv/tbb/enumerable_thread_specific.h:171-241 | Every step of every thread keeps the invariant |
| Ets.Moves | bufferevent_single/Hikv/tbb/enumerable_thread_specific.h:171-241 | Every thread always has a step: no access is out of bounds |
| Ets.AtMostHalf | bufferevent_single/Hikv/tbb/enumerable_thread_specific.h:195-222 | Taken slots belong to different threads whose numbers fit in half the array |
| Ets.ProbeEnds | bufferevent_single/Hikv/tbb/enumerable_thread_specific.h:180-192 | A cyclic probe meets an empty slot within half a turn |
| Ets.GrowsEnough | bufferevent_single/Hikv/tbb/enumerable_thread_specific.h:202-210 | The size loop ends with at least twice the count, within the word |
| Ets.DoublesExactly | bufferevent_single/Hikv/tbb/enumerable_thread_specific.h:205-222 | In every run a new array is twice as large as the one below it if and only if the installing thread's number fits in that one |
| Ets.Jumps | bufferevent_single/Hikv/tbb/enumerable_thread_specific.h:205-222 | A run of five threads that puts an array of 16 slots above one of 4 |
| Ets.StartInRange | bufferevent_single/Hikv/tbb/enumerable_thread_specific.h:78-80 | The top bits of the hash are an index of the array |
| Ets.StartIsTop | bufferevent_single/Hikv/tbb/enumerable_thread_specific.h:78-80 | They are the quotient of the hash by the size of its lower part |
| Ets.PosNext | bufferevent_single/Hikv/tbb/enumerable_thread_specific.h:180-192 | A probe begins there and goes on slot by slot, from the last one to slot 0 |
| LruCache.Cache.Retrieve | bufferevent_single/Hikv/tbb/concurrent_lru_cache.h:240-257 | The map and the list stay what the recency list says; a value is asked for exactly when the key is not resident; a listed key leaves the list |
| LruCache.Cache.SignalEndOfUsage | bufferevent_single/Hikv/tbb/concurrent_lru_cache.h:259-280 | The call goes through if and only if the history has a positive length or other uses remain; then the last user of a key puts it at the front, and what no longer fits leaves from the back |
| LruCache.ReleasedGood | bufferevent_single/Hikv/tbb/concurrent_lru_cache.h:259-280 | A release evicts nothing, or the last of a full list of idle keys, and that exactly when the last use ends |
| LruCache.RunSafe | bufferevent_single/Hikv/tbb/concurrent_lru_cache.h:89-99 | In every run reference counts are the live uses, a key is listed exactly when it is resident and unused, the list is never longer than the history, and whoever has a handle finds the value there, computed once in this residency |
| LruCache.WaitsForOne | bufferevent_single/Hikv/tbb/concurrent_lru_cache.h:92-98 | Whoever waits for a value waits for exactly one other user, who can go on |
| LruCache.SeeEnds | bufferevent_single/Hikv/tbb/concurrent_lru_cache.h:92-98 | A look of a waiting user gives it its handle if and only if the value is there, and changes nothing else |
| LruCache.Served | bufferevent_single/Hikv/tbb/concurrent_lru_cache.h:89-99 | From every reachable state a user that asked for a key, computing or waiting, comes to its handle in at most two steps, its own and that of the one it waits for, with the value of the function |
| LruCache.Obtains | bufferevent_single/Hikv/tbb/concurrent_lru_cache.h:89-99 | From every reachable state a user outside can come by a handle for any key, resident or not, and counts as one more use of it |
| LruCache.FoundAgain | bufferevent_single/Hikv/tbb/concurrent_lru_cache.h:89-99 | The end of a use counts off exactly one use and keeps the key; whoever asks for it next gets the value that is there, without another call of the function |
| LruCache.EvictsOldest | bufferevent_single/Hikv/tbb/concurrent_lru_cache.h:265-276 | Who is evicted is in no use and was released before every other idle key, from a full list |
| LruCache.Cache.Evict | bufferevent_single/Hikv/tbb/concurrent_lru_cache.h:267-275 | The loop evicts from the back, nothing that is in use, and fails exactly when it is asked for more than there is |
| LruCache.NoHistory | bufferevent_single/Hikv/tbb/concurrent_lru_cache.h:259-280 | With history length 0 the first end of a use fails |
| Random.Generator.constructor | bufferevent_single/Hikv/lib/random.h:19-26 | Every 32-bit seed becomes a number of [1, 2^31-2] |
| Random.Generator.Next | bufferevent_single/Hikv/lib/random.h:28-50 | Two shifts and one subtraction compute seed * 16807 mod 2^31-1, and the seed stays in range |
| Random.StepIsPermutation | bufferevent_single/Hikv/lib/random.h:28-50 | A call is a permutation of the range: 1407677000 undoes it on either side |
| Random.FullCycle | bufferevent_single/Hikv/lib/random.h:35-37 | From any seed every number of [1, 2^31-2] is reached |
| Random.ExactPeriod | bufferevent_single/Hikv/lib/random.h:35-37 | The seed comes back after exactly 2^31-2 calls, not before |
| Random.OrderIsN | bufferevent_single/Hikv/lib/random.h:35-37 | No smaller positive power of 16807 is 1 modulo 2^31-1 |

## Left out

- Tree pages as heap objects: `Rows` and `BTree` hold pages as values in an arena named by index, and a page there is its list of entries; `Page`, `Reader` and `Split` have the slots. Aliasing between pages is not modelled.
- BTree.BTree.Insert: one writer at a time; the page locks, `is_deleted` and the counters `num_kv` and `page_count` (set up only in part by the source) are not modelled.
- Reader.Scan: one forward leaf scan beside one insertion; scans beside a removal, backward scans and the retry on a changed counter are not modelled.
- Split.FrameReads: the older right neighbour beyond the new sibling is not part of the searched pages; `BTree.BTree.Search` has all of them.
- BTree.BTree.ScanLeaves: range scans start in complete trees; lookups in all states of a split.
- `remove_rebalancing` and `btree_delete_internal`: nothing calls them; tree-level results are about runs of inserts of distinct keys.
- Hikv.Partition.Search: CityHash is two arbitrary hashes without zero values and without collisions among the keys used.
- Plog.Plog.Append: `pm_alloc` is a region of memory, which has to reach as far as the log is written.
- Pipeline.DrainedScan: an insert into the tree is one step, `concurrent_queue` is a FIFO, and keys are distinct.
- Restore.RestorePartition: one partition after the other; the source starts a thread for each.
- `save` and `restore` of the metadata: file streams.
- Ntstore.Memory.NvmemMemcpy: the inline assembly and the hardware fence are the ghost sets; a flush takes effect at once.
- PriorityQueue.Queue.HandleOperations: element copies that throw, and the readers of `my_size`.
- HashMap.Table.Find: sequential, but from any outdated mask, for tables of at most 2^32 buckets; bucket and node locks, and the interleaving of two operations inside a bucket, are not modelled, nor are iterators, `clear` and copying.
- Ets.RunSafe: as many threads as a quarter of the hash width allows; `table_elementwise_copy`, `table_clear` and exceptions are left out.
- LruCache.RunSafe: history lengths from 1 on; the map and the handles' moves are values; the two serial operations are atomic steps, as `Aggregator` shows them to be.
- Weak memory order, allocator failure and exceptions, in all files.
- The libevent servers and clients, scripts, statistics and printing.
