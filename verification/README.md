# brlib in Dafny

A model of the data structures and algorithms of brlib, a small C library, and proofs about them.
Heap structures are classes whose methods rewrite links as the C code does; ghost sequences say what
a structure holds, and every method is proved against them.

- `List` models the circular lists of `list.h`: rings of `ListHead` objects with nullable links, and
  every insertion, removal, replacement, swap, move, rotation, cut and splice.
- `StableSort`, `PendingRuns`, `ListMerge` and `ListSort` model `list_sort`, a merge sort in place in
  which `next` carries sorted runs, `prev` chains the pending runs, and the binary digits of a
  counter decide what is merged. `PendingRuns` is the arithmetic of that counter, `StableSort` the
  specification: a stable insertion sort, unique among stable sorts. The comparator is an object that
  logs what it is asked. `Leftover` and `DummyCalls` tell from the input how many dummy calls the last
  merge makes.
- `PlistOrder`, `Plist` and `PlistRuns` model priority lists: a ring of all nodes behind a head, and
  a second ring, without a head, of the first node of every priority.
- `Hlist` and `HashTable` model the lists with a single head pointer, in which `pprev` points to the
  pointer that points to the node, and the hash table of such lists.
- `Buffers`, `XXHash32` and `XXHash64` model the hashes of `xxhash.c`, one-shot and streaming. The
  algorithms are written over records of word operations, so the streaming theorems hold for any
  operations; `XXHash32Words` and `XXHash64Words` supply the arithmetic modulo 2^32 and 2^64, with
  which `XXHash32Collisions` and `XXHash64Collisions` prove their theorems. `XXHash32Values` and
  `XXHash64Values` compute hash values from the constants of the algorithm, in integer arithmetic;
  `BitVectors` supplies the exclusive ors.
- `Memory`, `PoolLayout` and `Pool` model the pool allocator on raw memory: addresses are numbers,
  a list_head is two words, storing a word destroys the words that it overlaps, freed words cannot
  be loaded, and frees are logged. Free objects carry the free list inside themselves.
- `Binary`, `Bits` and `BitOps` model binary digits, and the bit operations of `bitops.h` as they are
  computed without compiler builtins. `Sequences` has what the models share about sequences.

Main results: for any comparator `list_sort` leaves a ring of its entries, compares in input order
only and meets its comparison bound, and with a weak order the ring is the stable sort; the table of
states in its comment follows from a closed form; streaming digests equal the one-shot hash for
every cut of a message, and the one-shot hash has known values; a change of a single lane or tail byte always changes `xxh32`, and one of a
single unit after the last stripe `xxh64`; every run of a plist is the stable sort by priority of
what joined, and `plist_requeue` leaves each link as `plist_del` and `plist_add` would; every run of
a hash table keeps its nodes under their keys, and every run of a pool and of the holders of its
objects loses no object and no byte that was stored in one.

Where the code and its documentation differ, the model follows the code:

- `list_sort` is documented to call the comparator with the earlier element first. All comparisons
  that matter do, but the dummy calls of the last merge pass one element twice. `DummyCalls` says for
  which inputs there are none: those in which fewer than 256 entries are appended by that merge without
  comparing, which can be counted before the call, and so all inputs of fewer than 384 entries. Every
  strictly descending input of 384 entries is given one.
- `ffs` is documented to return 0 for 0. The emulated form returns the word size.
- `pool_create` accepts a growth of no objects. The first `pool_get` that malloc serves then returns
  the pool's own list head and poisons it.
- `list_swap` is documented to exchange two entries. It does unless the second is alone in its ring.

## Model

| member | source | states |
|---|---|---|
| `ListSort.ListSort` | src/list_sort.c:186-253 | any ring ends as a circular doubly linked list of exactly its own entries; with a strict weak order they are in the order of the stable insertion sort, and the number of dummy calls is that of the entries which the input says are appended without comparing, over 256; the log of the comparator grows by exactly the calls that SortAny describes |
| `ListSort.SortAny` | src/list_sort.c:186-253 | whatever function the comparator is, the log of the calls made to it grows by comparisons that get their arguments in input order, at most n(h+1) - 2^(h+1) + 1 of them for h = floor(log2 n), the last of which are those of the merge of the oldest run with all newer entries, and then by the dummy calls, and by nothing else |
| `ListSort.DummiesAre` | src/list_sort.c:80-95 | the dummy calls hand over, with itself, every 256th of the entries that the last merge appends without comparing, which are the end of the sorted list |
| `DummyCalls.DummyCallIs` | src/list_sort.c:108-113 | a dummy call passes one entry twice, so not in input order |
| `ListSort.OutcomeIsSort` | src/list_sort.c:108-113 | with a strict weak order the tree of merges that the counter builds gives the stable insertion sort |
| `ListSort.UncomparedIs` | src/list_sort.c:59-95 | the entries that the last merge appends without comparing are those newer than the oldest run that need not sort before any of it, and those of the oldest run that must sort after all newer ones |
| `DummyCalls.OneSided` | src/list_sort.c:61-77 | at least one of these two kinds is empty |
| `DummyCalls.DummyCallCount` | src/list_sort.c:80-95 | for any comparator there are at most (n - 1)/256 dummy calls; with a strict weak order none exactly if fewer than 256 entries of the input are of those two kinds |
| `DummyCalls.DummyCallsPossible` | src/list_sort.c:108-113 | some strict weak order of n entries leads to a dummy call if and only if n is at least 384 |
| `DummyCalls.SharpSize` | src/list_sort.c:80-95 | the last merge is given a list of 256 entries or more if and only if n is at least 384 |
| `DummyCalls.FailingInput` | src/list_sort.c:108-113 | every strictly descending input of 384 entries is given exactly one dummy call |
| `DummyCalls.FailingOrder` | src/list_sort.c:108-113 | any 384 entries are such an input for the comparator that puts the last one first |
| `DummyCalls.SortedDummyCalls` | src/list_sort.c:83-91 | on sorted input the last merge makes one comparison for each entry of the oldest run, so the dummy calls are one for every 256 entries of all the other runs |
| `DummyCalls.DescendingDummyCalls` | src/list_sort.c:83-91 | on strictly descending input it makes one for each entry of all the other runs, and the dummy calls are one for every 256 entries of the oldest |
| `Leftover.MergeLeaves` | src/list_sort.c:59-78 | merging two sorted lists compares once for every entry but those of the two kinds |
| `ListSort.TakeOne` | src/list_sort.c:215-237 | one round, on the links: the pending runs become those of count + 1, the rest of the input list is untouched, and the comparisons are paid for by the growth of the cost of the pending runs |
| `ListSort.FindTail` | src/list_sort.c:219-221 | the walk over `prev` stops, without meeting null, at the link that the trailing ones of `count` select; `bits` is zero exactly when no merge is due |
| `ListSort.MergeRound` | src/list_sort.c:222-230 | the merge of a round joins two neighbouring runs of equal size where the digits of `count` say, asks about pairs in input order only, or does nothing |
| `ListSort.MergeAt` | src/list_sort.c:224-229 | the merged run takes the place of its two parts in the list of runs, on the links; all other runs keep theirs |
| `ListSort.Push` | src/list_sort.c:232-236 | the next entry becomes the newest pending run, of size one |
| `ListSort.TakeAll` | src/list_sort.c:215-238 | the whole input ends up in the pending runs that the digits of n announce, each run the merge sort of a contiguous piece of the input |
| `ListSort.Collect` | src/list_sort.c:244-249 | merging the next pending run into the collected list gives their merge, which holds the end of the input; it asks exactly the pairs of that merge, all in input order and fewer than there are entries in it |
| `ListSort.CollectNext` | src/list_sort.c:244-249 | one turn of the loop at the end of the input: run i of the counting machine joins the collected list, within the budget for collecting i + 1 runs |
| `ListSort.CollectedBalance` | src/list_sort.c:179-183 | when run i is about to be merged, the links hold a run of its size, 2^k, and a collected list of the m entries of all newer runs, with 2^k <= 2m and m <= 2^(k+1) - 1 |
| `ListSort.CollectAll` | src/list_sort.c:240-250 | the oldest run and the merge of all the others remain for the last merge, which is never given a null list |
| `ListSort.CollectFirst` | src/list_sort.c:240-244 | for two or more entries at least two runs are pending, so the first `pending->prev` is not null |
| `ListSort.RunsFollowCount` | src/list_sort.c:197-214 | the runs on the links have the number and the sizes that the counting machine has for the same count |
| `ListSort.MergeRun` | src/list_sort.c:110-113 | merging the runs of two neighbouring pieces of the same size gives the run of both, for any comparator |
| `ListSort.RunCalls` | src/list_sort.c:110-113 | every pair that a merge of two neighbouring pieces, in whatever order, compares has its first member strictly earlier in the input, and there are fewer pairs than entries |
| `ListMerge.Merge` | src/list_sort.c:17-43 | on the links: the result is the merge that prefers `a`, null-terminated, and the log of the comparator grows by exactly the pairs of that merge, in order |
| `ListMerge.MergeFinal` | src/list_sort.c:53-100 | the head and the merge of both lists form a ring, next and prev mutually inverse; the log of the comparator grows by the pairs of the merge, and then by every 256th entry that was appended without comparing, with itself |
| `ListMerge.FinishRing` | src/list_sort.c:80-99 | the loop over the rest restores `prev`, closes the ring, and asks about every 256th entry, with itself, and about nothing else |
| `StableSort.SortIsStableSort` | src/list_sort.c:108-113 | the specification is met by insertion sort: sorted, the same elements, and equivalent elements in input order |
| `StableSort.StableSortIsUnique` | src/list_sort.c:108-113 | a list is a stable sort of the input if and only if it is that one |
| `StableSort.MergeOfSorts` | src/list_sort.c:102-113 | sorting a concatenation is merging the sorted parts |
| `PendingRuns.PendingClosedForm` | src/list_sort.c:143-154 | after c rounds floor(log2 c) + 1 runs are pending; run 0 has one element and run i has 2^(i - 1 + bit i - 1 of c) |
| `PendingRuns.RoundSizes` | src/list_sort.c:197-214 | one round takes the sizes announced by the digits of c to those announced by the digits of c + 1 |
| `PendingRuns.MergedRuns` | src/list_sort.c:143-150 | the two runs that a round merges exist and both have size two to the number of trailing ones of the count |
| `PendingRuns.StateTable` | src/list_sort.c:156-171 | the six-state table, first column: zero, one or two runs of size 2^k for every count and every k |
| `PendingRuns.StateTableSmaller` | src/list_sort.c:156-171 | the six-state table, second column: how many elements wait in smaller runs |
| `PendingRuns.FinalBalance` | src/list_sort.c:179-183 | the arithmetic of the last merges: a pending run of size 2^k and the m elements of all newer ones have 2^k <= 2m and m <= 2^(k+1) - 1; CollectedBalance finds both on the links |
| `PendingRuns.NewestAll` | src/list_sort.c:197-214 | the pending runs hold exactly the elements counted so far |
| `PendingRuns.RoundPays` | src/list_sort.c:143-154 | the comparisons of a round are the growth of the cost of the pending runs |
| `PendingRuns.ComparisonBound` | src/list_sort.c:134-137 | building and collecting the runs costs at most n(h+1) - 2^(h+1) + 1 comparisons |
| `List.AddBetween` | include/list.h:70-78 | the new entry stands between two neighbours; only the links named are written |
| `List.Add` | include/list.h:88-91 | the entry follows the head, wherever the head is on its ring |
| `List.AddTail` | include/list.h:102-105 | the entry precedes the head |
| `List.DelEntry` | include/list.h:134-137 | the ring without the entry, whose own links stay |
| `List.Del` | include/list.h:145-150 | the ring without the entry; its links hold arbitrary values afterwards |
| `List.DelInit` | include/list.h:203-207 | the ring without the entry, which becomes a ring of its own |
| `List.Replace` | include/list.h:159-166 | the new entry takes the position of the old one |
| `List.ReplaceInit` | include/list.h:175-180 | the same, and the old entry becomes a ring of its own |
| `List.Swap` | include/list.h:187-197 | two entries of a ring change places, also when they are neighbours in either order |
| `List.SwapAcross` | include/list.h:187-197 | two entries of different rings change places |
| `List.SwapWithLone` | include/list.h:187-197 | when the second entry is alone in its ring the code does not swap: the second entry takes the place of the first, which follows it in the same ring and so is not alone |
| `List.Move` | include/list.h:214-218 | the entry goes behind the head of the same or another ring |
| `List.MoveTail` | include/list.h:225-230 | the entry goes before the head of the same or another ring |
| `List.BulkMoveTail` | include/list.h:241-253 | a segment goes to the end of the ring, also when it is already there |
| `List.TestsAreExact` | include/list.h:260-275 | list_is_first and list_is_last hold of exactly the first and the last entry |
| `List.LengthTests` | include/list.h:281-325 | list_empty and list_is_singular hold exactly for zero and one entries |
| `List.RotateLeft` | include/list.h:290-298 | the first entry becomes the last one |
| `List.RotateToFront` | include/list.h:307-316 | the cyclic rotation that starts at the entry |
| `List.CutAfter` | include/list.h:327-337 | the entries up to and including the given one move to the other head; both rings are well formed |
| `List.CutPosition` | include/list.h:353-365 | the same for every entry and for the head itself; nothing happens to an empty ring, or when the only entry is neither named nor the head |
| `List.CutBefore` | include/list.h:381-395 | the entries before the given one move to the other head, none if it is the first; for the head, all of them |
| `List.SpliceBetween` | include/list.h:397-409 | the entries of one ring stand between two neighbours of another |
| `List.Splice` | include/list.h:416-421 | the entries of one ring follow the head of another |
| `List.SpliceTail` | include/list.h:428-433 | the entries of one ring precede the head of another |
| `List.SpliceInit` | include/list.h:442-449 | the same as Splice, and the emptied head becomes a ring of its own |
| `List.SpliceTailInit` | include/list.h:459-466 | the same as SpliceTail, and the emptied head becomes a ring of its own |
| `List.CutThenSplice` | include/list.h:353-421 | cutting at any entry of a non-empty ring and splicing the piece back restores every link |
| `List.CutBeforeThenSplice` | include/list.h:381-421 | so does cutting before any entry |
| `List.SpliceThenCut` | include/list.h:353-421 | splicing a non-empty list and cutting it off again restores every link of both rings |
| `Plist.Add` | src/plist.c:73-104 | the node joins behind the last node whose priority is not larger, where a scan of the whole list would put it; both rings keep the two-tier invariant; the search looks at a prefix of the representatives, so at no more nodes than there are different priorities on the list |
| `Plist.FindPlace` | src/plist.c:85-99 | the search visits representatives only, in order, each at most once, and stops at the first of a larger priority |
| `Plist.LinkPrio` | src/plist.c:98-99 | a node joins the prio ring, at the place of its priority, exactly if no node of its priority is on the list |
| `Plist.InsertNode` | src/plist.c:100-101 | the node joins the node ring before `node_next`; the prio ring is untouched |
| `Plist.Del` | src/plist.c:112-133 | the node leaves both rings; if it represented its priority the next node of that priority, if any, takes over; all its links are self-loops |
| `Plist.UnlinkPrio` | src/plist.c:116-128 | list_empty on a prio_list, which is also true of a single representative, still leads to the right prio ring in every case |
| `Plist.EmptyPrio` | include/plist.h:50-61 | list_empty on a prio_list holds of exactly the nodes that represent nothing and of a representative that is alone |
| `Plist.EndOfGroup` | src/plist.c:150-170 | the loop of plist_requeue stops at the end of the priority group, which is where plist_add would insert |
| `Plist.Requeue` | src/plist.c:145-173 | the list is the one with the node removed and added again, through both early returns and the loop, and every link points where RequeueByHand leaves it |
| `Plist.RequeueByHand` | src/plist.c:135-144 | plist_del and then plist_add leave the same list, and every link is the same function of that list as after plist_requeue |
| `Plist.LinksFollow` | include/plist.h:50-61 | a heap holds a given list if and only if all node links and prio links are those computed from the sequence of nodes, so no link is free |
| `PlistOrder.RepsCount` | include/plist.h:57-58 | representatives have strictly increasing priorities, and there are as many of them as different priorities |
| `PlistOrder.RepsAre` | include/plist.h:50-61 | a node is a representative if and only if it is the first one of its priority |
| `PlistOrder.StopIsPlace` | src/plist.c:85-96 | stopping among the representatives finds the same place as a scan of all nodes |
| `PlistOrder.RepsInserted` | include/plist.h:63-65 | inserting adds a representative where the search stopped, or none |
| `PlistOrder.RepsWithout` | include/plist.h:67-71 | removing a representative makes the next node of its priority one, or drops the priority |
| `PlistRuns.Run` | src/plist.c:73-173 | any run of add, each with a new priority for the node, del and requeue from an empty head keeps the list equal to the stable sort, by the priorities last given, of the nodes in the order in which they joined or were requeued; nodes off the list have self-loops, so that the warnings of plist_add never fire |
| `PlistRuns.SortAppend` | include/plist.h:59-61 | plist_add is the step of that sort for a node that joins last |
| `PlistRuns.SortRemoved` | include/plist.h:67-71 | taking a node away commutes with the sort |
| `Hlist.AddHead` | include/list.h:843-851 | the node becomes the first one, and every `pprev` names the slot that points to its node |
| `Hlist.AddBefore` | include/list.h:858-865 | the node stands before the given one, also when that was the first |
| `Hlist.AddBehind` | include/list.h:872-881 | the node stands behind the given one, also when that was the last |
| `Hlist.Unlink` | include/list.h:797-805 | the list without the node; its head is reached through `pprev` only |
| `Hlist.Del` | include/list.h:814-819 | the same, and the node is left in hashed state |
| `Hlist.DelInit` | include/list.h:827-833 | the same, and the node is unhashed; nothing happens to a node that already is |
| `Hlist.SlotIsUnique` | include/list.h:797-803 | `pprev` names the one slot, among the head and all `next` fields, that points to the node |
| `Hlist.IsSingularNode` | include/list.h:913-917 | true of exactly a node that is alone behind this very head |
| `Hlist.MoveList` | include/list.h:927-934 | the whole list changes its head |
| `Hlist.ForEach` | include/list.h:956-959 | a traversal visits the nodes in order up to the first at which the body breaks |
| `Hlist.Prune` | include/list.h:987-990 | a safe traversal that deletes nodes on its way keeps exactly the others, in order |
| `HashTable.HashTable.constructor` | include/hashtable.h:36-42 | every bucket is empty |
| `HashTable.HashTable.Add` | include/hashtable.h:62-63 | the node is live under its key and first in the bucket of that key; no other bucket changes |
| `HashTable.HashTable.Del` | include/hashtable.h:107-110 | the node alone leads to the bucket that it leaves; it is not live any more, and every other node stays under its key |
| `HashTable.HashTable.Empty` | include/hashtable.h:83-92 | true if and only if no node is live |
| `HashTable.HashTable.ForEach` | include/hashtable.h:119-122 | a complete traversal visits every live node exactly once; one that the body breaks out of ends at that node, and leaves the outer loop too |
| `HashTable.HashTable.Prune` | include/hashtable.h:145-148 | a safe traversal of the whole table that deletes nodes on its way leaves exactly the others live, under their keys and in order; the deleted nodes are unhashed |
| `HashTable.HashTable.ForEachPossible` | include/hashtable.h:158-159 | the traversal visits the bucket of the key in order, up to the first node at which the body breaks; one that is not broken out of reaches every live node that was added under the key |
| `HashTable.HashTable.LiveIsHashed` | include/hashtable.h:78-81 | a live node is hashed, and over all buckets one slot points to it, the one that its `pprev` names |
| `HashTable.Run` | include/hashtable.h:62-110 | after any run of additions and removals the live nodes are those added and not removed since, under the key last given, and hash_hashed tells them exactly from the others |
| `HashTable.ConcatLive` | include/hashtable.h:119-122 | the chains one after the other hold each live node once |
| `Pool.Create` | src/pool.c:41-71 | null if malloc fails; otherwise an empty pool, whose objects have room for a list_head; it may even be one that grows by no objects |
| `Pool.Pool.Push` | src/pool.c:73-84 | the object becomes the first of the free list, in memory; the list of blocks and the bytes of the objects that are not on the list are untouched |
| `Pool.Pool.Pop` | src/pool.c:91-97 | the first free object leaves the list and the bytes of the objects that are not on it stay; the counter decreases modulo 2^32; on an empty list the head itself is taken and the list is broken |
| `Pool.Pool.Add` | src/pool.c:86-89 | an object that was handed out is free again; the number of free objects, modulo 2^32, is returned; every byte of the objects that stay handed out is as before |
| `Pool.Pool.AddBlock` | src/pool.c:114-117 | the new block joins the list of blocks, through memory that overlaps nothing |
| `Pool.Pool.Carve` | src/pool.c:129-135 | the objects of the new block join the free list, the last one first |
| `Pool.Pool.Get` | src/pool.c:103-139 | null exactly if malloc fails when the counter of free objects is zero, and then nothing has changed; otherwise an object that nobody holds, and every byte of the objects handed out and of all memory that is not the pool's is as before; the pool stays valid if and only if it grows by some objects or malloc fails, and otherwise a part of the pool_t itself is returned |
| `Pool.PoolGet` | src/pool.c:99-102 | a null pool gives null; any other gives null exactly if malloc fails when the counter of free objects is zero, and otherwise, if it grows by some objects, an object that nobody held and that is now handed out |
| `Pool.Pool.Use` | src/pool.c:136-139 | whatever word a holder stores inside its object, the pool stays valid and no other word changes but those that overlap it |
| `Pool.Pool.Conservation` | src/pool.c:114-135 | free and handed-out objects together are growsize times the number of blocks; without wrap-around the counters say so |
| `Pool.Pool.NoOverlap` | src/pool.c:129-135 | two objects occupy disjoint byte ranges inside their blocks |
| `Pool.Pool.Destroy` | src/pool.c:150-162 | the log of frees grows by every block once, with its size, and then by the pool_t with its size; no word of freed memory is read, afterwards no word that overlaps any of it can be, and all other memory is as before |
| `Pool.PoolDestroy` | src/pool.c:142-146 | a null pool is left alone; for any other the log of frees grows as for Destroy, and nothing of the pool can be read any more |
| `Pool.Run` | src/pool.c:86-140 | any run of gets, adds and stores by the holders from a new pool, with any results of malloc, keeps the pool valid and loses no object, every holder finds in its objects what it last stored there, and all memory outside the pool_t and its blocks is as before |
| `PoolLayout.CellsApart` | src/pool.c:48-55 | since an object is never smaller than a list_head, no two list_heads of a pool overlap |
| `PoolLayout.ObjectAlone` | src/pool.c:129-135 | the bytes of an object overlap neither another object nor a list_head in use |
| `Memory.ListAdd` | include/list.h:70-91 | list_add on raw words: the ring with the entry behind its head; all words that overlap none of the three list_heads involved are as before |
| `Memory.ListDel` | include/list.h:114-150 | list_del on raw words, at any position: the others, if any, form the ring without the entry, which is poisoned; all words that overlap none of the three list_heads involved are as before |
| `XXHash32.Xxh32` | todo/xxhash.c:102-153 | the loops over stripes and tail compute the recursive definition of the hash, for every message and seed |
| `XXHash32.Xxh32State.Reset` | todo/xxhash.c:240-251 | the state of the empty message |
| `XXHash32.Xxh32State.Update` | todo/xxhash.c:266-332 | the chunk is appended to the message: accumulators for all complete stripes, the rest in the buffer, the length modulo 2^32, and the flag that the true length reached 16; -EINVAL and no change for null |
| `XXHash32.Xxh32State.Digest` | todo/xxhash.c:334-369 | the hash of the message so far; the state is not changed |
| `XXHash32.HashChunks` | todo/xxhash.c:240-369 | for every way of cutting a message into chunks, empty ones included, the digest after every chunk is the one-shot hash of what was fed |
| `XXHash32.StripesAppend` | todo/xxhash.c:286-330 | a message may be consumed in two steps, if the rest of the first is kept for the second |
| `XXHash32.LengthStep` | todo/xxhash.c:274-275 | the flag computed from the wrapped length is set if and only if the true length is at least 16 |
| `XXHash32Words.MachineIsUndoable` | todo/xxhash.c:54-70 | on words modulo 2^32 adding, multiplying by each of the five primes, rotating, xor-shifting and loading lose nothing |
| `XXHash32Collisions.LaneChangesTheHash` | todo/xxhash.c:94-153 | two messages that differ in one aligned lane, in a stripe or in the tail, have different hashes |
| `XXHash32Collisions.ByteChangesTheHash` | todo/xxhash.c:139-153 | two messages that differ in one byte after the last whole lane have different hashes |
| `XXHash32Collisions.NoSingleChangeCollides` | todo/xxhash.c:94-153 | both, for the arithmetic of the machine |
| `XXHash32Collisions.ShortMessagesSeparateSeeds` | todo/xxhash.c:128-153 | messages shorter than a stripe have different hashes under different seeds |
| `XXHash32Values.EmptyMessage` | todo/xxhash.c:102-153 | the hash of the empty message with seed 0 is 0x02CC5D05 |
| `XXHash32Values.AbcMessage` | todo/xxhash.c:102-153 | the hash of "abc", three bytes and no word, with seed 0 is 0x32D153FF |
| `XXHash32Values.StripeMessage` | todo/xxhash.c:102-153 | the hash of the bytes 0 to 15, one stripe, with seed 0 is 0xB72837F4 |
| `XXHash32Values.MixedMessage` | todo/xxhash.c:102-153 | the hash of the bytes 0 to 20, a stripe, a word and a byte, with seed 0xDEADBEEF is 0x9AC99E0E |
| `XXHash32Values.StartIs` | todo/xxhash.c:110-113 | the four accumulators at the start, in plain integer arithmetic |
| `XXHash32Values.RoundIs` | todo/xxhash.c:94-100 | a round, in plain integer arithmetic with its constants: products and sums are given with their quotients by 2^32 |
| `XXHash32Values.RotlIs` | todo/xxhash.c:54 | a rotation exchanges the quotient and the remainder by a power of two |
| `XXHash32Values.StripeLanes` | todo/xxhash.c:110-127 | the accumulators of the bytes 0 to 15 converge to 0xE3460F50 |
| `XXHash32Values.TailWordIs` | todo/xxhash.c:134-138 | a word of the tail, in plain integer arithmetic |
| `XXHash32Values.TailByteIs` | todo/xxhash.c:140-144 | a byte of the tail, in plain integer arithmetic |
| `XXHash32Values.AvalancheIs` | todo/xxhash.c:146-150 | the final mix, in plain integer arithmetic and exclusive or |
| `XXHash32Values.MachineIsPlain` | todo/xxhash.c:54-70 | the rotations, shifts and loads of the machine as products, quotients and sums with constants |
| `BitVectors.XorIs` | todo/xxhash.c:146-150 | exclusive or on numbers, digit by digit, is exclusive or on words |
| `XXHash64.Xxh64` | todo/xxhash.c:171-235 | the loops over stripes and tail compute the recursive definition of the hash, for every message and seed |
| `XXHash64.Xxh64State.Reset` | todo/xxhash.c:253-264 | the state of the empty message |
| `XXHash64.Xxh64State.Update` | todo/xxhash.c:371-435 | the chunk is appended to the message, as for 32 bits; -EINVAL and no change for null |
| `XXHash64.Xxh64State.Digest` | todo/xxhash.c:437-489 | the hash of the message so far, with the accumulators used if the wrapped length is at least 32 |
| `XXHash64.HashChunks` | todo/xxhash.c:253-489 | for every way of cutting a message of any length into chunks, the digest after every chunk is the one-shot hash of what was fed if less than 2^64 bytes were, or if their number modulo 2^64 is at least 32; in any case it is that hash with the lanes used as the wrapped length says |
| `XXHash64.LongEnough` | todo/xxhash.c:444-452 | the guard on the wrapped length decides like one on the true length if and only if the message is shorter than 2^64 bytes or its length modulo 2^64 is at least 32 |
| `XXHash64Words.MachineIsUndoable` | todo/xxhash.c:55-76 | on words modulo 2^64 adding, multiplying by each of the four primes that the hash multiplies by, rotating, xor-shifting and loading lose nothing |
| `XXHash64Collisions.UnitChangesTheHash` | todo/xxhash.c:206-234 | two messages of the same length that differ in exactly one aligned unit after the last whole stripe, a word of 8 bytes, one of 4 bytes or a single byte, have different hashes |
| `XXHash64Collisions.NoUnitChangeCollides` | todo/xxhash.c:206-234 | the same for the arithmetic of the machine |
| `XXHash64Collisions.NoByteChangeCollides` | todo/xxhash.c:206-234 | two messages that differ in exactly one byte after the last whole stripe have different hashes; for messages shorter than 32 bytes, in any one byte |
| `XXHash64Collisions.LanesMatter` | todo/xxhash.c:441-452 | leaving the accumulators out changes the hash of a message, whatever its tail, unless they converge to the very value that is used instead |
| `XXHash64Collisions.DigestIsHashExactly` | todo/xxhash.c:441-489 | on the machine the digest is the hash of the whole message if and only if the guard on the wrapped length is right or the accumulators converge to that value |
| `XXHash64Collisions.ShortMessagesSeparateSeeds` | todo/xxhash.c:202-234 | messages shorter than a stripe have different hashes under different seeds |
| `XXHash64Values.EmptyMessage` | todo/xxhash.c:171-235 | the hash of the empty message with seed 0 is 0xEF46DB3751D8E999 |
| `XXHash64Values.AbcMessage` | todo/xxhash.c:171-235 | the hash of "abc", three bytes, with seed 0 is 0x44BC2CF5AD770999 |
| `XXHash64Values.AbcdMessage` | todo/xxhash.c:171-235 | the hash of "abcd", half a word, with seed 0 is 0xDE0327B0D25D92CC |
| `XXHash64Values.MixedMessage` | todo/xxhash.c:171-235 | the hash of the bytes 0 to 44, a stripe, a word, half a word and a byte, with seed 0x0123456789ABCDEF is 0x8041DF55C57C4423 |
| `XXHash64Values.RoundIs` | todo/xxhash.c:155-161 | a round, in plain integer arithmetic with its constants |
| `XXHash64Values.MergeRoundIs` | todo/xxhash.c:163-169 | a merge round, in plain integer arithmetic |
| `XXHash64Values.RotlIs` | todo/xxhash.c:55 | a rotation exchanges the quotient and the remainder by a power of two |
| `XXHash64Values.MixedConvergeIs` | todo/xxhash.c:195-200 | four accumulators converge, through the merge rounds, to 0x1E607BBD332CF20D |
| `XXHash64Values.Tail8Is` | todo/xxhash.c:208-213 | a word of the tail, in plain integer arithmetic |
| `XXHash64Values.Tail4Is` | todo/xxhash.c:216-219 | half a word of the tail, in plain integer arithmetic |
| `XXHash64Values.Tail1Is` | todo/xxhash.c:222-225 | a byte of the tail, in plain integer arithmetic |
| `XXHash64Values.AvalancheIs` | todo/xxhash.c:228-232 | the final mix, in plain integer arithmetic and exclusive or |
| `XXHash64Values.MachineIsPlain` | todo/xxhash.c:55-76 | the rotations, shifts and loads of the machine as products, quotients and sums with constants |
| `BitOps.Ilog2For32` | include/bitops-emulated/generic-ilog2.h:39-47 | for every non-zero word the smearing and the table give the k with 2^k <= n < 2^(k+1) |
| `BitOps.Ilog2For64` | include/bitops-emulated/generic-ilog2.h:49-58 | the same for 64 bits |
| `BitOps.Table32Is` | include/bitops-emulated/generic-ilog2.h:22-27 | the product of k + 1 ones with the de Bruijn constant selects the entry k |
| `BitOps.Table64Is` | include/bitops-emulated/generic-ilog2.h:29-37 | the product of 2^k with the de Bruijn constant selects the entry k |
| `Bits.SpreadIs` | include/bitops-emulated/generic-ilog2.h:41-45 | a word below 2^(2^k) that is or-ed with its shift by 1, the result with its shift by 2, then by 4 and so on, k times, is all ones up to its highest bit and zeros above |
| `BitOps.Clz32` | include/bitops-emulated/generic-clz.h:20-30 | the binary search finds 31 - floor(log2 n) for every non-zero word |
| `BitOps.Clz64` | include/bitops-emulated/generic-clz.h:32-43 | the same for 64 bits |
| `BitOps.Msb32` | include/bitops.h:65 | 31 ^ clz is the k with 2^k <= n < 2^(k+1) for every non-zero word |
| `BitOps.Msb64` | include/bitops.h:64 | 63 ^ clz is that k for 64 bits |
| `BitOps.Ctz32` | include/bitops-emulated/generic-ctz.h:20-44 | the position of the lowest set bit of every non-zero word |
| `BitOps.Ctz64` | include/bitops-emulated/generic-ctz.h:71-99 | the same for 64 bits |
| `BitOps.Popcount` | include/bitops.h:90-96 | Kernighan's loop counts exactly the set bits |
| `BitOps.Ffs` | include/bitops.h:163-164 | the emulated ffs is one more than the position of the lowest set bit, and the word size, not the documented 0, for 0 |
| `BitOps.IsPow2` | include/bitops.h:243 | true if and only if exactly one bit is set |
| `BitOps.BitForEach` | include/bitops.h:264-271 | the loop visits exactly the set bits, lowest first, and so runs as often as Kernighan's loop |
| `BitOps.BitForEachFfs` | include/bitops.h:272-279 | the same positions plus one, in as many iterations |
| `BitOps.DropLowest` | include/bitops.h:264-279 | n & (n - 1) and n ^ (1 << ctz(n)) are the same word, which lacks the first of the set bits |
| `Bits.SetBitsAre` | include/bitops.h:245-263 | the enumeration that the loops are compared with: increasing, and a position is in it if and only if its bit is set |

## Left out

- List.SwapAcross: asks that the second ring has another entry, because the code does not exchange the entries otherwise; List.SwapWithLone states what it does then.
- List.Swap: does not cover an entry swapped with itself, which the code does not promise.
- List.RotateToFront: does not cover the head as the entry, which the code does not promise.
- List.Del: does not fix the poison values that the entry is left with; they are arbitrary links.
- ListSort.ListSort: the comparator answers by a function of the two entries, without the `priv` argument, and does not read links; it is asked through an object that logs its calls; the counter is unbounded, which is no loss while a size_t can count the entries.
- Plist.Add: the warning macros and debug checks are left out; the priority of a node does not change while the node is on a list.
- HashTable.HashTable.Add: any function from keys into the buckets stands for the hash, because the table's own hash refers to an `ilog2` that is not part of this library.
- Pool.Create: the name is not copied.
- Pool.Run: malloc does not serve a pool that grows by no objects; Pool.Pool.Get says exactly what happens then.
- Pool.Pool.Get: the size of a block is not reduced modulo the width of a size_t; malloc's result is a parameter, either null or fresh memory that overlaps nothing of the pool; `errno` is not modelled.
- XXHash64Collisions.UnitChangesTheHash: says nothing about messages that differ in a whole stripe, because both the sum and the merge rounds of the convergence use each accumulator.
- XXHash32.Xxh32: pointers into the input are offsets, the little-endian load is a word operation, and copying a state is left out.
- BitOps.Ilog2For32, BitOps.Clz32 and BitOps.Ctz32, and their 64-bit forms, promise nothing for 0, as in the code.
- Concurrency: READ_ONCE, WRITE_ONCE, RCU and lockless variants are plain sequential accesses or left out.
- container_of and struct layout: a list_head is identified with the object that it lies in; a plist_node has two pairs of links, and the head of a plist is a plist_node whose priority part is not used.
- Slots: `tail` of `list_sort` and `pprev` of an hlist are pointers to pointers; they are modelled by the owner of the pointer.
- hlist_add_fake and hlist_fake: headless lists of one node.
- list_for_each and its variants over circular lists, and the entry macros.
- Logging, statistics and reporting: debug.c, debug.h, bitops.c and pool_stats.
- The hash functions of hash.h, stringhash.h and hash.c; byte swapping, rotation macros, min, max and clamp, circular buffers and unaligned access.
