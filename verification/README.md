# memkind: a verified model

A Dafny model of the parts of memkind, and of the jemalloc it carries, whose correctness is not plain
from reading one function: lock-free and half-locked protocols, trees that are rebalanced in place,
records that must add up over every run of events, and allocators that hand memory out once.

The files under `src/` follow the program:

| files | what they model |
|---|---|
| `Critnib*` | the radix tree with lock-free lookups: writers under a mutex, readers without one, nodes reused sixteen removes later; ordered search, iteration, word arithmetic |
| `Queue*` | the bounded queue with many writers and one reader |
| `Avl*` | the weighted balanced tree: nodes in memory with parent links and cached heights and weights |
| `Ranking*`, `Tachanka*`, `MapSums` | the hotness ranking on top of that tree, the records of blocks and allocation types, and the event loop |
| `Ckh*` | jemalloc's cuckoo hash |
| `Bin*`, `SlabBitmap`, `SlabClass` | jemalloc's bins of slabs, with the lock dropped midway, and the regions of one slab |
| `Base*` | jemalloc's metadata allocator |
| `Decay*` | jemalloc's prediction of how many pages will be purged, and the search for a sleep interval |
| `Pool*`, `LocklessList` | memkind's slab allocator on its growing array, with the free list under a mutex and without one |
| `Number*` | jemalloc's number printing and parsing |
| `Arith`, `Common` | arithmetic and small types that the others share |

Concurrent code is a machine whose steps are the loads, stores and atomic operations of the original,
interleaved in every way (critnib, queue), or a class each of whose methods is one critical section or
one atomic operation, with the thread's place between two of them kept in a phase (bins, base, slab
allocator). Sequential code that updates in place is a class with the original's fields. Memory that
links nodes by address is a map from addresses to nodes; a ghost tree or sequence says what it holds.

Seven promises do not hold of the code as it is; for each there is an instance and the condition, which is
exact but for the first:

- a lookup need not end, although its key is in the map (`CritnibCycle.LookupNeverEnds`); an attempt that
  sixteen removes have not overtaken does (`CritnibAttempts.AttemptEnds`);
- iterating a critnib from a positive lower bound can miss keys (`CritnibIter.IterMissesKeys`); it lists
  its range if and only if the lower bound does not exceed the path mask of the prefix that all keys
  share, or no key is in range (`CritnibIter.Iterate`);
- registering a block at an address that is already registered spoils the records
  (`TachankaClass.CreatedTwice`); they stay right if and only if the address is free
  (`TachankaClass.Tachanka.HandleCreate`);
- a push can be refused although the queue is empty (`QueueProgress.EmptyAndRefused`); it is refused if
  and only if items, pushes under way and refused pushes that still count make up the size
  (`QueueProgress.PushRefused`);
- parsing loses numbers that begin with a zero and then `8`, `9` or a letter digit other than `x`
  (`NumberStandard.LeadingZeroLost`); a number that fits is read if and only if it does not begin so
  (`NumberStandard.ParsesEveryString`);
- parsing can miss an overflow (`NumberText.OverflowMissed`); it is noticed if and only if the number does
  not begin so and at some digit comes round below what it was (`NumberStandard.ParsesEveryString`);
- popping the slab allocator's free list without its mutex can hand a slot out twice when two threads
  pop at once (`LocklessList.TwoPoppers`); the swap is right if and only if the link that was read is
  still the slot's link, which holds whenever only one thread pops (`LocklessList.FreeList.PopSwap`).

## Model

| member | source | states |
|---|---|---|
| `CritnibTheorems.RunOk` | src/critnib.c:329-618 | The whole invariant (tree shape, reuse pools, deferred frees, writer's registers, every reader's promise) holds in every state of every interleaving of inserts, updates, removes and lookups |
| `CritnibTheorems.WriterKeeps` | src/critnib.c:409-579 | Every step of insert and remove keeps the invariant |
| `CritnibCalls.GetReturnsValueOfItsInterval` | src/critnib.c:592-618 | The promise of `critnib_get`: a call that comes in with a key and is answered later, under every interleaving, is answered with what that key had in some state from the call to the answer, and with NULL only if the key was absent in one or had NULL for a value |
| `CritnibCalls.CallKept` | src/critnib.c:592-618 | No step changes the key a lookup was called with |
| `CritnibTheorems.AnswerWasCurrent` | src/critnib.c:592-618 | An answer is what the key in hand had in some state since the version in hand was current |
| `CritnibTheorems.GraceIsLongEnough` | src/critnib.c:506-615 | While a lookup can still succeed, the node or leaf it has in hand is neither in a reuse pool nor being refilled: sixteen removes of delay are enough |
| `CritnibTheorems.ReadersNeverStray` | src/critnib.c:592-618 | However stale a lookup is, the memory it reads next is allocated |
| `CritnibTheorems.TreeHoldsCurrentMap` | src/critnib.c:409-579 | In every state the links hold exactly the current map, paths are common prefixes of their subtrees, children are filed by nibble, depths grow downwards; between operations every inner node has two children |
| `CritnibCalls.UpdatesAreMapOperations` | src/critnib.c:409-579 | For the arguments with which insert or remove took the lock and the map it found then: when it is about to return, the map has changed as the result says: added, replaced on update, left alone on EEXIST or out of memory, removed with its value returned, or not found |
| `CritnibCalls.RunSame` | src/critnib.c:409-579 | No step of insert or remove changes the operation or its arguments |
| `CritnibTheorems.ResultIsInRegisters` | src/critnib.c:409-579 | At the return of insert or remove the map has changed as the registers say |
| `CritnibCalls.NoMemOnlyIfPoolEmpty` | src/critnib.c:413-484 | Insert answers ENOMEM only if at one of its two allocations it found the reuse pool empty |
| `CritnibTheorems.VersionWasCurrent` | src/critnib.c:592-618 | Every version of the map between two states of a run was current in some state between them |
| `CritnibProgress.LockHolderGoesOn` | src/critnib.c:329-579 | From every state of every run the lock holder has a next step: pools, rings and the descents never lead outside allocated memory, the key does leave the link it is split from, and a child remains where one is scanned for |
| `CritnibProgress.ReadersGoOn` | src/critnib.c:592-618 | From every state of every run every reader has a next step, whatever the lock holder is doing |
| `CritnibProgress.CountGoes` | src/critnib.c:555-567 | The scan finds two children or an only one: the assertion that a child remains holds |
| `CritnibProgress.OperationsEnd` | src/critnib.c:409-579 | Every insert and every remove is over after at most sixty steps of the lock holder |
| `CritnibAttempts.AttemptEnds` | src/critnib.c:592-618 | Under every interleaving an attempt of a lookup that sixteen removes have not overtaken makes fewer than thirty-seven loads |
| `CritnibCalls.AnswersUnlessOvertaken` | src/critnib.c:596-615 | An attempt of a lookup that comes to its end answers if and only if fewer than sixteen removes have counted themselves since it began; otherwise the lookup tries again |
| `CritnibAttempts.LoadCounts` | src/critnib.c:600-614 | Each load of such an attempt leaves fewer: depth grows along the links of linked nodes and of those that wait |
| `CritnibCycle.LookupNeverEnds` | src/critnib.c:608-609 | A run to a state in which the lock is free and a lookup whose key has been in the map since its call goes round two pooled nodes for ever |
| `CritnibReaders.ReaderStable` | src/critnib.c:592-618 | No step of the writer breaks what a reader under way relies on |
| `CritnibReaders.ReaderMoves` | src/critnib.c:592-618 | Every step of a reader keeps its promise: it is on the way to its key, or the key was absent at some moment since the call |
| `CritnibHeap.OneSlotPerLink` | src/critnib.c:409-579 | No two slots of the tree hold the same link |
| `CritnibHeap.AddLeaf` | src/critnib.c:427-452 | Storing a leaf into an empty slot keeps the tree's shape |
| `CritnibHeap.AddNode` | src/critnib.c:454-496 | Storing a new node over a slot, with the old link and the new leaf under it, keeps the tree's shape |
| `CritnibHeap.RemoveLeaf` | src/critnib.c:553 | Clearing a leaf's slot keeps the tree's shape |
| `CritnibHeap.SkipNode` | src/critnib.c:555-570 | Storing an only child over its node keeps the tree's shape |
| `CritnibSearch.FindPredecessor` | src/critnib.c:623-638 | The leaf with the greatest key of a subtree |
| `CritnibSearch.FindSuccessor` | src/critnib.c:734-750 | The leaf with the least key of a subtree |
| `CritnibSearch.OutsideSubtree` | src/critnib.c:656-672 | Every key of a subtree lies on the same side of a key outside it, the side that comparing with the stored path gives |
| `CritnibSearch.FindLe` | src/critnib.c:644-706 | The leaf with the greatest key not above the given one, none exactly if there is none |
| `CritnibSearch.FindGe` | src/critnib.c:755-800 | The leaf with the least key not below the given one, none exactly if there is none |
| `CritnibSearch.Walk` | src/critnib.c:592-618 | Without interference a lookup finds exactly the keys of the map |
| `CritnibSearch.Find` | src/critnib.c:801-853 | For each of the five directions, the nearest key of the map in that direction and its value, none exactly if there is none |
| `CritnibIter.Iter` | src/critnib.c:860-883 | Visits the leaves of a subtree that are in range, ascending, up to the first abort, unless the pruning test skips the whole subtree |
| `CritnibIter.Iterate` | src/critnib.c:885-893 | Calls the function for exactly the keys in range, ascending, up to the first abort, if and only if the lower bound does not exceed the path mask of the prefix all keys share, or nothing is in range |
| `CritnibIter.FromZero` | src/critnib.c:873 | Lower bound zero never exceeds it |
| `CritnibIter.IterMissesKeys` | src/critnib.c:873 | A tree, a lower bound of one and a key in range; the call visits nothing |
| `CritnibWord.SliceIsNibble` | src/critnib.c:239-243 | `slice_index` of a 64-bit word is the nibble of its hexadecimal string |
| `CritnibWord.PathTest` | src/critnib.c:439 | The masked comparison with a node's path says that the path is a prefix of the key |
| `CritnibWord.OutsideTest` | src/critnib.c:663 | Some bit above a node's nibble differs from its path exactly if the key is outside the subtree |
| `CritnibWord.SplitShift` | src/critnib.c:455-476 | The shift computed from the highest differing bit is the first differing nibble |
| `CritnibProgress.FullMatchOnlyAtLeaf` | src/critnib.c:455-458 | In every state in which an insert splits an inner node off, the stored path word differs from the key: a zero exclusive or occurs only at a leaf and the assertion holds |
| `CritnibWord.StoredPath` | src/critnib.c:494 | The stored path word is the prefix padded with zeros |
| `CritnibWord.MaskWord` | src/critnib.c:230-234 | `path_mask` as a word is ones for the prefix and zeros below |
| `CritnibWord.OrIsMask` | src/critnib.c:873 | ORing the path with its mask is the mask itself |
| `QueueTheorems.RunOk` | src/lockless_srmw_queue.c:123-325 | The invariant of the queue holds in every state of every interleaving of any number of writers and one reader |
| `QueueTheorems.NeverOutOfOrder` | src/lockless_srmw_queue.c:221-254 | The assertion "read out of order" never fires |
| `QueueTheorems.PoppedInOrder` | src/lockless_srmw_queue.c:180-325 | What was popped is a prefix of what was pushed, in the order of the tail tickets, each once |
| `QueueCalls.PoppedAsPushed` | src/lockless_srmw_queue.c:123-325 | In every state of every run there are tickets, one for each push that has returned success and none for one that has returned failure, no two alike, such that the items pops have returned are, in order, the items given to the pushes of the first tickets; a push that had returned before another began comes first |
| `QueueCalls.Ledger` | src/lockless_srmw_queue.c:221-325 | From the claim of the tail on, each push has a place that is no other push's, the place holds the item the push was given, and every place has its push |
| `QueueCalls.ResultsArePopped` | src/lockless_srmw_queue.c:180-313 | What the pops have returned, in order, is what has been popped |
| `QueueTheorems.CountersNeverWrap` | src/lockless_srmw_queue.c:123-178 | `used` stays between zero and the size plus the writers that are taking their reservation back, `unavailableRead` between zero and the size plus the reader's one |
| `QueueTheorems.QuietCounters` | src/lockless_srmw_queue.c:123-178 | With no operation under way, the entries in use are the size less `unavailableRead`, and equal pushes less pops |
| `QueueTheorems.UnreadUntouched` | src/lockless_srmw_queue.c:221-325 | No writer's step changes an entry that is posted and not yet read |
| `QueueTheorems.PopReturnsNext` | src/lockless_srmw_queue.c:303-313 | A successful pop returns the next value in ticket order, byte for byte; a pop that fails leaves it in place |
| `QueueProgress.WritersGoOn` | src/lockless_srmw_queue.c:221-325 | From every state of every run each writer that has not returned has a next step |
| `QueueProgress.ReaderGoesOn` | src/lockless_srmw_queue.c:180-313 | From every state of every run the reader has a next step |
| `QueueProgress.PushRefused` | src/lockless_srmw_queue.c:130-149 | A push is refused exactly if the items not popped, the pushes with a place coming and the refused pushes that have not taken their count back make up the size |
| `QueueProgress.EmptyAndRefused` | src/lockless_srmw_queue.c:123-149 | A run in which a push is refused by an empty queue |
| `QueueProgress.NothingAnnounced` | src/lockless_srmw_queue.c:159-178 | A pop gives up at its reservation exactly if every announced item is popped |
| `QueueProgress.NextUnfinished` | src/lockless_srmw_queue.c:202-216 | A pop rolls the head back exactly if the first item not popped is still being written |
| `QueueProgress.PopsEmptyOnlyThen` | src/lockless_srmw_queue.c:180-313 | A pop comes back empty in these two ways only |
| `QueueProof.ClaimGetsFree` | src/lockless_srmw_queue.c:221-254 | The entry at the tail that a writer claims is free |
| `QueueProof.CheckPasses` | src/lockless_srmw_queue.c:221-254 | The writer's check on its entry passes in every state |
| `QueueProof.WriterKeeps` | src/lockless_srmw_queue.c:123-325 | Every step of a writer keeps the invariant |
| `QueueProof.ReaderKeeps` | src/lockless_srmw_queue.c:151-313 | Every step of the reader, rolling the head back included, keeps the invariant |
| `AvlTree.FixGood` | src/wre_avl_tree.c:143-171 | Repairing a node whose subtrees are balanced and differ by two gives a balanced subtree as high as the higher child, or one higher |
| `AvlTree.FixFlat` | src/wre_avl_tree.c:73-171 | Rotations keep the elements and their order |
| `AvlTree.UpGood` | src/wre_avl_tree.c:194-219 | Repairing every node up to the root restores balance everywhere |
| `AvlTree.UpFlat` | src/wre_avl_tree.c:194-219 | And keeps the elements and their order |
| `AvlOrder.InsertSorted` | src/wre_avl_tree.c:452-480 | Putting an element between what is lower and what is not keeps the order |
| `AvlOrder.RemoveSorted` | src/wre_avl_tree.c:482-649 | Taking an element out keeps the order |
| `AvlHeap.SpineReplaced` | src/wre_avl_tree.c:601-626 | Storing the replacer into the place of a node above it changes that node's frame into the replacer's and nothing else |
| `AvlMoves.StartsAt` | src/wre_avl_tree.c:499-598 | The node from which balancing starts after a removal is one from which the climb repairs every frame |
| `AvlMoves.InnerGone` | src/wre_avl_tree.c:552-626 | Taking out a node with two children: balance, elements and nodes afterwards |
| `AvlMoves.OuterGone` | src/wre_avl_tree.c:493-551 | Taking out a node with at most one child: balance and elements afterwards |
| `AvlMoves.UpAddrs` | src/wre_avl_tree.c:194-219 | Rebalancing neither loses nor gains a node |
| `AvlClass.WreTree.constructor` | src/wre_avl_tree.c:437-444 | The empty tree |
| `AvlClass.WreTree.UpdateNode` | src/wre_avl_tree.c:48-71 | A node's height and weight recomputed from its children, nothing else changed |
| `AvlClass.WreTree.RotateLeft` | src/wre_avl_tree.c:73-113 | In memory the subtree becomes its left rotation, all links, tags, heights and weights exact |
| `AvlClass.WreTree.RotateRight` | src/wre_avl_tree.c:115-141 | The mirror image |
| `AvlClass.WreTree.FixRotateLeft` | src/wre_avl_tree.c:143-157 | A right-heavy node repaired in memory by one or two rotations |
| `AvlClass.WreTree.FixRotateRight` | src/wre_avl_tree.c:159-171 | A left-heavy node repaired in memory |
| `AvlClass.WreTree.ClimbOne` | src/wre_avl_tree.c:194-219 | One turn of the upward loop, the turn that a rotation adds included |
| `AvlClass.WreTree.BalanceUpwards` | src/wre_avl_tree.c:194-219 | Ends although a rotation moves its cursor down, with memory holding the repaired tree exactly |
| `AvlClass.WreTree.FindNode` | src/wre_avl_tree.c:173-192 | The place the search ends at: everything before it is lower, everything after it higher, and a node there is equal |
| `AvlClass.WreTree.Find` | src/wre_avl_tree.c:651-658 | The data of an element equal to the sought one, NULL exactly if there is none |
| `AvlClass.WreTree.Put` | src/wre_avl_tree.c:452-480 | All invariants hold again; the elements are the old ones with the new one after everything lower and before everything else; one node more |
| `AvlClass.WreTree.RemoveLeaf` | src/wre_avl_tree.c:499-525 | Unlinking a leaf and balancing from its sibling or parent |
| `AvlClass.WreTree.RemoveOverLeaf` | src/wre_avl_tree.c:493-533 | An only child, which balance makes a leaf, takes the node's place |
| `AvlClass.WreTree.FindReplacer` | src/wre_avl_tree.c:552-566 | The next element in order, at the end of the left path of the right subtree |
| `AvlClass.WreTree.Detach` | src/wre_avl_tree.c:567-598 | The replacer out of the structure, its right subtree in its place, and where balancing starts |
| `AvlClass.WreTree.MoveInto` | src/wre_avl_tree.c:601-626 | The replacer's links and those of its new neighbours |
| `AvlClass.WreTree.RemoveInner` | src/wre_avl_tree.c:552-630 | A node with two children taken out: exact tree, balance, elements, nodes |
| `AvlClass.WreTree.Remove` | src/wre_avl_tree.c:482-649 | All invariants hold again; exactly one element equal to the sought one is gone and returned, or none is and nothing changed; exactly its node is freed; the fallback for a missing start node is never needed |
| `AvlClass.WreTree.SubtreeSize` | src/wre_avl_tree.c:251-276 | Every assertion of the original holds on every node and the result is the weight of the elements |
| `AvlWeight.Weigh` | src/wre_avl_tree.c:299-340 | One turn of the weighted descent: the scaled ratio points to the same place in the chosen part |
| `AvlClass.WreTree.FindWeighted` | src/wre_avl_tree.c:278-364 | The node found covers `ratio` of the whole weight: the weight before it is at most that and with its own at least that; the fraction times its own weight is the rest; for weight zero it is the root |
| `RankingBuckets.RemoveBucket` | src/ranking.cpp:432-433 | Removing by hotness takes out the whole bucket and no other |
| `RankingBuckets.PutBucket` | src/ranking.cpp:454-456 | Putting an absent hotness adds its bucket and keeps the entries distinct and sorted |
| `RankingClass.Ranking.constructor` | src/ranking.cpp:273-296 | The empty ranking |
| `RankingClass.Ranking.Add` | src/ranking.cpp:422-468 | The bucket of the hotness grows by the size, all other buckets stay |
| `RankingClass.Ranking.RemoveRelaxed` | src/ranking.cpp:482-539 | Removes the smaller of the request and the bucket, returns it, and leaves the other buckets |
| `RankingClass.Ranking.Remove` | src/ranking.cpp:541-605 | The bucket shrinks by exactly the size if it holds that much; otherwise the unsigned difference wraps around, or nothing happens on an empty bucket |
| `TachankaBooks.EnrolledBalanced` | src/tachanka.c:99-157 | Registering a block keeps every type's count, size and fast-memory size equal to the sums over its blocks if and only if the block is recorded |
| `TachankaBooks.RankedIn` | src/tachanka.c:204-228 | Ranking and records agree after a registration |
| `TachankaBooks.RankedOut` | src/tachanka.c:230-282 | Ranking and records agree after a removal |
| `TachankaBooks.RankedMoved` | src/ranking.cpp:616-643 | Ranking and records agree after a type's hotness changed |
| `TachankaBooks.KindHolds` | src/tachanka.c:384-385 | A type holds at least what any of its blocks does, so a touch inside a block finds memory to move |
| `TachankaClass.FindLe` | src/critnib.c:714-731 | The greatest registered address not above the given one |
| `TachankaClass.Tachanka.constructor` | src/tachanka.c:433-455 | Empty records and an empty ranking |
| `TachankaClass.Tachanka.RegisterBlock` | src/tachanka.c:84-157 | The type's numbers grow; the block is recorded unless its address is in use |
| `TachankaClass.Tachanka.RegisterBlockInRanking` | src/tachanka.c:204-228 | The size goes into the bucket of the block's type |
| `TachankaClass.Tachanka.HandleCreate` | src/pebs.c:174-183 | All records and the ranking add up afterwards if and only if the address was not in use; then exactly this block, with its size, type and placement, is new; its type has one block and its size more, and starts with hotness 40 if new |
| `TachankaClass.Tachanka.UnregisterBlock` | src/tachanka.c:230-282 | The block at the address, and no other, is gone; its type has one block and its size less, and no number underflows; the bucket holds what is removed; everything adds up afterwards |
| `TachankaClass.Tachanka.MoveKind` | src/ranking.cpp:616-643 | All memory of a type, no more and no less, moves to the bucket of its new hotness |
| `TachankaClass.Tachanka.HandleTouch` | src/tachanka.c:331-414 | The type of the block around the address gets the new hotness, and no other type; everything adds up afterwards |
| `TachankaClass.Tachanka.HandleEvent` | src/pebs.c:172-228 | After every event: a created block is there with its size, type and placement, a reallocated one at its new address with type 0, a destroyed one is not, and every other is as before; new types have hotness 40, the type a touch hits its new hotness, all others what they had; every type's numbers, every bucket and the total equal the sums over the live blocks |
| `TachankaClass.Tachanka.Drain` | src/pebs.c:163-234 | After every run of events that creates blocks only at free addresses everything adds up, and the last event about an address decides: the block is there as created, or not there, or as before the run if no event is about it; the hotness of every type is what the events leave |
| `TachankaClass.DecidesOn` | src/pebs.c:172-234 | What one event does to the blocks continues what the run before it did |
| `TachankaClass.AfterHeat` | src/tachanka.c:331-414 | Only new types and the type that a touch hits change their hotness |
| `TachankaClass.CreatedTwice` | src/pebs.c:174-183 | Two creations at one address: the records no longer add up |
| `CkhTable.SwapCell` | jemalloc/src/ckh.c:161-165 | An eviction conserves table and carried item together, as a map |
| `CkhTable.NoRoomCrowds` | jemalloc/src/ckh.c:205-227 | An item that finds both its buckets full, with the stored ones, has two buckets that are each home to four other keys, in any table of that size |
| `CkhClass.Ckh.constructor` | jemalloc/src/ckh.c:360-415 | An empty table of the least power of two cells of which the requested items fill less than three quarters |
| `CkhClass.Ckh.BucketSearch` | jemalloc/src/ckh.c:63-75 | The cell of the key in the bucket, none exactly if it is not there |
| `CkhClass.Ckh.ISearch` | jemalloc/src/ckh.c:81-99 | The two buckets are enough: the cell of every key of the map, none for any other |
| `CkhClass.Ckh.Search` | jemalloc/src/ckh.c:523-540 | The value of the key in the map |
| `CkhClass.Ckh.Count` | jemalloc/src/ckh.c:438-443 | The number of keys of the map |
| `CkhClass.Ckh.TryBucketInsert` | jemalloc/src/ckh.c:102-125 | Adds the item, or finds every cell of the bucket full and changes nothing |
| `CkhClass.Ckh.EvictRelocInsert` | jemalloc/src/ckh.c:134-202 | However long the eviction chain, table and carried item hold the old items and the new one; the cell to evict from is never empty; a cycle leaves an item of the first bucket in hand and the new one in the table; a chain that has not ended has made all its evictions |
| `CkhClass.Ckh.TryInsert` | jemalloc/src/ckh.c:205-227 | Adds the item, or hands back the one that is left over, and then the keys crowd a table of this size |
| `CkhClass.Ckh.Rebuild` | jemalloc/src/ckh.c:235-254 | The new table holds the old one's map, or its keys crowd a table of this size and the count is put back |
| `CkhClass.Ckh.Grow` | jemalloc/src/ckh.c:257-309 | A larger table with the same map, the sizes between being crowded; or the old table exactly, cell by cell, and then memory was refused or every larger size is crowded; or a rebuild that has not ended, at a size that was granted and is crowded like those between |
| `CkhClass.Ckh.Shrink` | jemalloc/src/ckh.c:312-357 | The same map, in half the table, or in the old one if half is no size class, is refused or is crowded; or a rebuild at half the size, which is crowded, has not ended |
| `CkhClass.Ckh.Insert` | jemalloc/src/ckh.c:467-488 | The map gains exactly the key; it fails only if memory is refused or the keys crowd every size from the present one up, and then lacks exactly the item that was carried; it never fails where the keys do not crowd the present table |
| `CkhClass.Ckh.Remove` | jemalloc/src/ckh.c:490-521 | The map loses exactly the key and its value is returned, or the key was not there; the table is halved when it is less than a quarter full and half is to be had; only a rebuild at a crowded half may not have ended |
| `BinSlabs.Refiled` | jemalloc/src/arena.c:1013-1062 | A slab that goes from one list to another that suits it leaves every slab in exactly one place |
| `BinClass.Bin.constructor` | jemalloc/src/arena.c:1942-2080 | An empty bin |
| `BinClass.Bin.RegAlloc` | jemalloc/src/arena.c:270-284 | The lowest free region of the current slab, not in use before, is in use |
| `BinClass.Bin.LowerSlab` | jemalloc/src/arena.c:1658-1683 | The slab becomes current exactly if it is older than the current one, which then goes where its free regions say; otherwise it is nonfull |
| `BinClass.Bin.NonfullTryget` | jemalloc/src/arena.c:1029-1040 | A slab with free regions out of the heap, none exactly if it is empty |
| `BinClass.Bin.FillLoop` | jemalloc/src/arena.c:1380-1443 | Exactly as many regions not in use before as are still wanted, or all that there are, counted or carried over in the thread's phase |
| `BinClass.Bin.Fill` | jemalloc/src/arena.c:1459-1487 | The same from the start of an allocation: what is wanted, or the lock is dropped with no slab left that has a region |
| `BinClass.Bin.MallocHard` | jemalloc/src/arena.c:1308-1361 | Whatever other threads did meanwhile, at least one region is taken unless there is none and no slab in hand; the slab in hand is used, put away or freed |
| `BinClass.Bin.GrowResume` | jemalloc/src/arena.c:1265-1361 | A thread that comes back with a slab takes at least one region and goes on to what it wanted; without one it takes nothing only if no slab has a region; a superfluous slab leaves the bin |
| `BinClass.Bin.DropResume` | jemalloc/src/arena.c:1643-1655 | After a superfluous slab is freed the loop goes on to what was wanted, or to where no slab has a region |
| `BinClass.Bin.Dissociate` | jemalloc/src/arena.c:1621-1641 | A slab without regions in use is in the list that the number of regions names |
| `BinClass.Bin.Dalloc` | jemalloc/src/arena.c:1685-1709 | Exactly the region is free again; the slab leaves the bin exactly if it was its last region, else it is in the right list |
| `BinClass.Bin.FreeResume` | jemalloc/src/arena.c:1643-1709 | The counts follow after the slab of the last region is freed |
| `BaseMath.GapFits` | jemalloc/src/base.c:248-271 | The gap allowed for in a new block is enough wherever the block is mapped and whatever the alignment |
| `BaseBlocks.CountersInOrder` | jemalloc/src/base.c:198-229 | Allocated, resident and mapped memory are in order, block by block and in all |
| `BaseBlocks.CountersBumped` | jemalloc/src/base.c:212-221 | A bump adds its size to what is allocated and the pages it reaches into to what is resident |
| `BaseBlocks.BumpClear` | jemalloc/src/base.c:180-195 | A bump overlaps no earlier allocation of any block |
| `BaseBlocks.UsizeOk` | jemalloc/src/base.c:423-424 | A request takes the least multiple of its alignment, 16 at least, that is not below its size |
| `BaseBlocks.BumpLaid` | jemalloc/src/base.c:180-208 | Bumping the extent in hand keeps blocks apart, every extent in the heap of its floor class, and allocations apart |
| `BaseBlocks.MappedFiled` | jemalloc/src/base.c:323-325 | Filing one thread's block leaves the blocks that other threads have mapped clear |
| `BaseClass.Base.BumpAlloc` | jemalloc/src/base.c:180-240 | The fit assertion holds; the memory is aligned, inside its block and clear of every earlier allocation; the counters are exact and in order |
| `BaseClass.Base.Shelve` | jemalloc/src/base.c:198-208 | The extent is in the heap of the largest class it holds; the index never underflows |
| `BaseClass.Base.AllocFromAvail` | jemalloc/src/base.c:421-436 | The request is granted from an extent that has room whatever its gap, or every heap that the search looks at is empty |
| `BaseClass.Base.NoneLargeMeans` | jemalloc/src/base.c:423-435 | The heaps that are searched are those of every class that is enough for the request and the largest gap |
| `BaseClass.Base.BlockFits` | jemalloc/src/base.c:248-274 | The block size is enough for header, gap and request at every huge-page boundary, and at least a huge page |
| `BaseClass.Base.BlockLeast` | jemalloc/src/base.c:248-274 | The block size is the least number of huge pages that has room for header and request and is not below the next size of the series |
| `BaseClass.Base.MapBlock` | jemalloc/src/base.c:248-305 | Without the mutex: a block that fits the request, clear of every filed and every mapped one; nothing changes exactly when mapping fails |
| `BaseClass.Base.AddBlock` | jemalloc/src/base.c:308-342 | A new block keeps everything, its header counted |
| `BaseClass.Base.AllocFromNew` | jemalloc/src/base.c:308-453 | With the mutex back, whatever other threads did meanwhile, the thread's block is counted and filed and its request granted from it |
| `BaseClass.Base.AllocHard` | jemalloc/src/base.c:248-453 | Whatever the alignment and wherever the new block is mapped, the request is granted from it; nothing changes exactly when mapping fails; no other thread in between |
| `BaseClass.Base.FirstBlock` | jemalloc/src/base.c:350-393 | The first block, sized for an alignment of one quantum, has room for `base_t` aligned to a cache line, if header and `base_t` fit a huge page; nothing changes exactly when mapping fails |
| `DecayBacklog.DropMonotone` | jemalloc/src/background_thread.c:102-113 | With nondecreasing weights the prediction grows with the interval |
| `DecayBacklog.DotSet` | jemalloc/src/arena.c:551-568 | A backlog of zeros sums to nothing, and each entry adds its own weight for every page in it |
| `DecayBacklog.TurnsLeft` | jemalloc/src/background_thread.c:174-187 | Each turn of the binary search halves the bracket, so there are at most seven |
| `DecayBacklog.CrossingEnds` | jemalloc/src/background_thread.c:163-189 | Predictions at the two ends of a bracket decide about every number of steps below and above it |
| `DecayClass.Decay.NpagesLimit` | jemalloc/src/arena.c:551-568 | The weighted sum of the backlog, scaled down |
| `DecayClass.Decay.BacklogUpdate` | jemalloc/src/arena.c:571-608 | The backlog moved on by the steps passed, zeros behind it, the pages added since in the last place |
| `DecayClass.Decay.NpurgeAfter` | jemalloc/src/background_thread.c:102-113 | The drop of the weighted sum that advancing so many steps without new pages causes |
| `DecayClass.Decay.Bracket` | jemalloc/src/background_thread.c:172-187 | The threshold stays between the predictions at the two ends and the asserted bound on the turns holds |
| `DecayClass.Decay.FirstStepsFit` | jemalloc/src/background_thread.c:153-156 | The search begins at as many steps as fit into the minimum interval, and at two at least |
| `DecayClass.Decay.ComputeInterval` | jemalloc/src/background_thread.c:116-198 | Indefinite sleep exactly if decay is off or nothing waits; the longest one for few pages; the minimum where steps are too short; otherwise the middle of steps between which the prediction crosses the threshold, or the first step if that exceeds it, or the last if none reaches it; never less than the minimum |
| `SlabBitmap.OneByOneUnique` | jemalloc/src/arena.c:270-284 | What a number of lowest-first allocations hand out and leave is determined |
| `SlabBitmap.OneByOneLowest` | jemalloc/src/arena.c:270-284 | Lowest-first allocations hand out free regions in rising order, leave only higher ones free and change nothing else |
| `SlabClass.RegionsApart` | jemalloc/src/arena.c:280-281 | Regions lie end to end from the slab's address on, and the last ends within it |
| `SlabClass.Slab.RegAlloc` | jemalloc/src/arena.c:270-284 | The lowest free region, which is then the only one no longer free; its bytes lie within the slab and apart from those of every other region |
| `SlabClass.TakeBits` | jemalloc/src/arena.c:318-327 | The lowest bits of one word are the next regions one by one |
| `SlabClass.Slab.RegAllocBatch` | jemalloc/src/arena.c:286-332 | The same addresses in the same order, the same bitmap and the same count as one by one; the regions' bytes lie within the slab, apart from each other and from those of every other region |
| `PoolSlots.SlotsApart` | src/slab_allocator.c:87-100 | A slot ends one element size behind its start, and where the next begins or before: different slots have no byte in common |
| `PoolClass.Pool.constructor` | src/slab_allocator.c:104-118 | Nothing used; the declared size is the least whole number of pages that holds the requested elements, 16 GiB if none are asked for |
| `PoolClass.Pool.Pop` | src/slab_allocator.c:72-80 | The first slot of the free list, backed by memory, is live; none exactly if the list is empty |
| `PoolClass.Pool.ClaimNew` | src/slab_allocator.c:84-89 | A slot index no other thread has |
| `PoolClass.Pool.LookAtTop` | src/bigary.c:67-70 | The slot is handed out at once exactly if its memory is there |
| `PoolClass.Pool.Enlarge` | src/bigary.c:67-86 | Where the slot is above `top`, `top` becomes the end of the slot rounded up to pages; the program ends exactly if that exceeds what is declared; otherwise `top` stays |
| `PoolClass.Pool.Finish` | src/slab_allocator.c:87-100 | A slot is handed out live exactly once, below `top`; live, free and claimed slots remain a partition of all used ones |
| `PoolClass.Pool.Free` | src/slab_allocator.c:63-70 | The slot is no longer live and is at the head of the free list |
| `LocklessList.WrongHead` | src/slab_allocator.c:40-50 | A head other than the second element leads to no list of the remaining free slots |
| `LocklessList.FreeList.PushSwap` | src/slab_allocator.c:32-38 | A push is right under every interleaving |
| `LocklessList.FreeList.PopSwap` | src/slab_allocator.c:40-50 | A successful pop leaves the rest of the free list if and only if the link it read is still the slot's link; with one popper at a time it always is |
| `LocklessList.TwoPoppers` | src/slab_allocator.c:40-50 | With two poppers a live slot comes to the head of the free list |
| `NumberText.RoundTrip` | jemalloc/src/malloc_io.c:113-275 | For every 64-bit number and base 2 to 36 parsing the printed digits gives the number and consumes them all without tripping the overflow test |
| `NumberText.Characters` | jemalloc/src/malloc_io.c:132-275 | The digits printed are those of the two rows of digits and letters; white space is blank and the five control characters from tab on |
| `NumberText.DigitValue` | jemalloc/src/malloc_io.c:197-199 | A character has a value exactly if it is in one of the two rows, and it is its place there |
| `NumberText.DigitsMean` | jemalloc/src/malloc_io.c:234-275 | What is printed stands for the number, in digits of the base alone and without a zero in front |
| `NumberText.OctalRoundTrip` | jemalloc/src/malloc_io.c:304-313 | So with the octal prefix and base 0 or 8 |
| `NumberText.HexRoundTrip` | jemalloc/src/malloc_io.c:315-324 | So with the hexadecimal prefix and base 0 or 16 |
| `NumberText.DecimalRoundTrip` | jemalloc/src/malloc_io.c:276-302 | So for signed decimals above `INTMAX_MIN`, up to two's complement |
| `NumberText.ReadsEveryNumber` | jemalloc/src/malloc_io.c:195-210 | The digit loop on every string: a number that fits is read exactly; an overflow is seen if and only if at some digit the number modulo 2^64 comes round below what it was |
| `NumberText.OverflowMissed` | jemalloc/src/malloc_io.c:200-208 | Sixty-five ones in base 2 are read as the largest number without an error |
| `NumberStandard.ParsesEveryString` | jemalloc/src/malloc_io.c:113-232 | For every string and base: all digits are read, and a number that fits exactly, if and only if the parser does not stop at a zero; an overflow is reported if and only if it does not stop at a zero and the number comes round at some digit; nothing to read is reported if and only if there is no digit |
| `NumberStandard.LeadingZeroLost` | jemalloc/src/malloc_io.c:185-188 | "09" in base 10 and "0a" in base 16 are read as zero, up to the first character |
| `NumberStandard.NumberReads` | jemalloc/src/malloc_io.c:147-210 | Prefix and digits are read as the standard says unless the parser stops at a zero |
| `NumberIO.U2s` | jemalloc/src/malloc_io.c:234-275 | The digits, written from the end of the buffer and never past its front |
| `NumberIO.D2s` | jemalloc/src/malloc_io.c:276-302 | The sign asked for, or a minus, before the decimal digits, within the buffer |
| `NumberIO.O2s` | jemalloc/src/malloc_io.c:304-313 | The octal digits, with a zero in front in the alternate form unless the number is zero, within the buffer |
| `NumberIO.X2s` | jemalloc/src/malloc_io.c:315-324 | The hexadecimal digits, with `0x` or `0X` in front in the alternate form, within the buffer |
| `NumberIO.ConvertLoop` | jemalloc/src/malloc_io.c:190-206 | The digit loop with its wrap-around and overflow test |
| `NumberIO.ReadNumber` | jemalloc/src/malloc_io.c:147-210 | The prefix decides base and start as the parsing function says |
| `NumberIO.StrToUmax` | jemalloc/src/malloc_io.c:113-232 | Whitespace, sign, prefix, digits, error codes and end position as the parsing function defines them; a base below 0, 1 or above 36 is EINVAL with nothing consumed |

## Left out

- Weak memory orders: every load, store and atomic operation is sequentially consistent.
- `critnib_new`, `critnib_delete` and the wrap-around of the 64-bit remove counter; loads of memory that only the lock holder writes are part of the step that uses them.
- `critnib_find_le` and its like while writers run: they read slots several times without a snapshot; ordered search is on a tree at rest.
- CritnibAttempts.AttemptEnds: one way only; whether an attempt that has been overtaken ends depends on what the reuse pools hold then.
- Critnib allocation: slab memory is zero-filled when first handed out and may run out at any time; which address it has is open.
- The tree's `size` field, which the original never initialises; `wre_clone`, `wre_destroy`; `wre_find_node_left`, `wre_find_node_right` and the interpolated search, for which the code decides no clear meaning.
- AvlClass.WreTree.FindWeighted: over real numbers instead of `double`; the fraction of a node of weight zero, a division of zero by zero in the original, is absent.
- Heights and weights in the tree are unbounded naturals, as are sizes in ranking and records except where a subtraction can wrap around.
- The hotness formulas, the PI controller and the threshold: a touch carries whatever hotness the formula gives.
- `realloc_block`, which the event loop does not call; touch callbacks; the race of two threads creating the same type.
- CkhClass.Ckh.EvictRelocInsert: whether a chain ends depends on the pseudo-random numbers; its contract covers every number of evictions followed, and a caller whose chain has not ended promises that no item is altered or made up, not that none is missing.
- `ckh_iter` and the hash functions; the hash is any function, key comparison is equality.
- BinClass.Bin.Fill: manual arenas only, since automatic ones do not list full slabs; which of the nonfull slabs the heap yields is open, as is the order of slabs by age.
- Profiling, junk filling, statistics other than `curregs`, `curslabs` and `nonfull_slabs`, and `arena_reset`.
- BaseClass.Base.AllocHard: a call alone; the interleaved form is BaseClass.Base.MapBlock and BaseClass.Base.AllocFromNew, with other threads' calls in between.
- BaseClass.Base.BlockFits: `pind_last` is updated without the mutex in the original, so its value is open to other threads; that there is room does not depend on it.
- Transparent huge pages, extent hooks, serial numbers and unmapping in the base allocator.
- DecayClass.Decay.ComputeInterval: the case of a contended mutex, and overflow of the 64-bit sums, are not modelled.
- SlabClass.Slab.RegAllocBatch: a word is the set of its one bits; the tree form of the bitmap is not modelled.
- PoolClass.Pool.Pop: the free list is under its mutex; the form without it is in LocklessList.
- LocklessList.FreeList.PopSwap: spurious failure of the weak compare-and-swap is the same as finding another head.
- NumberText.DecimalRoundTrip: `INTMAX_MIN`, whose negation overflows.
- `malloc_vsnprintf` and the rest of the formatting.
- NUMA, hwloc, daxctl, mmap, perf, pthread and environment handling, logging, heatmaps, C++ wrappers and TBB shims.
