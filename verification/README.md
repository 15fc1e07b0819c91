# Verified models of the RefinedC repository

Dafny models of the algorithmic core of the repository: the translation of C statements to
control-flow graphs in the frontend, and the C allocators, locks, schedulers and containers among
the examples and case studies.  `dafny verify dfyconfig.toml` checks everything.

* **Translation of statements** (`CSource`, `Cfg`, `Translate`, `TranslateFacts`,
  `TranslateAccepts`, `LabelInstances`, `Preservation`, `BodyPreservation`, `IfJoins`).  Structured C statements run by a
  fuel-indexed big-step semantics, blocks by a small-step one; expressions are arbitrary deterministic
  functions on an abstract state.  `goto`, labels and `case` labels at any depth, also inside loops,
  are covered: the source semantics has a mode that seeks a label.  The emitted blocks return, get
  stuck and run forever exactly when the source does, for every body that is accepted, and the bodies
  that are accepted are characterised.
* **Buddy page allocator** (`BuddyBlocks`, `PoolState`, `PageReferences`, `PagePool`).  Page records and free lists are
  updated in place.  The invariant of all operations says that free list `k` holds exactly the largest
  wholly free aligned blocks of order `k`, that every page is free, in one allocated block or unmanaged,
  and what each page record contains.
* **B-tree** (`BTreeNode`, `BTree`, `BTreeHeap`, `BTreeGrowth`, `BTreeClimb`, `BTreeStore`, `BTreeMap`).
  The node arrays are shifted and split in place, for any order from 3 on.  `BTreeStore` keeps the nodes
  with their arrays at addresses; search and insertion of `BTreeMap` run on it, with recorded paths of
  places that hold addresses, and are related to trees as values.
* **Ticket lock** (`TicketLock`, `TicketLockProgress`, `TicketLockOvertaking`).  Interleavings of atomic
  accesses of any number of threads, over any number of resets of the ticket dispenser.  A thread that
  has a ticket enters in every schedule in which the holders of tickets keep moving; a thread without one
  may be overtaken any number of times.
* **Hash map** (`HashSlots`, `HashMap`), **permutations** (`Permutations`), **message scheduler**
  (`PrioBitmap`, `MessageQueue`, `Npfp`, `SchedulerRun`, `SchedulerRounds`), **memory pool** (`MPool`, `MPoolRuns`), **circular lists**
  (`CircularList`).

Operations that hold a lock are one atomic step each.  What the models take from their surroundings is a
parameter: the evaluation of expressions, the order in which threads move, the results of `read`, the
type and callback of a message, the contract of `sort` and of rounding a pointer up.

Some contracts of the translation have the form `true == P(...)`, which states `P(...)` and keeps the
predicate one fact for the verifier.

Findings:

* The translation rejects a body, which C permits, when it meets a `case` or `default` label after the
  `default` of the same `switch`.  It meets labels in its own order: what follows a branch or loop comes
  before the inside.  So `default: ; case 1: ;` is rejected, `if (c) case 1: ; else ; default: ;` is
  rejected although the default is last in the text, and `if (c) default: ; else ; case 1: ;` is
  accepted (`LabelInstances`).  `TranslateAccepts.TranslationAccepts` gives the exact condition.
* `permut` returns the empty list for the empty array, which has one permutation
  (`Permutations.Permut`).
* A `read` that fails for another reason than that it would block makes the scheduler dequeue at once,
  without a complete round of polling; `SchedulerRun.PollsBeforeDequeue` gives the exact condition and
  `SchedulerRun.FailureSkipsPolling` an instance.
* `insert_br` reads one entry past the arrays of a node exactly when the node is full and the new key
  belongs at an index below `ORDER / 2` (`BTreeNode.Node.InsertBr`).  The extra entry is written right
  behind the used part of the new node and does not affect it, whatever it contains
  (`BTreeNode.OverrunHarmless`).  The model lets the entry be arbitrary.
* `hyp_get_page` counts up the references of any page, in 32 bits.  The records of the pages afterwards
  describe a pool exactly when the page starts an allocated block and its counter does not wrap around,
  or is unmanaged, or is an allocated block of one page (`PageReferences.GetKeepsPool`): then an
  unmanaged page counts as allocated, and a single page whose counter wraps around as unmanaged.  On any
  other page, such as one that is free (`PageReferences.GetOnFreePage`), no division of the range into
  free, allocated and unmanaged pages fits the records.
* The ticket lock is not free of starvation: a thread can lose the compare-exchange in every round
  (`TicketLockOvertaking.NoBoundWithoutTicket`).
* The comment of `mpool_add_chunk` speaks of adding only the aligned portions of a chunk; the code rounds
  nothing and takes chunks that are aligned, and so does the model.
* `list_swap` does not exchange the nodes if they are in different lists and the second one is alone in
  its ring; otherwise it does (`CircularList.ListSwap`).
* `list_replace` also works on a node that is alone, because its own stores make the node it reads
  back consistent (`CircularList.ListReplace`).

## Model

| member | source | states |
|---|---|---|
| `BodyPreservation.BodyPreserved` | frontend/ail_to_coq.ml:1564-1573 | for every accepted body, state and value: the blocks return that value in that state exactly when the source body does, and get stuck exactly when the source jumps to a missing label |
| `BodyPreservation.EntrySim` | frontend/ail_to_coq.ml:1564-1573 | a source run that uses up any fuel is matched by a run of the blocks of at least that many steps, so divergence is preserved |
| `Preservation.Simulation` | frontend/ail_to_coq.ml:1032-1434 | running the code of any statement list reaches, with the same state, the continuation-stack target for the way the source ends: normally, by break, continue, return or goto |
| `Preservation.IfSim` | frontend/ail_to_coq.ml:1216-1243 | the same for `if`, entered from above or by a jump into a branch |
| `Preservation.LoopSim` | frontend/ail_to_coq.ml:1244-1293 | the same for `while` and `do`, including `continue` to the condition and jumps into the body |
| `Preservation.SwitchSim` | frontend/ail_to_coq.ml:1294-1344 | the same for `switch`: dispatch to the case with the value, the default or the exit |
| `Preservation.CaseSim` | frontend/ail_to_coq.ml:1345-1399 | the same for `case` and `default` labels, with fallthrough to the next label |
| `Preservation.LabelSim` | frontend/ail_to_coq.ml:1400-1403 | the same for user labels |
| `IfJoins.JoinIsRest` | frontend/ail_to_coq.ml:1216-1243 | the branch emitted for an `if` carries no join label exactly if nothing follows the `if`; otherwise its join is a new block that holds the code of what follows, under the same continuations |
| `IfJoins.BranchesMeet` | frontend/ail_to_coq.ml:1216-1243 | each of the two branches, when it ends normally, arrives at the block that the join label names, in the state of the source, or at the continuation of the list if nothing follows |
| `TranslateAccepts.TranslationAccepts` | frontend/ail_to_coq.ml:1032-1434 | the translation of a body succeeds exactly when break, continue and case labels are placed as C demands, user labels are unique, and no case or default is met after the default of its switch in the order of translation, where what follows a branch or loop comes before its inside; the emitted user labels are exactly those of the body |
| `TranslateAccepts.Accepts` | frontend/ail_to_coq.ml:1032-1434 | the same condition for any statement list under any continuation stack and switch data, with what the translation leaves of them; new blocks have user labels of the list or generated labels of its own range |
| `LabelInstances.DefaultFirstRejected` | frontend/ail_to_coq.ml:1345-1399 | a case behind the default is rejected, at a concrete switch |
| `LabelInstances.CaseInBranchRejected` | frontend/ail_to_coq.ml:1216-1399 | a case inside a branch before the default is rejected, too, because the default is met first |
| `LabelInstances.DefaultInBranchAccepted` | frontend/ail_to_coq.ml:1216-1399 | a default inside a branch with a case behind the branch is accepted |
| `TranslateFacts.TransGrows` | frontend/ail_to_coq.ml:889-896 | translation only adds blocks and never overwrites one, and the label counter never falls |
| `BuddyBlocks.XorIsBuddy` | linux/casestudies/page_alloc.c:370-382 | flipping the order bit of the address of an aligned block gives the address of its buddy |
| `BuddyBlocks.CanonicalStep` | linux/casestudies/page_alloc.c:409-428 | taking away or adding one largest free block changes nothing about the others |
| `BuddyBlocks.CanonicalAbove` | linux/casestudies/page_alloc.c:496-510 | every wholly free aligned block lies in a largest one, of the same or a higher order |
| `PoolState.ListedIsCanonical` | linux/casestudies/page_alloc.c:394-435 | in a tidy pool the first page of an aligned block of order k is on list k exactly when the block is wholly free and k is the maximum or its parent is not wholly free |
| `PagePool.HypPool.FindsBuddy` | linux/casestudies/page_alloc.c:370-382 | the search by exclusive or finds the buddy of an aligned block, or nothing if it is outside the range |
| `PagePool.HypPool.ListDelInit` | linux/casestudies/page_alloc.c:419-419 | taking a largest free block off its list makes its pages spare and keeps everything else tidy |
| `PagePool.HypPool.ListAdd` | linux/casestudies/page_alloc.c:431-434 | entering a spare block that cannot be joined with its buddy makes its pages free |
| `PagePool.HypPool.TakeBuddy` | linux/casestudies/page_alloc.c:418-428 | one step of coalescing: the two buddies form a spare block of the next order at the lower of the two pages |
| `PagePool.HypPool.Coalesce` | linux/casestudies/page_alloc.c:401-428 | the loop ends with a block that together with the free pages left makes up the old free pages and the given block, and cannot be joined further |
| `PagePool.HypPool.Attach` | linux/casestudies/page_alloc.c:394-435 | the block becomes free, all records and lists are tidy again, no page outside the range changes; the joined block is the first one of its list, each list of a lower order it passed has lost one block, and the others are unchanged |
| `PagePool.HypPool.Extract` | linux/casestudies/page_alloc.c:462-485 | refuses a block that is too small; otherwise hands out the lowest part of the requested order and frees the rest: each upper half becomes the last block of its list |
| `PagePool.HypPool.Split` | linux/casestudies/page_alloc.c:475-480 | one step of splitting: the upper half becomes free, the lower half stays spare |
| `PagePool.HypPool.SplitDown` | linux/casestudies/page_alloc.c:474-480 | the loop ends with a spare block of the requested order at the same page, and all else of the block free |
| `PagePool.HypPool.Alloc` | linux/casestudies/page_alloc.c:496-526 | returns NULL exactly when the order is above 11 or no aligned run of that many pages is free; otherwise the block is the lowest part of the first block on the list of the lowest sufficient order that has one, the lists change exactly as splitting it demands, and exactly 2^order pages leave the free set |
| `PagePool.NothingFits` | linux/casestudies/page_alloc.c:502-506 | empty lists from the order upwards mean that no aligned run is free |
| `PagePool.HypPool.Get` | linux/casestudies/page_alloc.c:451-459 | adds one reference to the record of any page of the pool, in 32 bits, and changes no other record; some division of the range fits the records afterwards exactly when the page starts an allocated block whose count does not wrap, is unmanaged or is an allocated block of one page, and then the pool is valid |
| `PageReferences.GetKeepsPool` | linux/casestudies/page_alloc.c:451-459 | the same about page records, for every tidy and complete pool and every page |
| `PageReferences.GetOnFreePage` | linux/casestudies/page_alloc.c:451-459 | one more reference to a free page leaves records that fit no division of the range |
| `PageReferences.OneMoreIs` | linux/casestudies/page_alloc.c:457-457 | the counter has 32 bits and begins again at 0 |
| `PagePool.HypPool.Put` | linux/casestudies/page_alloc.c:437-449 | panics exactly on a page that does not start an allocated block; the last reference frees exactly its pages and puts the joined block in front of its list |
| `PagePool.DropCount` | linux/casestudies/page_alloc.c:437-449 | the number of free pages grows by 2^order when the last reference is dropped, and otherwise not at all |
| `PagePool.HypPool.Init` | linux/casestudies/page_alloc.c:530-566 | refuses an unaligned address with -22; otherwise all pages but the used ones are free and the invariant holds, whatever the records contained, and each free list begins with its highest page |
| `PagePool.HypPool.AllocThenPut` | linux/casestudies/page_alloc.c:437-526 | allocating a block and giving it back restores the content of every free list |
| `PagePool.SameBlocks` | linux/casestudies/page_alloc.c:394-435 | the set of free pages determines the content of every free list up to order |
| `PagePool.Partition` | linux/casestudies/page_alloc.c:530-566 | each page of the range is in exactly one place: free, unmanaged or in one allocated block |
| `BTreeNode.KeyIndex` | examples/btree.c:69-81 | the index before which all keys are smaller and at which none is |
| `BTreeNode.Halves` | examples/btree.c:169-260 | the three ways of splitting a full node all amount to inserting first and cutting at the median |
| `BTreeNode.Node.InsertBr` | examples/btree.c:139-261 | the arrays hold the node with the new entry, or its part left of the median, with the right part in a new node of the same height; one entry is read past the arrays exactly when a full node is split with the new key left of the median, and none otherwise |
| `BTreeNode.OverrunHarmless` | examples/btree.c:181-186 | the entry read past the arrays, whatever it contains, leaves the used part of the new node as it is |
| `BTreeStore.Store.KeyIndexIn` | examples/btree.c:69-81 | searching the key array of a node in memory gives the place of the key and whether it is there |
| `BTreeStore.Store.InsertBr` | examples/btree.c:139-261 | runs the array loops of the node in memory: exactly this node changes, to the node with the new entry or its part left of the median, and the right part is a new node |
| `BTreeGrowth.Split` | examples/btree.c:139-261 | after a split the memory holds the tree with the left half in place and apart from it the right half, sharing no node |
| `BTreeGrowth.SplitEntries` | examples/btree.c:139-261 | a split keeps all entries in order around the median |
| `BTreeGrowth.SplitBalanced` | examples/btree.c:146-163 | both halves have between ORDER - ORDER/2 - 1 and ORDER - 1 keys and the height of the node |
| `BTreeGrowth.SlotOnPath` | examples/btree.c:334-348 | a median that goes up belongs exactly where the path left the node |
| `BTreeMap.Map.Find` | examples/btree.c:120-132 | finds, exactly for the keys of the map, the cell that holds the value of the key |
| `BTreeMap.Map.Member` | examples/btree.c:98-116 | tells whether the key is in the map |
| `BTreeMap.Map.MakeRoot` | examples/btree.c:275-294 | a root of one key over two trees of equal height completes a valid tree with all entries in order, one higher than before |
| `BTreeMap.Map.Descent` | examples/btree.c:305-323 | ends at the cell of a key that is there, or at the empty place where it belongs with the path to it and the indices taken recorded in arrays sized by the height |
| `BTreeMap.Map.Overwrite` | examples/btree.c:315-318 | writing through the cell of a key makes the map m[k := v] and keeps the tree valid |
| `BTreeMap.Map.InsertOnPath` | examples/btree.c:334-348 | one step of the way up completes the tree exactly when the node has room; otherwise the node is split and the median is what is left to insert one level higher |
| `BTreeMap.Map.Climb` | examples/btree.c:334-348 | the way up keeps the memory, the entries in order and the shape, and it ends with a split root exactly when all nodes on the path are full |
| `BTreeMap.Map.Up` | examples/btree.c:329-351 | the key is in the map, and the height grows by one exactly when all nodes on the path are full |
| `BTreeMap.Map.Insert` | examples/btree.c:297-357 | the map becomes m[k := v]; keys stay strictly ordered, the tree balanced, nodes within their bounds and unshared; the height grows by one exactly when the key is new and all nodes on the way to its place are full |
| `TicketLock.MutualExclusion` | linux/pkvm/spinlock.c:32-69 | in every reachable state at most one thread is between entering and releasing, and none while the dispenser is reset, by at most one thread |
| `TicketLock.TicketsOutstanding` | linux/pkvm/spinlock.c:19-69 | outside the reset window the tickets owner to next - 1 and no others are held, each once; during it none is |
| `TicketLock.SixteenBits` | linux/pkvm/spinlock.c:19-69 | in every reachable state both counters fit in 16 bits and every ticket is below 0xFFFF |
| `TicketLock.WaitsForReset` | linux/pkvm/spinlock.c:38-43 | a thread that reads the dispenser waits exactly at 0xFFFF and otherwise tries to take the ticket it has read |
| `TicketLock.EntryOrder` | linux/pkvm/spinlock.c:36-51 | threads enter in the order of their successful compare-exchanges, over the whole run |
| `TicketLock.RecordsGrow` | linux/pkvm/spinlock.c:32-69 | tickets taken and entries made are never undone by later steps |
| `TicketLock.FifoForever` | linux/pkvm/spinlock.c:36-69 | the k-th ticket taken is the k-th entry of every future, across resets |
| `TicketLock.DispenserEmpty` | linux/pkvm/spinlock.c:39-69 | when no ticket is left, a thread holds the owner's ticket or is resetting |
| `TicketLock.EveryThreadCanEnter` | linux/pkvm/spinlock.c:32-69 | from every reachable state each thread can be brought into the critical section |
| `TicketLockProgress.HolderEnters` | linux/pkvm/spinlock.c:32-69 | a thread that waits with ticket t enters in every schedule that begins with 3 * (t - owner) + 1 rounds, where a round is any sequence of steps in which each thread that holds a ticket at its start moves at least once; other threads may stand still |
| `TicketLockProgress.FairEnters` | linux/pkvm/spinlock.c:32-69 | a waiting thread enters in every endless schedule in which each thread that holds a ticket moves again |
| `TicketLockOvertaking.NoBoundWithoutTicket` | linux/pkvm/spinlock.c:36-47 | for every number of rounds there is a schedule in which both of two threads move in every round and one, always asking for the lock, never gets a ticket |
| `TicketLockProgress.OwnerSteps` | linux/pkvm/spinlock.c:46-69 | each step of the holder of the owner's ticket brings a waiting thread in or strictly closer |
| `TicketLockProgress.OthersStep` | linux/pkvm/spinlock.c:32-51 | no step of another thread changes how far a waiting thread has to go |
| `Permutations.Next` | examples/VerifyThis2021/challenge1.c:32-89 | yields the immediate lexicographic successor, or false with the array unchanged exactly at the greatest permutation |
| `Permutations.ReverseFrom` | examples/VerifyThis2021/challenge1.c:71-86 | the third loop reverses the end of the array |
| `Permutations.Sort` | examples/VerifyThis2021/challenge1.c:115-115 | the declared contract of `sort` |
| `Permutations.SteppedIsSuccessor` | examples/VerifyThis2021/challenge1.c:32-89 | no permutation lies between the arrays before and after the three loops |
| `Permutations.PermsAre` | examples/VerifyThis2021/challenge1.c:144-170 | the finite set of permutations that the loop's termination measure counts consists of exactly the permutations |
| `Permutations.SuccessorShrinks` | examples/VerifyThis2021/challenge1.c:163-166 | fewer permutations lie above a successor, so the loop ends |
| `Permutations.Permut` | examples/VerifyThis2021/challenge1.c:144-170 | lists every distinct permutation of a non-empty array once, in increasing order |
| `HashSlots.HomeIs` | examples/mutable_map.c:99-102 | the home slot of a key is its remainder |
| `HashMap.LimitIs` | examples/mutable_map.c:221-221 | a length is below the limit exactly when 17 more slots would still fit twice in the address space, and then the doubled array is one that `fsm_init` accepts |
| `HashMap.SizeMaxIs` | examples/mutable_map.c:221-221 | sizes have 64 bits |
| `HashSlots.ProbeFinds` | examples/mutable_map.c:113-132 | probing stops at the slot of a key that has one, entry or tombstone |
| `HashSlots.PlaceKeeps` | examples/mutable_map.c:141-197 | writing an entry or tombstone where probing stops keeps each key in one slot, reachable from its home slot without an empty one before it |
| `HashSlots.CopiedAll` | examples/mutable_map.c:234-239 | copying the entries of all slots copies the map |
| `HashMap.FixedSizeMap.constructor` | examples/mutable_map.c:68-94 | an empty map with all slots empty, for every length whose array fits in the address space |
| `HashMap.FixedSizeMap.Probe` | examples/mutable_map.c:113-132 | terminates, with wrap-around, at the slot of the key or the empty slot where it belongs |
| `HashMap.FixedSizeMap.Insert` | examples/mutable_map.c:141-157 | hangs exactly when one empty slot is left and the length is at least SIZE_MAX / 2 / 24 - 16; otherwise the map becomes m[k := v] and the old value is returned; terminates together with resizing |
| `HashMap.FixedSizeMap.Get` | examples/mutable_map.c:165-174 | the value of the key in the map, or none |
| `HashMap.FixedSizeMap.Remove` | examples/mutable_map.c:184-197 | removes the key from the map and returns its value |
| `HashMap.FixedSizeMap.ReallocIfNecessary` | examples/mutable_map.c:216-242 | with fewer than two empty slots keeps the map, doubles the length, drops all tombstones and leaves at least as many empty slots as there were slots, or hangs exactly from length SIZE_MAX / 2 / 24 - 16 on; otherwise changes nothing |
| `PrioBitmap.FfsFinds` | examples/scheduler/include/fdsched/priority.h:68-74 | find-first-set gives the lowest set bit of a word, or 0 |
| `PrioBitmap.Bitmap.constructor` | examples/scheduler/include/fdsched/priority.h:37-47 | no level is marked |
| `PrioBitmap.Bitmap.HighestPendingPriority` | examples/scheduler/include/fdsched/priority.h:60-77 | the lowest marked level over all four words, or -1 exactly when none is |
| `PrioBitmap.Bitmap.Set` | examples/scheduler/include/fdsched/priority.h:97-101 | marks this level and no other |
| `PrioBitmap.Bitmap.Clear` | examples/scheduler/include/fdsched/priority.h:112-116 | clears this level and no other |
| `MessageQueue.Queue.Add` | examples/scheduler/include/fdsched/message.h:66-70 | appends through the pointer to the last link, also to an empty queue |
| `MessageQueue.Queue.IsEmpty` | examples/scheduler/include/fdsched/message.h:79-81 | whether the queue has no message |
| `MessageQueue.Queue.Remove` | examples/scheduler/include/fdsched/message.h:90-104 | removes the first message and resets the pointer to the last link when the queue becomes empty |
| `Npfp.Scheduler.constructor` | examples/scheduler/src/fdsched.c:35-69 | 256 queues, all empty, all levels unmarked and the priorities of all 256 message types 0 |
| `Npfp.Scheduler.SetCallback` | examples/scheduler/src/fdsched.c:102-105 | changes the priority of one message type |
| `Npfp.Scheduler.Enqueue` | examples/scheduler/include/fdsched/scheduler.h:60-69 | appends the message to the linked queue of the priority of its type; the other queues are untouched and a level is marked exactly when its queue is not empty |
| `Npfp.Scheduler.Dequeue` | examples/scheduler/include/fdsched/scheduler.h:90-107 | unlinks and returns the first message of the first non-empty queue, or nothing exactly when all are empty; keeps the marks exact |
| `SchedulerRun.DispatchesFirst` | examples/scheduler/src/fdsched.c:279-307 | in every run each dispatched message precedes, by priority and then by order of reading, all others read and not yet dispatched; the loop is idle exactly when there is none |
| `SchedulerRun.PollsBeforeDequeue` | examples/scheduler/src/fdsched.c:159-288 | each dequeue follows a round in which every channel was read once and found empty, exactly when the last read did not fail for another reason |
| `SchedulerRun.FailureSkipsPolling` | examples/scheduler/src/fdsched.c:279-288 | a failing read leads to a dequeue without such a round |
| `SchedulerRounds.RoundRun` | examples/scheduler/src/fdsched.c:159-276 | a round on channels that deliver any given numbers of packets reads each channel until it would block, in order, and is followed by another round if there was a packet and by a dequeue if there was none |
| `SchedulerRounds.FailureDequeues` | examples/scheduler/src/fdsched.c:183-288 | a read that fails for another reason is followed by a dequeue |
| `SchedulerRounds.StopsOnFailure` | examples/scheduler/src/fdsched.c:296-304 | the loop has ended exactly when the callback of the last dispatched message returned something other than 0, and this is its result |
| `SchedulerRounds.DequeueGoesOn` | examples/scheduler/src/fdsched.c:282-307 | after a dequeue that does not end the loop a new round begins |
| `SchedulerRounds.EveryMessageDispatched` | examples/scheduler/src/fdsched.c:124-307 | if the channels fall silent at some time and callbacks succeed, every message that ever waits is dispatched |
| `SchedulerRun.NothingLost` | examples/scheduler/src/fdsched.c:124-307 | in every run each message read is waiting or dispatched, not both, and none is dispatched twice |
| `MPool.RoomIs` | examples/mpool.c:395-402 | a chunk has room for an aligned run exactly when the run fits behind the rounded-up start |
| `MPool.LeftoverBytes` | examples/mpool.c:403-425 | the remainder and the alignment gap that are given back are all of the chunk but the bytes taken, in the order of their addresses |
| `MPool.Pool.constructor` | examples/mpool.c:111-118 | nothing is free and there is no fallback |
| `MPool.Pool.WithFallback` | examples/mpool.c:155-159 | nothing is free and the given pool is the fallback |
| `MPool.Pool.Fini` | examples/mpool.c:168-208 | all free memory moves to the fallback pool, in front of its lists and in reversed order; without a fallback nothing changes |
| `MPool.Pool.From` | examples/mpool.c:130-147 | both lists and the fallback are taken over and the other pool is left empty |
| `MPool.Pool.AddChunk` | examples/mpool.c:222-243 | the chunk becomes the first one, and exactly its bytes become free |
| `MPool.Pool.AllocNoFallback` | examples/mpool.c:257-297 | fails exactly when nothing is free; otherwise takes the first entry of the entry list or, if that is empty, of the first chunk, and exactly one aligned entry leaves the free memory |
| `MPool.Pool.FreeEntry` | examples/mpool.c:337-346 | the entry becomes the first one, and exactly its bytes become free |
| `MPool.Pool.AllocContiguousNoFallback` | examples/mpool.c:363-437 | fails exactly when no chunk has count * entry_size bytes at a multiple of align * entry_size; otherwise takes them at the first such address of the first such chunk, whose rest stays in its place, and exactly these bytes leave the free memory |
| `MPool.Alloc` | examples/mpool.c:308-326 | takes from the first pool of the fallback chain that has memory, and leaves the others alone |
| `MPool.AllocContiguous` | examples/mpool.c:458-482 | the same for runs of entries, from the first chunk with room of the first pool of the chain that has one |
| `MPoolRuns.Serve` | examples/mpool.c:111-482 | in every run over any number of pools, which may share fallbacks, of allocating entries and rows through the fallbacks, freeing an entry or returning a block to any pool, creating pools with a fallback or from another pool, and finishing pools, the blocks held and the free memory of each pool are aligned, pairwise disjoint and together constant, and each request has its effect |
| `MPoolRuns.ServeRequest` | examples/mpool.c:111-482 | what each request does to the blocks held, the free memory of each pool and the fallbacks; a request for memory is answered by the first pool on the way to the fallbacks that can, and refused exactly when none can |
| `MPool.TakenSize` | examples/mpool.c:363-437 | the free memory shrinks by exactly count times the entry size |
| `CircularList.Rotated` | linux/no_proofs/list.c:76-80 | a ring is the same ring from any of its nodes |
| `CircularList.Init` | linux/no_proofs/list.c:76-80 | the node is a ring of its own |
| `CircularList.AddBetween` | linux/no_proofs/list.c:106-117 | the new node comes between the two neighbours |
| `CircularList.ListAdd` | linux/no_proofs/list.c:127-130 | the node becomes the first element |
| `CircularList.ListAddTail` | linux/no_proofs/list.c:141-144 | the node becomes the last element |
| `CircularList.DelBetween` | linux/no_proofs/list.c:153-157 | the ring without the node, or unchanged if the node is alone |
| `CircularList.DelEntry` | linux/no_proofs/list.c:173-179 | the ring without the node, whose own links stay |
| `CircularList.ListDel` | linux/no_proofs/list.c:187-192 | the ring without the node, whose links are poisoned |
| `CircularList.ListDelInit` | linux/no_proofs/list.c:245-249 | the ring without the node, and the node as a ring of its own |
| `CircularList.ListReplace` | linux/no_proofs/list.c:201-208 | the new node in the place of the old one, even if that was alone |
| `CircularList.ListSwap` | linux/no_proofs/list.c:229-239 | two nodes exchange their places, in one ring, neighbours or not, or in two; if the second one is alone in its ring, the first one ends up behind it instead |
| `CircularList.ListMove` | linux/no_proofs/list.c:256-260 | the element, of this list or another, becomes the first one, and leaves the rest of the other list a ring |
| `CircularList.ListMoveTail` | linux/no_proofs/list.c:267-272 | the element, of this list or another, becomes the last one, and leaves the rest of the other list a ring |
| `CircularList.ListBulkMoveTail` | linux/no_proofs/list.c:283-295 | the segment moves to the end, also if it is there already |
| `CircularList.ListEmpty` | linux/no_proofs/list.c:323-326 | whether there are no elements |
| `CircularList.ListIsSingular` | linux/no_proofs/list.c:403-406 | whether there is exactly one element |
| `CircularList.ListRotateLeft` | linux/no_proofs/list.c:371-379 | the first element becomes the last one |
| `CircularList.ListRotateToFront` | linux/no_proofs/list.c:388-397 | the list is rotated so that the element comes first |
| `CircularList.ListCutPosition` | linux/no_proofs/list.c:408-446 | the elements up to the entry move to the other list; an empty list, or an entry outside a list of one element, changes nothing, and the head as entry moves nothing |
| `CircularList.CutPosition` | linux/no_proofs/list.c:408-418 | the elements up to the entry move to the other list |
| `CircularList.ListCutBefore` | linux/no_proofs/list.c:462-476 | the elements before the entry, or all of them for the head, move to the other list |
| `CircularList.Splice` | linux/no_proofs/list.c:478-490 | the elements of the list come between the two neighbours |
| `CircularList.ListSplice` | linux/no_proofs/list.c:497-502 | the elements come before those of the other list |
| `CircularList.ListSpliceTail` | linux/no_proofs/list.c:509-514 | the elements come after those of the other list |
| `CircularList.ListSpliceInit` | linux/no_proofs/list.c:523-530 | the same as splicing, and the list is empty afterwards |
| `CircularList.ListSpliceTailInit` | linux/no_proofs/list.c:540-547 | the same as splicing at the end, and the list is empty afterwards |

## Left out

- Translation of expressions, types and casts in the frontend: they depend on functions of Cerberus; expressions are abstract here.
- Declarations, annotations, assertion statements and variable tables of the translation: they emit no control flow.
- Parsing, preprocessing, project files and the output of Coq files in the frontend: input and output.
- The Coq theories: they are proofs already.
- Page clearing, pointer conversion and the lock of the page pool: a page is its number, and each operation is one step.
- Freeing of B-trees and of the path arrays: deallocation is not modelled.
- SchedulerRun.DispatchesFirst: the loop is a sequence of steps on values, because it does not end; memory for messages is always available.
- Sockets, `fcntl` and the bodies of callbacks in the scheduler: foreign effects, given as functions.
- MPool.Pool.AllocContiguousNoFallback: sizes are natural numbers; the code demands that the products fit in `size_t`.
- MPoolRuns.Serve: chunk and entry lists are sequences; the headers that the code writes into free memory are not modelled.
- HashMap.FixedSizeMap.Insert: keys are natural numbers, and the endless loop of the code is an outcome.
- `list_replace_init`, `list_is_first`, `list_is_last`, hash lists and iteration macros in the circular lists: they would only add easy members.
- `linux/casestudies/pgtable.c`, `examples/tagged_ptr.c` and the tutorial: fixed-width packing and standard exercises.
- Weak memory: the accesses of the ticket lock are interleaved one at a time.
