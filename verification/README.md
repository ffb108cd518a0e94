# Verified model of toolsbox

This project models the concurrent and re-entrant parts of the toolsbox library and proves what they
are for: the tree object pool and the linear object pool, the bounded ring queue, the tagged lock-free
stack, and the signal whose slots may change it while it is being emitted.

## The models

* **Bit words** (`Words`, `Bits`, `Segment`). Machine words are natural numbers with their binary
  digits; `&`, `or` and `& ~` are functions on digits. The loops over nibble tables are methods proved
  to find and count digits. A segment is a word, and its meaning is the set of its digits; words and
  sets correspond one to one (`Bits.OnesInjective`), so the pool models hold sets.
* **Tree pool by one thread** (`TreeArena`, `TreeShape`, `TreePool`). Nodes are numbered in the order
  they are published, so an owner is older than its children; the fields of all nodes form an arena
  that the methods update in place, one counter at a time. `LinearPool` is the simple structure,
  `PoolAgreement` compares the two.
* **Tree pool by many threads** (`TreeSteps`, `TreeRuns`, `TreeTheorems`, and for a single thread of them
  `TreeSolo`, `TreeCalls`). Any number of threads, each at a program point; every load, exchange and
  addition is one step. `childs_index_` is a plain field, so a step may read any hint. Weak exchanges may fail at any time. `LinearSteps` and `LinearSolo` do
  the same for the linear pool; `Demand` counts nodes for both. The central law is conservation:
  reservations travel down, credits travel up, and what a counter misses is exactly what is under way.
* **Progress** (`TreeProgress`, `TreeWaiting`, `TreePaused`, `TreeLivelock`). Whether a call ends when
  nobody else moves, wherever the other threads have stopped.
* **Ring queue** (`QueueLanes`, `QueueSteps`, `QueueIntegrity`, `QueueResults`, `QueuePaths`,
  `QueueSizes`, `QueueStaleClaim`, `QueueStranding`, `FixSizeQueue`). The two ends of the queue are two
  instances of one *lane*: tickets, flags, and publication of the oldest ticket. In the step model
  tickets are unbounded; `FixSizeQueue` is the queue by one thread with 64-bit counters that wrap around.
  The calls made and the results returned are recorded, so that both can be compared with the tickets.
* **Stack** (`StackSteps`, `StackHistory`, `Stack`). Freed addresses are reused at will and reads of
  freed memory return anything. Each call makes one abstract operation at its successful exchange, or
  at the load of a null head; the value it returns later is shown to be that operation's.
* **Signal** (`SignalFields`, `SignalLaws`, `SignalRuns`, `Signal`). The class follows the code field by
  field; iterators are ids of list entries. A slot's body is any sequence of connects, disconnects and
  nested emissions, so a run is a sequence of events with a stack of loops; the class executes such
  bodies, and the events of an execution are a run (`Signals.Signal.Call`).

All atomics use the default sequentially consistent order, so interleaving is the right meaning.

## Three conditions, and how far they are exact

* *The size is a power of two.* The static assertion of the queue asks for a multiple of 8, the mask for
  a power of two. First in first out, exclusive cells, no stranded tickets and values waiting in their
  cells each hold of all runs without a stale claim if and only if S is a power of two (`QueueSizes`);
  24 is accepted and breaks all four. The tree pool's `& (N - 1)` needs the same of N
  (`TreePools.ScanIsCompleteIffPow2`), although nothing in the source asserts it; otherwise an acquire
  can spin for ever (`TreeLivelock`). Of the concurrent results about the pools only those that say that
  a tree acquire ends need the condition; the counter chain of the queue and single delivery do not.
* *No stale claim.* In `idx == tail_read_ && data_is_ready_(...)` a thread may stall between the two
  tests while the others go around the ring; it then lowers a flag for a ticket that is no longer the
  oldest. From any point of a fresh run, such a claim can be followed, without another one, by a ticket
  that is raised, oldest and watched by nobody; no other step can (`QueueStranding`). A run with a single
  stale claim puts two threads at one cell and delivers a wrong value (`QueueStaleClaim`). Harm can
  follow every stale claim; it need not follow in every continuation. The counter chain and single
  delivery hold with stale claims too.
* *Nobody has stopped half-way.* `doc/pool_benchmark.md` calls the acquire of both pools lock-free. For
  the linear pool a call does end when all others have stopped, anywhere (`LinearSteps.AloneFinishes`).
  For the tree pool it does not: a thread that stops between publishing a node and adding its slots to
  the owner's counter makes other acquires spin, with 64 slots free (`TreePaused`). An acquire ends if
  and only if the root has a slot, or announces one, or create_node_ will make a node
  (`TreeWaiting.AcquireEndsIffNoWait`); it never waits for a thread that holds no reservation and no
  credit (`TreeWaiting.WaitsOnlyForOthers`), so never when there is only one thread.

## Model

| member | source | states |
|---|---|---|
| `Bits.FindFirstBit` | `include/toolsbox/pool/detail/helper.hpp:12-27` | for every 64-bit word, the result less one is the index of the lowest set bit and below 64; 0 for the zero word |
| `Bits.GetBit` | `include/toolsbox/pool/detail/helper.hpp:29-42` | the power of two of the lowest set bit; 0 for the zero word |
| `Bits.CountBit` | `include/toolsbox/pool/detail/helper.hpp:44-55` | the number of set bits, at most 64 |
| `Bits.TakingLowest` | `include/toolsbox/pool/detail/segment.hpp:59-61` | `flag & ~get_bit(flag)` lowers the population count by exactly one, and or-ing the bit back gives the old word |
| `Bits.PuttingBack` | `include/toolsbox/pool/detail/segment.hpp:79-80` | or-ing an absent bit in raises the population count by exactly one, and clearing it gives the old word |
| `Bits.OnesInjective` | `include/toolsbox/pool/detail/segment.hpp:53-61` | two words are equal exactly when their sets of free slots are: an exchange of words is an exchange of sets |
| `Segments.Segment.constructor` | `include/toolsbox/pool/detail/segment.hpp:44-47` | all 64 slots are free |
| `Segments.Segment.Acquire` | `include/toolsbox/pool/detail/segment.hpp:49-71` | takes the least free slot and no other, and returns the word its release needs; fails, changing nothing, exactly when no slot is free |
| `Segments.Segment.Release` | `include/toolsbox/pool/detail/segment.hpp:73-81` | the slots of the given word are free again, and nothing else changes |
| `Segments.Segment.Size` | `include/toolsbox/pool/detail/segment.hpp:88-92` | the number of free slots |
| `Segments.Segment.Full` | `include/toolsbox/pool/detail/segment.hpp:94-98` | true exactly when no slot is free |
| `Words.MaskSpreadsIffPow2` | `include/toolsbox/lockfree/fix_size_queue.hpp:121-124` | `x & (n - 1)` maps every window of n consecutive numbers one-to-one if and only if n is a power of two |
| `Words.MultipleOfEightIsNotEnough` | `include/toolsbox/lockfree/fix_size_queue.hpp:20` | 24 passes the static assertion, yet tickets 0 and 8 share a cell |
| `TreePools.ScanIsCompleteIffPow2` | `include/toolsbox/pool/detail/tree_node.hpp:155-158` | the scan of get_free_slot_ reaches every child from every hint if and only if N is a power of two |
| `TreePools.ScanMisses` | `include/toolsbox/pool/detail/tree_node.hpp:155-158` | for any other N some child is never looked at, whatever the hint |
| `TreePools.TreePool.constructor` | `include/toolsbox/pool/detail/tree_node.hpp:33-44` | one empty node, everything settled, for any N; fit for the other methods if and only if N is a power of two |
| `TreeLivelock.AcquireNeverReturns` | `include/toolsbox/pool/detail/tree_node.hpp:143-200` | when only a child that the scan misses announces slots, an acquire by one thread goes round between find_child_id_ and create_node_ for ever and changes nothing, whatever hints it reads |
| `TreePools.TreePool.Size` | `include/toolsbox/pool/detail/tree_node.hpp:82-90` | free slots of the segment plus the sum of the child counters |
| `TreePools.TreePool.Capacity` | `include/toolsbox/pool/detail/tree_node.hpp:72-80` | 64 plus the sum of the child counters |
| `TreePools.TreePool.Full` | `include/toolsbox/pool/detail/tree_node.hpp:92-100` | full() if and only if size() is 0 |
| `TreePools.TreePool.IncSize` | `include/toolsbox/pool/detail/tree_node.hpp:109-118` | settles new slots of a node with every ancestor: afterwards every size_ counter is exact again, and nothing but size_ has changed |
| `TreePools.TreePool.IncCap` | `include/toolsbox/pool/detail/tree_node.hpp:120-129` | the same for capacity_; the tree stays balanced because the credit follows a least path |
| `TreePools.TreePool.GetOrCreateNode` | `include/toolsbox/pool/detail/tree_node.hpp:207-226` | returns the child there is, changing nothing, or adds exactly one |
| `TreePools.TreePool.AddNode` | `include/toolsbox/pool/detail/tree_node.hpp:212-221` | the new node, with a full segment, hangs below the given place and is announced to all ancestors in both counters |
| `TreePools.TreePool.TakeReservation` | `include/toolsbox/pool/detail/tree_node.hpp:161-168` | the reservation moves from the node to the child whose counter was lowered; the hint remembers the child |
| `TreePools.TreePool.GetFreeSlot` | `include/toolsbox/pool/detail/tree_node.hpp:153-173` | finds a child if and only if the counters announce a slot: the first one in scan order from the hint; lowers that counter by one, stores the hint and changes nothing else |
| `TreePools.TreePool.LeastChild` | `include/toolsbox/pool/detail/tree_node.hpp:182-196` | stops if and only if some child announces a slot; otherwise the first child of least capacity |
| `TreePools.TreePool.CreateNode` | `include/toolsbox/pool/detail/tree_node.hpp:175-200` | adds exactly one node when the subtree has no free slot (at the root: none announced), and otherwise changes nothing |
| `TreePools.TreePool.FindChildId` | `include/toolsbox/pool/detail/tree_node.hpp:143-151` | ends with a reserved child; only at the root can a node have to be created first, and then exactly one, and only when the whole pool has no free slot |
| `TreePools.TreePool.TakeBit` | `include/toolsbox/pool/detail/tree_node.hpp:133-136` | takes the least slot of the segment that was reserved; the handle was held by nobody |
| `TreePools.TreePool.AcquireAt` | `include/toolsbox/pool/detail/tree_node.hpp:131-141` | one slot of the pool changes hands and nothing else; the number of nodes visited is the depth walked |
| `TreePools.TreePool.Acquire` | `include/toolsbox/pool/detail/tree_node.hpp:55-64` | hands out the least slot of a node, which nobody held; adds a node exactly when the pool is full; when it is not, the node is where the walk of first children from the hints leads; visits at most h + 1 nodes of a tree of at most 1 + N + ... + N^h nodes |
| `TreePools.TreePool.Release` | `include/toolsbox/pool/detail/tree_node.hpp:66-70` | the slot is free again, all counters are exact again, links and capacities stay |
| `TreeArena.SettledReports` | `include/toolsbox/pool/detail/tree_node.hpp:72-90` | with nothing under way, what size() and capacity() of a node add up is the number of free slots and of slots in its subtree, counted by recursion over the tree |
| `TreeShape.CapacityShrinks` | `include/toolsbox/pool/detail/tree_node.hpp:175-200` | in a balanced tree of at most 1 + N + ... + N^h nodes a node d steps down has at most the nodes of a full tree of height h - d below it |
| `TreeShape.LogarithmicDepth` | `include/toolsbox/pool/detail/tree_node.hpp:175-200` | such a tree has height at most h |
| `PoolAgreement.RunTree` | `include/toolsbox/pool/detail/tree_node.hpp:72-200` | for every trace and every power of two N, on the reports alone: an acquire takes one from size(), or adds 63 to it and 64 to capacity() if full() was reported; a release of a live handle adds one to size(); full() iff size() = 0; and every capacity() is 64 * max(1, ceil(peak / 64)) for the largest capacity() - size() reported so far |
| `PoolAgreement.TreeStep` | `include/toolsbox/pool/detail/tree_node.hpp:55-70` | an acquire hands out a slot that was free and was held by nobody, a release of the k-th handle takes exactly that handle out of the live ones and frees its slot, and a release beyond them changes nothing |
| `PoolAgreement.LinearStep` | `include/toolsbox/pool/detail/linear_node.hpp:39-53` | the same for the linear pool |
| `PoolAgreement.RunLinear` | `include/toolsbox/pool/detail/linear_node.hpp:55-114` | the same for the linear pool |
| `PoolAgreement.RunBoth` | `tests/test_pool.cc:28-29` | both pools report the same size(), capacity() and full() after every step of every trace |
| `LinearPools.LinearPool.constructor` | `include/toolsbox/pool/detail/linear_node.hpp:29-32` | one node, all slots free |
| `LinearPools.LinearPool.Size` | `include/toolsbox/pool/detail/linear_node.hpp:66-75` | the free slots from a node on |
| `LinearPools.LinearPool.Capacity` | `include/toolsbox/pool/detail/linear_node.hpp:55-64` | 64 for every node from a node on |
| `LinearPools.LinearPool.Full` | `include/toolsbox/pool/detail/linear_node.hpp:77-82` | true exactly when no slot from a node on is free |
| `LinearPools.LinearPool.GetOrCreateNode` | `include/toolsbox/pool/detail/linear_node.hpp:97-114` | the next node, added only behind the last one |
| `LinearPools.LinearPool.AcquireAt` | `include/toolsbox/pool/detail/linear_node.hpp:85-95` | takes the least free slot of the first node that has one, adding one node exactly when there is none |
| `LinearPools.LinearPool.Acquire` | `include/toolsbox/pool/detail/linear_node.hpp:39-48` | the same from the first node on; the handle was held by nobody |
| `LinearPools.LinearPool.Release` | `include/toolsbox/pool/detail/linear_node.hpp:50-53` | the slot is free again and nothing else changes |
| `TreeRuns.RunKeepsInv` | `include/toolsbox/pool/detail/tree_node.hpp:55-226` | conservation of sizes and capacities, covered reservations and single holders hold in every state of every interleaving of any number of threads |
| `TreeTheorems.ConservationLaw` | `include/toolsbox/pool/detail/tree_node.hpp:103-173` | counter at the owner + reservations not yet used + credits not yet added = free slots of the child and of its counters; likewise for capacity |
| `TreeTheorems.RootConservation` | `include/toolsbox/pool/detail/tree_node.hpp:72-90` | the root sees all slots of the pool but those under way |
| `TreeTheorems.ReservationsCovered` | `include/toolsbox/pool/detail/tree_node.hpp:131-173` | at any other node than the root, the threads that found its segment empty and are looking for a child never outnumber the sum of its size_ |
| `TreeTheorems.ReservedPlaceHasNode` | `include/toolsbox/pool/detail/tree_node.hpp:202-226` | a reserved place has its node, so using a reservation never creates one |
| `TreeTheorems.EverySlotHasOneHolder` | `include/toolsbox/pool/detail/segment.hpp:49-81` | every slot is in exactly one of: free, held by a user, being given back by one call |
| `TreeTheorems.HandedOutFresh` | `include/toolsbox/pool/detail/segment.hpp:49-71` | whenever the exchange of an acquire succeeds, in any interleaving, the handle it hands out is neither live nor being given back, and its slot is free before and taken after |
| `TreeTheorems.GraphOnlyGrows` | `include/toolsbox/pool/detail/tree_node.hpp:207-226` | childs_, owner_ and id_child_ are written at most once; no node disappears |
| `TreeTheorems.QuietPoolIsExact` | `include/toolsbox/pool/detail/tree_node.hpp:66-100` | whenever no call is in progress, after any interleaving, all counters are exact subtree totals and size() + live = capacity() |
| `TreeTheorems.AcquireOutcome` | `include/toolsbox/pool/detail/tree_node.hpp:131-226` | in every interleaving, a step inside acquire leaves the call under way and hands out nothing, or ends it with exactly one more live handle, the least free slot of its segment |
| `TreeTheorems.ReleaseOutcome` | `include/toolsbox/pool/detail/tree_node.hpp:66-70` | in every interleaving, a step inside release leaves the slot returning, or sets it free and, below the root, starts its credit |
| `TreeTheorems.NothingPassedBy` | `include/toolsbox/pool/detail/tree_node.hpp:131-226` | in every interleaving, a thread leaves a segment, a child or a level of create_node_ behind only if there is nothing to take at that very moment; after a failed exchange it goes on with the present value; a node it has added is the next one it looks at |
| `TreeTheorems.RunsGoOn` | `include/toolsbox/pool/detail/tree_node.hpp:131-226` | every state of a run has a next one for every thread, every hint and every spurious failure |
| `TreeSolo.RunIsSolo` | `include/toolsbox/pool/detail/tree_node.hpp:131-200` | with a single thread, for any N: in every state of every run the tree is balanced, the node of the acquire has only empty nodes above it, and what the thread has loaded is still so |
| `TreeSolo.GrowsOnlyWhenFull` | `include/toolsbox/pool/detail/tree_node.hpp:175-200` | with a single thread, for any N, a node is added only when all slots of the pool are live, below the node and at the place to which the first least capacities lead |
| `TreeSolo.IdleIsBalanced` | `include/toolsbox/pool/detail/tree_node.hpp:72-90` | whenever the single thread is idle, all counters are exact and the tree is balanced |
| `TreeCalls.AcquireAlone` | `include/toolsbox/pool/detail/tree_node.hpp:131-141` | with a single thread, an acquire from its first step to its last hands out one handle nobody held, the least slot of a node above which no node has a free slot, in the pool as it was, or with one new node exactly if nothing was free |
| `TreeCalls.ReleaseAlone` | `include/toolsbox/pool/detail/tree_node.hpp:66-70` | with a single thread, a release gives exactly its slot back |
| `TreeCalls.IdleHasLeastNodes` | `include/toolsbox/pool/detail/tree_node.hpp:175-200` | whenever the single thread is idle the pool has max(1, ceil(peak / 64)) nodes, for the largest number of handles ever live |
| `TreeProgress.AbleFinishes` | `include/toolsbox/pool/detail/tree_node.hpp:131-226` | a thread whose knowledge is true ends its call within 4 (len + 1) (2 N + 10) steps if nobody else moves, wherever the others have stopped |
| `TreeProgress.ReleaseFinishes` | `include/toolsbox/pool/detail/tree_node.hpp:66-129` | a release ends if nobody else moves, wherever the others have stopped, for any N |
| `TreeWaiting.AcquireEndsIffNoWait` | `doc/pool_benchmark.md:225` | an acquire that begins when all other threads have stopped, in any reachable state, ends if and only if it is not the case that the root has no slot, announces none, and create_node_ would return without a new node |
| `TreeWaiting.WaitsOnlyForOthers` | `include/toolsbox/pool/detail/tree_node.hpp:103-173` | an acquire has to wait only if some thread holds a reservation that it has not used, or slots that it has not announced |
| `TreePaused.PausedPublisherBlocks` | `include/toolsbox/pool/detail/tree_node.hpp:212-221` | a run in which 64 slots are free and an acquire spins for ever, as the thread that made their node has stopped before inc_size_ |
| `TreeWaiting.CallEnds` | `include/toolsbox/pool/detail/tree_node.hpp:131-226` | with a single thread, from any state inside a call: the call ends within 4 (len + 1) (2 N + 10) steps |
| `LinearSteps.EverySlotHasOneHolder` | `include/toolsbox/pool/detail/linear_node.hpp:85-95` | in every interleaving every slot is free, live or in exactly one release |
| `LinearSteps.ChainOnlyGrows` | `include/toolsbox/pool/detail/linear_node.hpp:97-114` | next_ is written at most once |
| `LinearSteps.QuietPoolIsExact` | `include/toolsbox/pool/detail/linear_node.hpp:55-75` | whenever no call is in progress, free slots + live handles = 64 for every node |
| `LinearSteps.AcquireOutcome` | `include/toolsbox/pool/detail/linear_node.hpp:85-114` | in every interleaving, a step inside acquire leaves the call under way and hands out nothing, or ends it with exactly one more live handle, the least free slot of its segment |
| `LinearSteps.ReleaseOutcome` | `include/toolsbox/pool/detail/linear_node.hpp:50-53` | in every interleaving, a step inside release leaves the slot returning, or ends the call with the slot free |
| `LinearSteps.NothingPassedBy` | `include/toolsbox/pool/detail/linear_node.hpp:85-114` | in every interleaving, an acquire leaves a segment for the next node only if it is empty at that very moment, goes on with the present value after a failed exchange, and adds a node only behind the last one |
| `LinearSteps.AloneFinishes` | `doc/pool_benchmark.md:92` | in every reachable state a call ends within 4 len + 5 steps if nobody else moves, wherever the others have stopped |
| `LinearSolo.GrowsOnlyWhenFull` | `include/toolsbox/pool/detail/linear_node.hpp:97-114` | with a single thread, a node is added only when all slots of the pool are live |
| `LinearSolo.AcquireAlone` | `include/toolsbox/pool/detail/linear_node.hpp:85-95` | with a single thread, an acquire from its first step to its last hands out the least slot of the first node that has one, which nobody held, with one new node exactly if nothing was free |
| `LinearSolo.ReleaseAlone` | `include/toolsbox/pool/detail/linear_node.hpp:50-53` | with a single thread, a release gives exactly its slot back |
| `LinearSolo.IdleHasLeastNodes` | `include/toolsbox/pool/detail/linear_node.hpp:97-114` | whenever the single thread is idle the pool has max(1, ceil(peak / 64)) nodes |
| `QueueSteps.CounterChain` | `include/toolsbox/lockfree/fix_size_queue.hpp:61-103` | head_write_ <= head_read_ <= tail_read_ <= tail_write_ <= head_write_ + S in every state of every interleaving, for any S and with no assumption on stalled threads |
| `QueueIntegrity.FirstInFirstOut` | `include/toolsbox/lockfree/fix_size_queue.hpp:61-103` | the pop with ticket i delivers exactly the value pushed with ticket i |
| `QueueSteps.DeliveredAtMostOnce` | `include/toolsbox/lockfree/fix_size_queue.hpp:83-91` | in every run and for any S, stale claims or not: a pop about to read has a ticket that nobody has read and nobody else has |
| `QueueResults.EveryCallReturnsOnce` | `include/toolsbox/lockfree/fix_size_queue.hpp:61-103` | the calls a thread has made are those that have returned, in order, and the one in progress if there is one |
| `QueueResults.TrueMeansTicket` | `include/toolsbox/lockfree/fix_size_queue.hpp:66-76` | for any S: the values with push tickets are those of the pushes that returned true and of those in progress that hold one; a push that returns false has put nothing in; likewise for pops |
| `QueueResults.FalseExactly` | `include/toolsbox/lockfree/fix_size_queue.hpp:61-103` | for any S, in every run: a call without a ticket returns only at its check, a pop exactly when the queue is empty at that moment, a push exactly when its index is S ahead of head_write_, and then the queue is full, or when the index lies behind head_write_ and equals the number of its cell; otherwise it goes on with the same call |
| `QueueResults.PushFailsOnEmpty` | `include/toolsbox/lockfree/fix_size_queue.hpp:106-114` | the last case does occur: a run in which a push returns false on an empty queue |
| `QueueResults.AloneFinishes` | `include/toolsbox/lockfree/fix_size_queue.hpp:61-103` | a call ends within 4 S + 13 steps if nobody else moves, wherever it stands |
| `QueueIntegrity.CellsAreExclusive` | `include/toolsbox/lockfree/fix_size_queue.hpp:68-69` | no two threads are at the same cell of data_ at once |
| `QueueIntegrity.NoTicketStranded` | `include/toolsbox/lockfree/fix_size_queue.hpp:70-75` | when the flag of the oldest unpublished ticket is raised, some thread is in its publish loop at that ticket |
| `QueueIntegrity.QuietQueue` | `include/toolsbox/lockfree/fix_size_queue.hpp:46-59` | whenever no call is in progress, everything taken is published, what was popped is a prefix of what was pushed, and the rest lies in its cells |
| `QueueSizes.FifoIffPow2` | `include/toolsbox/lockfree/fix_size_queue.hpp:20-124` | the pop with each ticket delivers the value pushed with it, in all runs without a stale claim, if and only if S is a power of two; likewise for the runs of one thread |
| `QueueSizes.ExclusiveIffPow2` | `include/toolsbox/lockfree/fix_size_queue.hpp:68-69` | no two threads are at one cell at once, in all these runs, if and only if S is a power of two |
| `QueueSizes.NoneStrandedIffPow2` | `include/toolsbox/lockfree/fix_size_queue.hpp:70-75` | no ticket is stranded, in all these runs, if and only if S is a power of two |
| `QueueSizes.ValuesWaitIffPow2` | `include/toolsbox/lockfree/fix_size_queue.hpp:46-59` | with no call in progress everything is published and the values not popped lie in their cells, in all these runs, if and only if S is a power of two |
| `QueueSizes.TwentyFourIsAccepted` | `include/toolsbox/lockfree/fix_size_queue.hpp:20` | 24 passes the static assertion and breaks all four |
| `QueueStranding.StaleClaimStrands` | `include/toolsbox/lockfree/fix_size_queue.hpp:71-75` | from every state of every fresh run, every enabled stale claim has a continuation without another one that ends with the oldest flag raised and nobody at that ticket |
| `QueueStranding.ExactlyFreshStepsAreSafe` | `include/toolsbox/lockfree/fix_size_queue.hpp:71-75` | a step of a fresh run leaves the queue safe from stranded tickets, whatever fresh steps follow, if and only if it is not a stale claim |
| `QueueStaleClaim.StaleClaimLosesData` | `include/toolsbox/lockfree/fix_size_queue.hpp:71` | a run of three threads on 8 cells with exactly one stale claim, in which a pop is at a cell together with the push of its own ticket, and then delivers for ticket 8 the value of ticket 0 |
| `FixSizeQueues.CellAcrossWrap` | `include/toolsbox/lockfree/fix_size_queue.hpp:121-124` | the cell of a counter does not change when the counter is taken modulo 2^64 |
| `FixSizeQueues.CellsDifferAcrossWrap` | `include/toolsbox/lockfree/fix_size_queue.hpp:121-124` | any S consecutive counter values have different cells, also across the wrap |
| `FixSizeQueues.SizeAcrossWrap` | `include/toolsbox/lockfree/fix_size_queue.hpp:106-109` | size_ on counters modulo 2^64 is the true occupancy, for every occupancy from 0 to S |
| `FixSizeQueues.FixSizeQueue.constructor` | `include/toolsbox/lockfree/fix_size_queue.hpp:22-37` | an empty queue with all flags lowered and all counters 0, for any size; fit for push and pop if and only if the size is a power of two |
| `FixSizeQueues.FixSizeQueue.Empty` | `include/toolsbox/lockfree/fix_size_queue.hpp:46-49` | true exactly when the FIFO is empty |
| `FixSizeQueues.FixSizeQueue.Full` | `include/toolsbox/lockfree/fix_size_queue.hpp:51-54` | true exactly when it holds S values |
| `FixSizeQueues.FixSizeQueue.Size` | `include/toolsbox/lockfree/fix_size_queue.hpp:56-59` | the number of values it holds |
| `FixSizeQueues.FixSizeQueue.DataIsReady` | `include/toolsbox/lockfree/fix_size_queue.hpp:126-143` | tells whether the flag was raised, and lowers it |
| `FixSizeQueues.FixSizeQueue.PublishTail` | `include/toolsbox/lockfree/fix_size_queue.hpp:71-75` | publishes the ticket whose flag is raised and no further one |
| `FixSizeQueues.FixSizeQueue.PublishHead` | `include/toolsbox/lockfree/fix_size_queue.hpp:93-97` | the same for the counters of pop |
| `FixSizeQueues.FixSizeQueue.Push` | `include/toolsbox/lockfree/fix_size_queue.hpp:61-81` | appends the value unless S values are there, for ever, across any number of wraps |
| `FixSizeQueues.FixSizeQueue.Pop` | `include/toolsbox/lockfree/fix_size_queue.hpp:83-103` | takes the oldest value, or fails and changes nothing exactly when there is none |
| `StackSteps.RunKeepsInv` | `include/toolsbox/lockfree/stack.hpp:40-73` | in every state of every interleaving: the links, disjoint places for nodes, unique tags, and what each popper knows of the next node |
| `StackSteps.MemoryIsStack` | `include/toolsbox/lockfree/stack.hpp:35-38` | in every interleaving the list found in memory by following next from head_ is the abstract stack, and empty() tells whether that is empty |
| `StackSteps.ExchangePushes` | `include/toolsbox/lockfree/stack.hpp:46-50` | a push whose exchange succeeds puts its value on top of the list in memory |
| `StackSteps.ExchangePops` | `include/toolsbox/lockfree/stack.hpp:57-64` | a pop whose exchange succeeds takes the top off, although next was read earlier, from memory that may have been freed and reused |
| `StackSteps.PopSeesNext` | `include/toolsbox/lockfree/stack.hpp:63-64` | at a successful exchange the head is the node that was seen and next is its present successor |
| `StackSteps.PopReturnsItsDue` | `include/toolsbox/lockfree/stack.hpp:66-72` | every pop returns what its abstract operation returned: the top, or false from an empty stack |
| `StackSteps.FalseMeansEmpty` | `include/toolsbox/lockfree/stack.hpp:53-62` | a pop is about to return false only at a step before which the list in memory is empty |
| `StackSteps.AbstractOperations` | `include/toolsbox/lockfree/stack.hpp:40-73` | a step of a thread inside push leaves it there with the same value and the abstract stack as it is, or ends it with the value on top; a step inside pop leaves it there, or makes its one abstract operation; no other step makes one |
| `StackHistory.LogIsAStack` | `include/toolsbox/lockfree/stack.hpp:40-73` | in every interleaving, the abstract operations in their order are a correct history of one stack, and what it leaves is the list in memory |
| `StackHistory.OneOperationPerCall` | `include/toolsbox/lockfree/stack.hpp:40-73` | the calls a thread has made are those of its operations, in order, and at most one more, still in progress: no call returns without its operation and none makes two |
| `StackHistory.PopReturnsLoggedResult` | `include/toolsbox/lockfree/stack.hpp:66-72` | a pop that has returned has returned the result of its operation |
| `StackHistory.AloneFinishes` | `include/toolsbox/lockfree/stack.hpp:40-73` | a call ends within six steps if nobody else moves, wherever it stands |
| `StackSteps.NodesHaveOnePlace` | `include/toolsbox/lockfree/stack.hpp:43-69` | nodes in the list, nodes held by pushes or pops and free addresses are disjoint; nothing is read for its value or deleted after it was freed |
| `Stacks.Stack.constructor` | `include/toolsbox/lockfree/stack.hpp:17-20` | an empty stack |
| `Stacks.Stack.Empty` | `include/toolsbox/lockfree/stack.hpp:35-38` | true exactly when the stack is empty |
| `Stacks.Stack.Push` | `include/toolsbox/lockfree/stack.hpp:40-51` | puts the value on top in a node of its own with a new tag, whatever the weak exchange does |
| `Stacks.Stack.Pop` | `include/toolsbox/lockfree/stack.hpp:53-73` | takes the top value off and frees exactly its node, or fails and changes nothing exactly when the stack is empty |
| `Signals.Signal.constructor` | `include/toolsbox/sig/signal.hh:25-29` | no slots, nothing deferred: the state of the empty trace |
| `Signals.Signal.Empty` | `include/toolsbox/sig/signal.hh:56-59` | tells whether the list of slots is empty |
| `Signals.Signal.Connect` | `include/toolsbox/sig/signal.hh:39-54` | the new connection is open and the last of the live ones, no other connection changes, and an emission under way does not see it |
| `Signals.Signal.Disconnect` | `include/toolsbox/sig/signal.hh:96-145` | the connection is closed and not live any more, no other connection changes, a second call changes nothing, and an emission under way does not see it leave |
| `Signals.Signal.Enter` | `include/toolsbox/sig/signal.hh:150-155` | only the first of nested guards is the outermost one |
| `Signals.Signal.Leave` | `include/toolsbox/sig/signal.hh:157-186` | the outermost guard deletes what was listed, then appends what waited; any other guard changes nothing |
| `Signals.Signal.FlushDeletes` | `include/toolsbox/sig/signal.hh:165-172` | erases the listed entries one after the other and empties the list |
| `Signals.Signal.FlushAdds` | `include/toolsbox/sig/signal.hh:176-184` | moves the waiting entries to the end in order, tells each connection its new place and empties the list |
| `Signals.Signal.Act` | `include/toolsbox/sig/signal.hh:39-69` | what a slot does with the signal: exactly the events of its connect, its disconnect or its emission are added to the trace, and the signal is where the longer trace leads |
| `Signals.Signal.Execute` | `include/toolsbox/sig/signal.hh:61-69` | a slot called by an emission does all that its body says, in order, and nothing else; the slots of the emission stay |
| `Signals.Signal.Call` | `include/toolsbox/sig/signal.hh:61-69` | operator(), with its loop: it calls the slots present at its start, in order, each with all that its body does; what is connected afterwards is what the connects and disconnects of all of them, at once and in program order, make of what was connected before |
| `SignalRuns.ChangesApply` | `include/toolsbox/sig/signal.hh:39-191` | along any part of a trace, the connected slots change exactly by the connects and disconnects in it, at once and in order |
| `SignalRuns.DeferralRefinesImmediate` | `include/toolsbox/sig/signal.hh:39-191` | after every trace of connects, disconnects and nested emissions: slots not to be deleted, then slots waiting = the effect of all operations applied at once in program order |
| `SignalRuns.QuietSlots` | `include/toolsbox/sig/signal.hh:157-186` | whenever no emission is under way slots_ is that list, and nothing is deferred |
| `SignalRuns.EmissionCallsSnapshot` | `include/toolsbox/sig/signal.hh:61-69` | every emission, however nested, calls exactly the slots present when the outermost one began, in order |
| `SignalRuns.HandlesNeverDangle` | `include/toolsbox/sig/signal.hh:86-126` | a connection is valid if and only if it names a live entry, and that is the only one it names |
| `SignalRuns.ErasesHit` | `include/toolsbox/sig/signal.hh:128-172` | every erase, at once or at the flush, meets an entry that is still in its list; erase(end()) cannot happen |

## Left out

- QueueIntegrity.FirstInFirstOut: assumes a power-of-two S, which QueueSizes.FifoIffPow2 shows to be exact, and runs without stale claims, without which QueueStaleClaim.StaleClaimLosesData shows it false; which of the runs with stale claims still deliver every value is not characterised.
- QueueIntegrity.CellsAreExclusive: the same, with QueueSizes.ExclusiveIffPow2 and the same run.
- QueueIntegrity.NoTicketStranded: the same, with QueueSizes.NoneStrandedIffPow2; for stale claims QueueStranding.ExactlyFreshStepsAreSafe is exact.
- QueueIntegrity.QuietQueue: the same, with QueueSizes.ValuesWaitIffPow2.
- TreePools.TreePool.Acquire: needs N to be a power of two; for other N TreeLivelock.AcquireNeverReturns shows a state in which it does not return, and no trace that leads there is given.
- TreeTheorems.QuietPoolIsExact: space and balance are stated for a single thread only (TreeCalls.IdleHasLeastNodes, TreeSolo.IdleIsBalanced), because racing creators may add more nodes than one thread would.
- TreeCalls.AcquireAlone: in the step model hints may be stale, so which of the announced children a walk takes is left open; TreePools.TreePool.Acquire states it for exact hints.
- QueueSteps.CounterChain: tickets are unbounded in the step model; wrapping counters are covered for one thread by FixSizeQueues.
- StackSteps.MemoryIsStack: tags are unbounded; the reuse of a tag after 2^64 pushes is not modelled.
- Stacks.Stack.Push: the allocator's address and the number of spurious failures are parameters.
- Segments of 32 slots (platforms with 32-bit pointers): the width is fixed at 64.
- Overflow of size_, capacity_ and of the sums over them: counters of the pools are unbounded.
- Object storage, constructors, destructors and the deleter of the handle: `data_` is represented by slot numbers, and release happens once for each handle.
- Construction of a node before it is published, and its disposal when the exchange is lost: both are private to the thread.
- A weak exchange that fails although nothing changed: included in the step models and in the stack class; in the sequential pools and queue the retry has no effect and is not repeated.
- Words inside the pool models: they hold a segment as the set of its free slots; that a word implements it is proved once, for the class Segment.
- ~stack and the destructors of the nodes.
- TreeWaiting.AcquireEndsIffNoWait: is about acquires that begin after the others have stopped; for one that is under way when they stop, TreeProgress.AbleFinishes needs what it has loaded to be still so.
- Progress while other threads do move (lock-freedom as a whole, fairness), sleeps, and memory ordering weaker than sequential consistency.
- Signal: slots that destroy the signal or throw, slot destructors that call back into it, arguments of slots, the const operator(), and the connection and group_connection wrappers.
- thread_pool, variant, any, zip, zip_tuple, apply, for_each, static_map, print_type and type_uid.
