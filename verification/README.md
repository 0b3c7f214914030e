# EduMPI, modelled in Dafny

EduMPI is a fork of Open MPI. This project models the parts of it whose correctness is hardest to
see from the code, and proves what each of them is for.  The model keeps the form of the C code:
structures that are updated in place are classes, loops stay loops with invariants, protocols are
state machines over the callbacks and message events of all processes, and every method is proved
against a specification that does not repeat its body.

Agreement on context ids (`CidTable`, `CidProtocol`, `CidContention`, `CidSolo`, `GroupAllreduce`,
`CidCollective`).  Processes that create a communicator agree on a slot that is free in all their
tables, with MAX and MIN allreduces and an anonymous sentinel as the reservation.  For every
interleaving of any number of concurrent allocations, the slots have single owners and the
participants of an allocation install the same id.  With competitors and ids that all processes
agree on there is no deadlock.  Without competitors an allocation ends with the least common free id
after a bounded number of steps.  The tree allreduce used over groups is modelled down to the moment
at which a non-blocking send reads its buffer.

Priority queues (`FiboShape`, `FiboOps`, `FiboLinks`, `FiboMoves`, `FiboJoin`, `FiboHeap`,
`PriorityQueue`).  The Fibonacci heap is modelled on its pointers, circular lists and degree words,
with the marks that bound the degrees, the fixed table of 32 cells and the lazy consolidation.  The
queue on top of it refines a map from values to keys.

Partitioning and mapping (`KPartModel`, `QueueMaps`, `KPartState`, `KPartTrace`, `KPartition`,
`KPartStale`, `KPartFill`, `GreedyPartition`, `PartitionTree`, `TreeMapping`, `Arity`, `BucketTree`,
`BucketSort`, `InitVector`).  TreeMatch partitions a communication graph and maps processes to
cores.  Proved are the gain loop with its queues, the balance of all partitions, the way from
constraints to allowed cores from end to end, the rewriting of topologies, and the lazy bucket sort
with the greedy grouping that reads it.

Sending and receiving over TCP (`TcpFrames`, `TcpMessages`, `TcpReceive`, `TcpSend`, `TcpLink`).
The sender writes fragments as far as the socket takes them; the receiver is an incremental parser
with a read-ahead cache.  End to end, messages arrive in order and are read as they were posted,
however the byte stream is chopped.

Bookkeeping (`SeqTracker`, `Assignment`, `Attributes`, `CommRequest`).  Ranges of sequence ids, an
exhaustive search for an assignment, reference counts of attribute keys, and the scheduler that runs
the callbacks of communicator requests.

`Collections` and `Sorting` hold what several modules need about sets and sequences, and a sort.

Some properties that one would expect do not hold for all inputs.  The model follows the code, gives
an input, and proves when the property does hold: exactly when, except that for competing
allocations agreement on the ids is shown to be enough:

- The key of a part in the gain loop is not always its highest gain, although the comment at
  `3rd-party/treematch/k-partitioning.c:149` says so: the code stores the gain of the vertex that was
  moved.  On `KPartStale.StopsEarly` the loop therefore stops with an improving move left.
  `KPartState.ArrivalKey` says when the key is right, `KPartState.LandKeys` that only the part of the
  last arrival is concerned, `KPartState.ExitExhausted` when the loop may stop, and
  `KPartState.BestPart` that a positive key never promises too much.
- Competing allocations of context ids wait for each other forever if processes order their ids
  differently (`CidContention.CrossedIdsDeadlock`); with ids that agree they do not
  (`CidContention.NoDeadlock`).
- `SeqTracker.Tracker.Insert` fails exactly when an id wraps around the range at the cursor
  (`SeqTracker.LargestThenZero`); ids below 2^32 - 1 are safe from an empty tracker.
- `Attributes.Registry.Free` breaks the counts exactly when the key has been freed before and is
  still held (`Attributes.FreedTwice`).
- A subrequest can be freed twice, once all schedules are empty exactly if it was given twice
  (`CommRequest.GivenTwice`, `CommRequest.FreedOnce`).
- The frame of a send is complete exactly if its size fits into the 32-bit size field
  (`TcpMessages.SendComplete`).
- `PriorityQueues.PriorityQueue.Insert` keeps the array of elements complete exactly when the value
  was not queued before (`PriorityQueues.InsertedTwice`).

All files belong to one project: `dafny verify dfyconfig.toml` checks it.

## Model

| member | source | states |
|---|---|---|
| CidTable.FirstFree | ompi/communicator/comm_cid.c:649-659 | the scan for a slot finds the first free one from its start, and passes over no free slot |
| CidTable.CidProcess.TestAndSet | opal/class/opal_pointer_array.c:343-400 | a slot is reserved exactly when it was free, no other slot changes, and the index of the lowest free slot stays right |
| CidTable.LowestAfterSet | opal/class/opal_pointer_array.c:275-327 | where the lowest free slot is after one slot is written: at the slot if it is freed below the old one, found by a scan behind it if it was the lowest and is taken, and else where it was |
| CidTable.CidProcess.FindFirstFree | opal/class/opal_pointer_array.c:94-132 | the scan restores the index of the lowest free slot |
| CidTable.CidProcess.SetItem | opal/class/opal_pointer_array.c:275-327 | one slot is written, and the count of free slots and the index of the lowest one are kept right |
| CidTable.CidProcess.Reserve | ompi/communicator/comm_cid.c:649-659 | the reservation loop takes the first free slot from its start, or changes nothing when there is none |
| CidTable.CidProcess.BeginRequest | ompi/communicator/comm_cid.c:585-597 | a new request starts its search at the lowest free slot, which the table keeps track of through all its updates |
| CidTable.CidProcess.DoGetNextCid | ompi/communicator/comm_cid.c:626-691 | the first callback in place, on the process table, refines the transition that the protocol proofs are about, including the wait of a request with a larger id |
| CidTable.CidProcess.DoCheckCid | ompi/communicator/comm_cid.c:702-753 | the second callback in place refines the transition: release, try the maximum, vote |
| CidTable.CidProcess.DoCheckFlag | ompi/communicator/comm_cid.c:755-823 | the third callback in place refines the transition: commit, outside the new group in the first free slot from the start, or give the slot back and move the start |
| CidProtocol.StepKeepsInv | ompi/communicator/comm_cid.c:626-823 | every callback of every process, in any state that meets the invariant and for any number of concurrent requests, keeps it: reservations match their owners, and the voting history of every request is consistent across processes |
| CidProtocol.RunKeepsInv | ompi/communicator/comm_cid.c:626-823 | the invariant holds in every state of every run, with communicators freed at any moment |
| CidProtocol.SlotsHaveOneOwner | ompi/communicator/comm_cid.c:626-823 | in every state of every run a slot holds the sentinel exactly when some request owns it, no slot has two owners, and no request owns two slots at a process |
| CidProtocol.ParticipantsAgree | ompi/communicator/comm_cid.c:755-809 | in every run all participants of one allocation that end, end with the same context id, and a participant has the communicator installed only there |
| CidProtocol.CommitTakesOwnSlot | ompi/communicator/comm_cid.c:771-809 | a commit replaces exactly one slot of the table: for a participant the agreed id, which this request has reserved itself; for the others a free slot from its start on, with no free slot passed over |
| CidProtocol.NobodyRetriesAfterCommit | ompi/communicator/comm_cid.c:755-823 | once one process has committed, every other process has committed in the same round or waits for a vote that can only be to commit, with the same context id |
| CidProtocol.ResultsInTable | ompi/communicator/comm_cid.c:720-731 | the slots that the callbacks release and try are always inside the table |
| CidSolo.FailedTop | ompi/communicator/comm_cid.c:720-740 | without competitors, a round that fails proposed an id below the least one that is free everywhere |
| CidSolo.SucceededTop | ompi/communicator/comm_cid.c:771-809 | without competitors, a round that succeeds proposed exactly the least id that is free everywhere |
| CidSolo.TopGrows | ompi/communicator/comm_cid.c:811-822 | without competitors, every failed round strictly raises the proposal of the next |
| CidSolo.SoloRunIsBounded | ompi/communicator/comm_cid.c:626-823 | without competitors, an allocation takes at most procs * (3 * c + 4) callbacks in any order, where c is the least common free id |
| CidSolo.SoloNeverStuck | ompi/communicator/comm_cid.c:626-823 | without competitors, as long as one member has not ended some member can take a step |
| CidSolo.SoloRunEnds | ompi/communicator/comm_cid.c:626-823 | a run without competitors that cannot go on has ended at every member |
| CidSolo.SoloTakesLeastCommonFree | ompi/communicator/comm_cid.c:626-823 | without competitors, every participant ends with the least id that was free in all participants, every other member with the least one that was free in its own table, and no other slot of any member has changed |
| CidContention.RunKeepsGates | ompi/communicator/comm_cid.c:626-691 | in every state of every run the lowest id of a process is the largest value or the id of a request that is under way there |
| CidContention.LeastMoves | ompi/communicator/comm_cid.c:626-823 | with competitors and ids that all processes agree on, the unfinished request with the least id has a callback that changes the state, as long as its members have begun and a free slot is left |
| CidContention.NoDeadlock | ompi/communicator/comm_cid.c:626-823 | with any number of competing requests, no reachable state is a deadlock: if some request is under way, ids agree, and those under way have begun everywhere and find a slot, some callback changes the state |
| CidContention.CrossedIdsDeadlock | ompi/communicator/comm_cid.c:626-646 | that ids agree is needed: two processes that order two requests in opposite ways reach a state in which each waits for the other |
| GroupAllreduce.TreeFoldsAll | ompi/communicator/comm_cid.c:1534-1550 | for every group size and every commutative and associative operator, combining up the binary tree folds the operator over the values of all ranks |
| GroupAllreduce.EveryRankGetsTheFold | ompi/communicator/comm_cid.c:1506-1648 | for every group size and every interleaving of message events, a rank that is done holds the fold over all inputs |
| GroupAllreduce.BufferKeptUntilRead | ompi/communicator/comm_cid.c:1534-1575 | the buffer that serves the send to the parent and the receive from it keeps its upward value until that value has left, and the parent gets exactly the value of the subtree |
| GroupAllreduce.NeverStuck | ompi/communicator/comm_cid.c:1506-1648 | as long as some rank is not done, some event is possible: no deadlock |
| GroupAllreduce.RunIsBounded | ompi/communicator/comm_cid.c:1506-1648 | no run has more than eight events per rank |
| CidCollective.GroupMax | ompi/communicator/comm_cid.c:1506-1648 | run with the maximum, the tree gives every rank the value that the agreement proof takes as the result of the MAX allreduce |
| CidCollective.GroupMin | ompi/communicator/comm_cid.c:1506-1648 | run with the minimum, the tree gives every rank the value that the agreement proof takes as the result of the MIN allreduce |
| FiboShape.BigTrees | 3rd-party/treematch/fibo.h:130-170 | in a balanced forest a node of degree d has at least Fib(d + 2) nodes in its tree |
| FiboShape.DegreeFitsTable | 3rd-party/treematch/fibo.c:93-96 | with fewer than Fib(34) = 5702887 nodes every degree is below 32, the number of cells of the degree table |
| FiboOps.AddRootGood | 3rd-party/treematch/fibo.h:121-126 | a new root keeps the forest balanced |
| FiboOps.LinkGood | 3rd-party/treematch/fibo.c:172-198 | hanging one of two roots of the same degree below the other keeps the forest balanced |
| FiboOps.DropBalanced | 3rd-party/treematch/fibo.h:146-154 | taking a node out leaves a forest balanced but for the missing mark of its parent |
| FiboOps.CutBalanced | 3rd-party/treematch/fibo.h:164-168 | cutting a marked node passes the missing mark on to its parent |
| FiboOps.MarkSettles | 3rd-party/treematch/fibo.h:155-163 | a mark, at an unmarked node or a root, ends the cascade with a balanced forest |
| FiboOps.RootDominates | 3rd-party/treematch/fibo.c:201-218 | in a heap-ordered forest every node has a root with a key at least as good |
| FiboLinks.LinkAfter | 3rd-party/treematch/fibo.h:107-114 | linking a node in changes exactly the two links around it and its own |
| FiboLinks.LinkRing | 3rd-party/treematch/fibo.h:107-114 | linking after the first node of a circular list makes the new node its second, and touches no other list |
| FiboLinks.Unlink | 3rd-party/treematch/fibo.h:116-119 | unlinking changes exactly the two links that lead to the node |
| FiboLinks.UnlinkRing | 3rd-party/treematch/fibo.h:116-119 | unlinking leaves a circular list of all the other nodes, and the node taken out still knows its successor |
| FiboMoves.AddLinked | 3rd-party/treematch/fibo.h:121-126 | after the pointer writes of an addition, memory lays out the forest with the new root |
| FiboMoves.DropLinked | 3rd-party/treematch/fibo.h:146-152 | after the pointer writes of a deletion, memory lays out the forest without the node and with its children as roots, up to the word of its parent |
| FiboMoves.CutLinked | 3rd-party/treematch/fibo.h:164-168 | after the pointer writes of a cut, memory lays out the forest with the node as a root, up to the word of its former parent |
| FiboMoves.SettleLinked | 3rd-party/treematch/fibo.h:158-161 | one write of the degree and mark and of the first child brings the word of the parent up to date |
| FiboJoin.JoinLinked | 3rd-party/treematch/fibo.c:182-197 | after the pointer writes of a join, memory lays out the forest in which the worse root hangs below the better one |
| FiboHeap.FiboTree.constructor | 3rd-party/treematch/fibo.c:89-104 | the new heap is empty, its ring closed and its degree table clear |
| FiboHeap.FiboTree.Add | 3rd-party/treematch/fibo.h:121-126 | the node becomes a root; the heap stays ordered, balanced and laid out in memory |
| FiboHeap.FiboTree.CutChildren | 3rd-party/treematch/fibo.h:130-144 | the loop ends after one round of the child ring, with every child a root |
| FiboHeap.FiboTree.Settle | 3rd-party/treematch/fibo.h:158-163 | one round of the cascade updates the word and stops exactly when the node was unmarked or is a root |
| FiboHeap.FiboTree.CutUp | 3rd-party/treematch/fibo.h:164-168 | the marked node becomes a root, and its right neighbour is the first child left |
| FiboHeap.FiboTree.Cascade | 3rd-party/treematch/fibo.h:155-169 | the cascade ends, with no node lost and the heap balanced and laid out |
| FiboHeap.FiboTree.Del | 3rd-party/treematch/fibo.h:146-170 | exactly the given node leaves the heap, which stays ordered, balanced and laid out |
| FiboHeap.FiboTree.Join | 3rd-party/treematch/fibo.c:182-197 | two roots of one degree become one tree in heap order |
| FiboHeap.FiboTree.Park | 3rd-party/treematch/fibo.c:164-171 | a root of a new degree is entered into the table, inside its bounds |
| FiboHeap.FiboTree.Merge | 3rd-party/treematch/fibo.c:172-198 | two roots of the same degree become one, and the walk over the root list stays sound |
| FiboHeap.FiboTree.MergeRoots | 3rd-party/treematch/fibo.c:157-199 | the loop ends, loses no node, and leaves exactly the roots in the table, each under its own degree |
| FiboHeap.FiboTree.PickBest | 3rd-party/treematch/fibo.c:201-218 | the best of the roots in the table is found, and the table is clear afterwards |
| FiboHeap.FiboTree.Min | 3rd-party/treematch/fibo.c:144-219 | the result is null exactly for an empty heap and else a node no other beats; no node is lost, there is one root per degree, and the table is clear again |
| PriorityQueues.PriorityQueue.constructor | 3rd-party/treematch/PriorityQueue.c:17-25 | the empty queue is the empty map |
| PriorityQueues.PriorityQueue.IsEmpty | 3rd-party/treematch/PriorityQueue.c:51-58 | the test on the pointers of the dummy root answers whether no element is queued |
| PriorityQueues.PriorityQueue.InsertElement | 3rd-party/treematch/PriorityQueue.c:60-68 | an element with a value in range is queued and found by its value, any other is ignored |
| PriorityQueues.PriorityQueue.DeleteElement | 3rd-party/treematch/PriorityQueue.c:69-74 | exactly the element leaves the queue and the array |
| PriorityQueues.PriorityQueue.Insert | 3rd-party/treematch/PriorityQueue.c:76-85 | the map gets the key for the value; the array still finds every queued element if and only if the value was not queued before |
| PriorityQueues.InsertedTwice | 3rd-party/treematch/PriorityQueue.c:76-85 | a value inserted a second time stays queued twice, while the array knows only its second element |
| PriorityQueues.PriorityQueue.Delete | 3rd-party/treematch/PriorityQueue.c:87-92 | exactly the value leaves the map |
| PriorityQueues.PriorityQueue.FindMaxElement | 3rd-party/treematch/PriorityQueue.c:94-98 | the contents do not change, and the result has the largest key of all |
| PriorityQueues.PriorityQueue.DeleteMaxElement | 3rd-party/treematch/PriorityQueue.c:99-107 | an element with the largest key leaves, and nothing else |
| PriorityQueues.PriorityQueue.FindMaxKey | 3rd-party/treematch/PriorityQueue.c:109-115 | the largest key of the map, and 0 for an empty queue |
| PriorityQueues.PriorityQueue.DeleteMax | 3rd-party/treematch/PriorityQueue.c:117-125 | a value with the largest key leaves the map; -1 exactly for an empty queue |
| PriorityQueues.PriorityQueue.SetElementKey | 3rd-party/treematch/PriorityQueue.c:127-153 | the element has the new key, and the same elements are queued |
| PriorityQueues.PriorityQueue.AdjustKey | 3rd-party/treematch/PriorityQueue.c:155-174 | the map changes at that value only, and only if it is queued |
| KPartModel.CutMove | 3rd-party/treematch/k-partitioning.c:288-299 | moving one vertex changes the cut by the weights into the part it leaves and the part it enters |
| QueueMaps.FindMaxKey | 3rd-party/treematch/PriorityQueue.c:109-115 | the contract of the queue on maps: the largest key, 0 for an empty queue, for fewer than Fib(34) elements |
| QueueMaps.DeleteMax | 3rd-party/treematch/PriorityQueue.c:117-125 | the contract of the queue on maps: a value with the largest key leaves, -1 for an empty queue, for fewer than Fib(34) elements |
| QueueMaps.Insert | 3rd-party/treematch/PriorityQueue.c:76-85 | the contract of the queue on maps: a value in range that is not queued gets its key |
| QueueMaps.Delete | 3rd-party/treematch/PriorityQueue.c:87-92 | the contract of the queue on maps: a value that is queued leaves |
| QueueMaps.AdjustKey | 3rd-party/treematch/PriorityQueue.c:155-174 | the contract of the queue on maps: a queued value gets the new key, and a value that is not queued changes nothing |
| KPartition.Partitioner.FillWeights | 3rd-party/treematch/k-partitioning.c:78-85 | after the two loops D[i][p] is the sum of the weights from i into part p |
| KPartition.Partitioner.FillMoves | 3rd-party/treematch/k-partitioning.c:88-91 | every vertex has a move to every part queued under its weight, each inserted once |
| KPartition.Partitioner.FillQueues | 3rd-party/treematch/k-partitioning.c:93-95 | every vertex is queued in its own part only, once, under its best gain |
| KPartition.Partitioner.FillParts | 3rd-party/treematch/k-partitioning.c:97-99 | every part is queued under the best gain in it |
| KPartState.FirstGain | 3rd-party/treematch/k-partitioning.c:87-103 | before the first move the best gain is positive exactly when some vertex is tied more to another part than to its own |
| KPartState.FirstKeyed | 3rd-party/treematch/k-partitioning.c:97-99 | before the first move the key of every part is the best gain in it |
| KPartition.Partitioner.Initialize | 3rd-party/treematch/k-partitioning.c:61-104 | the state is the opening one of a run: all n * k moves left and every part key exact; the next gain is positive exactly when the partition is not settled |
| KPartState.BestPart | 3rd-party/treematch/k-partitioning.c:110-115 | a part deleted with a positive key has a vertex at least that good, even if its key is stale |
| KPartState.LandKeys | 3rd-party/treematch/k-partitioning.c:131-149 | after a move the key of every part but the one the vertex went to is the best gain in it, also of the part that the vertex before went to; the key of that one part is the gain of the vertex that arrived |
| KPartState.ArrivalKey | 3rd-party/treematch/k-partitioning.c:145-149 | when the key of the part a vertex arrived in is right: with a move left to the vertex, exactly if no queued vertex of the part gains more; without, exactly if the best gain queued there, or 0 if none is, is minus the weight of the vertex into the part |
| KPartState.BestMove | 3rd-party/treematch/k-partitioning.c:112-129 | a vertex deleted with a positive gain has a move left, to another part, that realises the gain |
| KPartition.Partitioner.TakeVertex | 3rd-party/treematch/k-partitioning.c:110-120 | the vertex chosen is one whose best move gains at least what was announced |
| KPartition.Partitioner.Pick | 3rd-party/treematch/k-partitioning.c:110-129 | the part chosen is a real one, so the exit for a negative maximum is never taken, and the move gains at least what was announced |
| KPartition.Partitioner.ScanVertex | 3rd-party/treematch/k-partitioning.c:133-142 | one round of the scan moves the weight of one edge in D and re-keys the queues that depend on it |
| KPartition.Partitioner.Scan | 3rd-party/treematch/k-partitioning.c:131-143 | after the scan D holds the sums of the partition with the vertex moved |
| KPartition.Partitioner.Arrive | 3rd-party/treematch/k-partitioning.c:144-149 | the vertex is queued in its new part, where it was not queued before, and the part is keyed with its gain |
| KPartState.LandInv | 3rd-party/treematch/k-partitioning.c:144-149 | the move keeps the invariant: sums, queues and part keys |
| KPartition.Partitioner.Algo | 3rd-party/treematch/k-partitioning.c:106-150 | one call moves exactly one vertex, the best of the best part or of surplus, by its best move left; it keeps the invariant, uses up exactly that move, and keys the part it arrives in with the gain of the vertex |
| KPartition.Partitioner.NextGain | 3rd-party/treematch/k-partitioning.c:152-160 | the announced gain is that of the best part, or of the best vertex of the surplus part |
| KPartState.StaysUnless | 3rd-party/treematch/k-partitioning.c:152-160 | a vertex has an improving move left exactly when it is queued in its part with a positive key |
| KPartState.ExitExhausted | 3rd-party/treematch/k-partitioning.c:37-40 | when the loop may stop: with sizes out of balance exactly if no vertex of surplus has an improving move left; in balance exactly if none has one outside the part of the last arrival and the key of that part is not positive |
| KPartState.MoveLowersCut | 3rd-party/treematch/k-partitioning.c:106-150 | each move lowers the cut by at least the announced gain |
| KPartState.MoveKeepsSizes | 3rd-party/treematch/k-partitioning.c:106-150 | the part sizes stay those of the first partition, but for one vertex more in surplus and one less in deficit |
| KPartition.Partitioner.Improve | 3rd-party/treematch/k-partitioning.c:37-40 | the states of the loop are a run of single moves, each with a positive announced gain; it makes a move exactly when the first gain is positive, and then the cut is strictly lower; at the end no improving move is left, in surplus if sizes are out of balance, and else outside the part of the last arrival |
| KPartTrace.OpeningIsUnique | 3rd-party/treematch/k-partitioning.c:61-104 | matrix and first partition determine the state in which the loop starts |
| KPartTrace.StepIsUnique | 3rd-party/treematch/k-partitioning.c:106-150 | the vertex and the part it goes to determine the next state, so only ties are left open |
| KPartStale.StopsEarly | 3rd-party/treematch/k-partitioning.c:37-40 | a graph of six vertices on which a whole run of the loop, from the cyclic first partition, stops with an improving move left, because the key of the last part arrived in is too low |
| KPartStale.FirstIsCyclic | 3rd-party/treematch/k-partitioning.c:321-335 | the first partition of that example is the one that the cyclic fill computes |
| KPartition.Partitioner.Balance | 3rd-party/treematch/k-partitioning.c:162-177 | the vertex of surplus that gains most goes to deficit, which restores all part sizes |
| KPartition.Partitioner.Run | 3rd-party/treematch/k-partitioning.c:30-43 | the gain loop runs from the first partition to its end, where no improving move is left as for the loop; the moves made and the moves left are n * k together, no move exactly when the first partition is settled, and else the cut falls strictly; after that exactly the best return of a vertex to deficit is made, if sizes are out of balance; part sizes and fixed vertices are kept |
| KPartFill.Feasible | 3rd-party/treematch/k-partitioning.c:312-320 | sorted distinct constraints never overfill a part |
| KPartFill.PlaceConstraints | 3rd-party/treematch/k-partitioning.c:310-320 | every constraint goes to its part, and no part has more than it may hold |
| KPartFill.DealOut | 3rd-party/treematch/k-partitioning.c:321-335 | the cyclic loop that repeats a vertex at a full part ends, with all parts full, and the vertices get their parts by turns, a part with room in each round |
| KPartFill.NextTurn | 3rd-party/treematch/k-partitioning.c:323-334 | one step of the loop, whether it places a vertex or passes a full part, stays on the list of turns |
| KPartFill.NoMoreTurns | 3rd-party/treematch/k-partitioning.c:321-335 | once every part has had as many turns as it has room, further rounds add nothing |
| KPartFill.Fill | 3rd-party/treematch/k-partitioning.c:308-338 | the first partition is the cyclic fill, turns and then the blocks of the constraints; it has total / k vertices in each part |
| KPartFill.Partition | 3rd-party/treematch/k-partitioning.c:19-49 | the result has total / k vertices per part and each constraint where it belongs; the gain loop has run from the cyclic fill to its end, and exactly the balancing move follows; no move exactly when the fill is settled, and else the cut falls strictly |
| GreedyPartition.BlockFits | 3rd-party/treematch/tm_kpartitioning.c:390-401 | between zero and n / k constraints fall into each block of leaves |
| GreedyPartition.PlaceDumbPart | 3rd-party/treematch/tm_kpartitioning.c:405-412 | the dumb vertices of one part take the highest indices that are left |
| GreedyPartition.StartIsUnique | 3rd-party/treematch/tm_kpartitioning.c:384-415 | the places of the dumb vertices are determined by the constraints |
| GreedyPartition.PlaceDumbs | 3rd-party/treematch/tm_kpartitioning.c:384-415 | exactly the vertices that have no constraint are placed, from the highest index down, and each part keeps as many places as it has constraints |
| GreedyPartition.Seed | 3rd-party/treematch/tm_kpartitioning.c:421-437 | whatever vertices are drawn, exactly those are placed, one in every part that has room, so the allocation always finds a part |
| GreedyPartition.SeedsAreUnique | 3rd-party/treematch/tm_kpartitioning.c:421-437 | the draws determine the partition after seeding |
| GreedyPartition.BestPart | 3rd-party/treematch/tm_kpartitioning.c:291-326 | the part chosen has room and holds the first vertex with the heaviest edge among those of parts with room |
| GreedyPartition.Allocate | 3rd-party/treematch/tm_kpartitioning.c:439-442 | every vertex is in a part, every part is exactly full, no earlier choice is changed, and each vertex follows the first of the heaviest edges at its turn |
| GreedyPartition.AllocationIsUnique | 3rd-party/treematch/tm_kpartitioning.c:439-442 | the allocation is determined by the seeds and the weights |
| GreedyPartition.EvalCost | 3rd-party/treematch/tm_kpartitioning.c:328-339 | the loops compute the cut |
| GreedyPartition.Trial | 3rd-party/treematch/tm_kpartitioning.c:375-442 | each trial gives n / k vertices per part and as many places for real vertices as the block has constraints, and is the outcome of its draws |
| GreedyPartition.OutcomeIsUnique | 3rd-party/treematch/tm_kpartitioning.c:375-442 | constraints, weights and draws determine the outcome of a trial |
| GreedyPartition.DrawAll | 3rd-party/treematch/tm_kpartitioning.c:426-430 | draws that hit a free vertex for every part with room exist for all trials |
| GreedyPartition.ConstraintsFit | 3rd-party/treematch/tm_kpartitioning.c:352-357 | distinct constraints below n are at most n, so the error return is not taken |
| GreedyPartition.Greedy | 3rd-party/treematch/tm_kpartitioning.c:341-463 | for given draws, the partition returned is balanced and is the first with the least cut among the outcomes of the trials |
| GreedyPartition.ChoiceIsUnique | 3rd-party/treematch/tm_kpartitioning.c:341-463 | matrix, constraints and draws determine the partition chosen |
| PartitionTree.SplitVertices | 3rd-party/treematch/tm_kpartitioning.c:614-643 | each part gets its vertices, in order |
| PartitionTree.GatherAll | 3rd-party/treematch/tm_kpartitioning.c:614-643 | splitting over all parts neither loses nor repeats a vertex |
| PartitionTree.FilterRealFirst | 3rd-party/treematch/tm_kpartitioning.c:614-643 | real vertices come first in each part as they do in the whole |
| PartitionTree.SplitMatrix | 3rd-party/treematch/tm_kpartitioning.c:544-612 | the sub-matrix is exactly the one of the vertices of the part, made symmetric from its upper half |
| PartitionTree.FillTab | 3rd-party/treematch/tm_mapping.c:588-624 | the entries below the bound are copied, shifted, and the scan stops at the first other one |
| PartitionTree.SubLevel | 3rd-party/treematch/tm_kpartitioning.c:759-766 | what a level needs of matrix, vertices and constraints holds again in each part |
| PartitionTree.ShareIs | 3rd-party/treematch/tm_kpartitioning.c:497-535 | the constraints of a child are those of its block of leaves, in order, counted from the start of the block |
| PartitionTree.Build | 3rd-party/treematch/tm_kpartitioning.c:722-792 | for given draws: at every node the vertices are split over the children by the partition that the greedy choice makes for the matrix of the node, and each child is the tree of its vertices, sub-matrix and constraints; the tree has the given arity, its leaves carry exactly the given vertices, and a real process only at a leaf whose number is a constraint |
| PartitionTree.TreeIsUnique | 3rd-party/treematch/tm_kpartitioning.c:722-792 | matrix, vertices, constraints and draws determine the tree |
| PartitionTree.DrawTree | 3rd-party/treematch/tm_kpartitioning.c:426-430 | draws that hit free vertices exist for all trials at all nodes |
| PartitionTree.DepthFirst | 3rd-party/treematch/tm_mapping.c:396-406 | the list is the leaves from left to right |
| TreeMapping.Oversubscribe | 3rd-party/treematch/tm_topology.c:867-898 | every node id has f consecutive slots, and the rank table keeps the last of them |
| TreeMapping.Expand | 3rd-party/treematch/tm_tree.c:2226-2259 | the expanded constraints are sorted and are exactly the slots whose node id is allowed |
| TreeMapping.AllowedIsUnique | 3rd-party/treematch/tm_tree.c:2226-2259 | the allowed cores determine the slots and their order |
| TreeMapping.CoreSlots | 3rd-party/treematch/tm_topology.c:889-893 | every core has exactly f slots |
| TreeMapping.SetVal | 3rd-party/treematch/tm_mapping.c:421-439 | the value goes to the first free cell, and the failure exit is not reached |
| TreeMapping.MapTopology | 3rd-party/treematch/tm_mapping.c:452-523 | sigma and k are filled for exactly the processes in the list, and no core gets more than f |
| TreeMapping.LeavesDistinct | 3rd-party/treematch/tm_kpartitioning.c:850-855 | with at least as many constraints as processes each process is at exactly one leaf |
| TreeMapping.MappedAllowed | 3rd-party/treematch/tm_mapping.c:479-497 | real processes only at allowed leaves means processes only on allowed cores |
| TreeMapping.MapProcesses | 3rd-party/treematch/tm_kpartitioning.c:795-880 | end to end, for any oversubscription factor and any draws: the processes sit, in order of the leaves, on the cores of the slots of the one tree that the communication matrix, the allowed slots and the draws determine; every process gets an allowed core, sigma and k describe the same relation, and no core gets more than f processes |
| Arity.AddLevel | 3rd-party/treematch/tm_topology.c:653-675 | the arrays with one level split into two of the same cost |
| Arity.SplitPart | 3rd-party/treematch/tm_topology.c:646-683 | splitting a level keeps the number of leaves and, for every two leaves, the cost at the level where they part |
| Arity.SplitStep | 3rd-party/treematch/tm_topology.c:678-682 | twice the sum of the arities up to the level, plus the level, falls with every split |
| Arity.FactorsAre | 3rd-party/treematch/tm_topology.c:646-709 | the factors of a level multiply to it, are 2, 3 or free of both, and come in the order 3, then 2, then the rest |
| Arity.OptimizeArity | 3rd-party/treematch/tm_topology.c:632-712 | the recursion ends and replaces every level from n down by its factors, 3 before 2 before the rest; leaves and costs between leaves are kept |
| Arity.NumberLeaves | 3rd-party/treematch/tm_topology.c:805-820 | leaf ids follow the core numbering, repeated block by block |
| Arity.OptimizeTopology | 3rd-party/treematch/tm_topology.c:717-763 | leaf count, leaf numbering and costs between leaves are unchanged, and every inner level is replaced by its factors in order |
| BucketTree.Ilog2 | 3rd-party/treematch/tm_bucket.c:23-28 | the loop counts the bits of its argument |
| BucketTree.BucketCount | 3rd-party/treematch/tm_bucket.c:304-317 | the number of buckets is the largest power of two that is at most the number of bits of N |
| BucketTree.Dfs | 3rd-party/treematch/tm_bucket.c:226-237 | the recursion puts the pivots into search order below its node and writes nowhere else |
| BucketTree.BuildTree | 3rd-party/treematch/tm_bucket.c:239-263 | the whole tree is in search order and its leaves number the buckets |
| BucketTree.BucketId | 3rd-party/treematch/tm_bucket.c:115-133 | the bucket of a value is the number of pivots that are not below it |
| BucketSort.OrderIsUnique | 3rd-party/treematch/tm_bucket.c:57-83 | the comparison orders any set of pairs in only one way |
| BucketSort.SortedSample | 3rd-party/treematch/tm_bucket.c:328-346 | whatever pairs are drawn, the sorted sample has non-increasing values |
| BucketSort.Pivots | 3rd-party/treematch/tm_bucket.c:356-368 | the pivots are the sample values at positions 0, 1, 3, 7 and so on, all inside the sample, and do not increase |
| BucketSort.Fill | 3rd-party/treematch/tm_bucket.c:265-276 | each pair i < j is in exactly the bucket of its value, once |
| BucketSort.LaterBucket | 3rd-party/treematch/tm_bucket.c:115-133 | every pair of an earlier bucket comes before every pair of a later one |
| BucketSort.BucketList.constructor | 3rd-party/treematch/tm_bucket.c:290-388 | for 3 <= N < 32768 and any sample the lists are built, all indices in range, and nothing is delivered yet |
| BucketSort.BucketList.SkipEmpty | 3rd-party/treematch/tm_bucket.c:397-405 | as long as a pair is left the walk stops at a bucket that has one |
| BucketSort.BucketList.SortCurrent | 3rd-party/treematch/tm_bucket.c:407-411 | a bucket is sorted in place when it is reached, and stays the same set |
| BucketSort.BucketList.Next | 3rd-party/treematch/tm_bucket.c:390-416 | each call delivers the first of all pairs that are left: none left has a larger value, or the same value and a larger first index, or then a larger second index |
| BucketSort.LeadsPrefix | 3rd-party/treematch/tm_bucket.c:390-416 | what k calls deliver is the first k pairs of the full sort of all pairs |
| BucketSort.Group | 3rd-party/treematch/tm_bucket.c:586-592 | for N = 2M the loop ends before the pairs run out, in a perfect matching, which is the greedy matching over the sorted pairs |
| InitVector.RoomForOne | 3rd-party/treematch/IntConstantInitializedVector.c:40-45 | as long as a cell is not set the stack has room, so the write at its top is in bounds |
| InitVector.SetCells | 3rd-party/treematch/IntConstantInitializedVector.c:40-45 | pushing a cell makes it, and no other, count as set, whatever the arrays held before |
| InitVector.Vector.constructor | 3rd-party/treematch/IntConstantInitializedVector.c:17-25 | with arbitrary array contents no cell counts as set |
| InitVector.Vector.Set | 3rd-party/treematch/IntConstantInitializedVector.c:34-48 | the contents change at i only; an index out of range is refused |
| InitVector.Vector.Get | 3rd-party/treematch/IntConstantInitializedVector.c:50-59 | the last value set at i, the initial value if none was, -1 out of range |
| TcpFrames.NeedSame | contrib/build-mca-comps-outside-of-tree/btl_tcp2_frag.c:242-281 | once a prefix holds a whole frame, more bytes do not change how long that frame is |
| TcpFrames.FrameFirst | contrib/build-mca-comps-outside-of-tree/btl_tcp2_frag.c:242-281 | a complete frame followed by anything is read back first, and the rest is read as if alone |
| TcpFrames.FramingIsUnique | contrib/build-mca-comps-outside-of-tree/btl_tcp2_frag.c:242-281 | any list of complete frames, sent as one stream with an unfinished frame behind, is parsed back into exactly that list |
| TcpFrames.FramesCover | contrib/build-mca-comps-outside-of-tree/btl_tcp2_frag.c:242-281 | every stream is its frames, each complete, followed by the beginning of one more |
| TcpMessages.HeaderValues | contrib/build-mca-comps-outside-of-tree/btl_tcp2_hdr.h:37-56 | what the eight bytes of a header mean: the type, a 16-bit count and a 32-bit size, most significant byte first in network order and last on the host |
| TcpMessages.FourBytes | contrib/build-mca-comps-outside-of-tree/btl_tcp2_hdr.h:52-56 | the value of a 32-bit field from its bytes, in network order and on the host |
| TcpMessages.SegLenValue | opal/mca/btl/btl.h:450-455 | the length of a segment is in the last eight bytes of its descriptor, least significant first |
| TcpMessages.FieldReadsBack | contrib/build-mca-comps-outside-of-tree/btl_tcp2_hdr.h:46-56 | a number written into a field, by digits to the base 256, is read back in either byte order |
| TcpMessages.HeaderReadsBack | contrib/build-mca-comps-outside-of-tree/btl_tcp2_hdr.h:46-56 | the header fields that were written are read back |
| TcpMessages.DescriptorsReadBack | contrib/build-mca-comps-outside-of-tree/btl_tcp2_frag.c:262-275 | the segment lengths that were written are read back |
| TcpMessages.SendComplete | contrib/build-mca-comps-outside-of-tree/btl_tcp2.c:364-395 | the frame of a send is complete if and only if its size fits into the 32-bit size field |
| TcpMessages.PutComplete | contrib/build-mca-comps-outside-of-tree/btl_tcp2.c:406-436 | the frame of a put is complete if and only if the target segments take exactly the data |
| TcpMessages.FrameCarries | contrib/build-mca-comps-outside-of-tree/btl_tcp2.c:364-436 | a message becomes one complete frame, in which header, descriptors and data are read as they were posted |
| TcpReceive.Endpoint.constructor | contrib/build-mca-comps-outside-of-tree/btl_tcp2_frag.h:144-157 | a fresh fragment waits for a header |
| TcpReceive.Endpoint.TakeCached | contrib/build-mca-comps-outside-of-tree/btl_tcp2_frag.c:166-180 | an entry gets the cached bytes that fit, and the cache keeps exactly the others |
| TcpReceive.Endpoint.FromCache | contrib/build-mca-comps-outside-of-tree/btl_tcp2_frag.c:158-183 | the cached bytes go into the entries in order, none lost or repeated |
| TcpReceive.Endpoint.Readv | contrib/build-mca-comps-outside-of-tree/btl_tcp2_frag.c:187-220 | whatever number of bytes the socket gives, they fill the entries in order and then the cache; a ready socket gives at least one |
| TcpReceive.Endpoint.Load | contrib/build-mca-comps-outside-of-tree/btl_tcp2_frag.c:155-220 | bytes from the cache, or else from the socket, go into the entries and those beyond them stay in the cache |
| TcpReceive.Endpoint.Advance | contrib/build-mca-comps-outside-of-tree/btl_tcp2_frag.c:222-240 | the entries count exactly the bytes stored, and the cache length is what is left over |
| TcpReceive.TransferKeeps | contrib/build-mca-comps-outside-of-tree/btl_tcp2_frag.c:155-240 | fragment, cache and socket together hold the same bytes in the same order before and after a transfer |
| TcpReceive.Endpoint.Fetch | contrib/build-mca-comps-outside-of-tree/btl_tcp2_frag.c:155-240 | one transfer from cache or socket keeps the stream, and ends with a full list, an empty cache, or a socket that would block |
| TcpReceive.NextLayout | contrib/build-mca-comps-outside-of-tree/btl_tcp2_frag.c:242-281 | a full list is a complete frame or gets the entries for the rest of the frame, as far as it is known |
| TcpReceive.Endpoint.AddData | contrib/build-mca-comps-outside-of-tree/btl_tcp2_frag.c:269-275 | a PUT frame gets one entry per segment, with the lengths received |
| TcpReceive.Endpoint.Extend | contrib/build-mca-comps-outside-of-tree/btl_tcp2_frag.c:242-281 | the header decides: entries for the rest of the frame as far as it is known, or the frame is complete |
| TcpReceive.Endpoint.Recv | contrib/build-mca-comps-outside-of-tree/btl_tcp2_frag.c:149-285 | true exactly with a complete frame; false only with an incomplete one and an empty cache; no byte is lost, repeated or reordered |
| TcpReceive.Endpoint.OnReadable | contrib/build-mca-comps-outside-of-tree/btl_tcp2_endpoint.c:713-768 | however the stream is chopped, after every event the fragments delivered are exactly the frames of the bytes consumed so far, and the cache is empty, which is the assertion in the code; an event with bytes at hand consumes some |
| TcpSend.Sender.FragSend | contrib/build-mca-comps-outside-of-tree/btl_tcp2_frag.c:101-147 | a write takes exactly the bytes there is room for; the entries left hold exactly the others, and completion is reported exactly when there are none |
| TcpSend.Sender.EndpointSend | contrib/build-mca-comps-outside-of-tree/btl_tcp2_endpoint.c:266-304 | a fragment is queued, or sent at once as far as there is room if it has priority and nothing is under way; the wire with what is pending stays the concatenation of all fragments in order |
| TcpSend.Sender.PostSend | contrib/build-mca-comps-outside-of-tree/btl_tcp2.c:364-395 | a send is posted as its frame, the sizes of its pieces added up in 32 bits |
| TcpSend.Sender.PostPut | contrib/build-mca-comps-outside-of-tree/btl_tcp2.c:406-436 | a put is posted as its frame: header, descriptors of the targets, data |
| TcpSend.Sender.OnWritable | contrib/build-mca-comps-outside-of-tree/btl_tcp2_endpoint.c:793-832 | exactly as many of the pending bytes are written as there is room for, in order over all fragments |
| TcpLink.PrefixOfFrames | contrib/build-mca-comps-outside-of-tree/btl_tcp2_frag.c:149-285 | any prefix of a stream of complete frames is read as the first of these frames |
| TcpLink.Link.Carry | contrib/build-mca-comps-outside-of-tree/btl_tcp2_endpoint.c:713-768 | what has been written, added to what the receiver holds, is again a stream that it can read |
| TcpLink.Link.ReceiveEvent | contrib/build-mca-comps-outside-of-tree/btl_tcp2_endpoint.c:713-768 | what is delivered is a prefix of what was handed over, and all of it once nothing is pending or unread; an event with bytes at hand reads some |
| TcpLink.Link.Run | contrib/build-mca-comps-outside-of-tree/btl_tcp2_endpoint.c:713-832 | in any order of posts, write events and read events, with any room and any chopping, the receiver delivers the first of the messages handed over, in order, each read with its header, descriptors and all its data |
| TcpLink.Link.Drain | contrib/build-mca-comps-outside-of-tree/btl_tcp2_endpoint.c:713-832 | if every event has room for a byte or a byte at hand, everything that was handed over is delivered after finitely many events |
| SeqTracker.Tracker.CheckDuplicate | ompi/class/ompi_seq_tracker.c:58-83 | from any cursor position the answer is membership, the list is unchanged, and the cursor moves exactly to a hit |
| SeqTracker.InsertTidy | ompi/class/ompi_seq_tracker.c:101-110 | a new range between two others that it does not touch keeps the list sorted, disjoint and non-adjacent and adds exactly one id |
| SeqTracker.GrowTidy | ompi/class/ompi_seq_tracker.c:117-143 | growing a range by one id next to it adds exactly that id |
| SeqTracker.MergeTidy | ompi/class/ompi_seq_tracker.c:121-124 | closing the gap of one id between two ranges adds exactly that id |
| SeqTracker.Tracker.GrowHigh | ompi/class/ompi_seq_tracker.c:117-129 | the upper end of a range grows or merges with the next; the list is broken exactly when the id is 0, by 32-bit wrap-around |
| SeqTracker.Tracker.GrowLow | ompi/class/ompi_seq_tracker.c:131-143 | the lower end of a range grows or merges with the one before; the list is broken exactly when the id is the largest, by wrap-around |
| SeqTracker.Tracker.Insert | ompi/class/ompi_seq_tracker.c:91-180 | insertion ends, adds exactly the id and keeps the list sorted, disjoint and non-adjacent, if and only if the id does not wrap around the range at the cursor; every id up to 2^32 - 1, from any cursor |
| SeqTracker.LargestThenZero | ompi/class/ompi_seq_tracker.c:117-129 | inserting the largest id and then 0 gives a range whose lower end is above its upper end |
| SeqTracker.Replay | ompi/class/ompi_seq_tracker.c:58-180 | over any history of insertions and checks with ids below 2^32 - 1, every check answers whether the id was inserted before |
| SeqTracker.Tracker.CopyFrom | ompi/class/ompi_seq_tracker.c:183-198 | a fresh tracker gets the same ranges and the same cursor |
| Assignment.FullIsPermutation | contrib/build-mca-comps-outside-of-tree/btl_tcp2_proc.c:207-213 | when the level reaches the size every cell has its own number |
| Assignment.Search.Evaluate | contrib/build-mca-comps-outside-of-tree/btl_tcp2_proc.c:175-205 | the evaluated permutation replaces the remembered one exactly when it is better by cardinality, then weight; a tie does not |
| Assignment.ValueCounts | contrib/build-mca-comps-outside-of-tree/btl_tcp2_proc.c:185-190 | the value of an assignment is the number of its cells with positive weight and the sum of these weights |
| Assignment.Search.Visit | contrib/build-mca-comps-outside-of-tree/btl_tcp2_proc.c:207-221 | the recursion evaluates every completion of the given cells exactly once, in lexicographic order of the cells of the next numbers, and leaves the array as it was |
| Assignment.Search.Run | contrib/build-mca-comps-outside-of-tree/btl_tcp2_proc.c:591-595 | all permutations are evaluated, each once and in lexicographic order of the cells; the array is zero again; what is remembered is the first of them that none beats |
| Attributes.Registry.Create | ompi/attribute/attribute.c:620-670 | a new key is the least one that is not in use, and no object holds an attribute under it; creation fails exactly when all keys are in use |
| Attributes.CreateInv | ompi/attribute/attribute.c:620-670 | a new keyval, with count one, keeps the counting invariant |
| Attributes.LivesExactly | ompi/attribute/attribute.c:526-538 | a keyval lives exactly as long as it has not been freed or some object holds an attribute under it |
| Attributes.Registry.Release | ompi/attribute/attribute.c:526-538 | the count falls by one; at zero the keyval and its key go |
| Attributes.ReleaseInv | ompi/attribute/attribute.c:526-538 | a release that matches a freed keyval or a lost attribute keeps the invariant: the count is the number of holders, and one more unless freed |
| Attributes.Registry.Free | ompi/attribute/attribute.c:753-789 | an accepted free releases the keyval, and the counting invariant survives if and only if the key was not freed before |
| Attributes.FreeTwice | ompi/attribute/attribute.c:753-789 | after a second free no assignment of freed keys makes the counts right again |
| Attributes.FreedTwice | ompi/attribute/attribute.c:753-789 | creating a key, setting an attribute under it and freeing it twice leaves the object with an attribute whose keyval is gone |
| Attributes.Registry.Set | ompi/attribute/attribute.c:1264-1342 | for any callback result: the attribute is stored with a fresh sequence number, and exactly its keyval is retained, exactly if the object had none; a failing callback leaves everything as it was |
| Attributes.SetInv | ompi/attribute/attribute.c:1321-1341 | storing an attribute keeps the counting invariant, with or without an old value |
| Attributes.Registry.Delete | ompi/attribute/attribute.c:1107-1176 | for any callback result: exactly one attribute goes and exactly its keyval is released, or nothing changes and the error says why |
| Attributes.DeleteInv | ompi/attribute/attribute.c:1161-1173 | losing an attribute and releasing its keyval keeps the counting invariant |
| Attributes.Registry.DeleteAll | ompi/attribute/attribute.c:1197-1256 | it succeeds exactly if no delete function fails; callbacks run in exact reverse order of last set, up to and including the first that fails, whose error is reported; the attributes left are those set before it and its own |
| Attributes.Registry.CopyAll | ompi/attribute/attribute.c:991-1098 | it succeeds exactly if no copy function fails and no delete function of an attribute that is replaced; then the copy holds exactly what it held before and the attributes whose callback says so, with the value it gave; other objects are unchanged and the counts are right, whatever the callbacks return |
| CommRequest.Scheduler.Append | ompi/communicator/comm_request.c:80-107 | the item is last in the schedule; too many subrequests are refused without effect |
| CommRequest.Scheduler.Start | ompi/communicator/comm_request.c:183-198 | the request is last in the active list and progress is registered |
| CommRequest.Scheduler.Test | ompi/communicator/comm_request.c:130-147 | the item counts down to zero exactly when all its subrequests are complete; it stays the item that was appended, and what is freed in this call is exactly what is no longer pending |
| CommRequest.ReqRuns | ompi/communicator/comm_request.c:149-157 | running the first item keeps the history: run items, then scheduled items, are the appended ones in order, with their subrequests and retain flags |
| CommRequest.ReqWaits | ompi/communicator/comm_request.c:158-160 | putting an unfinished item back keeps the history, subrequests and retain flag included |
| CommRequest.Scheduler.RunFirst | ompi/communicator/comm_request.c:125-161 | the callback of the first item runs, with everything it does, exactly when its subrequests are complete and is recorded as that item; else the item waits at the first subrequest that is not; no callback of another request runs |
| CommRequest.Scheduler.FinishRequest | ompi/communicator/comm_request.c:163-168 | a request completes once, and leaves the active list |
| CommRequest.Scheduler.Visit | ompi/communicator/comm_request.c:122-169 | for any callback: the first item runs exactly when its subrequests are complete, the request completes exactly when its schedule is empty afterwards, and the loop goes on to the next active request |
| CommRequest.VisitRuns | ompi/communicator/comm_request.c:122-169 | in a round the callback of the first item runs, as that item, exactly when its subrequests are complete, and no other request runs a callback |
| CommRequest.RoundTakesFirst | ompi/communicator/comm_request.c:122-169 | a round takes exactly the first request off those that the pass has still to visit, even if it completes or starts others, so a pass visits the requests active at its start once each, in order |
| CommRequest.OthersKeepRest | ompi/communicator/comm_request.c:122-198 | nothing else takes a request off the pass: requests started meanwhile come behind |
| CommRequest.Scheduler.EndPass | ompi/communicator/comm_request.c:171-175 | progress is unregistered exactly when no request is active |
| CommRequest.ReqServed | ompi/communicator/comm_request.c:109-181 | what callers see follows from the history: callbacks in append order, each once, after all subrequests of their item, each of which was freed once unless retained |
| CommRequest.LedgerFree | ompi/communicator/comm_request.c:130-160 | over all requests, what was freed and what is pending is together what was given to be freed, and testing an item keeps this |
| CommRequest.FreedOnce | ompi/communicator/comm_request.c:130-147 | no subrequest is freed twice if none is given twice to be freed; once all schedules are empty, exactly then |
| CommRequest.GivenTwice | ompi/communicator/comm_request.c:130-147 | a subrequest given with two items, neither retained, is freed twice |
| CommRequest.Scheduler.Run | ompi/communicator/comm_request.c:109-198 | in every run of requests, callbacks and completions each operation does its step, and a round at a request whose first item is due runs it; callbacks run once each in append order, after all subrequests given with them; only complete subrequests are freed, none twice if none was given twice; requests complete once, with all callbacks run; an active request implies that progress is registered; no history is lost |

## Left out

Of the repository as a whole: everything else in Open MPI, including the EduMPI event recording,
communicator construction in `comm.c`, collectives, point-to-point transfer and launch.

Context ids:
- Failing collectives, fault tolerance epochs, PMIx and extended ids, and a full table; the protocol takes the step only when a slot is found.
- The try-lock is the atomicity of the callbacks; a callback that does not get the lock takes no step.
- In the agreement proof the allreduce is one collective per round; `CidCollective` connects it to the message passing of the group variant only, and the intra, inter and bridged variants are not modelled.
- The pointer array is a table of fixed size: its growth is not modelled, and its free-slot bitmap is the set of free slots, without the words it is stored in.
- CidContention.NoDeadlock: with competitors some callback can always change the state, but that every allocation ends within a bound is proved without competitors only, because frees and new requests may go on forever.

Priority queues:
- FiboHeap.FiboTree.Min: asks for fewer than Fib(34) nodes, because beyond that the fixed degree table of the code is too small; the queue methods that search for a maximum ask the same.
- PriorityQueues.PriorityQueue.Delete: asks that the value is queued, because the code reads the element without a test.
- Keys are integers instead of doubles, here and in the partitioner; freeing memory is not modelled.
- A queue that holds a value twice is only covered by the condition on `Insert` and by what holds of any valid queue.

Partitioning and mapping:
- KPartition.Partitioner.Run: works on queues as maps, through operations that have the contract of `PriorityQueues` (`QueueMaps`), rather than on heap objects; ties may be broken in any way; n and k are below Fib(34), as the heap asks.
- KPartFill.Partition: the number of vertices and of parts is below Fib(34), as the heap asks.
- The matrix of the gain loop is symmetric and non-negative, that of the greedy partitioner non-negative; this is what the callers build.
- The greedy first partition of `k-partitioning.c` (`kpartition_greedy2`) is not modelled; the greedy partitioner of `tm_kpartitioning.c` is.
- Random pairs are arbitrary choices, and random vertices are an input; the loop that draws until it hits a free vertex is one such choice.
- TreeMapping.MapProcesses: with every slot allowed the code drops the constraints and builds the tree bottom-up, which is not modelled; the member covers the constrained construction, and asks for at least as many constraints as processes, as the construction of the leaves does; trees are values, so parent pointers and sharing are not captured.
- The bottom-up tree construction of `tm_tree.c`, Scotch, hwloc, object weights and communication speeds.
- `qsort` is a sort by insertion with the same contract; a sample with repeated pairs is sorted by value only, since the comparison is not consistent on equal pairs.
- Grouping by three, and N outside 3 to 32767, where the sample is too short for the pivots.
- Arity.OptimizeTopology: the arrays are values that are replaced, as the code replaces them; costs are integers, and the other fields are copied by the code without change.

TCP:
- The host is little-endian, so its order differs from network order; a big-endian host always uses network order.
- Connection set-up, errors and closing; a frame of any other kind is a bare header, as in the code.
- PUT frames without segments or with an empty segment, for which the scatter list can be empty, and more than two segments or a payload larger than the fragment, which the buffers do not hold.
- The cache is a sequence of bytes with a position and a length; that a payload may be used where it lies in the cache is modelled as the bytes it has.

Bookkeeping:
- The list of ranges is a sequence and the cursor an index; an index one past the end is the sentinel.
- Assignment.Search.Run: asks for at least one interface, because the search starts at the first cell.
- Attribute callbacks that call back into the attribute functions, locks, Fortran conversions, failing allocations, and the references to the MPI instance.
- Attributes.Registry.CopyAll: which attributes the copy holds after a failing callback is not stated, because it depends on the order of a hash table.
- Error codes of communicator requests: the final status is that of the last callback, so errors of subrequests may not surface; cancelling, free lists and shutdown.
- Integers are unbounded where the width plays no role; sequence ids have 32 bits.
