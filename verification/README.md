# A verified model of BufferTreeDB

BufferTreeDB is a key/value store on a buffer tree: puts and deletes are messages that drop into
buffers at the root and move down in batches. This project models it in Dafny and proves what its
parts promise each other:

* **The tree** (`src/Node.cpp`, `src/BufferTree.cpp`). Nodes are objects changed in place, found by id.
  `BufferTree` proves each method against steps on plain values (`TreeModel`, `TreeSteps`, `TreeSplits`,
  `TreeSplitNode`), whose effect on the ordering invariant, on every read, on the termination measure
  (`TreeMeasure`) and on the balance (`TreeBalance`, `TreeHeight`) is proved apart and put together in
  `TreeState`; `TreeSettle` says which tree each call leaves, as a value. `TreeRuns` has the whole-run theorem
  against a plain map. `TreeDrain` shows why `lockPath` must drain.
* **Concurrency.** `TreeReaders*` is a state machine in which hand-over-hand reads run beside writes,
  pushes message by message, and splits. Where each message fits `maxNodeMsg`, every finished read is
  linearizable (`TreeReadersFit`), told in `TreeReadersHistory` by the steps alone, and `TreeReadersAlone`
  ties the machine's reads and pushes to those of the single-threaded tree. Where one does not fit, a node
  can be split at the end of its range while other threads are still splitting the buffer, and what was put
  is not found any more: `TreeReadersLoss` has that run, for all limits, and the condition both ways, and
  `TreeReadersThreads` one with the threads that make it. `LockOrder` has the traces of lock operations of
  every call, read locks shared, and shows that no wait cycle can arise; `LockCover` says what those locks
  protect.
* **The skip list** (`src/Skiplist.h`) as linked towers of any heights, refining a sorted sequence;
  its iterator; and the message buffer on top of it (`src/Msg.cpp`), up to the loops of `splitBuf` and
  `pushDownLocked` on buffer objects (`MsgBuffer`, `NodeBuffers`).
* **The slab allocator** (`src/Slab.cpp`): runs of pages, size classes and bitmaps; and in `SlabLinks` the
  doubly linked lists through the page descriptors, with the kind of page in the low bits of a link, which
  `SlabThreads` keeps beside the allocator over any run.
* **The wire form** (`base/Buffer.h`, `base/coding.h`, and the serialize and deserialize functions), with the
  bytes one by one in `WireLayout`.

`maxNodeChildNum` and `maxNodeMsg` are parameters everywhere, and messages may be of any size. One that is
over `maxNodeMsg` by itself is split off again and again, each time onto a pivot with the same leftKey as
the one it leaves empty, until a node split takes it to the sibling; that is why leftKeys may repeat
(`TreeModel.Ordered`, `TreeOversized`) and how the call ends (`TreeMeasure.SplitSlides`). Two kinds of writes
run into an assert instead, and the methods of `BufferTree` then answer that they stopped: those of the empty
key whose message is over the limit (`addPivot` is given a buffer without a key, src/Node.cpp:204), and all writes
under a limit below 4, which not even an empty buffer meets (src/Node.cpp:162). `BufferTree.CanWriteIff`
says so in numbers.

`Low(M)` is floor((M+1)/2); the upper bound on pivots is `Cap(M)` = max(M, 2), since a split needs two
pivots to make.

## Corrections to the text

Where the text does something else than the code around it needs, the model has the intent, and a
lemma or a line here says what the text does.

* `findPivot` returns one pivot too far, except at the last one: `AsWritten.FindPivotAsWritten`,
  `AsWritten.AddPivotAsWritten`.
* `MsgBuf::insert` gives back 8 bytes too few on a replacement: `AsWritten.InsertAsWritten`,
  `AsWritten.SplitAssertAsWritten`.
* `MsgBuf::serialize` writes the key's length before the value: `WireFormat.SerializeAsWritten`.
* The first `createNode()` on a new database repeats the root's id: `AsWritten.IdsAsWritten`.
* `BufferTree::get` does not look again whether the root it took is still the root:
  `AsWritten.GetAsWritten`. In `TreeReaders` taking the root and its lock is one step.
* `Slab::freePages` clears a third of the descriptors it should (src/Slab.cpp:503):
  `SlabRuns.FreePagesAsWritten`. The small-chunk branch of `free` shifts by `pageSize_` where `alloc` shifts
  by `pageShift_` (src/Slab.cpp:411, 417), by more bits than the word has; the model uses `pageShift_`.

## Model

| member | source | states |
|---|---|---|
| Keys.CompareIsRankOrder | base/Slice.h:62-111 | `compare` orders byte strings as base-257 fractions: it is below zero exactly when the first is smaller and zero exactly when they are equal, so `<` is a strict total order |
| Keys.LtInBytes | base/Slice.h:62-111 | in bytes: a key is below another exactly where, after the bytes they have in common, it ends or has the smaller byte |
| Msgs.InsertedSorted | src/Msg.cpp:52-72 | an insert keeps the list strictly sorted; it holds the new message and every old one of another key, and nothing else |
| Msgs.LookupInsert | src/Msg.cpp:52-106 | after an insert, find gives the new message for its key and what it gave before for every other key |
| Msgs.MergeAllOverlays | src/Node.cpp:286-303 | inserting a newer buffer message by message into an older one: every lookup gives the newer buffer's message if it has one, else the older's |
| Msgs.InsertSize | src/Msg.cpp:60-69 | with a replaced message giving back all it was charged for, the size after an insert is exactly the size of the list |
| NodeObject.Node.FindPivot | src/Node.cpp:223-240 | returns the last pivot whose leftKey is not above the key (one less than the text, see AsWritten.FindPivotAsWritten) |
| NodeObject.Node.AddPivot | src/Node.cpp:200-221 | the first pivot of a node, or a pivot put right behind the one its key belongs to |
| NodeObject.Node.PushDownLocked | src/Node.cpp:269-309 | the two-cursor loop ends, empties the parent's buffer, and leaves the child as if each message had been routed on its own and inserted over older ones |
| TreeSteps.PushDownKeepsInv | src/Node.cpp:269-309 | draining a buffer into the child keeps the ordering invariant: leftKeys in order, child's first leftKey equal to its pivot's, every message in range, leaf exactly when children are nil, all leaves equally deep |
| TreeSteps.PushDownKeepsFind | src/Node.cpp:258-309 | and no read at the parent's level or above answers differently |
| TreeSteps.WriteKeepsInv | src/Node.cpp:82-100 | a message put into the root keeps the ordering invariant |
| TreeSteps.WriteChangesView | src/Node.cpp:82-100 | and changes the read of its own key to itself and no other read |
| TreeSplits.SplitLeafKeepsInv | src/Node.cpp:142-186 | splitting a leaf's buffer at its middle message, even its only one, keeps the ordering invariant |
| TreeSplits.SplitLeafKeepsFind | src/Node.cpp:142-186 | and every read |
| TreeSplitNode.SplitChildKeepsInv | src/Node.cpp:311-356 | splitting a node below a drained pivot of its parent keeps the ordering invariant, where its middle key is below the end of its range or stands where the parent's range ends as well |
| TreeSplitNode.SplitChildKeepsFind | src/Node.cpp:311-356 | and every read at the parent's level or above |
| TreeSplitNode.GrowUpKeepsInv | src/Node.cpp:345-350 | splitting the root below a new root keeps the ordering invariant |
| TreeSplitNode.GrowUpKeepsView | src/Node.cpp:345-350 | and every read of the database |
| TreeDrain.SplitKeepsReadsIffSafe | src/Node.cpp:242-256 | a split keeps the answer of every read through the parent exactly when the buffer behind it answers no key of the upper half otherwise than what lies below; an empty buffer, which lockPath provides, is such |
| TreeDrain.SplitWithoutDrainLosesPut | src/Node.cpp:242-256 | without the drain a put of any key but the empty one is lost: a two-level tree in which it happens |
| TreeDrain.SplitAtRangeEnd | src/Node.cpp:325-356 | in every other split the middle key stands where the node's range ends and the parent's goes on; the new pivot is put behind the next one, and exactly the keys read through that one find nothing |
| TreeDrain.RangeEndKeepsReadsIff | src/Node.cpp:325-356 | so such a split keeps every read through the parent exactly when none of those keys has a value |
| TreeDrain.SplitKeepsInvIff | src/Node.cpp:311-356 | of all splits below a drained pivot, of a last child or any other, exactly those first ones keep the ordering invariant |
| TreeDrain.DrainedSplitKeepsReadsIff | src/Node.cpp:311-356 | and only one of the other kind, with a value behind it, changes a read through the parent |
| TreeMeasure.PushDownLowers | src/Node.cpp:258-309 | a push lowers the sum over all messages of their node's height by at least the number pushed |
| TreeMeasure.SplitLeafThins | src/Node.cpp:142-186 | a leaf buffer split keeps that sum; leaf messages minus non-empty leaf buffers becomes one less, or stays where the buffer held one message |
| TreeMeasure.SplitSlides | src/Node.cpp:142-186 | every split of a leaf buffer, down to one message, lowers the distance of the leaf's messages from the pivots a node split takes away |
| TreeMeasure.SplitChildKeepsMeasure | src/Node.cpp:311-356 | node splits change neither |
| TreeMeasure.GrowUpKeepsMeasure | src/Node.cpp:345-350 | nor does a new root |
| TreeBalance.SplitChildFan | src/Node.cpp:311-356 | both halves of a split node have at least floor((M+1)/2) pivots and the parent at most one more than M; fewer than that start at the very end of a node's range |
| TreeBalance.MiddleIsBelowEnd | src/Node.cpp:325-326 | the middle key of an overfull node that any key belongs to is below the end of its range |
| TreeBalance.GrowUpFan | src/Node.cpp:345-350 | after a root split every node is within the bounds and the new root has two pivots |
| TreeBalance.OverLimitHoldsTwo | src/Node.cpp:109-127 | with messages that each fit, a buffer over the limit holds at least two, or nothing where the limit is below 4 |
| TreeBalance.OverLimitIsSplittable | src/Node.cpp:142-221 | with messages of any size, a buffer over a limit of 4 or more can be split unless all it holds is a message of the empty key that is over the limit by itself |
| TreeHeight.HeightIsLogarithmic | src/Node.cpp:311-359 | h levels of inner nodes take at least 2 * floor((M+1)/2)^h leaf pivots, and where no leftKey repeats there are at most as many as keys ever written, plus one |
| TreeOversized.BoundNeedsFit | src/Node.cpp:142-186 | with a message over the limit the second bound can fail, for any M of 3 or more: one put into a new tree makes a tree of two levels, for which one key is too few |
| TreeOversized.SplitOffBySteps | src/Node.cpp:142-186 | the put and each split of the buffer that holds it alone lead to a leaf with one more empty pivot; that tree is the one whose root is split |
| TreeState.PushStep | src/Node.cpp:269-309 | a push keeps ordering, bounds and every read, and lowers the termination measure |
| TreeState.LeafSplitStep | src/Node.cpp:142-186 | so does a leaf buffer split of any number of messages, which may leave one node a pivot too wide |
| TreeState.ChildSplitStep | src/Node.cpp:311-356 | a split below a drained parent moves that excess to the parent and keeps the rest |
| TreeState.RootSplitStep | src/Node.cpp:345-350 | a root split removes it |
| TreeState.PathAfterSplit | src/Node.cpp:311-356 | the rest of a locked path is still drained after its last node split |
| TreeState.WriteStep | src/Node.cpp:82-100 | a message of any size can be put into the root: ordering and bounds stay, its key now answers with it, and no other read changes |
| TreeStops.LockedLeafHolds | src/Node.cpp:190-197 | after the path for the empty key is locked, its leaf's first buffer holds what that key answers |
| TreeStops.StuckBelow | src/Node.cpp:258-309 | a message of the empty key over the limit goes down with its buffer: the child is stuck with it next |
| TreeStops.WrittenStuck | src/Node.cpp:82-100 | writing one leaves the root stuck |
| BufferTree.BufferTree.constructor | src/BufferTree.cpp:25-48 | init on an empty database: one empty leaf, agreeing with the empty map |
| BufferTree.BufferTree.CreateNode | src/BufferTree.cpp:86-94 | a node under an id no node has had |
| BufferTree.BufferTree.MoveUpperHalf | src/Node.cpp:328-342 | a fresh sibling takes the upper half of a node's pivots |
| BufferTree.BufferTree.GrowNewRoot | src/BufferTree.cpp:66-73 | a new root over the two halves |
| BufferTree.BufferTree.SplitBelowStep | src/Node.cpp:328-356 | splitting a node below its drained parent keeps soundness, every read and the measure |
| BufferTree.BufferTree.SplitRootStep | src/Node.cpp:345-350 | splitting the root does, too |
| BufferTree.BufferTree.SplitNode | src/Node.cpp:311-359 | along a drained path: all nodes are within their bounds again, no read has changed, and the tree is exactly the one with each node of more than M pivots split, from the leaf up, until one has no more |
| BufferTree.BufferTree.PushBufferStep | src/Node.cpp:269-309 | draining one buffer keeps soundness and every read and lowers the measure |
| BufferTree.BufferTree.LockPathFrom | src/Node.cpp:242-256 | the path from a node to the leaf for the key, every buffer on it drained and nothing else changed |
| BufferTree.BufferTree.LockPath | src/BufferTree.cpp:50-64 | the same from the root |
| BufferTree.BufferTree.MoveUpperMessages | src/Node.cpp:154-183 | the copy loop, the resize and the new pivot split a leaf buffer at its middle message; the assert on the sizes holds |
| BufferTree.BufferTree.SplitBuf | src/Node.cpp:142-198 | keeps soundness and every read, and lowers the measure; the tree is exactly the one with the buffer split, the way of its first key drained and the nodes on it split as needed; stopped by an assert only if the limit is below 4 or a message of the empty key over the limit was written |
| BufferTree.BufferTree.PushDownFrom | src/Node.cpp:258-266 | ends; drains the buffer into the child, which then settles, so that no buffer of the child is over the limit; keeps soundness and every read, and lowers the measure; stopped if the child is |
| BufferTree.BufferTree.PushDownOrSplit | src/Node.cpp:102-131 | ends, by the lexicographic measure, whatever the sizes of the messages; keeps soundness and every read; no buffer of the node is over the limit afterwards, and the tree is the one that pushing or splitting the first buffer over the limit, time and again, leads to; stopped only as splitBuf is, and certainly at a node stuck with a message of the empty key |
| TreeSettle.SettlesOnce | src/Node.cpp:102-131 | there is only one such tree |
| TreeSettle.SettledWithin | src/Node.cpp:102-131 | and in it no buffer of the node is over the limit |
| BufferTree.BufferTree.WriteMsg | src/Node.cpp:82-100 | stopped by an assert exactly when CanWrite says so; otherwise the tree is the one the root settles to with the message in it, it agrees with the plain map after the write, and the node written to is within the limit |
| BufferTree.CanWriteIff | src/Node.cpp:102-221 | that is exactly when the limit is below 4, or the key is empty and its message takes more than the limit |
| BufferTree.BufferTree.Put | src/BufferTree.cpp:102-112 | put updates the plain map, for keys and values of any size, unless an assert stops it, which it does exactly when CanWrite fails |
| BufferTree.BufferTree.Del | src/BufferTree.cpp:114-124 | del removes the key from the plain map, under the same condition |
| BufferTree.BufferTree.GetFrom | src/Node.cpp:31-70 | the walk answers with the first message it meets |
| BufferTree.BufferTree.Get | src/BufferTree.cpp:126-136 | found exactly when the plain map has the key, with the map's value |
| TreeRuns.Run | src/BufferTree.cpp:102-136 | any sequence of put, del and get of any sizes on a new database, any limits: every get answers the value of the last put of its key unless a del came later, and nothing without a put; the run goes on to its end, or to the first write that an assert stops |
| TreeRuns.HeightOfRun | src/Node.cpp:311-359 | in every reachable tree the leaf pivots are exponentially many in the height, at least 2 * floor((M+1)/2)^h, and as long as every message fitted no more than the keys ever written, plus one |
| TreeRuns.FanOfRun | src/Node.cpp:311-359 | in every reachable tree a node has at most max(M, 2) pivots, and every node but the root at least floor((M+1)/2) |
| TreePushOne.CopiedKeepsFind | src/Node.cpp:291-303 | a message copied into the child while it is still in the parent changes no read from the parent's level up |
| TreePushOne.ClearedKeepsFind | src/Node.cpp:305-308 | clearing the parent after all copies changes none either |
| TreeReadersRuns.StepKeepsGood | src/Node.cpp:31-359 | every step of readers, writers, pushes message by message, and splits, under the locks they hold, keeps the invariant (what each read has gone past was newer than its start, and what lies ahead answers as some moment since), except exactly a split at the end of a range (TreeDrain.SplitAtRangeEnd) |
| TreeReadersRuns.RunIsGood | src/Node.cpp:31-359 | it holds in every state of every interleaving of any number of threads, up to such a split |
| TreeReadersRuns.GoodUntilRangeEnd | src/Node.cpp:31-359 | and no longer right after one |
| TreeReadersHistory.ReadsAreLinearizable | src/Node.cpp:31-70 | as long as there was no such split: a read of k started by step i and done in state n answered what a plain map, to which the writes among the first t steps were made, held for k, for some t from i to n; so no message moving down is missed |
| TreeReadersHistory.ReadIsWalk | src/Node.cpp:31-70 | and it came to that by looking at nodes: first the root there was when it began, then each time the child the last node sent k to, that node holding nothing for k, until one held a message or was a leaf |
| TreeReadersAlone.ReadAlone | src/Node.cpp:31-70 | with no push about, a read can always go on to its end, with the answer of the walk through the tree |
| TreeReadersAlone.PushAlone | src/Node.cpp:269-309 | with nobody else about, a push can be made, and copying its messages one by one and then clearing the buffer is the push of the single-threaded tree |
| TreeReadersAlone.LookWaits | src/Node.cpp:38-56 | a read at a node waits for a push of the very buffer it looks into, and for nothing else |
| TreeReadersAlone.DescentWaits | src/Node.cpp:31-36 | it goes down to an inner node whatever is being pushed there, and to a leaf unless a push is under way into or out of it |
| TreeReadersAlone.WriteWaits | src/Node.cpp:82-96 | a write waits for a push of the root's buffer it needs, and where the root is a leaf for reads of it |
| TreeReadersAlone.StartNeverWaits | src/BufferTree.cpp:126-136 | a read can begin at any time |
| TreeReadersAlone.PushWaits | src/Node.cpp:258-276 | a push waits for another push of its buffer, and where the child is a leaf until no read holds that and no other push has to do with it |
| TreeReadersAlone.CopyWaits | src/Node.cpp:133-140 | each copy waits for a push of the buffer it goes into, and for nothing else |
| TreeReadersAlone.SplitsWait | src/Node.cpp:142-256 | a split of a buffer waits for its leaf to be out of use, one of a node for the node and its parent |
| TreeReadersFit.FitRunIsGood | src/Node.cpp:109-198 | where each message written, but those of the empty key, fits the limit and a leaf buffer is split only over it, every state is right and no split is at the end of a range |
| TreeReadersFit.NodesCanBeSplit | src/Node.cpp:311-356 | so every node below another can be split whenever its locks are free |
| TreeReadersHistory.FitReadsAreLinearizable | src/Node.cpp:31-70 | and every read of every run is linearizable in that sense, with no other condition |
| TreeReadersLoss.LosingRun | src/Node.cpp:142-359 | whatever the limits, one message that does not fit is enough: a run from a new database, of its put, 2M + 3 splits of its buffer, the root's split and that of the lower half, after which a read of its key finds nothing |
| TreeReadersThreads.LosingRunByThreads | src/Node.cpp:82-198 | such a run in which every split is one its thread comes to: each buffer is split right after its thread's own put, as the first over the limit, and each node split is of the leaf for the first key of a buffer its thread split before; a message that does not fit is lost beside one of a smaller key that does |
| TreeReadersLoss.AllRunsGoodIff | src/Node.cpp:102-359 | every state of every run from a new database is right exactly when each message written, but those of the empty key, fits the limit |
| TreeReadersLoss.NoRunLosesIf | src/Node.cpp:102-359 | then no run ends where a read misses what was written; and where no run does, each put, but those of the empty key, fits |
| LockOrder.GetRuns | src/Node.cpp:31-70 | a read takes locks in the fixed order and gives each back once |
| LockCover.GetHolds | src/Node.cpp:31-70 | hand over hand: from its first lock to its last act a read holds the lock of a node of its path |
| LockCover.GetUses | src/Node.cpp:31-70 | it locks each buffer it looks into under that node's read lock alone, and each node but the first under the read lock of the one above |
| LockOrder.LockPathRuns | src/BufferTree.cpp:50-64 | lockPath ends holding exactly the nodes of the path |
| LockOrder.SplitNodesRun | src/Node.cpp:311-359 | splitNode gives back each node of its path exactly once, however far the split goes |
| LockOrder.WorkRuns | src/Node.cpp:102-198 | whatever pushDownOrSplit sets off ends with no lock held |
| LockOrder.WriteRuns | src/Node.cpp:82-100 | a whole write keeps the order and ends with no lock held, after any number of roots it locked that were no longer the root |
| LockCover.WriteSheltered | src/Node.cpp:82-309 | at no moment of a write is a buffer held without its node, a leaf's without the leaf being locked to write, or a new buffer without the one it is split from |
| LockCover.WriteInserts | src/Node.cpp:82-96 | its message goes into the root's buffer under that buffer's lock and the root's |
| LockCover.WorkStarts | src/Node.cpp:142-309 | a push first locks the child and then drains the buffer; a split first locks the buffer and the new one |
| LockCover.PushKeepsNodes | src/Node.cpp:258-309 | all of a push is done with both nodes held, a leaf to write |
| LockCover.PushSheltered | src/Node.cpp:269-309 | and from its first act to its last with the parent's buffer locked |
| LockCover.PushInserts | src/Node.cpp:286-303 | each insert into a buffer of the child is made under that buffer's lock |
| LockCover.LockPathHolds | src/Node.cpp:242-256 | lockPath ends holding the nodes of the path, each to write, and nothing else |
| LockCover.PathDrains | src/Node.cpp:242-256 | and drains each node's buffer into the next with the path down to that one locked to write |
| LockCover.SplitNodesOrder | src/Node.cpp:311-359 | splitNode gives back the nodes that were not split from the last one up, and then those that were from the first one down |
| LockOrder.DisciplineIsKept | src/Node.cpp:31-359 | no step of any thread breaks the discipline |
| LockOrder.NoWaitCycle | src/Node.cpp:31-359 | no state has a cycle of threads each waiting for the next |
| LockOrder.SomeoneCanGoOn | src/Node.cpp:31-359 | while a thread has work left, some thread can take its next step |
| LockOrder.RunsNeverDeadlock | src/Node.cpp:31-359 | in every state of every run of threads that make any gets and writes, with read locks shared, there is no wait cycle, and some thread can go on while one has work left |
| LockOrder.LocksExclude | src/Node.h:37-47 | in every state of every run, two threads that hold the same lock both hold it to read |
| LockOrder.ReadersShareRoot | src/Node.cpp:33-85 | and two calls that start by reading the root do come to hold it together |
| LockOrder.WhoStartsReading | src/Node.cpp:31-85 | as every get does, and every write whose root is an inner node |
| Towers.SuccSpliced | src/Skiplist.h:283-286 | where every link leads once a tower of any height is put in |
| Towers.OnlyPredPasses | src/Skiplist.h:205-226 | on each level only the last tower before a place has its link lead past it |
| SkipList.SkipList.constructor | src/Skiplist.h:250-260 | an empty list, every link of the head NULL |
| SkipList.SkipList.FindGreaterOrEqual | src/Skiplist.h:204-226 | ends; the first node whose key is not below the target, and at every active level the last node whose key is |
| SkipList.SkipList.FindLessThan | src/Skiplist.h:228-247 | ends; the last node whose key is below the target, or the head |
| SkipList.SkipList.ContainsKey | src/Skiplist.h:292-301 | true exactly when a stored key equals the target |
| SkipList.SkipList.LinkIn | src/Skiplist.h:283-286 | the linking loop changes, at each level of the new tower, exactly the link of the last tower before it |
| SkipList.SkipList.Insert | src/Skiplist.h:263-290 | for every height drawn: links are what the heights say, keys stay sorted, an equal key is replaced in place and no tower changes, else one of that height is put in and no other changes; the count is exact |
| SkipList.SkipList.Unlink | src/Skiplist.h:312-315 | the unlinking loop leaves exactly the links of the list without the node |
| SkipList.SkipList.Erase | src/Skiplist.h:303-321 | removes that key and its tower and nothing else |
| SkipList.SkipList.Clear | src/Skiplist.h:348-370 | leaves the empty list |
| SkipList.SkipList.FirstKeys | src/Skiplist.h:331-338 | level 0 read from the head gives the first keys |
| SkipList.SkipList.Resize | src/Skiplist.h:323-346 | keeps exactly the first keys, in order, whatever heights are drawn again |
| SkipList.SkipList.LevelIsLinked | src/Skiplist.h:75-88 | the links of each level lead from tower to tower of that level and then to NULL |
| SkipList.SkipList.LevelIsSorted | src/Skiplist.h:75-88 | each level runs in key order |
| SkipList.SkipList.LevelIsSublist | src/Skiplist.h:75-88 | each level is part of the one below, and level 0 has every node |
| SkipListIterator.Iterator.Next | src/Skiplist.h:120-125 | one index on |
| SkipListIterator.Iterator.Prev | src/Skiplist.h:127-135 | one index back, or NULL from the first |
| SkipListIterator.Iterator.Seek | src/Skiplist.h:137-143 | to the index of the first key not below the target |
| SkipListIterator.Iterator.SeekToMiddle | src/Skiplist.h:151-160 | to index count / 2 |
| SkipListIterator.Iterator.SeekToLast | src/Skiplist.h:162-184 | to the last index, NULL on an empty list |
| SkipListRuns.RunAll | src/Skiplist.h:263-370 | any sequence of insert, erase, resize and clear: the contents are those of the sorted sequence put through the same changes, strictly sorted, and the count is its length |
| SkipListRuns.StepLookup | src/Skiplist.h:263-370 | what each change means for the lookup of every key |
| MsgBuffer.MsgBuf.Find | src/Msg.cpp:90-106 | the stored message of a key, exactly when there is one |
| MsgBuffer.MsgBuf.Insert | src/Msg.cpp:52-72 | the skip list holds the sorted list with the message in it, and the size is exactly that list's |
| MsgBuffer.MsgBuf.Resize | src/Msg.cpp:74-88 | the first messages stay, and the size summed up again is exactly theirs |
| MsgBuffer.MsgBuf.Clear | src/Msg.cpp:44-50 | empty, size zero |
| MsgBuffer.MsgBuf.Size | src/Msg.cpp:34-37 | the size of the list and 4 bytes for its count |
| MsgBuffer.SplitBuffer | src/Node.cpp:154-180 | on two buffer objects: the upper half from the middle message on moves, the lower half stays, and the sizes satisfy the assert |
| NodeBuffers.InsertSlot | src/Node.cpp:133-140 | inserting into one pivot's buffer object leaves the other pivots' buffers, and the parent's, as they were |
| NodeBuffers.DeliverRun | src/Node.cpp:293-300 | the inner loop delivers up to the fast iterator, each message to the pivot its key belongs to |
| NodeBuffers.PushDownLocked | src/Node.cpp:269-309 | with two iterators over the parent's buffer object: the child's buffer objects end up as if each message had been routed on its own and inserted over older ones, and the parent's is empty |
| SlabPages.TakeRunTiled | src/Slab.cpp:324-361 | taking pages off the front of a free run leaves a partition of the pages into runs |
| SlabPages.ReturnRunTiled | src/Slab.cpp:499-516 | so does giving pages back |
| SlabPages.BlocksDisjoint | src/Slab.cpp:129-322 | two live blocks never overlap |
| SlabPages.BlockAboveBitmap | src/Slab.cpp:269-292 | a small page's live chunks lie beyond its bitmap, which has a bit for each chunk |
| SlabPages.ReservedIsLeast | src/Slab.cpp:272-278 | a small page gives its bitmap the fewest chunks that have a bit for each chunk, and a page whose bits fit one word gives none |
| SlabPages.ClassTable | src/Slab.cpp:72-98 | in numbers: chunks of 8 to 2048 bytes; pages of 8, 16 and 32 give 8, 2 and 1 of them to their bitmap, all others none |
| SlabPages.ShiftOfIsLeast | src/Slab.cpp:153-162 | a request below half a page goes to the smallest class whose chunks hold it |
| SlabSteps.TakenGood | src/Slab.cpp:142-152 | allocating pages adds one live block and keeps partition, lists and chunks |
| SlabSteps.ChunkedGood | src/Slab.cpp:266-316 | cutting a fresh page for an empty class adds one live block and lists the page |
| SlabSteps.MarkedGood | src/Slab.cpp:164-262 | serving a listed page's chunk adds one live block; the page leaves the list exactly when that was its last free chunk |
| SlabSteps.ClearedGood | src/Slab.cpp:384-473 | freeing a chunk of a page with other live chunks drops one live block and relinks a full page |
| SlabSteps.LastClearedGood | src/Slab.cpp:384-473 | freeing the last live chunk takes the page off its list and back to the free runs |
| SlabSteps.ReturnedGood | src/Slab.cpp:474-485 | freeing pages drops one live block |
| Slab.Slab.constructor | src/Slab.cpp:72-119 | one free run of all pages, empty classes |
| Slab.Slab.AllocPages | src/Slab.cpp:324-361 | the first run on the list that is long enough; nothing exactly when no run is |
| Slab.Slab.AllocWhole | src/Slab.cpp:142-152 | a new live block: the first pages of the first run that is long enough, the rest of which stays free in its place on the list; or nothing exactly when no run is long enough |
| Slab.Slab.AllocListed | src/Slab.cpp:164-262 | the first listed page serves its first free chunk, which was not live and is at least as big as asked; the page leaves the list exactly when it is full |
| Slab.Slab.AllocFresh | src/Slab.cpp:266-316 | the first chunk past the reserved ones of a page newly cut, which alone is now listed; or nothing exactly when no page is free |
| Slab.Slab.Alloc | src/Slab.cpp:129-322 | a block that was not live, from the first run long enough or the smallest class that fits, with everything that changes; NULL exactly when pages are needed and no free run is long enough, and then nothing has changed |
| Slab.ShiftFor | src/Slab.cpp:153-162 | the bit loop finds the smallest class that fits |
| Slab.FirstClear | src/Slab.cpp:173-180 | word by word and bit by bit, the first free chunk |
| Slab.Slab.FreePages | src/Slab.cpp:499-516 | the run is free and first on the list; a chunked page has left its class |
| Slab.Slab.FreeChunk | src/Slab.cpp:384-473 | drops exactly that block; a full page goes to the front of its class, and a page without another live chunk to the front of the free runs |
| Slab.Slab.Free | src/Slab.cpp:363-497 | drops exactly the block at that address, with everything that changes |
| SlabLinks.Unlinked | src/Slab.cpp:191-193 | linking a descriptor's neighbours to each other leaves its list without it, linked both ways in order and with the kind in every prev |
| SlabLinks.DescriptorTells | src/Slab.cpp:382-398 | the low bits of prev are 3, 2 or 1 for a page of chunks below, of and above 64 bytes and 0 for a run, listed or not, and its next is NULL exactly when it is off its list: full, or the first of a run handed out |
| SlabLinks.Links.constructor | src/Slab.cpp:91-113 | every class's head is linked to itself, and the free list's to the first descriptor and back |
| SlabLinks.Links.Unlist | src/Slab.cpp:190-196 | a page that has become full leaves its class's list and keeps its kind; all other lists stay threaded |
| SlabLinks.Links.Relist | src/Slab.cpp:398-407 | a full page goes back to the front of its class's list, linked both ways |
| SlabLinks.Links.ListFresh | src/Slab.cpp:285-289 | a page newly cut becomes the one page of its class's list |
| SlabLinks.Links.TakeRun | src/Slab.cpp:337-345 | a run of which all pages are taken leaves the free list, its next NULL |
| SlabLinks.Links.TakeFront | src/Slab.cpp:328-345 | where only its first pages are, the descriptor behind them takes its place |
| SlabLinks.Links.GiveBack | src/Slab.cpp:499-516 | a page leaves its class's list if it is on one, and the run goes to the front of the free list |
| SlabThreads.LinkedOp | src/Slab.cpp:129-516 | each alloc and free makes to the threaded lists the change it makes to the slab's lists: which list a page is on or off is read off its descriptor |
| SlabThreads.RunLinked | src/Slab.cpp:129-516 | after any run of alloc and free on a new slab, the lists threaded through the descriptors are the free list and the class lists, and the descriptors with a NULL next are those of full pages and of runs handed out |
| SlabRuns.LiveBlocksApart | src/Slab.cpp:129-322 | in every reachable state live requests are disjoint and inside the region |
| SlabRuns.BitmapIsSafe | src/Slab.cpp:269-292 | and every live request is clear of every small page's bitmap, on whatever page it starts |
| SlabRuns.InUseWhileLive | src/Slab.cpp:384-485 | a page is in use exactly while a live block starts on it |
| SlabRuns.RunAll | src/Slab.cpp:129-516 | over any run of alloc and free, each call does to the state exactly what alloc and free do; an answered block overlaps none held at that moment, NULL comes exactly when alloc's condition says so, and what is live is what the answers say the client holds |
| SlabRuns.Stat | src/Slab.cpp:529-625 | the skipping walk counts every page exactly once, by kind; a request for whole pages fails exactly when it is longer than the longest free run found |
| SlabRuns.FreePagesAsWritten | src/Slab.cpp:502-503 | the memset as written leaves every descriptor of the freed run saying free exactly when the run has at most two pages |
| Coding.FixedRoundTrip | base/coding.h:33-138 | fixed-width values come back |
| Coding.FixedInBytes | base/coding.h:33-60 | a 32-bit value is the bytes v mod 256, v / 256 mod 256 and so on, a 64-bit one its lower four bytes and then its upper four |
| Coding.FixedValueOfFour | base/coding.h:109-138 | four bytes read are their sum with weights 1, 256, 65536 and 16777216 |
| Coding.VarintLength | base/coding.h:21-29 | the number of bytes of the encoding |
| Coding.EncodeVarint64 | base/coding.h:97-107 | the loop writes seven bits to a byte, lowest first |
| Coding.EncodeVarint32 | base/coding.h:64-95 | the unrolled encoder writes what the loop writes, for every 32-bit value |
| Coding.VarintFits | base/coding.h:64-107 | n bytes are enough exactly for values of at most 7 n bits |
| Coding.VarintByte | base/coding.h:97-107 | byte i holds the i-th seven bits, its high bit says whether more follow, and the last of several is not zero |
| Coding.VarintRoundTrip | base/coding.h:141-192 | an encoded value followed by any bytes parses back and takes exactly its length |
| Coding.GetVarint32 | base/coding.h:141-172 | what the first five bytes spell, cut to 32 bits, or nothing when they do not end |
| Coding.GetVarint64 | base/coding.h:174-192 | what the first ten bytes spell, cut to 64 bits, or nothing when they do not end |
| Coding.RoundTrip32 | base/coding.h:64-172 | decoding the encoding of any 32-bit value, whatever follows, returns it and consumes VarintLength bytes |
| Coding.RoundTrip64 | base/coding.h:97-192 | the same for 64 bits |
| Coding.Zigzag64RoundTrip | base/coding.h:194-204 | numbers of either sign alternate by size, and each comes back, on the full signed range |
| Coding.Zigzag64IsOnto | base/coding.h:194-204 | every unsigned value is the code of one number |
| Coding.Zigzag32RoundTrip | base/coding.h:206-216 | the same for 32 bits |
| Coding.Zigzag32IsOnto | base/coding.h:206-216 | the same for 32 bits |
| ByteBuffer.ByteBuffer.MakeSpace | base/Buffer.h:241-257 | growing, or compacting when that gives the room, leaves the readable bytes as they were; both asserts hold |
| ByteBuffer.ByteBuffer.Append | base/Buffer.h:108-127 | the bytes are added at the end; the assert holds |
| ByteBuffer.ByteBuffer.Retrieve | base/Buffer.h:76-105 | the first bytes are gone, the others are left |
| ByteBuffer.ByteBuffer.Read | base/Buffer.h:155-160 | the first bytes are returned and gone |
| ByteBuffer.RunAll | base/Buffer.h:76-160 | over any run of append, read and retrieve the buffer is a queue |
| ByteBuffer.NothingLostOrReordered | base/Buffer.h:76-160 | what left it and then what is left is what was there and then what was appended |
| WireFormat.BufRoundTrip | src/Msg.cpp:108-163 | a buffer comes back from its bytes, with trailing bytes left over |
| WireFormat.NodeRoundTrip | src/Node.cpp:457-497 | a node comes back from its bytes, with trailing bytes left over |
| WireLayout.EncodeMsgIs | src/Msg.cpp:148-156 | a Put is 1, 0, 0, 0, the length of the key in four bytes, the key, and the value likewise; a Del is 2, 0, 0, 0 and the key |
| WireLayout.EncodeBufIs | src/Msg.cpp:136-163 | a buffer is the number of messages in four bytes and the messages in order |
| WireLayout.EncodeNodeIs | src/Node.cpp:457-473 | a node is one byte for whether it is a leaf, its id, the number of pivots, and for each the child's id, the leftKey with its length, and the buffer |
| WireLayout.DecodeMsgIs | src/Msg.cpp:117-129 | bytes laid out so are read as that Put or Del, and the rest is left |
| WireLayout.DecodeMsgTypes | src/Msg.cpp:117-129 | only bytes that start with 1, 0, 0, 0 are read as a Put and with 2, 0, 0, 0 as a Del |
| WireLayout.DecodeBufIs | src/Msg.cpp:108-133 | bytes laid out as a buffer are read as that buffer |
| WireLayout.DecodeNodeIs | src/Node.cpp:475-497 | and those of a node as that node |
| WireFormat.BufSizeIs | src/Msg.cpp:34-37 | a buffer's size is that of its bytes and 4 more for each Del |
| WireFormat.SerializeAsWritten | src/Msg.cpp:153-155 | with the key's length written before the value, a buffer comes back exactly when every value is as long as its key |
| NodeWire.Serialize | src/Node.cpp:457-473 | the loops append exactly the node's bytes |
| NodeWire.ReadBuf | src/Msg.cpp:108-133 | the loop reads the messages and rebuilds the list by inserting them |
| NodeWire.Deserialize | src/Node.cpp:475-497 | the loops read what the bytes spell and leave what follows |
| NodeWire.WriteThenRead | src/Node.cpp:457-497 | a node written and read back is the same node, and what was appended after it is what is left |
| NodeWire.WriteBackSize | src/Node.cpp:395-410 | the length of the node's bytes and 4 for each Del it holds |
| AsWritten.FindPivotAsWritten | src/Node.cpp:223-240 | the text's loop returns the pivot the key belongs to exactly when that is the last one, else the next one |
| AsWritten.AddPivotAsWritten | src/Node.cpp:214-217 | with that index, a new pivot keeps the node ordered exactly when its key is not below any of its pivots' |
| AsWritten.IdsAsWritten | src/BufferTree.cpp:36-94 | the ids handed out on a new database are distinct exactly when no further node is created; the first createNode repeats the root's id |
| AsWritten.InsertAsWritten | src/Msg.cpp:60-69 | over any run of inserts the text's size is 8 bytes too much for every replacement |
| AsWritten.SplitAssertAsWritten | src/Node.cpp:175-180 | the assert on the halves then holds exactly when nothing was replaced |
| AsWritten.GetAsWritten | src/BufferTree.cpp:126-136 | a read that captured the root before it split answers rightly exactly for keys below the middle key and keys that have no value |

## Left out

- BufferTree.BufferTree.constructor: only a new database; loading one through Layout and Cache is not part of this model.
- BufferTree.BufferTree.PushDownOrSplit: one thread; what other threads may do in between is in TreeReadersRuns and LockOrder.
- NodeObject.Node.PushDownLocked: a pivot holds its buffer's list as a value; NodeBuffers.PushDownLocked is the same loop on buffer objects, no two of which share an object, as no two pivots in the source share one.
- TreeReadersRuns.StepKeepsGood: a step does what the code does under the locks it holds at once; the root's write and the push that may follow are separate steps.
- TreeReadersLoss.AllRunsGoodIff: in these runs any node of more than M pivots may be split while its locks are free; TreeReadersThreads.ByThreads says which thread would.
- TreeReadersRuns.RunIsGood: what further steps do after a split at the end of a range is not followed; TreeReadersLoss shows that a put is lost by then.
- TreeHeight.HeightIsLogarithmic: the upper bound holds where no leftKey repeats, which is so until a message over the limit is written; TreeOversized.BoundNeedsFit has a tree in which it fails.
- LockOrder.RunsNeverDeadlock: a thread is taken to wait for whoever holds its next lock, also where both only read, which allows for a waiting writer between them; the short mutexes around single fields (dirty flags, pivotsMutex_, the tree's mutex_) are not modelled.
- Slab.Slab.Free: only addresses that are live; the checks that reject others are not modelled.
- Slab.Slab.constructor: a region of at least one page, every page with a descriptor; the layout of slots and descriptors in the region's first bytes is not modelled.
- Slab.Slab.AllocListed: the lists are sequences; SlabLinks.Links threads them through the descriptors, and SlabThreads shows that they stay the same.
- Slab.FirstClear: a bitmap is a sequence of bits, cut into words only for the search.
- SlabRuns.Stat: page counts and the longest run; the byte totals and the log lines are not modelled.
- SkipList.SkipList.Insert: the height is any from 1 to 17; how rand() draws it is not modelled.
- SkipList.SkipList.Clear: giving nodes back to the slab, and reading their links afterwards, is not modelled.
- SkipList.SkipList.Erase: a key that is in the list, as its asserts demand.
- NodeWire.Deserialize: bytes that spell a node; on others the asserts of Buffer stop the program. Message types other than Put and Del are not read.
- Coding.FixedRoundTrip: little-endian machines, where the text copies the value's own bytes.
- Coding.Zigzag64RoundTrip: the exclusive or with a sign is written as a complement, in arithmetic.
- ByteBuffer.ByteBuffer.Append: updateWriterIndex and swap are not modelled.
- Cache, Layout, Logger, the thread and lock wrappers, and Radix are not part of this model.
- Reference counts, dirty flags and the release and clone of slices are not part of this model; keys and values are plain byte strings.
- 32-bit overflow of node ids, counts and sizes is not modelled, except in the wire form and the codings.
