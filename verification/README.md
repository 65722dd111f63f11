# Verification model of the concurrent collections and the thread pool

The repository builds a thread pool out of three lock-free structures: a fragment pool, a FIFO queue and
a sorted list with flags, marks and backlinks, all in `src/collections.c`; the pool of workers itself is
in `src/thread_pool.c`. This project models that code and proves what it keeps, over every run and for
any number of threads. `dafny verify dfyconfig.toml` checks all of it.

## How the code is modelled

| module | what it holds |
|---|---|
| `ListHeap` | the list's memory, the six writes that reach it, its invariant, the key set it stands for |
| `ListThreads` | one list operation as a machine with one shared access a step (line numbers beside each point) |
| `ListSystem`, `ListHistory` | any number of such threads, the log of a run, what can happen how often and in what order |
| `ListHindsight` | why every answer was true at some moment of its call |
| `ListCalls`, `ListLinear`, `ListUnlinear` | which call owns which write; linearizability, and exactly when it is lost |
| `ListBacklinks` | which backlinks are written, and where they lead |
| `ListHelping`, `ListAlone` | the list operations as methods with loops, run alone from any heap other threads may leave |
| `ListSolo`, `ListSoloCalls`, `ListSoloResume` | a thread of the machine run alone does what those methods do, and ends from wherever it was suspended |
| `ListMisfire`, `ListMisfireRun` | when the check at lines 1042-1044 goes wrong, what follows, and a run in which it does |
| `SerialLists` | the list over its fragment pool, one operation at a time, with recycling: a bounded sorted map |
| `MemoryPools`, `SerialQueues` | the fragment pool and the queue over it as the thread pool uses them, under a lock |
| `QueueProtocol`, `QueueRuns`, `QueueLinear` | the queue used by any number of threads at once |
| `QueueSolo` | a thread of that queue run alone ends its call, from wherever it was suspended |
| `ThreadPool` | mutex, condition variable, queues and counter as a state machine with steps inside the critical section |
| `JobSeeking` | the loops of one mutex holder as methods on the queues, and the machine's steps that do the same |
| `ReadersWord` | the `readers` word and the copies it guards, byte by byte; what every finished copy has done |

Code that runs alone or under a lock is written as classes and methods with loops. Code whose difficulty is
interleaving is written as a transition system in which a step makes at most one access to shared memory.

The assumptions:

- Where threads run at once on the list or the queue, nodes are fresh and never reused. A node enters the
  heap at the compare-and-swap that links it. Recycling is proved where one operation runs at a time.
- A load or compare-and-swap of a whole `succ`, `next`, `head` or `tail` is one step. Two accesses in one
  expression are two steps.
- Keys lie strictly between INTPTR_MIN and INTPTR_MAX, the keys of the sentinels.
- Any weak compare-and-swap may fail spuriously, without limit in the transition systems. In the methods
  the failures have a finite ghost budget, which gives termination, and the unlinking at line 831 does not
  fail spuriously when the list runs alone.
- Version tags are natural numbers modulo 2^32; a fragment's link takes 16 bytes (64-bit machine).
- Jobs submit to the pool they run in.

## Where the code does not do what it is for

`try_flag` loads `prev->succ` three times in lines 1042-1044: for the node, the mark and the flag. Between
the first load and the third the word may change to one that is flagged at *another* node. Then
`list_delete` takes its target for flagged when it is not, marks it, and returns -1.

Whether that does harm depends on one thing: whether some thread has already won the deletion of the target,
that is, whether the target is marked or flagged from any predecessor. `ListThreads.Misfires` is the condition
on the heap that the third load sees: the flag is set, the word no longer names the target, and the target is
neither marked nor flagged. What is proved about it:

- Linearizability holds exactly as long as no check misfires. In runs without a misfire the list is
  linearizable at every moment (`ListLinear.Linearizable`); from every misfire the deleter, with no other
  thread moving, gets to where a key has left the list that no call has taken out (`ListUnlinear.Unlinear`).
  So a run is free of third loads from which their thread could end linearizability on its own if and only if
  no check in it misfires (`ListUnlinear.LinearizableIff`).
- A deleter that saw the flag at another node, run alone from any sound heap, answers -1. If the deletion of
  its target had been won, it leaves a sound list and takes no key that was not being deleted; if not, it
  leaves a broken list and has taken the key (`ListMisfire.MisfireRuins`). So at its third load a thread can
  break the list on its own exactly if the check misfires (`ListMisfire.MisfireDooms`, `ListMisfire.RunSafe`),
  and every run goes on from its first misfire to a broken list (`ListMisfire.MisfireRun`).
- Until then, a deletion that answers failure removes nothing: every marked node was won by exactly one call,
  which answers success (`ListCalls.MarkHasWinner`, `ListCalls.FailureRemovesNothing`). After a misfire the
  deletion answers failure although it has itself marked a node that no call ever flagged
  (`ListMisfire.FailureRemoves`).
- `ListMisfireRun.MarkedWithoutFlag` is a run of four threads in which this happens, and
  `ListMisfireRun.SearchNeverEnds` continues it by a search that, left to run alone, never returns.

That all helpers of a node write the same backlink is another property, and has another condition. A check
that sees the flag at another node while its target is still linked gives that node a backlink to the wrong
predecessor, misfire or not. Until that happens, helpers of linked nodes write the predecessor that was
flagged, and backlinks lead to nodes that were in the list after the marking (`ListBacklinks.BacklinkWrites`,
`ListBacklinks.MarkedFromBacklink`, `ListBacklinks.RunBacks`). Until a check sees the flag at another node at
all, all helpers of a node ever write the same backlink (`ListBacklinks.SameBacklink`). Linearizability needs
none of this: a backlink only has to be set and to lead to a smaller key.

The results about histories hold up to and including the first misfiring step (`ListHistory.EveryRun`); which
call made which winning write is known in every run, misfires or not (`ListCalls.WinnerSucceeds`). A misfire
cannot arise when the three loads see one and the same word.

`mempool_contains` (line 452) adds 1 where it should add a fragment, so of the last fragment it accepts the
first byte only. `MemoryPools.ContainsIff` states exactly which addresses it accepts.

## Model

| member | source | states |
|---|---|---|
| ListHeap.InsertKeeps | src/collections.c:1001-1003 | The linking compare-and-swap keeps the whole invariant: keys strictly increasing, no node marked and flagged at once, marked nodes only under a flagged unmarked predecessor, no linked node skipped. |
| ListHeap.FlagKeeps | src/collections.c:1051-1053 | The flagging compare-and-swap keeps the invariant. |
| ListHeap.MarkKeeps | src/collections.c:939-941 | Marking a node that some predecessor is flagged at, and whose backlink is set, keeps the invariant. |
| ListHeap.UnlinkKeeps | src/collections.c:831-833 | Unlinking keeps the invariant, and the node is then no longer linked. |
| ListHeap.SetBacklinkKeeps | src/collections.c:958 | Writing the backlink of a node whose deletion is won keeps the invariant, whichever smaller node it names. |
| ListHeap.ActEvolves | src/collections.c:828-1078 | No write ever undoes a deletion: keys stay, a mark stays with its successor, an unlinked node stays unlinked, and helping that was safe stays safe. |
| ListHeap.ActRefinesSet | src/collections.c:831-1053 | Refinement to a set: an insertion adds a key that was absent, a mark removes one that was present, flags, unlinkings and backlinks leave the set alone. |
| ListHeap.UnmarkedReachable | src/collections.c:844-870 | Every inserted, unmarked node is reachable from head. |
| ListHeap.MarkedStillLinked | src/collections.c:933-965 | A marked node that is still linked hangs between exactly one unmarked predecessor, flagged at it, and an unmarked successor. |
| ListHeap.Unwound | src/collections.c:1012-1014 | Following backlinks from any node ends at an unmarked node with no greater key, at or after head. |
| ListThreads.ThreadInvEvolves | src/collections.c:844-1078 | Whatever other threads write, everything a suspended thread relies on stays true. |
| ListThreads.SearchStepInv | src/collections.c:844-870 | Every step of a search is legal and leaves the thread knowing a pair with curr.key <= key and curr.key < next.key. |
| ListThreads.InsertStepInv | src/collections.c:993-1024 | Every step of an insertion's loop is legal and keeps what the thread knows. |
| ListThreads.FlagStepInv | src/collections.c:1041-1078 | The thread is right about its target after a step of `try_flag` exactly when the check does not misfire. |
| ListThreads.HelpStepInv | src/collections.c:933-965 | Every step of the mutual recursion of `help_flagged` and `try_mark`, at any depth, keeps what every suspended frame relies on. |
| ListSystem.StepSound | src/collections.c:828-1078 | One step of one thread among any number keeps the list invariant and everything threads rely on exactly when it is not a misfiring check; its write is legal in either case. |
| ListSystem.RunSound | src/collections.c:1042-1044 | A run keeps the list invariant and everything threads rely on at every moment if and only if no check misfires. |
| ListSystem.NoWildAccess | src/collections.c:1012-1014 | No thread dereferences a null or unknown node; every backlink followed is set and leads to a strictly smaller key. |
| ListHistory.FlaggedOnce | src/collections.c:1051-1053 | Each node is flagged for deletion by at most one successful compare-and-swap of a whole run. |
| ListHistory.MarkedOnceAfterFlag | src/collections.c:939-941 | Each node is marked at most once, while a predecessor is still flagged at it whose flagging came before. |
| ListHistory.InsertedOnce | src/collections.c:1001-1003 | Each node is linked by at most one insertion. |
| ListHistory.EveryRun | src/collections.c:828-1078 | In every run, up to and including the first misfire: every write legal, inserts less marks of each key 1 or 0 as the key is in the list, no node flagged twice, none marked before it was flagged. |
| ListHistory.NetIsMembership | src/collections.c:939-1003 | Insertions of k less marks of nodes with key k make 1 when k is in the list and 0 when it is not, at every moment. |
| ListHistory.EdgeSince | src/collections.c:849-864 | A node seen in the list was, at some moment since, in the list and linked directly to the successor it shows now, although it may be marked now. |
| ListHindsight.SearchReturns | src/collections.c:844-870 | The pair returned has curr.key <= key < next.key, and at some moment since the search saw its start in the list curr was unmarked and linked directly to next. |
| ListHindsight.StepHist | src/collections.c:828-1126 | A step of any thread keeps what all threads have seen and what finished calls have answered. |
| ListHindsight.EveryAnswerWasTrue | src/collections.c:1093-1202 | In every run, until a check misfires, every finished find, insert and delete, successful or not, gave an answer that was true at some moment of its call. |
| ListHindsight.OutcomeChangesSet | src/collections.c:1001-1125 | A successful insertion has a moment in its call that added its key; a successful deletion one that removed it, after its own flagging. |
| ListHindsight.WinnersDiffer | src/collections.c:1106-1125 | Two calls that delete successfully never deleted the same node. |
| ListBacklinks.HelpersAgree | src/collections.c:956-958 | Two threads that help to delete a linked node from a predecessor flagged at it name the same predecessor. |
| ListBacklinks.BacklinkWrites | src/collections.c:956-958 | Until a check strays from a linked target, whoever writes the backlink of a linked node writes the predecessor flagged at it; any later write still leads to a smaller key. |
| ListBacklinks.MarkedFromBacklink | src/collections.c:939-941 | Until then, a node is marked when its backlink is the predecessor flagged at it. |
| ListBacklinks.RunBacks | src/collections.c:958 | Until then, every marked node's backlink leads to a node that was in the list after the marking. |
| ListBacklinks.BacklinkSince | src/collections.c:1012-1014 | A node seen in the list and marked since has such a backlink to a node that was in the list since then too. |
| ListBacklinks.SameBacklink | src/collections.c:956-958 | Until a check sees a flag at another node, all threads that ever help to delete a node write the same backlink. |
| ListCalls.AnswersOwnWrites | src/collections.c:1001-1125 | In every run a call made an insertion or a flagging exactly if it answered success to an insertion or a deletion, and then just one. |
| ListCalls.WinnerSucceeds | src/collections.c:1041-1125 | In every run each insertion and each flagging lies in a call that has answered success or can answer nothing else. |
| ListCalls.OneWinner | src/collections.c:1041-1125 | Each such write belongs to one call only. |
| ListCalls.MarkHasWinner | src/collections.c:939-1125 | Every marked node was flagged by exactly one write, of one deletion that answers success. |
| ListCalls.FailureRemovesNothing | src/collections.c:1106-1114 | A deletion that answered failure won none of the nodes marked so far, not even those it marked itself. |
| ListCalls.RunMade | src/collections.c:975-1142 | In every run the operation a call is at, or has finished, is the one its thread was asked for at the step that began it. |
| ListLinear.Linearizable | src/collections.c:975-1202 | Until a check misfires: every finished call, of the operation it was asked for, has a moment in its interval at which the sequential operation gives its answer and the next set; winning calls have distinct moments; the set changes at no others. |
| ListUnlinear.Unlinear | src/collections.c:1042-1114 | Every run goes on from a misfire, no other thread moving, to where it is linearizable no more. |
| ListUnlinear.LinearizableIff | src/collections.c:1042-1044 | No third load of a run lets its thread end linearizability on its own if and only if no check misfires; and then the run is linearizable at every moment. |
| ListMisfire.MisfireRuins | src/collections.c:1042-1057 | From any sound heap a deleter that saw the flag at another node, run alone, answers -1; the list it leaves is sound, and no key gone that nobody was deleting, if and only if its target was marked or flagged. |
| ListMisfire.MisfireDooms | src/collections.c:1042-1044 | At its third load a thread of a sound list can break the list on its own if and only if the check misfires. |
| ListMisfire.RunSafe | src/collections.c:1042-1044 | No third load of a run dooms the list if and only if no check misfires, and then the list is sound at every moment. |
| ListMisfire.MisfireRun | src/collections.c:1042-1078 | Every run goes on from its first misfire, no other thread moving, to an answer of -1 with the list broken and the key gone. |
| ListMisfire.FailureRemoves | src/collections.c:1106-1114 | After every misfire the deletion, run on alone, marks its target by its own hand and answers failure, and no call ever flagged that node. |
| ListMisfireRun.MarkedWithoutFlag | src/collections.c:1042-1044 | A complete run in which a node that nobody flagged is marked, its key disappears, the delete answers -1 and the invariant is broken. |
| ListMisfireRun.SearchSpins | src/collections.c:851-860 | A search that stands before a marked node behind an unflagged one never leaves it when run alone, and changes nothing. |
| ListMisfireRun.SearchNeverEnds | src/collections.c:844-870 | A run after which a search for the key, left to run alone however long, does not return. |
| ListAlone.AloneList.HelpMarked | src/collections.c:828-834 | Alone, unlinks exactly when prev is flagged at del, and then del is no longer linked. |
| ListAlone.AloneList.SearchFrom | src/collections.c:844-870 | Alone, from any sound heap, ends; its pair straddles the key and is linked now; it only finishes deletions others began, and changes no key. |
| ListAlone.AloneList.TryMark | src/collections.c:933-948 | Ends with the node marked; a deletion under way behind it is completed first, its node marked and unlinked; nothing before the node changed. |
| ListAlone.AloneList.HelpFlagged | src/collections.c:956-965 | From any sound heap with prev flagged at del, ends with del marked and unlinked; the recursion decreases on the linked nodes to the right. |
| ListAlone.AloneList.Unwind | src/collections.c:1065-1067 | The backlink loop ends at an unmarked node with no greater key, and does not move from an unmarked one. |
| ListAlone.AloneList.TryFlag | src/collections.c:1037-1078 | Ends with the predecessor flagged by this call, or found flagged, or with the target marked. |
| ListAlone.AloneList.InsertFrom | src/collections.c:993-1024 | Ends with a legal insertion of this key and node, or with the key found in the list. |
| ListAlone.AloneList.Find | src/collections.c:1135-1142 | Returns the node that holds the key exactly when the key is in the list. |
| ListAlone.AloneList.Insert | src/collections.c:975-1027 | Alone among half-done deletions, succeeds exactly when the key is absent, and removes only keys whose deletion was pending. |
| ListAlone.AloneList.Delete | src/collections.c:1093-1126 | Alone, leaves the key absent, and reports success exactly when the key was present and nobody else had already won its deletion. |
| ListHelping.HelpedFacts | src/collections.c:956-965 | The heap that helping leaves: sound, del marked and unlinked with its backlink set, all before prev as it was, whatever deletions were nested behind del. |
| ListHelping.MarkedFacts | src/collections.c:933-948 | The heap that marking leaves: sound, the node marked, and the deletion behind it complete. |
| ListHelping.HelpsKeys | src/collections.c:956-965 | Helping never adds a key, and removes none when no deletion is pending. |
| ListSolo.HelpRuns | src/collections.c:933-965 | The machine's steps of `help_flagged`, run alone with their explicit stack, end with exactly the heap of the method. |
| ListSoloCalls.WholeSearch | src/collections.c:844-870 | The machine's steps of `search_from`, run alone, end with a pair that keeps the promise of the method. |
| ListSoloCalls.CallCompletes | src/collections.c:975-1142 | Solo completion: from any sound heap an undisturbed find, insert or delete of the machine ends, with the answer and the heap that the methods promise. |
| ListSoloResume.CallResumes | src/collections.c:828-1142 | A thread of a sound list suspended at any point of any operation, then left alone, ends its call, and leaves the list sound if and only if it did not stand in a check bound to misfire. |
| ListSoloResume.SearchResumes | src/collections.c:844-870 | A search resumed anywhere, on a marked node or with a stale successor in hand, ends. |
| ListSoloResume.AllHelpsResume | src/collections.c:933-965 | Helping resumed anywhere, at any depth of nesting, ends and leaves the list sound. |
| ListSoloResume.WalkResumes | src/collections.c:1012-1014 | Leaving marked nodes, resumed anywhere, ends at the unmarked node that the backlinks lead to, and the search goes on from there. |
| ListSoloResume.LostInsert | src/collections.c:1008-1017 | After a failed compare-and-swap an insertion left alone first completes the deletion that flagged the word, if one did, and searches again from where the backlinks of prev lead. |
| ListSoloResume.LostFlag | src/collections.c:1059-1070 | After a failed flagging a deletion left alone completes the deletion of its target and fails if another won it at the same place, and otherwise searches for the target again from where the backlinks of prev lead. |
| SerialLists.QuietFixed | src/collections.c:851-860 | When no mark or flag is left, searching and helping change nothing. |
| SerialLists.SerialList.constructor | src/collections.c:880-904 | A new list stands for the empty map and has room for two keys fewer than its pool has fragments to give. |
| SerialLists.CreateList | src/collections.c:880-904 | Refuses a size or capacity of zero or a pool that cannot be had, and otherwise yields an empty list with room for exactly `capacity` keys, whose fragments have room for a node's 32 bytes and a value. |
| SerialLists.SerialList.Insert | src/collections.c:975-1027 | Refines insertion into a bounded map: refused when the key exists, fails when full, else adds the value, written within a fragment; no mark or flag is left and linked nodes and free fragments make up the pool. |
| SerialLists.SerialList.Delete | src/collections.c:1093-1126 | Refines removal: returns the value stored under the key, recycles the node, and answers missing exactly when the key is absent. |
| SerialLists.SerialList.AllocNode | src/collections.c:801-820 | Takes the oldest free fragment with the value copied behind the node's own fields, touches no other value, and fails exactly when the pool has none to give. |
| SerialLists.SerialList.StoreValue | src/collections.c:1197 | Replaces the value in one fragment and no other, within its room. |
| SerialLists.SerialList.FreeNode | src/collections.c:1120-1123 | Hands out the value of the fragment before the fragment goes back to the free chain. |
| SerialLists.SerialList.TakeOut | src/collections.c:1106-1116 | Flagging, marking and unlinking, run with no deletion pending, together leave exactly the list without the node. |
| SerialLists.SerialList.Search | src/collections.c:1152-1173 | Returns the value the map holds for the key, and changes nothing. |
| SerialLists.SerialList.Update | src/collections.c:1183-1203 | Replaces the value of a present key in its fragment, and answers failure for an absent one. |
| SerialLists.DeleteStands | src/collections.c:1106-1123 | Taking an unlinked node out and freeing it keeps map, values and fragments in step. |
| SerialLists.InsertStands | src/collections.c:1001-1003 | Linking a node from the pool keeps map, values and fragments in step. |
| MemoryPools.MemoryPool.Put | src/collections.c:123-150 | A fragment goes to the end of the free chain, whatever the lag of tail and the spurious failures; no other handed-out fragment is touched; the loop ends. |
| MemoryPools.MemoryPool.Append | src/collections.c:128-150 | The linking loop ends however far tail lags and whatever fails spuriously, with the fragment last in the chain and every fragment's data as it was. |
| MemoryPools.MemoryPool.Pick | src/collections.c:168-198 | Hands out the oldest free fragment, and fails exactly when only the last of the chain is left. |
| MemoryPools.MemoryPool.Setup | src/collections.c:237-267 | From any state of the region (so also for `mempool_clear`) all fragments are free, in order and of the same room, and `freeable` is the capacity. |
| MemoryPools.Create | src/collections.c:279-302 | Refuses a size or capacity of zero and a failed `calloc`, and otherwise yields a pool with all its capacity to give, of fragments with room for the data size asked for. |
| MemoryPools.TailLink | src/collections.c:131-145 | A null link at tail means tail has caught up; otherwise the link leads to the last fragment. |
| MemoryPools.Accounting | src/collections.c:123-213 | Free and handed-out fragments partition the region, so their numbers always add up. |
| MemoryPools.AlignedDataBytes | src/collections.c:221-229 | The fragment size is the least multiple of 16 that holds both the data and the link. |
| MemoryPools.Layout | src/collections.c:257-260 | Fragments are disjoint, inside the allocated region and at multiples of 16 from its start, with room for the data. |
| MemoryPools.ContainsIff | src/collections.c:441-458 | Of all addresses it accepts exactly the bytes of every fragment but the last, and the first byte of the last. |
| SerialQueues.SerialQueue.Alloc | src/collections.c:488-501 | Takes the oldest free fragment with its link cleared and the value written within its room, and fails exactly when the pool has none to give. |
| SerialQueues.SerialQueue.Enqueue | src/collections.c:565-603 | Fails exactly when the queue is full, else appends the value. |
| SerialQueues.SerialQueue.LinkBehind | src/collections.c:579-600 | The linking loop ends however tail lags and whatever fails spuriously, with the value appended. |
| SerialQueues.SerialQueue.Dequeue | src/collections.c:612-653 | Fails exactly on the empty queue, else returns the oldest value byte for byte and recycles its fragment. |
| SerialQueues.CreateQueue | src/collections.c:511-536 | Refuses a size or capacity of zero or a pool that cannot be had; a created queue is empty, has room for exactly `capacity` values, and its fragments for the 16 bytes of a link and a value. |
| SerialQueues.EnqueueAlloc | src/collections.c:488-501 | Overwriting the next free fragment disturbs no value already queued. |
| SerialQueues.LinkNode | src/collections.c:586-591 | The linking compare-and-swap appends one value, and leaves the free chain as it was. |
| SerialQueues.Retire | src/collections.c:643-650 | Returning the spent fragment to the pool, which overwrites its link, keeps all later values. |
| QueueProtocol.ActKeepsShape | src/collections.c:580-648 | Only the last node has a null link, head never passes tail, tail is last or next to last, every node is linked once. |
| QueueProtocol.ActRefinesFifo | src/collections.c:588-646 | The link appends its value, the swing of head removes the oldest value and carries it, the swing of tail is silent. |
| QueueProtocol.EnqueueStepInv | src/collections.c:580-600 | Each step of an enqueuer among others is legal: a successful link is made at the true last node. |
| QueueProtocol.DequeueStepInv | src/collections.c:622-648 | Each step of a dequeuer is legal: the value it copied before the swing is that of the new head. |
| QueueProtocol.ThreadInvExtends | src/collections.c:580-648 | Whatever other threads do, a thread's old snapshots still mean what it takes them to mean. |
| QueueRuns.StepSound | src/collections.c:580-648 | A step of any thread keeps the shape, every thread's knowledge and every answer given. |
| QueueRuns.Fifo | src/collections.c:580-648 | At every moment of every run the values linked are, in order, the values dequeued followed by those still queued. |
| QueueRuns.EveryAnswerWasTrue | src/collections.c:588-648 | A success stands for one write of its own within the call, ENOENT for a moment of the call at which the queue was empty. |
| QueueLinear.Linearizable | src/collections.c:565-653 | In every run every finished call, of the operation and value it was asked for, has a moment in its interval at which the sequential queue gives its answer and value and the next contents; successes have distinct moments; the contents change at no others. |
| QueueLinear.RunMade | src/collections.c:565-653 | In every run the operation, and the value, of a call is the one its thread was asked for at the step that began it. |
| QueueSolo.CallCompletes | src/collections.c:565-653 | Solo completion: a call made of any queue that other threads may have left, tail lagging or not, and run alone, ends with the answer, the value and the contents that the sequential queue gives for what was asked. |
| QueueSolo.CallResumes | src/collections.c:580-648 | A call suspended at any point with any old snapshots, then left alone, ends as the sequential operation on the queue as it is, unless it had already made its write or seen the queue empty. |
| ThreadPool.StepInv | src/thread_pool.c:141-324 | A step of any worker or submitter keeps the mutex, counter, wakeup and job invariants, with half-done searches and submissions accounted for. |
| ThreadPool.RunInv | src/thread_pool.c:224-264 | They hold at every moment of every run from the state `thrdpool_create` builds. |
| ThreadPool.NoLostWakeup | src/thread_pool.c:185-321 | When the mutex is free and a worker sleeps, every queue is empty. |
| ThreadPool.CounterExact | src/thread_pool.c:156-319 | When the mutex is free, `num_local_jobs` is the number of jobs in the local queues. |
| ThreadPool.SearchComplete | src/thread_pool.c:141-189 | A worker goes to wait only when every queue is empty; each queue gave out, in order, what it took in less what it holds. |
| ThreadPool.ExactlyOnce | src/thread_pool.c:141-324 | Every accepted job is taken in exactly once, by one queue, and given out at most once, exactly when held or finished; at every moment it is in one place; the answer is 0 exactly for accepted jobs. |
| ThreadPool.TakeJobs | src/thread_pool.c:141-169 | Popping and stealing move one job from one queue into one hand, and neither lose nor duplicate any. |
| ThreadPool.AcceptJobs | src/thread_pool.c:311-319 | An accepted submission enters exactly one queue. |
| ThreadPool.FinishJobs | src/thread_pool.c:192-201 | A job that returns is finished, and nothing else changes place. |
| ThreadPool.RunOnce | src/thread_pool.c:182-201 | In every run every finished job was in one thread's hand for one stretch of the run and at no other moment, and at the end of it that thread was running the job and returned from it. |
| JobSeeking.Pool.WorkSteal | src/thread_pool.c:141-154 | Takes the oldest job of the first other worker that has one, and fails exactly when none has. |
| JobSeeking.Pool.Seek | src/thread_pool.c:156-169 | Takes the oldest job of the preferred queue (own, then the first victim, then global) and leaves all else; fails only when all are empty. |
| JobSeeking.SeekConserves | src/thread_pool.c:156-169 | A search fails exactly when nothing is pending; a success removes just its own job. |
| JobSeeking.Pool.Add | src/thread_pool.c:311-321 | Fails exactly when the one queue concerned, the worker's own or the global one, holds 32 jobs, else appends there, and keeps the counter exact. |
| JobSeeking.SeekRun | src/thread_pool.c:156-169 | In the machine, the holder of the mutex gets step by step from the start of a search to its end with the result of the method. |
| JobSeeking.AddRun | src/thread_pool.c:311-323 | In the machine, the thread that holds the mutex and is about to push gets to its answer: 0 exactly when its queue held fewer than 32 jobs, the job then last in it, and no other queue changed. |
| JobSeeking.SubmitRun | src/thread_pool.c:297-324 | A whole submission when the mutex is free and no other thread moves draws the next ticket, answers as just said, and leaves the mutex free and the thread where it was. |
| JobSeeking.WorkRun | src/thread_pool.c:182-190 | A worker that wants the mutex, or is woken from its sleep, when the mutex is free and no other thread moves, goes to run the job the search prefers, or to sleep with every queue empty. |
| JobSeeking.WorkUntilIdle | src/thread_pool.c:182-201 | Without new submissions, whichever workers search, exactly as many searches succeed as jobs were pending, and their jobs are those jobs. |
| ReadersWord.StepWord | src/collections.c:1116-1198 | Every step keeps the word: the number of readers, or its greatest value under one lone writer. |
| ReadersWord.Exclusion | src/collections.c:1193-1198 | While a thread writes no other writes and none reads, in every run. |
| ReadersWord.WordCounts | src/collections.c:1116-1121 | Without a writer the word is the number of readers, up to and including UINT32_MAX of them. |
| ReadersWord.StoreCopy | src/collections.c:1197 | A half-made copy into a node is always a prefix of the new value followed by the rest of the last whole one. |
| ReadersWord.NoTornRead | src/collections.c:1163-1168 | The buffer a search hands out is a value stored whole by one insertion or update, and was the latest at some moment of the call. |
| ReadersWord.CallsDoTheirWork | src/collections.c:1162-1202 | In every run an update that has returned was asked for and stored its own value whole since it began; a search that has returned was asked for and hands out a buffer. |
| ReadersWord.NeverBackToRest | src/collections.c:1162-1202 | A call once begun never goes back to rest, so it ends in no other way. |
| ReadersWord.CallResumes | src/collections.c:1116-1198 | A copy suspended anywhere and left alone ends and does its work, as soon as the word lets it go on: no writer for a search, nobody for an update. |
| ReadersWord.CallCompletes | src/collections.c:1162-1202 | A call made when the word lets it go on, and run alone, ends: an update with its value in the node and nothing else changed, a search with the node's value. |

## Left out

- Recycling while other threads may still hold the node: `next` is reset to count 0 at lines 126 and 495 and `list_delete` frees its node at line 1123, so the tags do not protect old snapshots, and linearizability with reuse does not hold of this code.
- ListHindsight.EveryAnswerWasTrue: nothing is claimed of the answers given after a misfire, when the list is broken or about to be.
- ListSoloCalls.CallCompletes: progress of one thread run alone without spurious failures; nothing is claimed about progress under contention.
- SerialLists.SerialList.Insert: a node's `succ`, `backlink` and `key` are kept in the list's heap, not as bytes; the value's bytes lie in the fragment behind them. Lines 1019-1023 are unreachable when the operation runs alone, which is proved.
- SerialLists.SerialList.Delete: the unlinking at line 831 must not fail spuriously, else a freed node could stay linked.
- MemoryPools.MemoryPool.Setup: `mempool_clear` beyond it (a pool cleared while fragments are in use).
- MemoryPools.Create: wrap-around of `capacity + 1` or of the rounded fragment size at SIZE_MAX; an overflow of their product is a failed `calloc`.
- ThreadPool.NoLostWakeup: the queues are bounded sequences, as `SerialQueues` proves them to be under the mutex; the `thr` fields of colleagues are taken to be set before anyone steals, which the code does not wait for.
- ThreadPool.ExactlyOnce: teardown (`thrdpool_destroy`) may discard pending jobs; that every job is run eventually is not claimed, and is false, because local jobs are preferred.
- ReadersWord.NoTornRead: on nodes that stay allocated; the copy in `list_delete` (1115-1122) follows the same reading steps.
- ReadersWord.CallResumes: progress of one thread run alone; while readers keep coming an update may wait for ever.
- QueueSolo.CallResumes: progress of one thread run alone without spurious failures; nothing is claimed about progress under contention.
- Values and the `readers` word in the concurrent list model: the list model follows keys and links only, the copies have their own model.
- ENOMEM in the concurrent models (nodes are unlimited there), errno values and null-argument branches, and the null-value branches of the list (`val == NULL`), which skip the copy.
- Destruction of pools, queues and lists, and the size queries.
- The pool variant that is not a queue (lines 151-158, 199-211, 261-267): compiled out by src/collections.h line 26.
- The deque functions (stubs), `list_dump` (printing), `num_active`, job and thread naming, cancellation points.
- `src/threads_posix.c` (wrappers of system calls), `src/future.c` (a small monitor), `src/tasks.c`.
- C11 memory orders (sequential consistency is assumed), wrap-around of version tags in the concurrent queue with reuse, alignment quirks.
