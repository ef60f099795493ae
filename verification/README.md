# Deterministic transaction scheduling, verified

The repository is an in-memory key-value transaction processor with a choice of
schedulers.  They share one promise: whatever the interleaving of the worker
threads, clients see the results, and the store ends in the state, of running
the transactions one at a time in arrival order.  This project models the
schedulers and proves when that promise holds and when it does not.

A transaction is two declared key sets and a function from what was read (both
sets are read) to a vote and a write buffer.  A scheduler is either imperative
code proved against a specification (lock managers, graph builders, storage,
depth-first sort) or, where threads interleave, a step machine whose actions
are the atomic steps of the C++ threads.  Theorems about a machine hold in every
reachable state: for every interleaving, every order in which a container
yields its elements, and every cut into epochs.

"Serial" below always means four things: results and votes are those of the
serial run, each transaction comes back at most once, the final store is the
serial one, and it can be read off the results alone, as the initial store
overridden by the buffers of those reported as committed.

## Main results

* **Any interleaving, one argument.**  `Execution` proves once for all
  schedulers that reads and writes may interleave key by key as long as nothing
  starts before its earlier conflicts are final.  `LateWrites` does the same for a
  weaker order, the one the global-lock scheduler keeps.
* **Epoch scheduler.**  The builder's graph has exactly the edges from a reader
  to the next writer and from a writer to the readers before the next writer;
  two writers of a key without a reader between them get none.  For disjoint
  declared sets, all transactions with given sets run serially *if and only if*
  all such pairs are linked by a path through other keys.  Epochs come to their end if
  and only if no transaction declares a key in both sets.  A concrete run loses
  one of two increments.  The notebook's builder, which adds the missing edge,
  needs no condition.
* **Locking scheduler.**  `txn_waits_` always equals a recount over all queues,
  and every run is serial, whatever the transactions declare.  All of them come
  back, each once, if and only if none declares a key in both sets; one that does
  waits behind its own first request.
* **Individual locks.**  Same kind of exact condition, without any on disjoint
  sets: consecutive writers of a key whose last reader came before the first of them
  must be linked otherwise.  No wake-up is lost, an edge skipped because of
  `try_lock` is never needed, no thread waits for a waiting thread, all runs end.
* **Global locks.**  No wake-up is lost and everything comes back.  But in every
  list any later transaction may be handed back before an earlier one has
  applied its writes, so all transactions with given sets run serially *if and
  only if* nobody touches a key that an earlier one declares to write.
* **Multi-version storage.**  The sorted list answers every read as the log of
  writes would, for ids in any order, and its mark is the last read served.  In
  the commit protocol what a committed transaction has seen of a key is the last
  write with an id of at most its own before that read; each version goes
  to the front of its list, a commit writes its whole buffer and a failed attempt
  nothing, nothing deadlocks, a transaction restarts less often than there are
  transactions, and every run ends.  Some run faults *if and only if* some
  transaction declares a key, to read or to write, that the initial load did not
  create; otherwise every run ends with all committed.  Votes to abort leave
  nothing behind *if and only if* no logic buffers a write and then votes to abort.
* **Notebook sort.**  The depth-first search fails from exactly the nodes that
  reach a cycle, also after earlier searches have failed, and sorts the others.
  Completing the Kahn queue to its end lists every node iff there is no cycle.

## Where code and documentation differ

* `a2/src/txn/txn.h:36-38` documents a check that the declared sets do not
  overlap; nothing calls it.  What happens without disjoint sets is proved
  (`EpochScheduler.EpochsEndIff`, `LockingCorrectness.CompletesIff`).
* `a2/src/txn/mvcc_storage.h:9` calls `max_read_id_` the largest reader;
  the code keeps the last one (`VersionMarks.MarkIsLargestIff`).
* `a2/src/txn/txn_processor.cc:513-538` applies the buffer of a multi-version
  transaction whatever its vote (`MvccVotes.AbortedBufferIsCommitted`).
* `a2/src/txn/mvcc_storage.cc:29` locks a mutex that exists only for keys of the
  initial load (lines 4-10); locking any other key goes through a null pointer,
  which the model takes as the end of the process
  (`MvccCorrectness.FaultsIff`).  The check for a missing key at lines 79-82 is
  therefore never reached by a transaction that declares one.

## Files

| files | content |
|---|---|
| Transactions, SerialScheduler | meaning of a list of transactions; the serial scheduler |
| Execution | interleaved execution and the condition that makes it serial |
| Dependencies | the graphs of the three builders, and which conflicts they order |
| GraphEdges, EpochBuilder, NotebookBuilder, ContinuousTables, IndividualBuilder, GlobalBuilder | the builders' loops |
| DagExecution, DagCorrectness, DagNecessity, Stamps, EpochScheduler, LostUpdate | epoch execution |
| LockTables, LockManager, LockBatches, LockingScheduler, LockingCorrectness | lock managers and the locking scheduler |
| IndividualLocks, IndividualLocksInvariant, IndividualLocksCorrectness, IndividualScheduler | individual locks |
| GlobalLocks, GlobalLocksCorrectness, LateWrites, GlobalScheduler | global locks |
| VersionLists, VersionMarks, MvccProtocol, MvccInvariant, MvccCorrectness, MvccReads, MvccVotes | multi-version storage and commit protocol |
| TopologicalSort, ExclusiveGraph, KahnQueue | the exclusive-only prototype and the two sorts of the notebooks |
| Iteration, Measures | sequences without repeats, sums and sizes |

## Model

| member | source | states |
|---|---|---|
| SerialScheduler.Storage.Read | a2/src/txn/storage.cc:3-10 | finds a record iff it is stored, with its value |
| SerialScheduler.Storage.Write | a2/src/txn/storage.cc:13-16 | replaces or adds one record and nothing else |
| SerialScheduler.ExecuteTxn | a2/src/txn/txn_processor.cc:249-276 | reading readset, then writeset, key by key yields the store restricted to both, and the logic decides on that |
| SerialScheduler.ApplyWrites | a2/src/txn/txn_processor.cc:278-284 | the buffer overrides the store, all other records stay |
| SerialScheduler.RunSerial | a2/src/txn/txn_processor.cc:151-175 | store and results are those of the serial meaning used in all theorems; each vote is the logic's on the reads handed back, these reads are the store as the committed results before them leave it, and the final store is the initial one overridden in arrival order by the buffers of exactly those reported as committed |
| Transactions.UnwrittenKeyUnchanged | a2/src/txn/txn_processor.cc:151-175 | a key keeps its value in the serial run while nobody declares to write it |
| Execution.StepKeepsSerial | a2/src/txn/txn_processor.cc:249-284 | reads and buffers stay those of the serial run under every step of any transaction, provided a starting one has its earlier conflicts final |
| Execution.SerialIsObservable | a2/src/txn/txn_processor.cc:151-175 | such a state shows clients the serial results, and the serial store when all are final |
| Execution.CompleteIsExplained | a2/src/txn/txn_processor.cc:151-175 | when all are final with serial reads, the store follows from what was handed back: the initial one overridden by the buffers of exactly those reported as committed, every vote being the logic's |
| Dependencies.AdjacentConflictsSuffice | a2/src/txn/calvin.cc:369-399 | a graph that links conflicts without a writer between links all conflicts |
| Dependencies.EpochCoversIff | a2/src/txn/calvin.cc:369-399 | the epoch graph orders every conflict by a path iff it links consecutive writers with no reader between them |
| Dependencies.NotebookCovers | python_graph/graph2.ipynb:90-116 | the notebook graph orders every two conflicting transactions by a path in list order, unconditionally |
| Dependencies.IndivCoversIff | a2/src/txn/calvin.cc:171-236 | the individual-lock graph orders every conflict iff it links consecutive writers of a key read before but not since the first of them |
| GraphEdges.LinkSet | a2/src/txn/calvin.cc:380-395 | scanning a set of holders leaves edges from exactly the old and new sources, and an indegree equal to their number, whatever was linked before |
| EpochBuilder.SourcesAreEdges | a2/src/txn/calvin.cc:368-399 | the two loops look at exactly the sources of the epoch edges: reader to writer or writer to reader, no writer of the key strictly between, including the self edge of an overlapping declaration |
| EpochBuilder.BuildEpochDag | a2/src/txn/calvin.cc:350-409 | for any cut lo..hi: edge by edge the successors inside the epoch, the indegrees as numbers of distinct predecessors, and the transactions without any as roots, in arrival order |
| NotebookBuilder.SourcesAreEdges | python_graph/graph2.ipynb:90-116 | with the status table the loops look at the epoch sources plus consecutive writers with no reader between |
| NotebookBuilder.BuildNotebookDag | python_graph/graph2.ipynb:83-116 | edge by edge adjacency, indegrees and ascending sources of the graph are those of epoch edges plus blind writer pairs |
| NotebookBuilder.InitialQueue | python_graph/graph2.ipynb:175-178 | the initial queue is exactly the transactions without predecessors, in list order |
| IndividualBuilder.ScanRequest | a2/src/txn/calvin.cc:171-236 | the tables after a request, and the transactions it is checked against: exactly the individual-lock edges |
| IndividualBuilder.ScanRequests | a2/src/txn/calvin.cc:150-242 | the same for a whole arrival list, from empty tables |
| GlobalBuilder.LooksAtSources | a2/src/txn/calvin.cc:34-82 | the global-lock loops look at exactly the readers since the last writer of a written key and the last writer of a key read only |
| GlobalBuilder.ScanRequests | a2/src/txn/calvin.cc:13-92 | the same for a whole arrival list, from empty tables |
| ContinuousTables.TablesAdvance | a2/src/txn/calvin.cc:171-236 | a holders entry says the key was read at some time, its content are the readers no later writer has followed, last_excl is the last writer |
| DagExecution.ConsistentKept | a2/src/txn/calvin.cc:459-535 | every step of scheduler and workers keeps: indegree is the number of unreleased in-edges, queued iff zero and unstarted, never queued twice, counter exact, worker bound, results handed back once |
| DagExecution.CounterIsBarrier | a2/src/txn/calvin.cc:466-490 | the counter is zero iff all of the epoch is final and nobody is in its release loop, so nobody touches the graph again |
| DagCorrectness.AncestorsFinal | a2/src/txn/calvin.cc:504-528 | everything a queued or started transaction can be reached from inside the epoch is final |
| DagCorrectness.QueueIsFifo | a2/src/txn/calvin.cc:471-533 | over any run the transactions started are those pushed onto the ready queue, in that order, up to what is still queued; results are only appended |
| DagCorrectness.CoveredRunIsSerial | a2/src/txn/calvin.cc:297-535 | over a graph that covers the conflicts, every run over any epochs shows serial reads, votes and final store |
| DagCorrectness.EveryStepShrinks | a2/src/txn/calvin.cc:459-535 | each step lowers a well-founded measure over epochs, roots, unfinished work and unreleased edges |
| DagCorrectness.NeverStuck | a2/src/txn/calvin.cc:471-533 | short of completion some thread can move, if no transaction waits for itself |
| DagCorrectness.SomeoneCanMove | a2/src/txn/calvin.cc:498-535 | while fewer than eight workers are held up and something not behind them in the graph is unfinished, another thread can move |
| DagCorrectness.SelfEdgeNeverStarts | a2/src/txn/calvin.cc:389-395 | a transaction with an edge to itself stays unstarted in every run |
| DagCorrectness.CompletesIff | a2/src/txn/calvin.cc:459-491 | a run that hands back everything exists iff no transaction waits for itself |
| DagNecessity.UncoveredConflictGoesWrong | a2/src/txn/calvin.cc:387-399 | if the last writer of a key is not linked to a transaction that touches it, some transactions with these sets have a run with non-serial reads |
| EpochScheduler.NotebookRunsAreSerial | python_graph/graph2.ipynb:83-116 | with the notebook graph every run is serial, for all transactions |
| EpochScheduler.ReadersBetweenSuffice | a2/src/txn/calvin.cc:331-417 | with a reader between any two consecutive writers of a key every run is serial |
| EpochScheduler.EpochSerialIff | a2/src/txn/calvin.cc:387-399 | all transactions with these disjoint sets run serially iff each two consecutive writers without a reader between are linked through other keys |
| EpochScheduler.SelfEdgeIffOverlap | a2/src/txn/calvin.cc:369-395 | an edge to itself iff a key is declared in both sets |
| EpochScheduler.EpochsEndIff | a2/src/txn/calvin.cc:478-491 | the epochs can be brought to their end iff all declared sets are disjoint |
| LostUpdate.OneIncrementIsLost | a2/src/txn/calvin.cc:387-399 | a run in which two increments of one key both commit and the key ends at one |
| LockManager.LockManagerB.WriteLock | a2/src/txn/lock_manager.cc:109-138 | appends an exclusive request; granted iff the queue was empty, else its length is added to the waits |
| LockManager.LockManagerB.ReadLock | a2/src/txn/lock_manager.cc:140-174 | appends a shared request; granted iff no exclusive one is queued, else their number is added |
| LockManager.LockManagerB.Release | a2/src/txn/lock_manager.cc:176-229 | removes the first request of the transaction and advances those behind it; what is appended to the ready list are those whose number falls to zero, in the queue order of the requests at which it does; no effect if there is no request |
| LockManager.LockManagerB.Status | a2/src/txn/lock_manager.cc:232-262 | mode and owners of a key in the table; for an unknown key UNLOCKED and the owners vector as it was |
| LockManager.LockManagerA.WriteLock | a2/src/txn/lock_manager.cc:8-39 | the same with exclusive requests only, which the table keeps |
| LockManager.LockManagerA.ReadLock | a2/src/txn/lock_manager.cc:41-45 | a read lock is a write lock |
| LockManager.LockManagerA.Release | a2/src/txn/lock_manager.cc:47-87 | the same release on exclusive queues, with the same order of waking |
| LockManager.LockManagerA.Status | a2/src/txn/lock_manager.cc:90-103 | the front request is the owner; no owners for an unlocked key |
| LockTables.RequestKeepsExact | a2/src/txn/lock_manager.cc:109-174 | after any request, repeated ones included, waits still equals the recount of blockers over all requests in all queues for everybody, and is absent iff that is zero |
| LockTables.ReleaseKeepsExact | a2/src/txn/lock_manager.cc:176-229 | the same after the release of a granted or pending request, for all who have not cancelled |
| LockTables.GrantedIffNoNewBlockers | a2/src/txn/lock_manager.h:28-45 | the answer of a request is yes iff the request added no blockers |
| LockTables.WaiterIsStored | a2/src/txn/lock_manager.cc:205-228 | at every turn of the release loop the transaction whose number is taken down is in txn_waits_, so the complaint branch is unreachable |
| LockTables.ReleaseAny | a2/src/txn/lock_manager.cc:205-228 | a release takes from everybody's number what its requests lose, and appends to the ready list exactly those whose last blocker went |
| LockTables.ReleaseWakesInOrder | a2/src/txn/lock_manager.cc:205-228 | the woken transactions are appended in the queue order of the requests that brought their number to zero |
| LockTables.ZeroIsLastBlocker | a2/src/txn/lock_manager.cc:205-228 | with an exact number the request that brings it to zero is where the last blocker goes: none is left afterwards and no later request of the transaction loses one |
| LockTables.StatusTellsHolders | a2/src/txn/lock_manager.cc:232-262 | the owners are exactly the requests without blockers: one exclusive or only shared ones |
| LockBatches.RequestLocks | a2/src/txn/txn_processor.cc:181-205 | read locks then write locks in set order; blocked iff some request was not granted |
| LockBatches.ReleaseLocks | a2/src/txn/txn_processor.cc:220-229 | releases all of them |
| LockBatches.ReleaseAllWakes | a2/src/txn/txn_processor.cc:220-229 | over the whole batch, exactly those whose blockers fell to zero become ready |
| LockingScheduler.ConsistentKept | a2/src/txn/txn_processor.cc:177-247 | for any declared sets, every step keeps each queue in arrival order, the counts exact, and the ready list equal to the admitted, unstarted, unblocked transactions |
| LockingCorrectness.LockingIsSerial | a2/src/txn/txn_processor.cc:177-247 | every run, for any declared sets, any order of completions and either lock manager: exact counts, serial reads and votes, each result once, serial store at the end |
| LockingCorrectness.MutualExclusion | a2/src/txn/txn_processor.cc:232-245 | two transactions executing at the same time never conflict |
| LockingCorrectness.QueueIsFifo | a2/src/txn/txn_processor.cc:201-245 | over any run the transactions started are those pushed onto the ready list, in that order, up to what is still queued; results are only appended |
| LockingCorrectness.OldestNotWaiting | a2/src/txn/txn_processor.cc:181-205 | the oldest unfinished transaction is not in txn_waits_ iff it declares no key in both sets |
| LockingCorrectness.NeverStuck | a2/src/txn/txn_processor.cc:177-247 | with disjoint sets, until everything is returned some step is possible |
| LockingCorrectness.EveryStepShrinks | a2/src/txn/txn_processor.cc:177-247 | no run goes on for ever |
| LockingCorrectness.StoppedMeansComplete | a2/src/txn/txn_processor.cc:177-247 | with disjoint sets, a state without a possible step has returned everything, and one can always be reached |
| LockingCorrectness.OverlapNeverStarts | a2/src/txn/txn_processor.cc:185-199 | a transaction that declares a key in both sets stays in txn_waits_ and unstarted, in every run |
| LockingCorrectness.CompletesIff | a2/src/txn/txn_processor.cc:177-247 | a run that hands back everything exists iff no transaction declares a key in both sets |
| IndividualLocksInvariant.ConsistentKept | a2/src/txn/calvin.cc:150-291 | every step of scheduler and workers keeps mutex ownership, edges, indegrees, queue and results consistent |
| IndividualLocksCorrectness.NoWakeUpLost | a2/src/txn/calvin.cc:166-288 | a linked transaction has as indegree its in-edges not yet decremented, and is in the queue once, or started, iff there are none |
| IndividualLocksCorrectness.PushedOnce | a2/src/txn/calvin.cc:238-288 | over a whole run each transaction is pushed at most once, by scheduler or worker; exactly once iff nothing is pending, so if it has come back |
| IndividualLocksCorrectness.QueueIsFifo | a2/src/txn/calvin.cc:238-288 | over any run the transactions started are those pushed, in that order, up to what is still queued |
| IndividualLocksCorrectness.NothingPushedEarly | a2/src/txn/calvin.cc:238-242 | nothing is queued before the scheduler has released its indegree mutex |
| IndividualLocksCorrectness.PredecessorsFinal | a2/src/txn/calvin.cc:171-288 | what a queued or started transaction was checked against is final, whether or not an edge was added |
| IndividualLocksCorrectness.SkippedEdgeNotNeeded | a2/src/txn/calvin.cc:177-189 | a failed try_lock means that the owner is final; an edge refused after try_lock is there already or its source is final |
| IndividualLocksCorrectness.NoWaitCycle | a2/src/txn/calvin.cc:166-288 | a thread that another thread waits for waits for nobody |
| IndividualLocksCorrectness.SchedulerNeverWaits | a2/src/txn/calvin.cc:166-168 | nobody holds the indegree mutex of a transaction that is just arriving |
| IndividualLocksCorrectness.EveryStepShrinks | a2/src/txn/calvin.cc:150-291 | no run goes on for ever |
| IndividualLocksCorrectness.SomeoneCanMove | a2/src/txn/calvin.cc:247-291 | while fewer than eight workers are held up in execution and something not behind them is unfinished, another thread can move |
| IndividualLocksCorrectness.StoppedMeansComplete | a2/src/txn/calvin.cc:150-291 | a state without a possible step has returned everything, and one can always be reached |
| IndividualScheduler.ConflictsAreBehind | a2/src/txn/calvin.cc:150-291 | without stale writer pairs, whatever has started has every earlier conflicting transaction final with serial results |
| IndividualScheduler.NoStalePairSuffices | a2/src/txn/calvin.cc:171-236 | without stale writer pairs every run is serial |
| IndividualScheduler.IndividualSerialIff | a2/src/txn/calvin.cc:171-236 | all transactions with these sets run serially iff the stale writer pairs are linked through other keys |
| IndividualScheduler.SecondWriterIsUnordered | a2/src/txn/calvin.cc:172-209 | one read followed by two writes of a key can go wrong; the two writes alone cannot |
| GlobalLocks.ConsistentKept | a2/src/txn/calvin.cc:22-139 | every step keeps the two locks, stored indegrees, edges, queue and results consistent |
| GlobalLocksCorrectness.NoWakeUpLost | a2/src/txn/calvin.cc:22-139 | stored indegrees are the in-edges not yet released, queued once or started iff there are none |
| GlobalLocksCorrectness.PushedOnce | a2/src/txn/calvin.cc:83-133 | over a whole run each transaction is pushed at most once, by scheduler or worker; exactly once iff nothing is pending, so if it has come back |
| GlobalLocksCorrectness.QueueIsFifo | a2/src/txn/calvin.cc:83-133 | over any run the transactions started are those pushed, in that order, up to what is still queued |
| GlobalLocksCorrectness.EdgesBeforeSnapshot | a2/src/txn/calvin.cc:45-79 | once a worker has copied a neighbour set nothing is added to it |
| GlobalLocksCorrectness.ReadersBeforeWriter | a2/src/txn/calvin.cc:37-46 | a writer starts only after the readers since the previous writer have run |
| LateWrites.StepKeepsLate | a2/src/txn/txn_processor.cc:249-284 | if nobody touches an earlier writer's keys, reads and store stay those of the serial run provided only that readers have read before the writer of their key starts |
| GlobalScheduler.LaterMayOvertake | a2/src/txn/calvin.cc:39-46 | in every list, any later transaction can be handed back while an earlier one has run and still has its writes to apply |
| GlobalScheduler.GlobalSerialIff | a2/src/txn/calvin.cc:34-82 | all transactions with these sets run serially iff nobody touches a key that an earlier transaction declares to write |
| GlobalLocksCorrectness.EveryStepShrinks | a2/src/txn/calvin.cc:13-145 | no run goes on for ever |
| GlobalLocksCorrectness.StoppedMeansComplete | a2/src/txn/calvin.cc:13-145 | a state without a possible step has returned every transaction once, and one can always be reached |
| VersionLists.MVCCStorage.Read | a2/src/txn/mvcc_storage.cc:39-64 | found iff some version is not newer than the timestamp; then some version with the largest such id gives the value and gets the timestamp as its mark, and every other version, field and key stays as it was |
| VersionLists.MVCCStorage.CheckKey | a2/src/txn/mvcc_storage.cc:67-86 | on a sorted list: yes iff the key has versions and none is newer |
| VersionLists.MVCCStorage.Write | a2/src/txn/mvcc_storage.cc:92-118 | adds one unmarked version behind those with a larger id and before those with the same, and changes nothing else |
| VersionLists.InsertedServes | a2/src/txn/mvcc_storage.cc:110-117 | a write changes the answer of exactly the reads between its id and the next larger one |
| VersionLists.ReplaySorted | a2/src/txn/mvcc_storage.cc:92-118 | lists stay sorted under any operations |
| VersionLists.ServesTheLog | a2/src/txn/mvcc_storage.cc:39-118 | after any operations with ids in any order and repeated, a read returns the last written among the values with the largest id at most the timestamp, and fails iff there is none |
| VersionLists.OneAnswer | a2/src/txn/mvcc_storage.cc:39-64 | the log determines the answer |
| VersionMarks.MarkIsLastReader | a2/src/txn/mvcc_storage.cc:39-64 | after any operations the version of a put carries as mark the timestamp of the last get it has served, and zero if it has served none |
| VersionMarks.MarkIsLargestIff | a2/src/txn/mvcc_storage.cc:58 | that mark is the largest of the timestamps it has served iff the largest came last |
| MvccInvariant.ConsistentKept | a2/src/txn/txn_processor.cc:491-561 | every step keeps locks, ids, lists, histories, reads and buffers consistent, with a mutex for the keys of the initial load only |
| MvccInvariant.FailedCheckIsBeaten | a2/src/txn/mvcc_storage.cc:79-85 | a check fails only under a transaction with a larger id that has passed its checks |
| MvccCorrectness.VersionsFollowCommits | a2/src/txn/txn_processor.cc:513-531 | in every reachable state the ids of a key fall strictly, and ids increase in the order of writing |
| MvccCorrectness.CommitsAtFront | a2/src/txn/txn_processor.cc:528-531 | each write of a commit puts its version in front of all others, with the largest id |
| MvccCorrectness.CommitIsAtomic | a2/src/txn/txn_processor.cc:513-560 | a committed transaction has written exactly its buffer, each key once, with its value and the id of the attempt; failed attempts have written nothing |
| MvccCorrectness.ReadsNothingNewer | a2/src/txn/txn_processor.cc:491-508 | a committed transaction has read every key it declares, from versions no newer than itself |
| MvccReads.ReadTakesNewest | a2/src/txn/txn_processor.cc:497-508 | every read takes the newest version with an id of at most the reader's, which is the last such write so far or the initial load, and marks that version only |
| MvccReads.ReadIsRecorded | a2/src/txn/txn_processor.cc:497-508 | each read is logged with the value it has put into the reads and the number of writes before it |
| MvccReads.CommittedReads | a2/src/txn/txn_processor.cc:491-538 | over whole runs: a committed transaction has read each declared key exactly once under its final id, and has seen the last write of the key with an id of at most its own before that read, or the initial value |
| MvccCorrectness.CheckedKeysStay | a2/src/txn/txn_processor.cc:513-536 | between check and write nobody else can lock or write the key |
| MvccCorrectness.NeverStuck | a2/src/txn/txn_processor.cc:513-515 | locking in ascending key order never deadlocks: short of a fault and of completion some step is possible |
| MvccCorrectness.RestartsBounded | a2/src/txn/txn_processor.cc:541-560 | in any run a transaction restarts less often than there are transactions |
| MvccCorrectness.EveryStepShrinks | a2/src/txn/txn_processor.cc:491-561 | no run goes on for ever, restarts included |
| MvccCorrectness.AbsentKeyNeverCommits | a2/src/txn/txn_processor.cc:497-508 | a transaction that declares a key without a mutex never gets past its reads |
| MvccCorrectness.FaultsIff | a2/src/txn/mvcc_storage.cc:4-29 | some run faults at a null mutex iff some transaction declares a key that the initial load did not create |
| MvccCorrectness.AllCommitIff | a2/src/txn/txn_processor.cc:491-561 | all transactions can commit iff the initial load created every key they declare |
| MvccCorrectness.HowRunsEnd | a2/src/txn/txn_processor.cc:491-580 | a run that has stopped has committed everything if all declared keys exist, and has faulted otherwise |
| MvccVotes.AbortsLeaveNothingIff | a2/src/txn/txn_processor.cc:513-538 | over all stores with the declared keys, aborted votes leave no version in any run iff no logic buffers a write on reads on which it votes to abort |
| MvccVotes.AbortedBufferIsCommitted | a2/src/txn/txn_processor.cc:526-538 | a transaction that buffers a write and votes to abort is handed back as committed with the version written |
| TopologicalSort.Search.Dfs | python_graph/graph.ipynb:138-155 | true iff no cycle can be reached from the node, whatever earlier searches left behind; finished nodes come after their successors; the neighbours are gone through from the front of the list up to the first that reaches a cycle, each finishing only what can be reached from it, and the node comes last |
| TopologicalSort.Sort | python_graph/graph.ipynb:135-159 | the reversed result lists every node that reaches no cycle, once, with all edges forward; the starts are gone through in list order, each finishing only what can be reached from it and reporting whether it reaches a cycle |
| TopologicalSort.AllStartsSucceedIffAcyclic | python_graph/graph.ipynb:156-158 | all starts succeed iff the graph is acyclic |
| ExclusiveGraph.BuildExclusiveDag | python_graph/graph.ipynb:78-112 | each list names a successor once for every key of which the two are consecutive writers, and nobody else |
| ExclusiveGraph.WritersKeepListOrder | python_graph/graph.ipynb:99-112 | in any order with forward edges the writers of each key stand in list order |
| ExclusiveGraph.SortExclusive | python_graph/graph.ipynb:78-159 | building and sorting lists every transaction once, the writers of each key in list order, and no start fails |
| KahnQueue.CountIndegrees | python_graph/graph.ipynb:180-188 | the indegrees count all entries of all adjacency lists, repeated ones included |
| KahnQueue.Kahn.Complete | python_graph/graph.ipynb:235-242 | the completed node had no unfinished predecessor; indegrees go on counting the entries of unfinished nodes, the queue holds exactly the unfinished nodes without any, once, and the freed ones join it in the order of the completed node's list |
| KahnQueue.Kahn.Drain | python_graph/graph2.ipynb:201-213 | completing until the queue is empty lists nodes once, after all their predecessors, and lists all of them iff the graph has no cycle |
| KahnQueue.DrainedIffAcyclic | python_graph/graph.ipynb:210-242 | with an empty queue all nodes are completed iff the graph is acyclic |

## Left out

- Optimistic schedulers (`RunOCCScheduler`, `RunOCCParallelScheduler`): validation skips a commit and compares only readsets, so they do not meet the promise modelled here.
- Serializability of the multi-version schedulers, and `MVCCSSIExecuteTxn`: the commit check ignores reads; only version order, atomic commits and progress are claimed.
- SerialScheduler.ExecuteTxn: does not model `occ_start_idx_`, which only the optimistic schedulers read; the hand-over to `completed_txns_` is a step of the locking machine.
- SerialScheduler.Storage.Write: does not model `timestamps_`, which only the optimistic schedulers read.
- `CalvinEpochExecutor` and `epoch_dag_queue`: never used by the scheduler.
- Wall-clock epoch cuts (any cut is allowed), CPU affinity, sleeping and backoff, shutdown through `stopped_`, thread-pool queues (tasks start in any order), memory freeing, benchmarks.
- Spurious failures of `try_lock` and C++ data races: statuses are read and counters changed atomically; a decrement and the push it causes are one step, as is the lock, read and unlock of one key under multi-version storage.
- Integer widths: counters and ids are unbounded; `unique_id_` is narrowed to `int` by the storage interface, which is not modelled.
- The write outside the writeset that stops the process is the hypothesis that buffers stay inside the declared writeset.
- The arrival list of a run is fixed in advance; requests arrive at any time, in its order.
- Order of container iteration: left arbitrary everywhere but in the ascending read and lock order of multi-version transactions.
- LockTables.ReleaseKeepsExact: a transaction that cancels a pending request is excluded from the counts afterwards, as the header says its own number goes stale.
- The fields `neighbors` and `indegree` that the global-lock scheduler sets for consecutive writers (`a2/src/txn/calvin.cc:48-60`): its worker never reads them.
