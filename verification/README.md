# A model of the deterministic blockchain node and its helper libraries

The node executes blocks of transactions with the Aria protocol: all transactions of an epoch run on
one snapshot, reserve the keys they touch in a shared table, and are then committed or aborted from
that table alone. Around that protocol stand a coordinator with worker threads, a transaction manager,
and vendored helpers: a lock-free queue with its semaphore, an incremental Merkle tree, SHA-256 and
Base64. The Dafny modules here model the parts of these whose correctness is not visible from one
function, and prove what they are for.

| modules | what they model |
|---|---|
| ReserveTable, ReserveRace, RaceDecisions, EpochRace, EpochDecisions | the reserve table: minimum per key, order independence, the race in the reservation loop, for one key and for whole epochs, and what it does to the decisions |
| Serializability, Executor, ProviderRace | the commit rule, the executor that applies it to transaction objects, and the provider of the one table of an epoch |
| Phases, EpochsEnd | the coordinator's main routine and any number of workers, step by step, and that every epoch ends |
| Pipeline, PipelineSteps, Handshake, Resending, Progress | the transaction manager, the bounded buffer and the coordinator's packing, step by step, what is sent again, and that every epoch resolves something |
| FreeList, FreeListCalls, DequeueCounters, DequeueBound, DequeueCalls, BlockIndex, LookupRace | three parts of the lock-free queue, what their calls achieve, and lookups in the block index while it is written |
| Semaphore, SemaphoreCalls, BlockingQueue | the light-weight semaphore, what one call of it gets, and the queue that blocks on it |
| MerkleConfig, MerkleReference, MerkleTree, MerkleBounds | the incremental tree, a simple recursive tree, and where they part |
| BitTricks, ArrayList | the list that holds a level of the tree |
| Padding, Sha256 | streaming SHA-256 and its padding |
| Base64, Base64Decoding | encoding, decoding and line breaks |
| Options, Powers, Sequences, Sums | an optional value; powers of two and remainders; sequences; sums over threads |

Code that changes objects in loops is modelled by classes and methods with loops, each proved against
a function or a property; code that runs in several threads is modelled as a state machine whose steps
are the shared accesses of the code, and the main results are about every state of every run. A run is
a sequence of states from the initial one, each following from the one before by an enabled action, with
any number of threads and in any interleaving.

Results that differ from what one might expect:

- The reservation loop stores before it compares and exchanges. Run alone it keeps the minimum; run
  by several threads it does exactly when at most one id can still write the key
  (`ReserveRace.MinimumKeptIff`, with ids 5 and 3 as a failing case in `ReserveRace.SmallerIdLost`).
  Exactly then the decisions are safe too; otherwise two writers of one key can both commit
  (`RaceDecisions.DecisionsKeptIff`).
- Whole read and write sets reserved by concurrent threads leave exact tables in every interleaving exactly
  if no entry is asked for by two transactions (`EpochRace.AlwaysExactIff`). Races only ever turn aborts
  into commits (`EpochDecisions.RacesOnlyAddCommits`), and a decision is proof against every loss of
  smaller ids exactly if it is no abort, or an abort for a WAR and a RAW whose asking ids are all smaller
  (`EpochDecisions.SettledIff`). Where that does not hold the epoch need not be serializable: two
  increments of one value can both commit (`EpochDecisions.BothCommit`, `EpochDecisions.LostUpdate`).
- The tree's root, update and verify stop below the top list, while adding is right as far as the lists
  reach. The root and the tree after an update are right for every node hash exactly up to 2^18 leaves
  (`MerkleBounds.RootRightIff`, `MerkleBounds.UpdateRightIff`); beyond that, whatever the node hash, they
  can only be right on both sides of a change by a collision (`MerkleBounds.RightRootsCollide`,
  `MerkleBounds.KeptTopCollides`). Verifying a leaf is right beyond 2^18 leaves as well, except that with
  more than 2^18 and at most 393216 leaves it reads through a null pointer for every leaf from 2^18 on
  (`MerkleBounds.VerifyLeaf`, with the last of 2^18 + 1 leaves in `MerkleBounds.FirstUnreadable`).
- The coordinator reports an epoch before it leaves it, so that the manager's epoch can be one ahead of
  the coordinator's in between (`Handshake.ManagerMayBeAhead`), and past the first epoch only then
  (`Handshake.EpochsTogether`). After a restart the manager starts after the epochs saved and the
  coordinator at 1; it is that far behind until it has run through as many epochs without transactions
  (`Handshake.RestartCatchesUp`). The manager's equality test is right all the same
  (`Handshake.TestNeverMisses`).
- The dequeue counters rest on a wrapped comparison. The head never passes the tail if and only if
  dequeues never ask for more than 2^63 + 1 items in excess of what has been enqueued
  (`DequeueBound.HeadWithinTailIff`, `DequeueCounters.CountersSound`). One more is too many: of
  2^63 + 3 threads that ask for the one item there is, two are granted it
  (`DequeueBound.HeadCanPassTail`). With more asked for, three threads are enough
  (`DequeueBound.ThreeThreadsSuffice`).
- The block index divides a difference without sign; the lookup is right because capacities divide 2^59,
  and would be wrong at 2^60 (`BlockIndex.TooLarge`).
- Base64 encoding ends exactly for lengths below 2^32 (`Base64.EncoderEndsIff`).
- The shift-or rounding is right exactly up to 2^31 (`BitTricks.RoundIsLeastIff`).
- A list that was cut down to nothing keeps the pointer it has freed, and deleting it frees it again
  (`ArrayList.List.Delete`, `ArrayList.EmptiedThenDeleted`).

## Model

| member | source | states |
|---|---|---|
| ReserveTable.ReserveKey | src/block_server/reserve_table/mock/mock_reserve_table.cpp:23-36 | one reservation run alone ends within two rounds and stores the smaller of the old id (0 for none) and its own |
| ReserveTable.MockReserveTable.constructor | src/block_server/reserve_table/mock/mock_reserve_table.cpp:8-10 | a new table is empty and belongs to its epoch |
| ReserveTable.MockReserveTable.ReserveRWset | src/block_server/reserve_table/mock/mock_reserve_table.cpp:19-57 | reserves every key read and every key written, in order, in the matching table, and nothing else |
| ReserveTable.MockReserveTable.DependencyAnalysis | src/block_server/reserve_table/mock/mock_reserve_table.cpp:59-92 | WAW, WAR and RAW hold exactly if a smaller id holds the write of a written key, the read of a written key, the write of a read key |
| ReserveTable.RunConcat | src/block_server/reserve_table/mock/mock_reserve_table.cpp:19-57 | reservations made in two parts are the reservations made in one run |
| ReserveTable.RunIsMinimum | src/block_server/reserve_table/mock/mock_reserve_table.cpp:17-57 | after any run of reservations each entry is the smallest id that asked for that key, and 0 exactly if none did |
| ReserveTable.RunKeys | src/block_server/reserve_table/mock/mock_reserve_table.cpp:19-57 | a key is in a table exactly if some transaction reserved it there |
| ReserveTable.OrderIndependent | src/block_server/reserve_table/mock/mock_reserve_table.cpp:19-57 | the same set of reservations in any order, split and repetition gives the same tables |
| ReserveTable.ReserveSetIsRun | src/block_server/reserve_table/mock/mock_reserve_table.cpp:19-57 | what one transaction's loops leave is what its single reservations leave one after another |
| ReserveRace.OneWriterKeepsInv | src/block_server/reserve_table/mock/mock_reserve_table.cpp:23-36 | with at most one id that can write, at every point of every interleaving the cell holds the old id or that one, and threads past their store see their own id there |
| ReserveRace.LosingSchedule | src/block_server/reserve_table/mock/mock_reserve_table.cpp:23-36 | for any thread that can write there is a finished interleaving that leaves its id |
| ReserveRace.MinimumKeptIff | src/block_server/reserve_table/mock/mock_reserve_table.cpp:23-36 | every finished interleaving leaves the minimum if and only if at most one distinct id passes the guard at the start |
| ReserveRace.SmallerIdLost | src/block_server/reserve_table/mock/mock_reserve_table.cpp:23-36 | ids 5 and 3 racing for a fresh key can leave 5 |
| RaceDecisions.LostMinimumTwoWriters | src/block_server/worker/impl/ transaction_executor_impl.cpp:41-53 | if the race leaves an id other than the smallest, that id and the smallest both commit their write of the key; exactly one commits if and only if the smallest is left |
| RaceDecisions.DecisionsKeptIff | src/block_server/reserve_table/mock/mock_reserve_table.cpp:39-55 | in every interleaving exactly one of the transactions that write just this key commits, if and only if at most one distinct id passes the guard at the start |
| EpochRace.StepIsOfOneKey | src/block_server/reserve_table/mock/mock_reserve_table.cpp:23-36 | a step of a thread is one of the loop for the key it is at, as it is for that key alone, and touches no other key and no other thread |
| EpochRace.FinishedIsRaced | src/block_server/reserve_table/mock/mock_reserve_table.cpp:19-57 | however the reservation loops of an epoch's transactions interleave, once all have finished each entry is one of the ids that asked for it, and 0 exactly if none did |
| EpochRace.LeaveId | src/block_server/reserve_table/mock/mock_reserve_table.cpp:19-57 | for any thread and any entry that it asks for there is a finished interleaving of all threads that leaves its id there |
| EpochRace.AlwaysExactIff | src/block_server/reserve_table/mock/mock_reserve_table.cpp:19-57 | every finished interleaving leaves the least id in every entry if and only if no entry is asked for by two transactions |
| EpochDecisions.LeftIsRaced | src/block_server/worker/impl/ transaction_executor_impl.cpp:15-31 | whatever the transactions of an epoch read and wrote on the snapshot, their interleaved reservations leave each entry to one of those that touch its key |
| EpochDecisions.RacesHide | src/block_server/reserve_table/mock/mock_reserve_table.cpp:59-92 | tables with any such entries show no WAW, WAR or RAW that the exact tables do not show |
| EpochDecisions.SettledIff | src/block_server/worker/impl/ transaction_executor_impl.cpp:41-57 | a transaction is decided the same whichever of the asking ids is left in each entry, if and only if it is not to be aborted or it has a WAR and a RAW for which all asking ids are smaller |
| EpochDecisions.RacesOnlyAddCommits | src/block_server/worker/impl/ transaction_executor_impl.cpp:15-58 | in every finished interleaving of an epoch all that would commit from exact tables do; and if all decisions are settled as above, just those do, and they are serializable |
| EpochDecisions.BothCommit | src/block_server/worker/impl/ transaction_executor_impl.cpp:41-57 | if a transaction conflicts with smaller writers on one key at most, which it writes, some interleaving of the whole epoch commits it together with the smallest id |
| EpochDecisions.LostUpdate | src/block_server/worker/impl/ transaction_executor_impl.cpp:41-57 | of two transactions that read a value and write it longer, some interleaving commits both, from every snapshot, and no serial order does what they did |
| Serializability.CommittedConflicts | src/block_server/worker/impl/ transaction_executor_impl.cpp:41-57 | a committed transaction and any with a smaller id write disjoint keys; without RAW it reads nothing that the other writes; with RAW the other reads nothing that it writes |
| Serializability.CommitRule | src/block_server/worker/impl/ transaction_executor_impl.cpp:41-57 | a transaction commits if and only if it ran, writes nothing that a smaller id writes, and does not both write something that a smaller id reads and read something that a smaller id writes |
| Serializability.SerialOrder | src/block_server/worker/impl/ transaction_executor_impl.cpp:33-58 | the committed transactions can be put in an order in which none reads or writes what an earlier one wrote |
| Serializability.SerialMatches | src/block_server/worker/impl/ transaction_executor_impl.cpp:33-58 | run one after another in such an order, each transaction does exactly what it did on the snapshot, and every key ends with its one writer's value or the snapshot's |
| Serializability.LastWriteCounts | src/block_server/database/impl/database_impl.cpp:58-64 | of several writes of one key by a transaction the last one leaves its value, or nothing if it deletes |
| Serializability.CommittedAreSerializable | src/block_server/worker/impl/ transaction_executor_impl.cpp:33-58 | for every epoch, snapshot and order of reservations there is a serial order of the transactions decided to commit, or of any of them, that reads and writes the same, and no key has two writers among them |
| Serializability.DecisionsOrderIndependent | src/block_server/worker/impl/ transaction_executor_impl.cpp:15-58 | any two orders of an epoch's reservations decide every transaction the same way |
| Serializability.SmallestCommits | src/block_server/worker/impl/ transaction_executor_impl.cpp:35-57 | the smallest id among those that ran always commits |
| Serializability.EpochMakesProgress | src/block_server/transaction/impl/transaction_manager_impl.cpp:47-82 | a non-empty epoch leaves strictly fewer transactions to retry than it had |
| Executor.ReserveTableProvider.GetReserveTable | src/block_server/reserve_table/reserve_table.cpp:25-34 | called alone, hands out the one table of the epoch, making it when there is none or only one of another epoch |
| ProviderRace.OneTablePerEpoch | src/block_server/reserve_table/reserve_table.cpp:25-34 | however the calls of one epoch interleave, the test, the lock and the second test make at most one table, and all calls get the same one, of that epoch |
| ProviderRace.CallsEnd | src/block_server/reserve_table/reserve_table.cpp:25-34 | no call hangs: its thread or the one that holds the lock can always take a step nearer to its end |
| Executor.TransactionExecutor.ExecuteOne | src/block_server/worker/impl/ transaction_executor_impl.cpp:16-30 | a failing chaincode marks its transaction and reserves nothing; any other leaves its read and write set and adds its reservations |
| Executor.TransactionExecutor.ExecuteList | src/block_server/worker/impl/ transaction_executor_impl.cpp:15-31 | every transaction of the workload has been run, and the epoch's table holds what it held and all their reservations |
| Executor.TransactionExecutor.CommitList | src/block_server/worker/impl/ transaction_executor_impl.cpp:33-58 | a transaction that ran is marked COMMIT exactly if it is decided to commit and the storage takes its update, ABORT_NO_RETRY exactly if the storage refuses it, ABORT exactly if it is decided to abort; a failed one stays ABORT_NO_RETRY |
| Executor.TransactionExecutor.CommitOne | src/block_server/worker/impl/ transaction_executor_impl.cpp:36-57 | the same for one transaction |
| Executor.AfterListIsRun | src/block_server/worker/impl/ transaction_executor_impl.cpp:15-31 | what a workload leaves in the tables is the run of its single reservations |
| Executor.WorkloadsCover | src/block_server/worker/impl/ transaction_executor_impl.cpp:15-31 | however an epoch is cut into workloads and interleaved, the reservations made are those the serializability theorem is about |
| Executor.EpochIsSerializable | src/block_server/worker/impl/ transaction_executor_impl.cpp:15-58 | the transactions decided to commit from the table the workloads left, less those that the storage refused, are serializable, and the smallest id that ran is among them exactly if it is not refused |
| Executor.RunWorkload | src/block_server/worker/AriaWorker.cpp:27-44 | a worker's two phases: every result follows from the table to which its workload has added its reservations |
| Executor.RunEpoch | src/block_server/worker/AriaWorker.cpp:27-44 | with the epoch in one workload, what is marked COMMIT in the end is serializable, and the smallest id that ran is marked so exactly if the storage takes its update |
| Phases.WorkerKeepsInv | src/block_server/worker/AriaWorker.cpp:21-65 | every step of a worker keeps the invariant: what a worker may be doing for each place of the coordinator, and how far each workload has come |
| Phases.CoordinatorKeepsInv | src/block_server/coordinator/AriaCoordinator.cpp:37-153 | every step of the coordinator keeps it |
| Phases.RunKeepsInv | src/block_server/coordinator/AriaCoordinator.cpp:31-67 | it holds in every state of every run, with workers created as needed |
| Phases.PhasesSeparate | src/block_server/coordinator/AriaCoordinator.cpp:52-59 | no worker commits while another executes, and nothing of an epoch is created or executed after the first commit of that epoch or a later one |
| Phases.ReplacedOnlyWhenReady | src/block_server/coordinator/AriaCoordinator.cpp:131-143 | a step that changes a worker's workload finds the worker READY and waiting for READ |
| Phases.EachWorkloadOnce | src/block_server/coordinator/AriaCoordinator.cpp:37-67 | what happened to a workload is always a beginning of: created, executed, committed, once each in its own epoch, and all of it once the epoch is over |
| Phases.EpochsCount | src/block_server/coordinator/AriaCoordinator.cpp:63-66 | the epoch goes up by one exactly at the end of the wait for the committing workers, with every worker free and every workload done |
| Phases.HiresOnlyWhenNeeded | src/block_server/coordinator/AriaCoordinator.cpp:131-143 | a worker is created only if every other has a workload of this epoch of its own |
| Phases.NeverStuck | src/block_server/coordinator/AriaCoordinator.cpp:85-112 | in every reachable state some step changes the state |
| EpochsEnd.StepsDescend | src/block_server/coordinator/AriaCoordinator.cpp:37-67 | in every reachable state, every step that changes the state, but for asking for a workload, lowers a measure |
| EpochsEnd.RoundsEnd | src/block_server/coordinator/AriaCoordinator.cpp:37-112 | changing steps that are no requests, one after another, are no more than that measure |
| EpochsEnd.AlwaysAStep | src/block_server/coordinator/AriaCoordinator.cpp:85-112 | whenever the coordinator is not about to ask for a workload, some enabled step that is no request changes the state |
| EpochsEnd.WaitsEnd | src/block_server/coordinator/AriaCoordinator.cpp:69-153 | after as many changing steps as the measure says, in whatever order, the coordinator has got through all its waits and asks for a workload, and every worker has done what it was given |
| EpochsEnd.ReachesRequest | src/block_server/coordinator/AriaCoordinator.cpp:37-153 | every run can be continued, without a request, until the coordinator asks for a workload |
| Pipeline.AddTransaction | src/block_server/coordinator/AriaCoordinator.cpp:217-219 | a wrapper is put into the buffer from its back, whole |
| Pipeline.GetWorkload | src/block_server/coordinator/AriaCoordinator.cpp:187-205 | takes the longest beginning of the buffer that has the epoch and fits a workload, at least one transaction |
| Pipeline.Packable | src/block_server/coordinator/AriaCoordinator.cpp:197-205 | what follows the first has the epoch, the maximum is kept, and a shorter workload ends before another epoch |
| PipelineSteps.StepKeepsInv | src/block_server/transaction/impl/transaction_manager_impl.cpp:25-103 | every step of manager and coordinator keeps the invariant on places, epochs, buffer and results |
| PipelineSteps.RunKeepsInv | src/block_server/transaction/impl/transaction_manager_impl.cpp:15-103 | it holds in every state of every run, from any epoch saved at the start |
| Handshake.BufferInOrder | src/block_server/coordinator/AriaCoordinator.cpp:172-223 | the buffer is in order of epochs, none before the coordinator's, within its bound; all that was sent is, in order and once, in a workload with its epoch or in the buffer |
| Handshake.PastEpochsPacked | src/block_server/coordinator/AriaCoordinator.cpp:187-209 | once the coordinator is past an epoch, all that was sent for it is in workloads |
| Handshake.TestNeverMisses | src/block_server/transaction/impl/transaction_manager_impl.cpp:43 | the reported epoch equals the manager's exactly if the coordinator has reported it, and the coordinator never reports a later one before the manager moves on; so the test begins the retry loop over all of the epoch's transactions exactly then |
| Handshake.EpochsTogether | src/block_server/coordinator/AriaCoordinator.cpp:63-66 | from any saved epoch the coordinator's epoch is at most one more than the manager's; past the first epoch it is the manager's or one more, except one less exactly between its report and its own step on, when the manager was quicker |
| Handshake.RestartCatchesUp | src/block_server/transaction/impl/transaction_manager_impl.cpp:15-23 | in its first epoch the manager is ahead, at the start by the epochs saved, exactly until the coordinator has left the last of these; until then nothing is packed and the test does not fire |
| Handshake.ManagerMayBeAhead | src/block_server/coordinator/AriaCoordinator.cpp:63-66 | a run in which the manager is one epoch ahead |
| Handshake.NothingLost | src/block_server/transaction/impl/transaction_manager_impl.cpp:25-103 | outside the retry loop every fetched transaction is in exactly one place, current wrapper, next wrapper or block generator, and was sent for the epoch of that place but for the batch under way |
| Handshake.NonePassedOver | src/block_server/transaction/impl/transaction_manager_impl.cpp:47-82 | a transaction that the retry loop looks at always has its result |
| Handshake.FinishGivesResults | src/block_server/worker/impl/ transaction_executor_impl.cpp:33-58 | when an epoch has been executed, exactly the transactions in its workloads get its outcome, unchanged, and no epoch number changes |
| Handshake.GatherDecides | src/block_server/coordinator/AriaCoordinator.cpp:172-209 | the coordinator waits exactly while there is nothing of a later epoch and less than a workload, executes exactly when there is only what is of later epochs, and packs its own epoch otherwise |
| Handshake.EpochCanEnd | src/block_server/coordinator/AriaCoordinator.cpp:37-67 | once something of a later epoch has been sent, every run can be continued by the coordinator alone to its next epoch |
| Resending.HandedAreFinal | src/block_server/transaction/impl/transaction_manager_impl.cpp:66-80 | in every state of every run, what the block generator has is committed or aborted for good, and what is for the next epoch has no result |
| Resending.LoopSelects | src/block_server/transaction/impl/transaction_manager_impl.cpp:47-82 | from the test to the switch, in every run, the block generator gets just those of the epoch's transactions that were not aborted, in order, and the next wrapper just those that were |
| Resending.AbortedIsSentAgain | src/block_server/transaction/impl/transaction_manager_impl.cpp:50-65 | a transaction that the epoch aborted is, at the switch, in the next wrapper, reset, of the next epoch and sent for it; any other is with the block generator |
| Resending.LoopEnds | src/block_server/transaction/impl/transaction_manager_impl.cpp:43-103 | unless it waits for room, every step of the loop brings its end nearer, and at the end the next epoch begins with the wrapper filled for it |
| Resending.NextEpochBegins | src/block_server/transaction/impl/transaction_manager_impl.cpp:25-103 | once the manager's epoch has been reported, every run can be continued, with nothing new arriving, until the manager begins the next epoch; what it waits for on the way happens |
| Handshake.NoMutualWait | src/block_server/coordinator/AriaCoordinator.cpp:172-185 | while the manager waits for room in the buffer, the coordinator does not wait for transactions: packing takes something out, and some step of the coordinator's changes the state |
| Progress.RuleResolvesOne | src/block_server/worker/impl/ transaction_executor_impl.cpp:35-57 | an outcome that follows the commit rule, for any programs, snapshot and order of reservations, has a transaction that is not aborted |
| Progress.UnresolvedFalls | src/block_server/transaction/impl/transaction_manager_impl.cpp:25-103 | in every run whose outcomes follow the commit rule, from any point outside the retry loop where the manager's epoch has a transaction to any point where that epoch has been dealt with, the number unresolved falls strictly, but for new arrivals |
| Progress.EachEpochResolves | src/block_server/transaction/impl/transaction_manager_impl.cpp:25-103 | with no new arrivals it falls strictly each epoch |
| Progress.RetryResolves | src/block_server/transaction/impl/transaction_manager_impl.cpp:43-103 | from the test that finds an epoch with transactions finished to the switch it falls strictly |
| FreeList.StepKeepsInv | include/common/concurrent_queue/concurrent_queue.hpp:1438-1517 | every step of adding and getting keeps the invariant on counts, places and the chain of next pointers |
| FreeList.RunKeepsInv | include/common/concurrent_queue/concurrent_queue.hpp:1438-1517 | it holds in every state of every run |
| FreeList.NodeInOnePlace | include/common/concurrent_queue/concurrent_queue.hpp:1438-1517 | no node is on the list twice, in two threads' hands, or in a hand or owned while listed |
| FreeList.NextStableWhileHeld | include/common/concurrent_queue/concurrent_queue.hpp:1466-1469 | while a thread holds a counted reference no step changes the node's next pointer |
| FreeList.PopTakesFirst | include/common/concurrent_queue/concurrent_queue.hpp:1468-1476 | a successful exchange of the head removes the first node and leaves the rest |
| FreeList.CountsFit | include/common/concurrent_queue/concurrent_queue.hpp:1470-1475 | counts stay between 0 and one more than the threads, and a node just taken has its flag clear and at least two references |
| FreeList.NothingLost | include/common/concurrent_queue/concurrent_queue.hpp:1438-1517 | with no operation under way each node is owned with count 0 or listed with count 1, flag clear |
| FreeListCalls.GivesUpOnlyWhenEmpty | include/common/concurrent_queue/concurrent_queue.hpp:1452-1489 | in every interleaving a call to get a node takes one, or the list was empty at some moment of the call |
| FreeListCalls.GetAlone | include/common/concurrent_queue/concurrent_queue.hpp:1452-1477 | undisturbed, it takes the first node in six steps, and gives up at once exactly if there is none |
| FreeListCalls.InsertAlone | include/common/concurrent_queue/concurrent_queue.hpp:1495-1517 | undisturbed, a node being inserted is first on the list after four steps |
| FreeListCalls.AddOrLeave | include/common/concurrent_queue/concurrent_queue.hpp:1438-1450 | adding begins to insert the node exactly if no thread refers to it, and otherwise marks it |
| FreeListCalls.LastOneInserts | include/common/concurrent_queue/concurrent_queue.hpp:1479-1485 | giving a reference back begins to insert the node exactly if it is marked and the reference is the last |
| DequeueCounters.CircularOrders | include/common/concurrent_queue/concurrent_queue.hpp:468-480 | the wrapped comparison orders values up to 2^63 apart, and at exactly 2^63 calls neither smaller |
| DequeueCounters.DecideStep | include/common/concurrent_queue/concurrent_queue.hpp:1940-2037 | the comparison with the tail keeps the invariant whatever the room, and with less room than 2^63 it grants the smaller of the wish and the room, or nothing if there is no room |
| DequeueCounters.StepKeepsInv | include/common/concurrent_queue/concurrent_queue.hpp:2233-2323 | every step of enqueues, single and bulk dequeues keeps the invariant |
| DequeueCounters.RunKeepsInv | include/common/concurrent_queue/concurrent_queue.hpp:2536-2604 | in every state of every run in which never more than 2^63 + 1 items are asked for in excess of those enqueued, the invariant holds and no count that is compared is more than 2^63 past the tail |
| DequeueCounters.ClaimedOnce | include/common/concurrent_queue/concurrent_queue.hpp:1940-2037 | in consecutive claims an index below the head is claimed, and by one claim only |
| DequeueCounters.CountersSound | include/common/concurrent_queue/concurrent_queue.hpp:1940-2037 | in every such run the head never passes the tail, each index below it is claimed exactly once, and at rest the optimistic count is head plus overcommit |
| DequeueBound.HeadWithinTailIff | include/common/concurrent_queue/concurrent_queue.hpp:1940-2037 | in every run that keeps the requests in excess of what is enqueued within a number, the head never passes the tail, if and only if that number is at most 2^63 + 1 |
| DequeueBound.HeadCanPassTail | include/common/concurrent_queue/concurrent_queue.hpp:2233-2323 | a run with one more in excess, of 2^63 + 3 threads that ask for the only item, in which the first and the last are granted it |
| DequeueBound.ThreeThreadsSuffice | include/common/concurrent_queue/concurrent_queue.hpp:2233-2323 | with more asked for, three threads can bring the head past the tail |
| DequeueCalls.ClaimsWhatWasAsked | include/common/concurrent_queue/concurrent_queue.hpp:1940-2037 | in every run a claim begins at the head and is for no more items than its dequeue asked for |
| DequeueCalls.DequeueAlone | include/common/concurrent_queue/concurrent_queue.hpp:2233-2323 | undisturbed, with fewer than 2^63 items there, a dequeue takes as many from the head as it asks for, or all if these are fewer |
| BlockIndex.FoundIsSlot | include/common/concurrent_queue/concurrent_queue.hpp:2936-2946 | from any block's slot and key the masked arithmetic leads to the slot of the block wanted, for every capacity that is a power of two dividing 2^59 |
| BlockIndex.OffsetIs | include/common/concurrent_queue/concurrent_queue.hpp:2941-2943 | the unsigned quotient of the wrapped difference is the difference of the blocks modulo 2^59 |
| BlockIndex.TooLarge | include/common/concurrent_queue/concurrent_queue.hpp:2941-2944 | with 2^60 entries the block before the tail's is not found |
| BlockIndex.KeysDiffer | include/common/concurrent_queue/concurrent_queue.hpp:2936-2945 | blocks less than 2^59 apart have different keys |
| BlockIndex.PutShape | include/common/concurrent_queue/concurrent_queue.hpp:2892-2900 | putting the next key where no live block is keeps the index in shape and drops at most the lowest block, if all slots are taken |
| BlockIndex.DoubledShape | include/common/concurrent_queue/concurrent_queue.hpp:2965-2984 | the doubled index holds the same blocks in order and is in shape |
| BlockIndex.Index.constructor | include/common/concurrent_queue/concurrent_queue.hpp:2949-2991 | a new index is unused throughout |
| BlockIndex.Index.Insert | include/common/concurrent_queue/concurrent_queue.hpp:2886-2916 | the next block gets an entry unless the block one time round before it is live and no larger index can be had; the index is doubled exactly if that block is live; no live block is lost |
| BlockIndex.Index.Double | include/common/concurrent_queue/concurrent_queue.hpp:2949-2991 | twice the capacity, the same live blocks |
| BlockIndex.Index.Fill | include/common/concurrent_queue/concurrent_queue.hpp:2518 | puts the block just inserted in its entry and changes no other |
| BlockIndex.Index.Rewind | include/common/concurrent_queue/concurrent_queue.hpp:2918-2922 | takes back the last insertion and nothing else |
| BlockIndex.Index.Release | include/common/concurrent_queue/concurrent_queue.hpp:2585-2590 | empties the entry of the index's block and no other |
| BlockIndex.Index.Lookup | include/common/concurrent_queue/concurrent_queue.hpp:2924-2947 | run alone, for every index in a live block, the entry found is the block's own, with its key and its block |
| LookupRace.StepKeepsInv | include/common/concurrent_queue/concurrent_queue.hpp:2886-2991 | every step of one writer and any number of readers keeps the invariant on headers, shared entries and what each reader has read |
| LookupRace.LookupsSound | include/common/concurrent_queue/concurrent_queue.hpp:2931-2947 | in every interleaving with insertions, doublings and take-backs, a lookup of a live block finds the block's own entry, holding it, and never meets an entry without a key |
| Semaphore.StepBalanced | include/common/concurrent_queue/light_weight_semaphore.hpp:262-402 | every step moves permits, waiters and tokens in balance |
| Semaphore.RunKeepsInv | include/common/concurrent_queue/light_weight_semaphore.hpp:262-402 | the balance holds in every state of every run, through time-outs and spurious failures |
| Semaphore.PermitsConserved | include/common/concurrent_queue/light_weight_semaphore.hpp:262-402 | initial and signalled permits are the acquired, the count and the waiters; waiters are tokens present or due and the negative count; what is not acquired is available and never negative |
| Semaphore.WakeUpsMatchWaiters | include/common/concurrent_queue/light_weight_semaphore.hpp:288-295 | tokens never outnumber waiters and equal them when the count is not negative; the count never goes below minus the number of threads, and a signal never has more tokens to release than there are threads |
| Semaphore.RestLeavesCount | include/common/concurrent_queue/light_weight_semaphore.hpp:393-402 | with every thread at rest no token is left and the count is what entered less what was used |
| SemaphoreCalls.NoMoreThanAsked | include/common/concurrent_queue/light_weight_semaphore.hpp:298-391 | in every run a thread holds, with what it has used, no more permits than its call asked for, and after a wait for some it has some unless it timed out |
| SemaphoreCalls.TakesWhatItMay | include/common/concurrent_queue/light_weight_semaphore.hpp:363-374 | a successful exchange lowers a positive count by exactly the smaller of the count and what is still wished for, and the thread gets that |
| SemaphoreCalls.LessOnlyWhenEmpty | include/common/concurrent_queue/light_weight_semaphore.hpp:298-391 | in every interleaving a call comes back with fewer permits than it asked for, none included, only if the count was not positive at some moment since it began |
| BlockingQueue.CallKeepsInv | include/common/concurrent_queue/blocking_concurrent_queue.hpp:123-130 | every step of enqueues and dequeues keeps items equal to available, held and announced permits |
| BlockingQueue.PermitImpliesItem | include/common/concurrent_queue/blocking_concurrent_queue.hpp:294-473 | the inner queue holds at least as many items as permits available and held, so a thread past the semaphore has its items; every item enqueued is in the queue or was dequeued once |
| BlockingQueue.PermitsNeverShareItems | include/common/concurrent_queue/blocking_concurrent_queue.hpp:359-367 | two threads past the semaphore have enough items for both |
| BlockingQueue.RestingCountIsSize | include/common/concurrent_queue/blocking_concurrent_queue.hpp:123-130 | with every thread at rest the semaphore's count is the number of items |
| BlockingQueue.TakesNoMoreThanAsked | include/common/concurrent_queue/blocking_concurrent_queue.hpp:447-473 | in every run a dequeue takes no more items than it asked for, and one that waits may take one unless it timed out |
| MerkleReference.SplitUnique | src/common/merkle_tree/merkle_tree.c:128-139 | the cut of the simple tree is the one power of two below the length that is at least half of it |
| MerkleReference.SharedRootCollides | src/common/merkle_tree/merkle_tree.c:193-226 | two lists that differ in one leaf and have the same root give a collision of the node hash |
| MerkleReference.PairedBlock | src/common/merkle_tree/merkle_tree.c:131-136 | the root of a block with both halves is the hash of the roots of its halves |
| MerkleReference.PromotedBlock | src/common/merkle_tree/merkle_tree.c:244-249 | the root of a block without right half is that of its left half |
| MerkleTree.PadTellsApart | src/common/merkle_tree/merkle_tree.c:106-111 | a tag is copied and filled up with zeros: two tags have the same form exactly if one is the other and zeros, and of one length exactly if they are the same |
| MerkleTree.LevelDetermined | src/common/merkle_tree/merkle_tree.c:128-139 | a list is fixed by the leaves: its size by the closed formula, its entries as roots of their blocks |
| MerkleTree.AppendLevel | src/common/merkle_tree/merkle_tree.c:130-139 | what one more leaf does to a level |
| MerkleTree.UpdateLevel | src/common/merkle_tree/merkle_tree.c:242-258 | what a changed leaf does to a level |
| MerkleTree.FindRightNeighbor | src/common/merkle_tree/merkle_tree.c:175-190 | finds the root of the right sibling's block, promoted or not, exactly if that block is not empty |
| MerkleTree.Ascend | src/common/merkle_tree/merkle_tree.c:203-216 | one step up gives the root of the parent's block with the leaf replaced |
| MerkleTree.AddRound | src/common/merkle_tree/merkle_tree.c:130-139 | one round of adding completes its level |
| MerkleTree.UpdateRound | src/common/merkle_tree/merkle_tree.c:242-258 | one round of updating completes its level |
| MerkleTree.Tree.constructor | src/common/merkle_tree/merkle_tree.c:44-63 | an empty tree is sound |
| MerkleTree.Tree.Add | src/common/merkle_tree/merkle_tree.c:114-144 | appends the tag, filled up with zeros, and leaves every list as that of the tree over the new leaves |
| MerkleTree.Tree.Update | src/common/merkle_tree/merkle_tree.c:229-263 | replaces the leaf and leaves every list but the top one as that of the tree over the new leaves, the top one untouched; up to 2^18 leaves the whole tree is sound |
| MerkleTree.Tree.Verify | src/common/merkle_tree/merkle_tree.c:193-226 | accepts exactly the values that keep the root of the leaf's chunk of 2^18 |
| MerkleTree.Tree.GetRoot | src/common/merkle_tree/merkle_tree.c:266-277 | the recursive root of the first 2^18 leaves at most |
| MerkleBounds.AcceptedForgeryCollides | src/common/merkle_tree/merkle_tree.c:193-226 | if another value than the leaf's leaves the root of its chunk as it is, a collision of the node hash is exhibited |
| MerkleBounds.VerifyLeaf | src/common/merkle_tree/merkle_tree.c:193-226 | a call of verify accepts the leaf's own value, accepts another, or another tag of full length, only with a collision of the node hash exhibited, and reads through a null pointer exactly for leaves from 2^18 on of more than 2^18 and at most 393216 |
| MerkleBounds.VerifyAdded | src/common/merkle_tree/merkle_tree.c:114-226 | after a tag is added, the same tag is accepted at its place, and another of its length only with a collision, but for the leaves that cannot be read |
| MerkleBounds.FirstUnreadable | src/common/merkle_tree/merkle_tree.c:219-220 | the last of 2^18 + 1 leaves is such a one |
| MerkleBounds.ChunkIsTree | src/common/merkle_tree/merkle_tree.c:193-226 | up to 2^18 leaves, what verification compares is the root of the whole tree |
| MerkleBounds.RootRightIff | src/common/merkle_tree/merkle_tree.c:165-172 | the value returned as root is right for every hash and content if and only if there are at most 2^18 leaves |
| MerkleBounds.UpdateRightIff | src/common/merkle_tree/merkle_tree.c:165-172 | an update leaves the whole tree right for every hash and content if and only if there are at most 2^18 leaves |
| MerkleBounds.RightRootsCollide | src/common/merkle_tree/merkle_tree.c:266-277 | for every node hash, beyond 2^18 leaves: a value returned as root that is right before and after a leaf from 2^18 on changes gives a collision |
| MerkleBounds.KeptTopCollides | src/common/merkle_tree/merkle_tree.c:242-258 | for every node hash, beyond 2^18 leaves: a top list that is right before and after any leaf changes gives a collision |
| BitTricks.PowerOfTwoIff | src/common/merkle_tree/mt_arr_list.c:57-60 | the bit test holds exactly for powers of two |
| BitTricks.SmearIs | src/common/merkle_tree/mt_arr_list.c:45-50 | the five shift-or steps fill all bits below the highest |
| BitTricks.RoundIsLeastIff | src/common/merkle_tree/mt_arr_list.c:43-54 | rounding gives the least power of two at or above a 32-bit number if and only if it is at most 2^31, and 1 above |
| ArrayList.RoomForOneMore | src/common/merkle_tree/mt_arr_list.c:83-104 | the least capacity has room for one more unless the size is a power of two, and then twice the size is the least capacity |
| ArrayList.List.constructor | src/common/merkle_tree/mt_arr_list.c:63-66 | an empty list |
| ArrayList.List.Double | src/common/merkle_tree/mt_arr_list.c:89-104 | twice the entries and the same contents, unless the store cannot be had; the doubled size never passes the maximum |
| ArrayList.List.MakeRoom | src/common/merkle_tree/mt_arr_list.c:89-104 | room for one more and the same entries, with the least capacity kept least, unless the store cannot be had |
| ArrayList.List.Add | src/common/merkle_tree/mt_arr_list.c:76-108 | appends in bounds, keeps the capacity least, never finds its state illegal; changes nothing on an error |
| ArrayList.List.Update | src/common/merkle_tree/mt_arr_list.c:111-121 | replaces one entry within the size, else an error |
| ArrayList.List.UpdateIfExists | src/common/merkle_tree/mt_arr_list.c:124-136 | replaces one entry within the size, else nothing |
| ArrayList.List.AddOrUpdate | src/common/merkle_tree/mt_arr_list.c:139-152 | appends at the size, replaces below it, refuses above |
| ArrayList.List.Truncate | src/common/merkle_tree/mt_arr_list.c:155-176 | cuts the contents and makes the capacity least again, unless the smaller store cannot be had; cutting down to nothing frees the store and keeps the pointer |
| ArrayList.List.Get | src/common/merkle_tree/mt_arr_list.c:179-187 | the entry within the size, else none |
| ArrayList.List.Delete | src/common/merkle_tree/mt_arr_list.c:69-73 | frees the store, which is sound exactly if the list was not cut down to nothing, or has been added to since |
| ArrayList.EmptiedThenDeleted | src/common/merkle_tree/mt_arr_list.c:162-165 | adding one entry, cutting down to nothing and deleting frees the store twice |
| Padding.LastByteBits | src/common/sha224_256.c:275-306 | masked and marked, the last byte is the message's last bits, a 1 and zeros |
| Padding.PaddingIsRfc | src/common/sha224_256.c:389-422 | for every message of bytes and up to seven bits the padding is, bit by bit, that of section 4.1 of RFC 4634 |
| Padding.RfcPadLength | src/common/sha224_256.c:389-422 | the padding fills whole blocks and no more than one beyond need |
| Padding.PaddingInjective | src/common/sha224_256.c:389-422 | messages under 2^64 bits have the same padding only if they are the same |
| Padding.PadTellsApart | src/common/sha224_256.c:389-422 | equal padded bytes come from equal messages, bit for bit |
| Sha256.AddLength | src/common/sha224_256.c:61-64 | adds to the 64-bit length in two words and reports overflow exactly when it happens |
| Sha256.TakeInAppend | src/common/sha224_256.c:220-251 | taking in two pieces is taking in their concatenation |
| Sha256.TakeInAbsorbs | src/common/sha224_256.c:237-247 | the hash covers the whole blocks of the message so far and the buffer holds the rest |
| Sha256.PaddedIsFold | src/common/sha224_256.c:389-422 | mixing in the last one or two blocks gives the hash of the padded message, block after block |
| Sha256.StreamingIsFold | src/common/sha224_256.c:220-251 | a message taken in byte by byte and padded hashes as the fold over its padding |
| Sha256.LengthBytes | src/common/sha224_256.c:412-419 | the eight shifted bytes are the 64-bit length, highest first |
| Sha256.DigestIsWords | src/common/sha224_256.c:587-589 | up to 32 bytes of the digest are the eight words of the hash, the highest byte of each first |
| Sha256.DigestTellsApart | src/common/sha224_256.c:587-589 | two hashes of 32-bit words have the same 32-byte digest exactly if they are the same |
| Sha256.Context.constructor | src/common/sha224_256.c:529-551 | a fresh context has the initial hash and nothing taken in |
| Sha256.Context.Absorb | src/common/sha224_256.c:238-244 | one byte more, mixed in when the block is full, or the overflow noted |
| Sha256.Context.Input | src/common/sha224_256.c:220-251 | takes a piece in; refuses after the digest or an error; reaching 2^64 bits is noted but reported as success |
| Sha256.Context.PutLength | src/common/sha224_256.c:412-419 | the last eight bytes of the block are the length |
| Sha256.Context.PadMessage | src/common/sha224_256.c:389-422 | pads and mixes in one or two blocks |
| Sha256.Context.Finalize | src/common/sha224_256.c:352-363 | pads, clears the block and the length, and marks the digest computed |
| Sha256.Context.FinalBits | src/common/sha224_256.c:272-309 | takes the last one to seven bits in and finishes; refuses other lengths and a second finish |
| Sha256.Context.Result | src/common/sha224_256.c:573-592 | the digest, finishing at the first call: the words of the hash, highest bytes first, as many bytes as asked for; later calls change nothing |
| Sha256.HashPieces | src/common/sha224_256.c:220-251 | for every division of a message under 2^64 bits the digest is the fold over the padded message, and a second request gives the same |
| Sha256.HashBits | src/common/sha224_256.c:272-309 | the same with one to seven bits more at the end |
| Base64.TableIsChar | src/common/base64.cpp:44-53 | the tables hold the letters, digits and two signs by ranges |
| Base64.CharPosition | src/common/base64.cpp:55-71 | every character of either alphabet is found at its position and is neither padding nor a break |
| Base64.PositionIff | src/common/base64.cpp:55-71 | a character has a position exactly if it is in one of the two alphabets, and it is its position there |
| Base64.EncodingShape | src/common/base64.cpp:113-156 | an encoding is in the alphabet asked for, but for one sign at its end, '.' for URLs and '=' otherwise, for each byte missing in the last group |
| Base64.EncodeBytes | src/common/base64.cpp:111-160 | the loop computes the encoding for every length below 2^32 |
| Base64.EncoderEndsIff | src/common/base64.cpp:131-156 | the 32-bit position gets past the end if and only if the length is below 2^32 |
| Base64.DecodeString | src/common/base64.cpp:180-241 | the loop decodes group by group and fails as soon as a group does |
| Base64.RoundTrip | src/common/base64.cpp:111-241 | decoding an encoding gives back the bytes, for both alphabets |
| Base64.EncodingCarriesBits | src/common/base64.cpp:111-160 | the characters carry the bits of the bytes, six each, filled up with zeros, as section 4 of RFC 4648 asks |
| Base64.EncodedLength | src/common/base64.cpp:113 | four characters for every three bytes begun |
| Base64.DecodeFailsIff | src/common/base64.cpp:193-238 | decoding fails if and only if one character is left over or a character looked at is in neither alphabet |
| Base64Decoding.DecodingCarriesBits | src/common/base64.cpp:193-238 | whatever the decoder accepts, unpadded or padded early too, its bytes are the bits of the characters looked at, as far as they fill bytes |
| Base64.InsertLinebreaks | src/common/base64.cpp:73-89 | the insertion loop puts a break after every line of the distance |
| Base64.BreaksComeOut | src/common/base64.cpp:171-178 | removing the breaks gives the string back |
| Base64.LinesHaveLength | src/common/base64.cpp:73-89 | breaks are exactly at the ends of lines of the distance, and the last line is not empty |
| Base64.RoundTripThroughBreaks | src/common/base64.cpp:73-241 | through breaks at any distance of at least 1, decoding with removal gives back the bytes |

## Left out

- Transaction ids are taken to be distinct and non-zero, as include/blockserver/transaction/transaction.h asks; how ids are derived from hashes is not modelled.
- Apart from ReserveRace, RaceDecisions, EpochRace and EpochDecisions, one reservation of one key is one atomic step.
- EpochRace: each transaction is a thread of its own. That covers every interleaving of workers that go through their transactions one after another, and for what can go wrong means that the transactions in question are with different workers.
- RaceDecisions is about transactions that write one common key and touch no other; EpochDecisions is about whole epochs.
- EpochDecisions.SettledIff: its other half takes the worst id that asks in each entry for itself; one interleaving need not be able to leave the worst ids in several entries at once. BothCommit and LostUpdate are about interleavings.
- Executor.ReserveTableProvider.GetReserveTable: is one call alone; concurrent calls of one epoch are in ProviderRace, and calls of different epochs do not overlap by Phases.
- Storage: whether `commitUpdate` takes an update is a parameter, and nothing is said about what the database holds in the end (`commitUpdate` applies the writes of the first id of a phase only, src/block_server/database/impl/database_impl.cpp:45-67); the theorem is about the decisions and the read and write sets.
- Chaincode is a function from a snapshot to a read and write set, fixed by the values it reads; the object-relational layer and the payloads are left out.
- The source of transactions: it is taken to hand out each transaction once, with the epoch asked for, in batches within the maximum, and never to reopen an epoch for which it returned null. Collecting, signing and broadcasting transactions and freeing old ones are left out.
- Pipeline: the epochs of the code are 32-bit numbers and do not wrap here; what happens between the end of packing and the results of an epoch is one step there and is the subject of Phases; Progress takes its outcomes to follow the commit rule, for any programs, snapshot and order of reservations.
- Phases: leaving through the EXIT state and the destruction of workers, which the endless main routine never reaches; the report to the manager, which is in Pipeline.
- Weak memory ordering: all interleavings are of sequentially consistent steps.
- The rest of the lock-free queue: blocks of items and their element counters, producer lists, the hash of implicit producers, the explicit producer's block index.
- LookupRace: a doubled index is built in private and appears in one step; a block is released only when no lookup for it is under way, as its items have then all been taken.
- Allocation failure is modelled in ArrayList and BlockIndex, not in the Merkle tree above the lists.
- MerkleTree.Tree.Add: null pointers are left out; a digest handed to a list is never null.
- The function that mixes one block into the SHA-256 hash is a parameter, as is the hash of two tree nodes.
- Sha256.Context.Input: a byte is a number below 256, and the caller's array a sequence.
- Network, configuration, storage files, signatures, the barrier of the communication layer, the user client and the mock manager are not part of this model.
