# Capillaries: verified model

Capillaries runs a script of nodes over tables kept in Cassandra. It splits each node into batches,
sends the batches through a queue, and lets workers that may die at any moment write the rows and
index entries of the batches. This project models the parts in which that can go wrong, and proves
what they keep.

`dafny verify dfyconfig.toml` checks the whole project.

| file | models |
|---|---|
| `BatchHistory.dfy`, `NodeHistory.dfy` | history rows and their folds into batch, node and run statuses |
| `BatchProtocol.dfy`, `OneExecution.dfy` | what batches do to data and index tables, a state machine with crashes between any two writes |
| `Completion.dfy`, `CompletionProgress.dfy` | who notices that a node and a run are complete, a state machine with one step per read and write |
| `Cleanup.dfy` | the clean-up before an abandoned batch runs again |
| `DistinctInsert.dfy` | writing a record of a distinct table with statements that time out |
| `Drainer.dfy` | producer, workers and drainer of one inserter, over bounded channels |
| `TokenScan.dfy`, `TokenIntervals.dfy` | the paged scan in token order, and the split of the token space among batches |
| `Lookup.dfy`, `LookupBatch.dfy`, `Aggregates.dfy`, `Permutation.dfy` | the two pools of a lookup, what a batch of a lookup writes, the aggregate collectors, lists up to order |
| `Broker.dfy`, `BrokerLocks.dfy`, `BrokerOrder.dfy` | the message broker as a class, its lock sections under concurrent clients, and the order of its queue |
| `Kahn.dfy`, `AffectedNodes.dfy`, `TopHeap.dfy` | ordering of calculated fields, the nodes a run affects, the top rows of a file |
| `IndexKey.dfy`, `DependencyPolicy.dfy` | index keys that keep order, and the policy check that sorts by them |
| `Expressions.dfy`, `EvalFunctions.dfy` | evaluation of script expressions, the type check when a script is loaded, and the functions scripts can use |
| `RunCounter.dfy`, `Reachability.dfy` | handing out run ids; reachable states in general |

Where the code and its own text disagree, or a property one would expect fails, the model follows the
code and states exactly when the property holds:

- The fold of node statuses (`pkg/wfmodel/node_history.go:197-199`) is commented as a priority order,
  but the last event wins unless there was a stop.
- A start and a success of one node in the same millisecond can hide the success; the completion
  results therefore give every write its own timestamp, the batch results need no such thing.
- After an error other than a lost connection, `ProcessDataBatchMsg` acknowledges the message and leaves
  the rest undone (`pkg/api/message_handler.go:440-655`): a run with a batch that can meet one, unless it
  is stopped, can stay incomplete for ever. A failed clean-up is one of these exits.
- A clean-up that stops short lets a batch succeed with rows of an abandoned attempt beside its own.
- The page loop of the scan repeats rows for ever, or stops early, when a page ends inside the token it
  started with; with a rowset of one row it always does.
- Outside Keyspaces the clean-up loop does not stop when the driver signals the end of the table with the
  last rows and other batches have rows there, and it stops short on a page without rows.
- A record of a distinct table whose key exists gets entries in the table's other indexes that lead
  nowhere.
- A drainer that times out leaves workers, and the producer, blocked for ever when there are more records
  than workers.
- Deleting from the queue skips the message after a deleted one, returning a message without a group
  leaves the queue unsorted, and an id enqueued while it is live loses a message in some schedule.
- Keys of times before the year one are in reverse order, and the key of a string comes after the key of
  the string followed by a control character.
- A string with an escaped quote inside is not equal to itself in an expression, and an expression that
  asks for the time does not depend on its fields only.

What the callers or the environment must provide is stated as a precondition: sorted scans of rows with
distinct rowids, acyclic scripts for the affected nodes, ids that are not live for the broker's
conservation, and, for the distinct insertion, no other writer of the
same key between its two insertions, and none that deletes this writer's entry between its own.

## Model

| member | source | states |
|---|---|---|
| OneExecution.OneExecutionIff | pkg/api/message_handler.go:416-660 | every success that can be recorded, in any reachable state of any number of batches, with a crash possible between any two writes, is exactly one complete execution, if and only if abandoned batches are not run again, or no clean-up returns with rows left (`short`, see `Cleanup.NothingMissedIff`), or every batch has no record or has two records with one key of a unique index |
| OneExecution.HarmedRun | pkg/api/message_handler.go:522-541 | otherwise: a schedule in which a batch is abandoned, its clean-up stops on a page without rows, and the next attempt records a success with one row too many |
| BatchProtocol.SuccessIsOneExecution | pkg/api/message_handler.go:416-660 | in every reachable state a batch with a recorded success has the rows of a complete execution (a one-to-one placement of the records it should produce) with an entry for each row in every index; and nothing else carries its batch number, unless a clean-up may have returned with rows left |
| BatchProtocol.ClashNeverSucceeds | pkg/proc/table_inserter.go:543-658 | with unique keys, a batch that has placed and indexed all its records has no two records with one key of a unique index |
| BatchProtocol.IndexesAreSound | pkg/proc/table_inserter.go:725-771 | in every reachable state no index entry dangles (it points to a live row whose key it carries), and a unique index has no key twice |
| BatchProtocol.StepsAreFramed | pkg/api/message_handler.go:405-415 | in every reachable state a step of one batch changes no row and no entry of another batch, and once a batch has a terminal status none of its steps changes the tables |
| BatchProtocol.FinishedIsFrozen | pkg/api/message_handler.go:335-378 | with a terminal status in the batch history, whatever a worker of the batch may still do leaves the tables as they are and leads nowhere but out |
| BatchProtocol.SucceedIsComplete | pkg/proc/table_inserter.go:742-804 | a worker that may record success has placed every record once and has all its index entries, and the batch has no other row if clean-ups leave none |
| BatchProtocol.Frame | pkg/proc/delete_data_for_batch.go:110-202 | inserts, deletions of entries and deletions of rows of one batch leave the rows and entries of every other batch as they were |
| BatchProtocol.StepNoDangling | pkg/proc/delete_data_for_batch.go:169-190 | each single write keeps every index entry pointing to a live row with its key: data before index on insertion, index before data on clean-up |
| BatchProtocol.StepKeysUnique | pkg/proc/table_inserter.go:543-658 | conditional insertion into a unique index never gives a key two entries |
| BatchProtocol.StepInv | pkg/api/message_handler.go:416-660 | every step of every batch keeps the invariant behind the three statements above |
| BatchProtocol.ReachableInv | pkg/api/message_handler.go:416-660 | the invariant holds in every reachable state |
| Completion.CompletionIsNotEarly | pkg/api/message_handler.go:145-248 | for every interleaving of reads and writes of all workers, with stale reads, crashes and redeliveries: a node carries a terminal status only after all its batches do, and the run is marked complete only after every affected node has an outcome |
| Completion.FoldAuthorizes | pkg/api/message_handler.go:191-226 | a fold that lets a worker complete the run has seen every affected node finished and no stop among the node rows |
| Completion.StepInv | pkg/api/message_handler.go:145-248 | every step of every worker keeps the invariant |
| Completion.StepNodeOk | pkg/api/message_handler.go:145-189 | a node status written from a stale fold of the batch rows is still right when it is written |
| Completion.NextPcOk | pkg/api/message_handler.go:335-378 | a worker goes on to process a batch only if that batch has no terminal status, and goes on to refresh the node only if it has one |
| Completion.ReachableInv | pkg/api/message_handler.go:416-660 | the invariant holds in every reachable state |
| CompletionProgress.CompletionIsNotLost | pkg/api/message_handler.go:228-248 | once all messages are acknowledged, a run that was not stopped is complete, whatever the schedule, provided no batch of it has an exit that acknowledges after an error and leaves the rest undone |
| CompletionProgress.AlwaysCompletesIff | pkg/api/message_handler.go:416-660 | completion is guaranteed for all schedules if and only if no batch of the run has such an exit, at any of the places between two reads or writes where the code has one (from reading the run status to writing it, the failed clean-up and the duplicate start among them); only the exit after a stop does no harm |
| CompletionProgress.LosingRun | pkg/api/message_handler.go:416-660 | for every run and each such exit of one of its batches: a schedule in which all messages are acknowledged and the run is never completed |
| CompletionProgress.LastBatchFolds | pkg/api/message_handler.go:145-189 | whoever records the last terminal batch status of a node will still fold the node |
| CompletionProgress.StepLive | pkg/api/message_handler.go:228-248 | each step keeps, for every obligation still open, a worker that will discharge it |
| BatchHistory.SingleBatchHistoryRowsToLastBatchStatus | pkg/wfmodel/batch_history.go:119-139 | returns the latest event, the higher code winning a tie; none and the epoch for no rows |
| BatchHistory.LastStatusIsUnique | pkg/wfmodel/batch_history.go:119-139 | the result depends on the set of rows only, not on their order or repetition |
| BatchHistory.LastStatusTerminalIff | pkg/wfmodel/batch_history.go:119-139 | a batch reads as finished if and only if some terminal event is not older than its start events, even within one millisecond |
| BatchHistory.AllBatchHistoryRowsToNodeStatus | pkg/wfmodel/batch_history.go:142-196 | errs exactly on a total that is not positive, on conflicting totals and on indexes beyond the total; otherwise: not finished while a batch has no terminal row, then fail over stop over success, with the exact number of batches in progress; success for no rows at all |
| BatchHistory.NothingPendingIff | pkg/wfmodel/batch_history.go:182-195 | no batch is in progress if and only if every index below the total has a terminal row |
| BatchHistory.PutRowFinishes | pkg/wfdb/batch_history.go:45-78 | writing a status finishes at most its own batch and never takes a terminal status away |
| NodeHistory.NodeHistoryRowsToEvents | pkg/wfmodel/node_history.go:125-179 | a sorted list of rows only: the earliest start and the latest of every other status, for each run and node that has them |
| NodeHistory.NodeFoldMeaning | pkg/wfmodel/node_history.go:182-230 | the fold of one node is: stopped if there was a stop, otherwise the status of the last event, none without events |
| NodeHistory.PriorityOrderFails | pkg/wfmodel/node_history.go:197-199 | the priority order in the comment is not what the code does: a success after a failure reads as success |
| NodeHistory.PriorityOrderIff | pkg/wfmodel/node_history.go:197-210 | the code follows that order if and only if there is a stop or the last event already carries the highest status |
| NodeHistory.FoldTerminalIff | pkg/wfmodel/node_history.go:182-230 | a node reads as finished if and only if it was stopped or a terminal event comes after all its starts |
| NodeHistory.TieHidesCompletionIff | pkg/wfmodel/node_history.go:140-179 | when the latest start of a node and its outcome fall into one millisecond, the node reads as running if and only if the outcome was written by a batch with a smaller index than the start |
| NodeHistory.TieHidesCompletion | pkg/wfmodel/node_history.go:140-179 | such a history |
| NodeHistory.FoldReadsRows | pkg/wfmodel/node_history.go:125-230 | reduction to events followed by the fold reads what the rows say |
| NodeHistory.TerminalAfterStartsReads | pkg/wfmodel/node_history.go:125-230 | when no start is as late as a terminal row, a node with a terminal row reads as finished, with a status some row has |
| NodeHistory.StatusExists | pkg/wfmodel/node_history.go:182-230 | every set of rows has a reading |
| NodeHistory.FigureOutRunStatus | pkg/wfmodel/node_history.go:182-230 | a status for every affected node and for every node with events, none for those without; combined: none, then start, then stop over fail over success |
| NodeHistory.CombineStatuses | pkg/wfmodel/node_history.go:212-230 | the combination over a map of statuses, in any iteration order |
| NodeHistory.UpdateRunStatusFromNodes | pkg/api/message_handler.go:191-226 | the run is completed exactly when the combination of what the rows say about the affected nodes is success or fail |
| Cleanup.DataTable.DeleteDataAndUniqueIndexesByBatchIdx | pkg/proc/delete_data_for_batch.go:76-207 | with other batches adding and removing rows and entries before every page: no entry dangles, and rows and entries of other batches that those do not remove stay, also when the worker dies between pages; a return means no row of the batch is left, if the driver returns no page without rows before the end of the table. Undisturbed: if it returns such a page before any row of the batch, the return leaves the table as it was; and given enough page reads (a bound in rows) the loop returns if and only if the driver is the Keyspaces one, or does not signal the end together with the last rows, or the table holds no other batch |
| Cleanup.NothingMissedIff | pkg/proc/delete_data_for_batch.go:124-126 | no table with rows of the batch makes the clean-up stop short if and only if the driver never returns a page without rows before the end |
| Cleanup.DataTable.CleanPage | pkg/proc/delete_data_for_batch.go:110-202 | one iteration: it stops only with a clean table, or on a page without rows; otherwise the rows before the next page state are clean and the bound on the reads left decreases |
| Cleanup.DataTable.DeleteFromPage | pkg/proc/delete_data_for_batch.go:110-190 | either rows of the batch are met on the page and go with their entries, or nothing changes and the page is known to be clean |
| Cleanup.DataTable.DeletePage | pkg/proc/delete_data_for_batch.go:169-190 | exactly the rows of the page that belong to the batch go, their entries first, and entries of other rows stay |
| Cleanup.DataTable.DyingOnPage | pkg/proc/delete_data_for_batch.go:169-190 | wherever a worker dies on a page, with any of the entries deleted, and any of the rows once all entries are: no entry dangles, and the other batches have their rows and entries |
| Cleanup.OthersKeepCleared | pkg/proc/data_util.go:92-145 | a page state is a place in token order: what other batches write does not bring a row of this batch behind it |
| Cleanup.DataTable.DeleteRows | pkg/proc/delete_data_for_batch.go:38-68 | chunks of thirty and one single query delete the same rows |
| Cleanup.DataTable.Harvest | pkg/proc/delete_data_for_batch.go:140-167 | the rowids of the batch on the page, and exactly the entries of those rows |
| Cleanup.DataTable.SelectPage | pkg/proc/data_util.go:92-145 | a page of any length the driver likes, also without rows before the end, and its page state, under either convention for the end of the table |
| Cleanup.WithoutKeepsForeign | pkg/proc/delete_data_for_batch.go:110-202 | deleting rows of one batch keeps the others in their order |
| Cleanup.LastPageClears | pkg/proc/delete_data_for_batch.go:192-202 | with the earlier pages clean, deleting from the last page leaves nothing of the batch |
| Cleanup.RankAfterDelete | pkg/proc/delete_data_for_batch.go:197-202 | starting over after a deletion makes progress: fewer own rows, then fewer rows ahead |
| DistinctInsert.Writer.InsertDistinctIdxAndDataRecords | pkg/proc/table_inserter.go:660-723 | from any tables, with any statement timing out, applied or not, and other writers bringing in whole records of any key, this one included: success leaves one entry for the key, leading to a live row; the record is written at most once, under that entry and the rowid returned; no data row is overwritten or lost; and while the database answers and the first rowid is free, it succeeds and writes the record exactly when the key had no entry or an orphan one |
| DistinctInsert.Writer.InsertDistinctRecord | pkg/proc/table_inserter.go:772-796 | the record with its entries in the other indexes: entries of a record this call wrote lead to it; while the database answers and the first rowid is free, the other indexes keep leading to rows if and only if there is none or the key is new, because for an existing key line 703 returns a rowid under which nothing was written |
| DistinctInsert.Writer.InsertIdxRecordsForIndexes | pkg/proc/table_inserter.go:725-740 | success puts an entry for this rowid into every other index; no entry dangles if the rowid has a row |
| DistinctInsert.Writer.InsertIdxRecordWithRowid | pkg/proc/table_inserter.go:543-658 | inserted means the entry carries the rowid, also when it was this writer that put it there before a timeout; duplicate means the key has an entry |
| DistinctInsert.Writer.InsertDataRecordWithRowid | pkg/proc/table_inserter.go:390-513 | inserted means the row is there with this record; a collision on the first attempt asks for a new rowid and writes nothing; under a free rowid the record is written while the database answers |
| DistinctInsert.Writer.SelectDataRowidByIdxKey | pkg/proc/data_util.go:413-442 | true only for an entry that leads to a live row |
| DistinctInsert.Writer.DeleteIdxRecordByKey | pkg/proc/data_util.go:342-368 | removes the entry of the key, and no data row |
| Drainer.NoErrorMeansAllWritten | pkg/proc/table_inserter.go:238-348 | in every interleaving of producer, workers and drainer, with timeouts: when the producer gets no error, all records were added, sent equals processed, and each record was written exactly once and without an error |
| Drainer.NeverStuckIff | pkg/proc/table_inserter.go:238-326 | some step is possible in every reachable state until all is closed, if and only if the drainer cannot time out or there are no more records than workers; otherwise a schedule ends with workers blocked on a channel nobody reads |
| Drainer.SchedulesAreFinite | pkg/proc/table_inserter.go:238-326 | apart from timeouts no schedule from a state in order is longer than the work left in it, so a batch whose drainer times out finitely often comes to its end |
| Drainer.GoneGetsStuck | pkg/proc/table_inserter.go:257-263 | from any reachable state in which the drainer is gone before the first status, with more records than workers, a schedule leads to a state that is not closed and has no next step |
| Drainer.StepOncePlaced | pkg/proc/table_inserter.go:742-804 | each added record stays in one place: in the channel, held by one worker, or handled |
| Drainer.StepBalanced | pkg/proc/table_inserter.go:742-804 | the counters of sent, processed and exited add up with what the channels and workers hold |
| Drainer.StepErrors | pkg/proc/table_inserter.go:238-284 | the list of errors is empty if and only if nothing was interrupted and every failed record is still on its way to the drainer |
| TokenScan.ExactlyOnceIff | pkg/proc/proc_table_creator_table_to_table.go:63-140 | the page loop hands out every row exactly once, in token order, and stops, if and only if every page that does not end the table reaches beyond the token it started with; otherwise it never does |
| TokenScan.SelectBatchFromTableByToken | pkg/proc/data_util.go:226-340 | a page of the query without the rows handed out before, the last token, and the rowids at the end of the page that share it |
| TokenScan.ReadEpilogue | pkg/proc/data_util.go:300-312 | the rowids at the end of the page that share the last token of the query |
| TokenScan.RunCreateTableForBatch | pkg/proc/proc_table_creator_table_to_table.go:63-140 | counts what it hands out; with fitting pages it stops after at most one page more than there are rows, having handed out all of them; if it stops with all rows handed out, the pages fit |
| TokenScan.GoodPage | pkg/proc/data_util.go:226-340 | after handing out exactly the first rows of the table, the next page hands out the following ones and no other |
| TokenScan.SplitRepeats | pkg/proc/data_util.go:226-340 | a page that ends inside the token it started with makes a later page hand rows out again |
| TokenScan.SmallClassesFit | pkg/proc/data_util.go:226-340 | pages fit when every token has fewer rows than a rowset and the greatest token belongs to one row |
| TokenScan.DistinctTokensFit | pkg/proc/data_util.go:226-340 | with distinct tokens any rowset size from two on fits |
| TokenScan.OneRowNeverFits | pkg/proc/data_util.go:226-340 | a rowset size of one never fits a table of two rows or more |
| TokenScan.ScanDone | pkg/proc/proc_table_creator_table_to_table.go:63-140 | one page more than there are rows is always enough |
| TokenIntervals.GetTokenIntervalsByNumberOfBatches | pkg/sc/script_node_def.go:440-476 | for 1 to 1000000 batches: contiguous, non-empty intervals that partition the 64-bit integers, all but the last of one width, the last wider by 1 to 2N-1; no overflow in any value used |
| TokenIntervals.WidthLeavesOver | pkg/sc/script_node_def.go:440-476 | the width fits 64 bits although its computation subtracts a negative quotient, and what it leaves over is between 1 and 2N-1 |
| TokenIntervals.TokenInOneInterval | pkg/sc/script_node_def.go:440-476 | every 64-bit token is in exactly one interval |
| TokenIntervals.RowInIff | pkg/proc/data_util.go:226-340 | a row is selected by the batch whose interval holds its token, and by no other |
| TokenIntervals.BatchesReadEverything | pkg/sc/script_node_def.go:440-476 | the batches of a node together read the source table: each row once, in token order |
| TokenIntervals.BatchExactlyOnceIff | pkg/proc/proc_table_creator_table_to_table.go:63-140 | a batch reads its share exactly once if and only if the pages of its share fit |
| TokenIntervals.DistinctTokensRead | pkg/proc/proc_table_creator_table_to_table.go:63-140 | with distinct tokens and a rowset of two or more every batch reads its share exactly once |
| LookupBatch.BatchIsTableJoin | pkg/proc/proc_table_creator_lookup.go:508-690 | what a batch of a lookup node writes, over all its pages and for every order of the pools, is the join of its whole share of the left table as a multiset, when the pages of the share fit and the index is exact |
| LookupBatch.BatchIsGrouped | pkg/proc/proc_table_creator_lookup.go:508-690 | what a batch of a grouped node writes, in the order of its share: one record for every left row that has a right row with an equal key that passes the filter, and in a left join for every other one, with the aggregates over those right rows or the defaults |
| LookupBatch.PageIsGrouped | pkg/proc/proc_table_creator_lookup.go:124-172 | the same for one page |
| LookupBatch.WriteGrouped | pkg/proc/proc_table_creator_lookup.go:636-657 | the loop over the left rows after the pools: it skips exactly those that found nothing in an inner join, and those that fail the having condition |
| LookupBatch.ShareIsRead | pkg/proc/proc_table_creator_table_to_table.go:63-140 | the pages of the scan, one after the other, are the share of the batch when they fit |
| Lookup.PageIsTableJoin | pkg/proc/proc_table_creator_lookup.go:285-506 | with an exact index, for every order in which the two pools take their work: the records of a page are, as a multiset, those of all pairs of a left row and a right row with equal keys that pass the filter, computed without the index, with one default record for each unmatched row of a left join |
| Lookup.PageIsJoin | pkg/proc/proc_table_creator_lookup.go:285-506 | for any index, the same with the pairs the index gives |
| Lookup.EveryRowMeetsItsMatches | pkg/proc/proc_table_creator_lookup.go:285-506 | each left row meets exactly the live right rows under its key that pass the filter, each once, and is marked as found if and only if there is one |
| Lookup.MatchesAreTheJoin | pkg/proc/proc_table_creator_lookup.go:95-109 | with an index that is exact, the rows met are the right rows with an equal key that pass the filter |
| Lookup.BuildKeysToFindInTheLookupIndex | pkg/proc/proc_table_creator_lookup.go:19-47 | distinct keys, each with exactly the rows of the page that have it, in order |
| Lookup.HandleKeepsMeetings | pkg/proc/proc_table_creator_lookup.go:285-506 | taking a piece of work neither adds nor loses a meeting of two rows |
| Lookup.AddChildless | pkg/proc/proc_table_creator_lookup.go:659-688 | the default records of the left rows that found nothing, and no other |
| Lookup.GroupedIsAggregate | pkg/proc/proc_table_creator_lookup.go:76-93 | a grouped field holds the aggregate over the matches of its row, whatever the order of the work |
| Lookup.EvalRowGroupedField | pkg/proc/proc_table_creator_lookup.go:76-93 | feeding the matches one by one to the collector computes that aggregate |
| Aggregates.EvalCtx.Eval | pkg/eval/agg.go:176-365 | each row is collected when its condition holds, and the value is the aggregate of what was collected |
| Aggregates.ValuePermutes | pkg/eval/agg.go:176-556 | no aggregate over integers depends on the order of the rows |
| Aggregates.AvgMeans | pkg/eval/agg.go:246-266 | the average is the sum divided and rounded down, lies between the least and the greatest argument, and so always fits 64 bits |
| Aggregates.LeastMeans | pkg/eval/agg.go:388-401 | the minimum is an argument and not above any |
| Aggregates.GreatestMeans | pkg/eval/agg.go:484-496 | the maximum is an argument and not below any |
| BrokerLocks.EveryLiveIdInOnePlace | pkg/capimq/message_broker.go:118-320 | in every interleaving of lock sections of any number of clients, when no bulk brings an id that is live: an id is in exactly one of queue, map and clients' hands if it was enqueued and neither acknowledged nor deleted since, and nowhere otherwise; an id that was acknowledged may come again |
| BrokerLocks.NextChange | pkg/capimq/message_broker.go:118-320 | each section changes the number of places of an id by what it enqueues, acknowledges or deletes, and by nothing else |
| BrokerLocks.BulkIsSafeIff | pkg/capimq/message_broker.go:151-203 | from any state in order with a free client: no schedule after a bulk loses a message if and only if no id of the bulk is live and none is repeated |
| BrokerOrder.SortedForEverIff | pkg/capimq/message_broker.go:104-260 | from any state with a sorted queue and a free client, with further bulks of messages with a group: the queue stays sorted in every schedule if and only if every message in the queue, the map and the clients' hands has a group |
| BrokerLocks.QueueStaysSorted | pkg/capimq/message_broker.go:104-260 | when every message has a group, the queue is sorted after every section of every interleaving |
| Broker.MessageBroker.QBulk | pkg/capimq/message_broker.go:151-175 | refuses exactly what exceeds the limit; otherwise the queue is a sort of the old one and the stamped messages |
| Broker.MessageBroker.Claim | pkg/capimq/message_broker.go:177-203 | takes the head if it is due and moves it to the map, otherwise changes nothing |
| Broker.MessageBroker.Ack | pkg/capimq/message_broker.go:205-216 | removes the message from the map if it is there |
| Broker.MessageBroker.Heartbeat | pkg/capimq/message_broker.go:218-229 | stamps the message if it is in the map |
| Broker.MessageBroker.Return | pkg/capimq/message_broker.go:231-260 | moves the message back: at the end of the queue without a group, otherwise with its whole group put off and the queue sorted |
| Broker.MessageBroker.ReturnDead | pkg/capimq/message_broker.go:118-149 | exactly the messages without a recent heartbeat leave the map and join the queue |
| Broker.MessageBroker.DeleteFromQ | pkg/capimq/message_broker.go:288-303 | what is left and what is counted when the element after a removed one is skipped |
| Broker.MessageBroker.DeleteFromWip | pkg/capimq/message_broker.go:304-316 | removes and counts exactly the matching messages |
| Broker.HeadIsLeast | pkg/capimq/message_broker.go:177-203 | in a sorted queue the head is the least message, and it is not due if and only if none is |
| Broker.ReturnedTogether | pkg/capimq/message_broker.go:231-260 | after a return all queued messages of the group wait until the same time |
| Broker.ReturnedSortedIff | pkg/capimq/message_broker.go:247-256 | a return leaves a sorted queue sorted if and only if the message has a group or does not come before the last one |
| Broker.DeleteIsCompleteIff | pkg/capimq/message_broker.go:288-303 | a deletion leaves no message it was meant for if and only if no two of them are neighbours in the queue |
| Broker.KeptOrDropped | pkg/capimq/message_broker.go:288-303 | each message is kept or dropped, and only matching ones are dropped |
| Broker.SortIsUnique | pkg/capimq/message_broker.go:36-42 | with distinct ids there is one way to sort the queue |
| Kahn.Sort | pkg/custom/pycalc/py_calc.go:329-373 | errs if and only if the dependencies have a cycle; otherwise every key once, each after what its formula uses |
| Kahn.Drain | pkg/custom/pycalc/py_calc.go:347-364 | draining the queue keeps degrees, queue and order consistent and ends with an empty queue |
| Kahn.EntangledHasCycle | pkg/custom/pycalc/py_calc.go:366-370 | nodes that all wait for one another contain a cycle |
| Kahn.OrderedHasNoCycle | pkg/custom/pycalc/py_calc.go:329-373 | an order with dependencies first excludes every cycle |
| AffectedNodes.GetAffectedNodes | pkg/sc/script_def.go:344-371 | the start nodes and what they lead to without meeting a waiting node |
| AffectedNodes.AddChildrenToManual | pkg/sc/script_def.go:317-329 | the least set above the given one that is closed at every node below the root; ends on every acyclic script |
| AffectedNodes.AddChildrenToAffected | pkg/sc/script_def.go:331-340 | adds exactly what the root leads to without meeting a waiting node |
| AffectedNodes.WaitsIffBlocked | pkg/sc/script_def.go:317-329 | a node waits if and only if a path from a start node meets a manual node and no start node after it |
| AffectedNodes.AnswerIsUnique | pkg/sc/script_def.go:344-371 | the answer does not depend on the order of the start nodes or of the script |
| IndexKey.KeysPreserveOrder | pkg/sc/key.go:72-175 | two keys compare as the values do, component by component, each in its direction, if and only if the first difference the index keeps is not one between two times before the year one, or between a string and a longer one that goes on with something that sorts before a space |
| IndexKey.PlainKeysPreserveOrder | pkg/sc/key.go:72-175 | keys always keep the order of values without control characters and of times from the year one on; strings are compared themselves, as far as the index keeps them and but for trailing spaces |
| IndexKey.PaddedOrder | pkg/sc/key.go:133-146 | padded strings are in the order of the strings if and only if neither goes on, where the other ends, with something that sorts before a space |
| IndexKey.ControlCharacterReverses | pkg/sc/key.go:133-146 | a string shorter than the index length comes before itself followed by a control character, and its key comes after |
| IndexKey.BuildKey | pkg/sc/key.go:72-175 | a key exactly when every field is there with the right type, otherwise the field that is missing or wrong |
| IndexKey.IntOrder | pkg/sc/key.go:21-70 | integer keys have one length and the order of the integers, down to the least 64-bit integer |
| IndexKey.TimeOrder | pkg/sc/key.go:124-130 | time keys have the order of the times, except that times before the year one are reversed among themselves |
| IndexKey.DescendingReverses | pkg/sc/key.go:163-169 | complementing the bytes reverses the order |
| IndexKey.ComponentOrder | pkg/sc/key.go:72-175 | the keys of two values of one component are in the order of the values, in its direction, exactly if they are not of those two kinds, and are equal exactly if the index keeps the same of both |
| IndexKey.PartsPreserveOrder | pkg/sc/key.go:72-175 | concatenation of parts of fixed length compares lexicographically |
| DependencyPolicy.CheckDependencyPolicyAgainstNodeEventList | pkg/dpc/dependency_policy_checker.go:14-81 | the first rule accepted by the first event, in the policy's order, that any rule accepts; wait, with the first event, if none is |
| DependencyPolicy.SortEvents | pkg/dpc/dependency_policy_checker.go:17-33 | all events, in the order of their keys |
| DependencyPolicy.DefaultOrder | pkg/sc/dependency_policy_def.go:14-32 | the default order visits the current run first, then the runs by descending id |
| TopHeap.ReadTop | pkg/proc/proc_file_creator.go:104-155 | the rows written are min(limit, n) rows, ascending by key, and no dropped key is below a written one |
| TopHeap.TopIsSortThenTake | pkg/proc/proc_file_creator.go:104-155 | their keys are the first keys of the stream in any sorted order |
| TopHeap.CollectTop | pkg/proc/proc_file_creator.go:104-121 | pushing each row and popping the greatest above the limit keeps the top |
| TopHeap.Unload | pkg/proc/proc_file_creator.go:142-155 | popping from the back of the list yields the rows in ascending order |
| TopHeap.FileRecordHeap.Push | pkg/proc/proc_file_creator.go:26-37 | keeps the heap and adds the item |
| TopHeap.FileRecordHeap.Pop | pkg/proc/proc_file_creator.go:38-45 | takes an item with the greatest key and keeps the heap |
| Expressions.LoadCheckCoversEveryRow | pkg/sc/field_ref.go:148-216 | an expression that passed the check when the script was loaded gives, on every row of well-typed fields on which it succeeds, a value of the expected type, whatever its context has collected before |
| Expressions.TypesAreDeterminedIff | pkg/eval/eval_ctx.go:760-895 | the kinds of the used fields determine the kind of the result, at any time, for all expressions if and only if they do so for each provided function by itself |
| Expressions.ResultsAreLocalIff | pkg/eval/eval_ctx.go:760-895 | the used fields determine the result of all expressions, whatever the clock shows, if and only if no provided function depends on the time |
| Expressions.EvalKind | pkg/eval/eval_ctx.go:638-895 | two successful evaluations over used fields of the same kinds have results of the same kind |
| Expressions.EvalIsLocal | pkg/sc/field_ref.go:294-341 | the value of a harvested expression, and the context it leaves, depend on the harvested fields and, where it calls a function that depends on the time, on what the clock shows then |
| EvalFunctions.ReturnsItsKind | pkg/evalcapi/eval_capi_functions.go:5-31 | each of the 25 functions every script can use, by its dispatch on the types of its arguments, returns a value of one kind when it succeeds |
| EvalFunctions.FunctionsAreDetermined | pkg/evalcapi/eval_capi_functions.go:5-31 | so the kinds of their arguments determine the kinds of their results |
| EvalFunctions.ScriptTypesAreDetermined | pkg/eval/eval_ctx.go:760-895 | for all expressions of a script the kinds of the used fields determine the kind of the result |
| EvalFunctions.LoadCheckCoversScript | pkg/sc/field_ref.go:148-216 | an expression of a script that passed the check when the script was loaded gives, on every row of well-typed fields on which it succeeds, at any time, a value of the expected type |
| EvalFunctions.ScriptIsLocal | pkg/sc/field_ref.go:294-341 | two evaluations of an expression of a script that agree on the used fields, and on the time wherever it asks for the time, give the same value and context |
| EvalFunctions.NowIsLocalIff | pkg/evalcapi/time.go:77-82 | asking for the time gives the same result if and only if the clock shows the same |
| Expressions.EvalExpressionWithFieldRefsAndCheckType | pkg/sc/field_ref.go:148-216 | passes exactly when the first of five attempts that does not divide by zero succeeds with the expected type |
| Expressions.GroupedFieldHasItsType | pkg/eval/eval_ctx.go:111-127 | after at least one row the value of a grouped field has the type of the field |
| Expressions.ContextHasResult | pkg/eval/eval_ctx.go:760-895 | a successful evaluation leaves a value of the result's kind in the context |
| Expressions.BinaryKind | pkg/eval/eval_ctx.go:638-742 | binary operators: same kinds in, same kind out |
| Expressions.PairKind | pkg/eval/cast.go:32-81 | two numbers are cast to one of three kinds, chosen by their kinds |
| Expressions.CallAggKind | pkg/eval/agg.go:108-556 | aggregate calls: the kind of the result depends on the arguments, not on what was collected |
| Expressions.StringEqualsItselfIff | pkg/eval/eval_ctx.go:569-595 | a string compares equal to itself if and only if there is no escaped quote inside it: the two sides replace it differently |
| RunCounter.RunIdsAreUnique | pkg/wfdb/run_counter.go:15-88 | however any number of callers interleave, and whatever the database fails to report, no two get the same run id, and every id is a positive 16-bit number |

## Left out

- HTTP, AMQP, S3, SFTP, file formats, logging, configuration and diagrams: plumbing.
- Query texts and the behaviour of real Cassandra: tables are maps and sets with insertion if absent, overwriting, deletion and paged reads; consistency levels and clock skew between nodes are not modelled.
- The grace period for an abandoned batch: the batch results assume that an attempt that is started anew is the only one for its batch.
- Run history folds, the lifespans of runs and the readiness cache of dependency nodes: easy members beside the node folds; the run status is read as the last row written.
- Loading scripts and parameters, message signing and access policies, generation of Python code.
- Completion.CompletionIsNotEarly: every write has its own timestamp, because within one millisecond a start can hide a terminal status (see `NodeHistory.TieHidesCompletion`); a stop by the operator is one step.
- CompletionProgress.AlwaysCompletesIff: speaks of runs in which all messages are acknowledged; it does not claim that every message is acknowledged after finitely many crashes and waits; a message is with one worker at a time.
- BatchProtocol.SuccessIsOneExecution: `short` stands for what the driver may do in the clean-up of any batch, and is false if `Cleanup.NeverEmpty` holds of the drivers of all clean-ups; tables written data first; the order of rows in the scan and the values of the random rowids are not modelled, and a data-first row is found again by its rowid after a timeout as the writer's own.
- Cleanup.DataTable.DeleteDataAndUniqueIndexesByBatchIdx: `pages` bounds the page reads a worker lives to see, `driver` and `exactEnd` are the driver's page lengths and its convention for the end of the table; other batches write before a page is read and not while it is cleaned; errors of single deletions show as a worker that dies; the early return of nodes that create no table is not modelled.
- DistinctInsert.Writer.InsertDistinctIdxAndDataRecords: after a rowid collision the entry of a key may lead to a live row of another key, so only its liveness is promised when this writer has written nothing; excluded are another writer of the key that is caught between its two insertions, whose entry would be taken for an orphan and deleted, and another writer that takes this writer's entry for an orphan and deletes it between its two insertions: either way the key would get two rows; pauses between attempts are not modelled.
- Drainer.NoErrorMeansAllWritten: workers are anonymous, a worker's writing is one step, and the lookup's concurrent producers appear as one producer because adding is under a lock.
- TokenScan.RunCreateTableForBatch: hands rows out and counts them; expressions, conditions and insertion of the produced records are elsewhere.
- Lookup.PageIsTableJoin: runs without errors; index keys are numbers compared for equality, expressions are functions, and the shared counter of written records is not modelled.
- LookupBatch.BatchIsGrouped: aggregates over integers; a column without an aggregate is a function of the left row, as the code assumes; a batch that dies is not modelled here.
- Aggregates.EvalCtx.Eval: the counter and the number of averaged rows do not wrap at 64 bits; floats, decimals and strings appear only as parameters in `Expressions`.
- BrokerOrder.SortedForEverIff: the times at which sections run are free, so the clock may go back.
- Broker.MessageBroker.QBulk: messages are values, so sharing of message objects between callers and the queue is not modelled; an id is its rank in the order of ids; counting, filtering and listing are left out.
- Kahn.Sort: names are numbers, and which of several free fields goes first follows the code's stack, but the order of the map's keys is open.
- AffectedNodes.GetAffectedNodes: nodes and tables are numbers; the acyclicity the recursion needs is a ghost rank, since the code does not check it.
- TopHeap.ReadTop: the heap is the usual sift-up and sift-down of the standard library, whose source is not part of this model; keys are ranks.
- IndexKey.KeysPreserveOrder: components of types integer, boolean, datetime and string; floats and decimals, and strings beyond ASCII, are not modelled.
- DependencyPolicy.CheckDependencyPolicyAgainstNodeEventList: rule expressions are functions of the event and do not fail; a policy's order uses the run id and the current-run flag.
- Expressions.EvalKind: arithmetic and comparison of floats, decimals and strings are parameters, so rounding, special float values and the texts of errors are not modelled; the value left in a context by a failed evaluation is not modelled.
- EvalFunctions.ReturnsItsKind: parsing, printing, regular expressions, calendars and square roots are parameters; the length of a string counts characters, which are its bytes in ASCII.
- RunCounter.RunIdsAreUnique: the counter's row exists and holds a number.
