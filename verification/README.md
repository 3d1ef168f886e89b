# Verified model of the Cartesi Rollups high-level GraphQL server

The server mirrors the inputs and outputs of rollup applications into SQL tables and serves them, filtered and page by
page, over GraphQL. This project models the parts of it that carry state or arithmetic and proves what they keep.

| file | models |
|---|---|
| `Repository.dfy`, `Batches.dfy` | the output tables, insert and update, and the find-then-update-or-insert of the service: alone, in a transaction, and over several transactions |
| `Database.dfy` | committed tables with one open transaction (writes go to the transaction, lookups read committed rows), the class `Store`; the output execution listener |
| `Synchronizer.dfy`, `SyncRuns.dfy`, `SyncTables.dfy`, `SyncRows.dfy`, `SyncWitnesses.dfy` | the synchronizer of three cursor-driven feeds: one transaction, whole runs with faults and crashes, what the tables then hold, edge by edge, and concrete runs |
| `Rollup.dfy`, `Nonodo.dfy`, `RollupOutputs.dfy`, `RollupRuns.dfy`, `RollupHistory.dfy` | the rollup machine and its scheduler as values and as classes; what finishing an input writes; invariants over every run; from the calls of a run to what is stored; the retry loop of the finish request |
| `Cursor.dfy`, `Pagination.dfy`, `Walks.dfy` | cursors (decimal in base64), pages, connections, and what a client that follows the cursors receives |
| `Filters.dfy`, `Listing.dfy` | filter trees, their conversion and compilation, what the compiled clause selects, and walks over filtered lists, with and without rows of equal rank |
| `Inputter.dfy` | the worker that reads inputs from the chain: scans, live events, failures, reconnections |
| `Supervisor.dfy` | the concurrent start and stop of workers |
| `BlockScan.dfy` | the backward scan for a data commitment in unsigned 64-bit arithmetic |
| `Tar.dfy` | reading a file out of a ustar archive |

Code that changes state is a class or a method with loops whose postcondition equates the new state with a function of
the old one; the properties of runs are lemmas about those functions. I/O, clocks and the answers of other systems are
parameters: whether begin, commit and each database call succeed (`Plan`), what a server or a node answers, in which
order concurrent steps happen.

## Where the code does less than it is meant to

Each of these is proved with the condition under which it happens.

- The service looks a row up by (input, application) but updates and inserts by (input, output). It is a map keyed by
  (input, output) exactly when applications and output indices determine each other within every input
  (`ServiceIsMapIff`). A call fails exactly when its key is taken and its application owns no output of the input;
  otherwise, on a key of another application, it silently overwrites that application's content (`CallFailsIff`,
  `ForeignRowIsOverwritten`).
- Several outputs of one (input, application) pair are all stored when they arrive in one transaction, but those that
  arrive in a later transaction than the first are dropped without an error. Over any run of transactions with distinct
  keys the table holds everything exactly when no pair is split over two of them (`AllStoredIff`,
  `SyncedTablesAreTheFeedsIff`, with a run in `SplitPairIsDropped`). In the rollup machine, where every output has the
  same application and each call stands alone, an accepted input keeps only its first voucher and its first notice
  (`AcceptingStoresAllIff`, `SecondVoucherIsLost`).
- The cursors in memory move before the commit. In one transaction, a failed commit after a moved cursor is the only
  thing that breaks the synchronization, and it always does (`TransactKeepsSyncIff`). Over whole runs the tables are the
  replay of a prefix of each feed exactly when no transaction commits a batch while the memory has left the last cursor
  row (`ExactlyOnce`): a restart right after the failed commit saves the batch (`RestartSavesBatch`), a further
  successful transaction loses it for good (`LostBatchIsSkipped`, `FailedCommitLosesBatch`).
- A backward page is the one of the pagination algorithm of the GraphQL Cursor Connections Specification exactly when
  there are at least as many rows before the cursor as asked for (`BackwardPageMeetsSpecificationIff`); otherwise a
  backward walk returns rows of its last page twice (`BackwardWalkRepeats`).
- A list query has one possible answer exactly when no two selected rows have the same rank (`OneAnswerIff`). Inputs are
  ordered by an index that two applications may share; a walk over such rows still returns the right ranks in the right
  places (`FilteredWalkKeepsRanks`), but may return one of the rows twice and the other never (`TiesMayRepeat`).
- Every nested `and` and `or` and every `ne`, `in` and `nin` of a voucher filter is without effect (`TreeMeaning`).
- The block scan wraps around below block 10000 while blocks remain, and then does not look at its lowest window
  (`ScanFailsIff`, `YoungChainFails`).
- The tar reader does not end on an archive that lacks the name asked for and is closed by zero bytes, as the format
  demands (`TerminatesIff`), nor on one that starts with the header of another file whose size is no number
  (`UnreadableSizeLoops`).
- The supervisor tells its caller that it is ready also when a worker timed out or the context was done while it waited.
  All workers are ready at that moment exactly when neither happened (`ReadySignalIsTrueIff`,
  `ReadyWithoutAReadyWorker`).

## Model

| member | source | states |
|---|---|---|
| Repository.UpsertIsMapUpdateIff | internal/convenience/services/service.go:57-73 | one call is a map update by (input, output) if and only if the key is owned by the same application, or is free and the application owns no other output of the input |
| Repository.ActsAsMapFrom | internal/convenience/services/service.go:40-73 | the same for a sequence of calls over any table: exactly when every key in the table is owned by its output's application, every application whose key is not in it owns nothing of the input, and among the latter keys and applications determine each other within each input |
| Repository.ServiceIsMapIff | internal/convenience/services/service.go:40-114 | from an empty table, every call of a run succeeds as a map update if and only if applications and output indices determine each other within each input |
| Repository.RunKeepsFirst | internal/convenience/repository/voucher_repository.go:33-103 | in every run rows never disappear or change owner, no application gets a second output of an input, each output ends up with its application owning one or with its key owned by another, contents are those of the last call that wrote the key, and the calls that fail are those whose key is taken and whose application owns no output of the input |
| Repository.CallFailsIff | internal/convenience/services/service.go:57-73 | a call fails if and only if its key is taken and its application owns no output of the input; on another application's key it otherwise overwrites the content and leaves the owner |
| Repository.RunKeepsLastContent | internal/convenience/repository/voucher_repository.go:78-103 | in every run a key has a row if and only if it had one or a call wrote one, with the content of the last call that wrote it |
| Repository.ForeignRowIsOverwritten | internal/convenience/repository/voucher_repository.go:78-103 | three successful calls, the last of which overwrites the row of another application |
| Repository.BatchSucceedsIff | internal/convenience/repository/sql_executor.go:15-25 | in one transaction, where lookups see committed rows only, a batch succeeds if and only if the outputs it has to insert have free, pairwise different keys |
| Repository.BatchStoresAll | internal/convenience/repository/voucher_repository.go:48-76 | a batch of distinct keys none of whose (input, application) pairs is committed stores every output, several of one input included |
| Repository.NextBatchStoresAll | internal/convenience/synchronizer/graphile_synchornizer.go:127-148 | when no key repeats and no (input, application) pair of a transaction was stored before, the transaction adds exactly its outputs, several of one pair included |
| Repository.BatchingDecidesWhatIsStored | internal/convenience/repository/voucher_repository.go:235-259 | the smallest instance of a split pair: one transaction stores both outputs, two transactions silently drop the second |
| Batches.BatchesStoreKept | internal/convenience/services/service.go:40-114 | over any transactions with distinct keys none fails, and the table holds exactly the outputs whose (input, application) pair occurs in no earlier transaction |
| Batches.AllStoredIff | internal/convenience/services/service.go:40-114 | and it holds everything if and only if no pair is split over two transactions |
| Database.FindByIndex | internal/convenience/repository/input_repository.go:204-232 | a row is returned if and only if one has the index, and it has it |
| Database.FindUnprocessed | internal/convenience/repository/input_repository.go:173-202 | the unprocessed row of least index, and none exactly when no row is unprocessed |
| Database.Store.StartTransaction | internal/convenience/synchronizer/graphile_synchornizer.go:69-82 | a transaction starts as a copy of the committed tables; a failed begin changes nothing |
| Database.Store.Commit | internal/convenience/synchronizer/graphile_synchornizer.go:96-103 | the transaction's tables become the committed ones; a failed commit leaves the committed ones |
| Database.Store.Rollback | internal/convenience/synchronizer/graphile_synchornizer.go:84-94 | the transaction is gone and the committed tables are as before |
| Database.Store.Exec | internal/convenience/repository/sql_executor.go:15-25 | a write lands in the open transaction, or in the committed tables when there is none |
| Database.Store.CreateVoucher | internal/convenience/services/service.go:57-73 | lookup in committed rows, write to the current tables; an error writes nothing |
| Database.Store.CreateNotice | internal/convenience/services/service.go:40-55 | the same for notices |
| Database.Store.CreateReport | internal/convenience/services/service.go:92-114 | the same for reports |
| Database.Store.InsertReport | internal/convenience/repository/report_repository.go:44-70 | an insert without a lookup: an existing key is an error that writes nothing |
| Database.Store.CreateInput | internal/convenience/services/service.go:75-90 | an input found by index and application is updated by index, any other is added as a further row |
| Database.Store.AddInput | internal/convenience/repository/input_repository.go:64-121 | the first row of an index stays, a later one is ignored |
| Database.Store.UpdateInput | internal/convenience/repository/input_repository.go:123-141 | every row with the index, and no other, gets the status and the exception |
| Database.Store.CreateFetch | internal/convenience/repository/synchronizer_repository.go:46-76 | the cursor log grows by one row at its end |
| Database.Store.UpdateExecuted | internal/convenience/repository/voucher_repository.go:141-151 | the flag of one voucher is written to the committed tables, even while a transaction is open |
| Database.TransactionsPublish | internal/convenience/synchronizer/graphile_synchornizer.go:69-104 | what a transaction writes shows once it is committed, as if written without one, and not at all when it is rolled back |
| Database.CreateInputWrites | internal/convenience/services/service.go:75-90 | an input found by index and application gives its status and exception to every row of its index and changes nothing else; any other becomes the last row |
| Database.ExecutedIsSet | internal/convenience/repository/voucher_repository.go:141-151 | one flag of one voucher is set or cleared; every other row, column and table, and an open transaction, stay |
| ExecListener.OnEvent | internal/convenience/output_exec_listener.go:43-75 | an event with one number marks the voucher that the number packs, any other event is refused and changes nothing |
| ExecListener.EventMarksExactlyItsVoucher | internal/convenience/output_exec_listener.go:59-74 | unpacking undoes packing for 64-bit indices, whatever bits are between them and above; marking changes no other row or column |
| Synchronizer.GraphileSynchronizer.constructor | internal/convenience/synchronizer/graphile_synchornizer.go:26-44 | a new process holds the end cursors of the last cursor row, or none |
| Synchronizer.GraphileSynchronizer.HandleOutputEdge | internal/convenience/synchronizer/graphile_synchornizer.go:127-148 | one output: a blob that does not decode or a failing call is a failure, otherwise one upsert of the kind that it decodes to |
| Synchronizer.GraphileSynchronizer.HandleOutputEdges | internal/convenience/synchronizer/graphile_synchornizer.go:127-148 | the loop over outputs is the fold of its upserts up to the first failure, and logs the keys in order |
| Synchronizer.GraphileSynchronizer.HandleInputEdges | internal/convenience/synchronizer/graphile_synchornizer.go:159-174 | the loop over inputs is the fold of its writes up to the first failure |
| Synchronizer.GraphileSynchronizer.HandleReportEdges | internal/convenience/synchronizer/graphile_synchornizer.go:175-190 | the loop over reports is the fold of its upserts up to the first failure; SyncTables.TransactionUpserts and SyncRows.ReportIsStoredIff say, from the fields of the edges, what they are |
| Synchronizer.GraphileSynchronizer.HandleGraphileResponse | internal/convenience/synchronizer/graphile_synchornizer.go:117-243 | outputs, inputs, reports, then a cursor row exactly when some feed advanced; memory moves only on success, feed by feed |
| Synchronizer.GraphileSynchronizer.HandleWithDBTransaction | internal/convenience/synchronizer/graphile_synchornizer.go:69-104 | begin, handle, commit or roll back, under every combination of failures, as one function of the state before |
| SyncRuns.FaultsOnlyAbort | internal/convenience/synchronizer/graphile_synchornizer.go:127-190 | database faults decide whether a response is handled, never what a handled one writes |
| SyncRuns.EdgesWriteTransaction | internal/convenience/repository/sql_executor.go:15-25 | handling edges in an open transaction leaves the committed tables and the cursor log alone |
| SyncRuns.ReplayLog | internal/convenience/repository/synchronizer_repository.go:46-76 | cursor row k runs from cut k to cut k + 1 of the feeds and logs exactly the outputs between |
| SyncRuns.LogNamesOutputs | internal/convenience/synchronizer/graphile_synchornizer.go:127-148 | the log of a cursor row names the outputs of its batch by input and output index, in feed order |
| SyncRuns.ReplayStable | internal/convenience/synchronizer/graphile_fetcher.go:162-206 | feeds that grow at their ends replay the same |
| SyncRuns.RestartIsHarmless | internal/convenience/synchronizer/graphile_synchornizer.go:26-44 | a crash and restart leaves a synchronized worker exactly as it was |
| SyncRuns.RestartRecovers | internal/convenience/repository/synchronizer_repository.go:89-109 | whatever the memory holds, a restart synchronizes tables that replay the feeds |
| SyncRuns.TransactKeepsSyncIff | internal/convenience/synchronizer/graphile_synchornizer.go:69-104 | a transaction keeps the synchronization if and only if it is not a failed commit after a handled response that moved a cursor |
| SyncRuns.LostBatchIsSkipped | internal/convenience/synchronizer/graphile_synchornizer.go:236-240 | after such a failed commit the next transaction starts behind the lost batch, its row does not join the log, and the worker is not synchronized any more |
| SyncRuns.ChainedRows | internal/convenience/synchronizer/graphile_synchornizer.go:193-240 | each cursor row starts where the previous one ended, the first from nothing, and the memory holds the end of the last |
| SyncRuns.StepKeepsSync | internal/convenience/synchronizer/graphile_synchornizer.go:26-104 | growth, failed fetch, transaction and crash each keep the synchronization, that failed commit excepted |
| SyncRuns.RunKeepsSyncIff | internal/convenience/synchronizer/graphile_synchornizer.go:26-104 | from any worker whose tables replay the feeds, failed commits included: after a run they still do if and only if it never commits a batch while the memory has left the last cursor row; the memory points to the end of what they replay if and only if, besides, it is at the last cursor row |
| SyncRuns.ExactlyOnce | internal/convenience/synchronizer/graphile_synchornizer.go:26-104 | the same from an empty database, under every interleaving of growing feeds, failed fetches, handlers and commits, transactions and crashes: each edge once and in order, exactly under that condition; it holds of every run in which no commit fails after moving a cursor |
| SyncWitnesses.FailedCommitLosesBatch | internal/convenience/synchronizer/graphile_synchornizer.go:69-104 | a run of two transactions whose first commit fails: its notice is in no table, and the tables are no replay |
| SyncWitnesses.RestartSavesBatch | internal/convenience/synchronizer/graphile_synchornizer.go:26-44 | the same failed commit followed by a restart loses nothing |
| SyncWitnesses.SplitPairIsDropped | internal/convenience/repository/notice_repository.go:190-214 | a run of two transactions without a fault in which the second notice of an input and application is dropped |
| SyncTables.OutputsAreUpserts | internal/convenience/synchronizer/graphile_synchornizer.go:127-148 | the handled outputs are the batch of voucher upserts and the batch of notice upserts, each in feed order |
| SyncTables.TransactionUpserts | internal/convenience/synchronizer/graphile_synchornizer.go:117-190 | every handled response is one batch of upserts for each output table, written out from the fields of its edges, and adds its inputs when they are new |
| SyncTables.TransactionStores | internal/convenience/synchronizer/graphile_synchornizer.go:117-190 | a handled response adds exactly what it asks for, several outputs and reports of one input included, when none of its (input, application) pairs was asked for before |
| SyncTables.ResponseHandledIff | internal/convenience/synchronizer/graphile_synchornizer.go:117-190 | without faults a response is handled if and only if every blob decodes and the outputs to insert have free, different keys |
| SyncTables.ErrorsLeaveTables | internal/convenience/synchronizer/graphile_synchornizer.go:84-103 | an error while handling leaves tables and cursors as they were; a failed begin or commit leaves the tables |
| SyncTables.AskedSplit | internal/convenience/synchronizer/graphile_fetcher.go:162-206 | what the feeds ask for up to a cut is what they ask for up to an earlier one, and then what lies between |
| SyncTables.ReplayRunsBatches | internal/convenience/synchronizer/graphile_synchornizer.go:69-190 | the output tables of any replay are those of its batches, one transaction after the other |
| SyncTables.ReplayStoresIff | internal/convenience/synchronizer/graphile_synchornizer.go:69-190 | when no key repeats, a replay stores exactly the outputs and reports whose (input, application) pair occurs in no earlier transaction, and every input; that is all its prefix asks for if and only if no pair is split over two transactions |
| SyncTables.SyncedTablesAreTheFeedsIff | internal/convenience/synchronizer/graphile_synchornizer.go:26-243 | the same of the tables of every synchronized worker and the prefixes its cursors point to |
| Batches.RowOfKept | internal/convenience/services/service.go:40-114 | the row of an output is in the table if and only if its (input, application) pair occurs in no earlier transaction, and is then that output's |
| SyncRows.ReportIsStoredIff | internal/convenience/synchronizer/graphile_synchornizer.go:175-190 | of every synchronized worker, for each report edge: its row is there if and only if no earlier transaction brought a report of its input, under (input, report index), for the zero address, with the blob of the edge |
| SyncRows.NoticeIsStoredIff | internal/convenience/synchronizer/graphile_synchornizer.go:127-148 | for each notice edge: its row is there if and only if no earlier transaction brought a notice of its input and application, with the application and payload that the edge decodes to |
| SyncRows.VoucherIsStoredIff | internal/convenience/synchronizer/graphile_synchornizer.go:127-148 | for each voucher edge the same, with its destination, and not executed |
| SyncRows.InputsAreStored | internal/convenience/synchronizer/graphile_synchornizer.go:159-174 | one row for each input edge of the prefix, in feed order, with its index, application, sender, payload, block and time, unprocessed |
| Rollup.DecoderUndoesAdapter | internal/convenience/decoder/decoder.go:34-63 | a payload adapted as a voucher reaches the vouchers and one adapted as a notice the notices, stored as the original payload behind 0x |
| Rollup.DecoderSplits | internal/convenience/decoder/decoder.go:34-63 | the eight characters behind 0x decide: vouchers for their selector, notices for any other |
| Rollup.FirstUnprocessed | internal/model/sequencer.go:54-66 | the first unprocessed inspect of the list, with only completed ones before it |
| Nonodo.NonodoModel.AddAdvanceInput | internal/model/model.go:55-80 | an advance arrives unprocessed, once for each index |
| Nonodo.NonodoModel.AddInspectInput | internal/model/model.go:88-103 | an inspect joins the end of the list under the next index |
| Nonodo.NonodoModel.AddVoucher | internal/model/state.go:227-239 | only an advance takes vouchers, numbered from zero |
| Nonodo.NonodoModel.AddNotice | internal/model/state.go:255-265 | only an advance takes notices, numbered from zero |
| Nonodo.NonodoModel.AddReport | internal/model/state.go:279-289 | an advance or an inspect takes reports, numbered from zero |
| Nonodo.NonodoModel.HandleOutput | internal/convenience/decoder/decoder.go:34-63 | the selector decides the table; the rest of the payload is stored |
| Nonodo.NonodoModel.SendAllInputVouchersToDecoder | internal/model/state.go:121-143 | the vouchers reach the decoder in order, up to the first error |
| Nonodo.NonodoModel.SendAllInputNoticesToDecoder | internal/model/state.go:145-167 | the notices reach the decoder in order, up to the first error |
| Nonodo.NonodoModel.SaveAllReports | internal/model/state.go:169-186 | the reports are inserted in order, up to the first error |
| Nonodo.NonodoModel.FinishAdvance | internal/model/state.go:188-225 | vouchers, then notices, only when accepted; then reports; then the status |
| Nonodo.NonodoModel.CloseInspect | internal/model/state.go:332-383 | the inspect object in flight, shared with the list, gets status, count, reports and exception; no other changes |
| Nonodo.NonodoModel.Finish | internal/model/state.go:57-89 | what finishing means in each of the three states |
| Nonodo.NonodoModel.GetNext | internal/model/sequencer.go:54-82 | the first unprocessed inspect, else the unprocessed advance of least index, else idle; RollupRuns.DispatchOrder says that the one handed out is the one put in flight |
| Nonodo.NonodoModel.FinishAndGetNext | internal/model/sequencer.go:37-83 | finish the input in flight, then hand out the next; an error keeps the state (RollupHistory.AdvanceEnds, RollupHistory.RefusedFinish) |
| Nonodo.NonodoModel.RegisterException | internal/model/model.go:220-232 | status first, then reports; then idle, unless a report could not be written |
| RollupOutputs.FirstOutputIsKept | internal/convenience/services/service.go:40-73 | upserting the outputs of an untouched input, one after the other, leaves the first and drops the rest without an error |
| RollupOutputs.SendVouchersStores | internal/model/state.go:121-143 | sending the vouchers of an input is upserting them in order, with the stored payloads |
| RollupOutputs.SendNoticesStores | internal/model/state.go:145-167 | sending the notices of an input is upserting them in order, with the stored payloads |
| RollupOutputs.InsertEachStoresAll | internal/model/state.go:169-186 | inserts with new, different keys all succeed and add exactly their rows |
| RollupOutputs.FinishAdvanceStores | internal/model/state.go:188-225 | the whole database after finishing: every report under its number whatever the status, and for an accepted advance its first voucher and first notice; never an error |
| RollupOutputs.FailAdvanceStores | internal/model/state.go:291-308 | the whole database after an exception: every report, no voucher, no notice; never an error |
| RollupOutputs.ReportIsSaved | internal/model/state.go:169-186 | report k of a finished advance is the row (input, k) with its payload |
| RollupOutputs.AllVouchersStoredIff | internal/convenience/repository/voucher_repository.go:235-259 | all vouchers of an accepted advance are stored if and only if there is at most one |
| RollupOutputs.AllNoticesStoredIff | internal/convenience/repository/notice_repository.go:190-214 | all notices of an accepted advance are stored if and only if there is at most one |
| RollupRuns.StepKeepsInv | internal/model/model.go:55-232 | every operation keeps the invariant, does not fail, and leaves processed inputs and their outputs as they are |
| RollupRuns.RunKeepsInv | internal/model/model.go:55-232 | so does every run |
| RollupRuns.NoOperationFails | internal/model/state.go:169-225 | in every run no output row exists for an unprocessed input, and no next operation runs into a primary key |
| RollupRuns.AcceptingStoresAllIff | internal/model/state.go:188-225 | in every reachable state, accepting the advance in flight stores all its vouchers if and only if there is at most one, and the same for its notices |
| RollupRuns.SecondVoucherIsLost | internal/model/state.go:121-143 | a run from a new model in which an accepted input loses its second voucher |
| RollupRuns.ProcessedForever | internal/model/state.go:188-225 | an input leaves Unprocessed at most once: afterwards its row and its outputs never change |
| RollupRuns.InspectsCompleteInOrder | internal/model/state.go:315-383 | completed inspects are a prefix of the list, the one in flight follows it directly, and their processed counts never decrease |
| RollupRuns.FinishedInspect | internal/model/state.go:332-383 | an inspect that finishes or raises an exception stores the number of processed advances of that moment and its reports, and changes nothing else |
| RollupRuns.DispatchOrder | internal/model/sequencer.go:54-82 | an inspect is handed out if and only if some inspect waits: the first that waits, which is also the one put in flight, with no reports; an advance only when no inspect waits: the waiting one of least index, put in flight with no outputs; and nothing, leaving the machine idle, exactly when nothing waits |
| RollupRuns.AdvancesCompleteInOrder | internal/model/sequencer.go:54-82 | when indices arrive increasing, redeliveries aside, processed advances are a prefix of the table in every reachable state |
| RollupRuns.FinishRequestFinishesOnce | internal/rollup/rollup.go:97-120 | with one client, the retry loop finishes the input in flight once: after its first poll tables and inspects only grow by arrivals |
| RollupHistory.AdvanceCollects | internal/model/state.go:227-289 | while an advance is in flight it holds exactly the vouchers, notices and reports of the calls, each kind in order and numbered from zero, with their destinations and payloads |
| RollupHistory.InspectCollects | internal/model/state.go:360-371 | while an inspect is in flight it holds exactly the reports of the calls |
| RollupHistory.AddReplies | internal/model/state.go:227-289 | which calls are refused in which state, and the numbers that the others return |
| RollupHistory.ArrivalReplies | internal/model/model.go:55-103 | arrivals leave the input in flight alone; an inspect is told the position under which it is found |
| RollupHistory.AdvanceEnds | internal/model/state.go:188-225 | from every reachable state with an advance in flight, finishing it writes its outputs and its status and hands out the next, and an exception writes its reports, status and payload and leaves the machine idle |
| RollupHistory.ExceptionReplies | internal/model/model.go:220-232 | an exception without an input in flight is refused and changes nothing |
| RollupHistory.CallsAreStored | internal/model/state.go:188-308 | end to end: of the calls made while an advance is in flight every report is a row under its number with its payload, however the advance ends; when it is accepted so are the first voucher and the first notice; the row of the input has the status of the ending |
| RollupHistory.RefusedFinish | internal/model/sequencer.go:37-52 | when a write of a finish is refused, the reply is that refusal, the writes before it stay, and the input stays in flight with its row untouched |
| RollupHistory.RefusedException | internal/model/state.go:291-308 | when a report of an exception is refused, the row of the input has its status and payload all the same, and the input stays in flight |
| RollupHistory.InspectsAreTheCalls | internal/model/model.go:88-103 | in every run the inspects are those of the calls, in order, with position and payload |
| RollupHistory.InputsAreTheCalls | internal/model/model.go:55-80 | in every run every input row is from a call and every index that a call brought has a row |
| RollupHistory.ProcessedCountCounts | internal/model/model.go:238-254 | the processed count is the number of rows that are no longer unprocessed |
| RollupHistory.PollReplies | internal/rollup/rollup.go:97-120 | a finish request answers with what its first poll hands out, or else with what a dispatch hands out at the first later poll at which something waits, and with nothing only after its last poll |
| Cursor.Base64RoundTrip | internal/commons/pagination.go:94-112 | decoding undoes encoding for every byte string (section 4 of RFC 4648) |
| Cursor.DecodesIff | internal/commons/pagination.go:99-112 | text decodes if and only if it consists of groups of four symbols, padded at most at the end, to three bytes for each group less the padding; any other is refused as corrupt |
| Cursor.LineBreaksAreSkipped | internal/commons/pagination.go:99-112 | line breaks in a cursor do not count |
| Cursor.SplitIsBigEndian | internal/commons/pagination.go:94-97 | the four groups of six bits are the 24 bits of the three bytes, highest first |
| Cursor.StandardVectors | internal/commons/pagination.go:94-97 | the test vectors in section 10 of RFC 4648 |
| Cursor.DecimalRoundTrip | internal/commons/pagination.go:94-112 | parsing undoes printing for every 64-bit number |
| Cursor.SignsAreRead | internal/commons/pagination.go:104-107 | a sign in front of the digits is read, and a number without digits is refused |
| Cursor.LargeNumbersAreRefused | internal/commons/pagination.go:104-107 | a number that does not fit 64 bits is refused |
| Cursor.CursorRoundTrip | internal/commons/pagination.go:94-112 | the cursor of an offset decodes to it when it is one of the rows, and is refused otherwise |
| Cursor.Base64IsSound | internal/commons/pagination.go:94-112 | the cursor code of the program meets what pages and walks assume of a cursor code |
| Pagination.PageIsWithinTable | internal/commons/pagination.go:27-91 | an accepted request selects existing rows only, and a request is refused exactly for mixed directions, a negative size or a bad cursor |
| Pagination.ForwardPageMeetsSpecification | internal/commons/pagination.go:47-67 | a forward page is the one of the Cursor Connections Specification, section "Pagination algorithm" |
| Pagination.BackwardPageMeetsSpecificationIff | internal/commons/pagination.go:70-91 | a backward page is, if and only if there is no cursor or at least so many rows before it; a missing last counts as 1000 |
| Pagination.NewConnection | internal/reader/model/pagination.go:24-47 | the loop builds the connection of an offset and its nodes; FetchFitsRows says what that is in terms of the rows |
| Pagination.FetchFitsRows | internal/reader/model/pagination.go:24-60 | of every answered request over any rows: each edge carries the position of its node among them, positions are consecutive, the total is that of the rows, and the page info has the cursors of the first and the last edge and says whether rows come before and after |
| Pagination.AfterCursor | internal/commons/pagination.go:47-67 | asking after the cursor of a row returns the rows that follow it, as many as asked for |
| Pagination.BeforeCursor | internal/commons/pagination.go:70-91 | asking before it returns those that precede it, when there are as many |
| Pagination.RefusalsAreNamed | internal/commons/pagination.go:27-91 | which error each refused request gets: directions before sizes, sizes before cursors |
| Walks.PagesNeededIsCeiling | internal/reader/model/pagination.go:24-47 | the number of pages of a walk is ceil(total / size) |
| Walks.ForwardWalkNeverSkips | internal/commons/pagination.go:47-67 | following endCursor while rows are added at the end returns a beginning of the last table seen, without gap or repetition, and all of it when the walk ends by itself |
| Walks.ForwardWalkNeverSkipsImages | internal/commons/pagination.go:47-67 | the same for any image of the rows, when only the images of the lists are known to grow at the end |
| Walks.ForwardWalkReturnsEachRowOnce | internal/commons/pagination.go:47-67 | over a fixed table the walk returns every row once, in ceil(total / first) pages |
| Walks.ForwardWalkTakesPagesNeeded | internal/commons/pagination.go:47-67 | when every request gets a list of the same length, whatever its rows, the walk ends by itself in ceil(total / first) pages |
| Walks.BackwardNodesClosed | internal/commons/pagination.go:70-91 | the rows of a backward walk in closed form |
| Walks.BackwardWalkRepeats | internal/commons/pagination.go:70-91 | a backward walk ends after ceil(total / n) pages, an empty table after one, and returns every row, those of the last page fetched filled up to n |
| Walks.BackwardRepeats | internal/commons/pagination.go:70-91 | it returns exactly (n - total mod n) mod n rows twice when total >= n, and none when total < n |
| Filters.ConvertToConvenienceFilter | internal/reader/model/conversions.go:64-162 | the recursion over filter trees ends and yields the conditions node by node |
| Filters.ConvertNode | internal/reader/model/conversions.go:68-157 | the lists nested in the destination filter also reach the executed condition of the same node |
| Filters.ConvertJoins | internal/reader/model/conversions.go:64-162 | conversion goes node by node in the order of the list |
| Filters.ConditionsKeepLists | internal/reader/model/conversions.go:68-157 | what the conditions of a node keep besides eq: ne, in and nin, and the nested lists, those of the executed filter before those of the destination and those of the node |
| Filters.TransformToQuery | internal/convenience/repository/voucher_repository.go:277-328 | compilation succeeds if and only if each filter is of a form that its repository can compile, numbers placeholders in argument order, and otherwise fails with an error that says what is wrong with the first filter that is not |
| Filters.LimitAndOffsetAreLast | internal/convenience/repository/voucher_repository.go:196-207 | LIMIT and OFFSET bind to the last two arguments, and the conditions keep theirs |
| Filters.ClauseSelectsConjunction | internal/convenience/repository/input_repository.go:364-413 | a compiled clause selects exactly the rows that meet every filter, in each of the four compilers; what meeting a filter means is said from its own fields, eq before gt before lt for an input index |
| Filters.LiteralMeaning | internal/convenience/repository/input_repository.go:373-409 | a filter becomes a comparison that exactly the rows that meet it pass |
| Filters.InputQueryMeaning | internal/reader/adapter_v1.go:240-267 | a query for inputs always compiles and selects exactly the rows above, below and from what it names |
| Filters.OutputQueryMeaning | internal/convenience/repository/report_repository.go:185-210 | a query for the vouchers, notices or reports of an input always compiles and selects exactly the rows of that input, and all rows when it names none |
| Filters.AddressTexts | internal/convenience/repository/voucher_repository.go:300-312 | forty hexadecimal digits are an address, with 0x or 0X in front or without |
| Filters.ConvertedHaveValues | internal/reader/model/conversions.go:110-141 | conversion never yields an executed condition without a value, on which the compiler would dereference nil |
| Filters.TreeMeaning | internal/reader/model/conversions.go:64-162 | a voucher filter tree compiles if and only if each top-level filter has a valid eq, and then selects exactly the rows that meet all of those |
| Listing.OrderByOrders | internal/convenience/repository/input_repository.go:294-362 | an ordered list with the rows of the table, each as often as there, exists for every table |
| Listing.OrderedByColumns | internal/convenience/repository/voucher_repository.go:196 | ordered rows ascend by input index, and by output index within an input |
| Listing.AnswerIsTheConjunction | internal/convenience/repository/voucher_repository.go:177-233 | a list is a possible answer if and only if it is in order and holds exactly the rows that meet every filter, each as often as the table |
| Listing.OneAnswerIff | internal/convenience/repository/input_repository.go:323 | the order determines the answer if and only if no two different selected rows have the same rank |
| Listing.SameRanks | internal/convenience/repository/input_repository.go:323 | all answers have the same ranks in the same places |
| Listing.RowsBehindComeLast | internal/convenience/repository/input_repository.go:294-362 | in any answers, rows that sort behind all existing ones come last: their ranks always, the rows themselves when ranks are distinct |
| Listing.FilteredWalkNeverSkips | internal/convenience/repository/input_repository.go:294-362 | for every filter and page size, whatever order the database gives at each request, when no two selected rows have the same rank: a forward walk during which rows are added behind the existing ones returns the selected, ordered rows without gap or repetition |
| Listing.FilteredWalkKeepsRanks | internal/convenience/repository/input_repository.go:294-362 | without that condition, and however ties are ordered at each request, the ranks of the rows returned are without gap or repetition |
| Listing.FilteredWalkTakesCeiling | internal/convenience/repository/voucher_repository.go:177-233 | over an unchanged table, for every filter and whatever answer each request gets, the walk ends by itself after ceil(selected rows / first) pages with as many rows as are selected |
| Listing.TiesMayRepeat | internal/convenience/repository/input_repository.go:323 | with two rows of one rank a walk may return one twice and the other never |
| Inputter.InputterWorker.ReadPastInputs | internal/sequencers/inputter/inputter.go:57-94 | the scan adds the past events in order up to one that fails, and does not move the block from which the next scan starts |
| Inputter.PastCounts | internal/sequencers/inputter/inputter.go:57-85 | a scan returns the events of its blocks, each as often as the chain has it |
| Inputter.PastJoins | internal/sequencers/inputter/inputter.go:57-85 | in the order of the chain |
| Inputter.FirstScan | internal/sequencers/inputter/inputter.go:57-94 | a new worker scans from the block of the input box and then watches, with a row for each event from there on |
| Inputter.ScansAreRepeated | internal/sequencers/inputter/inputter.go:112-118 | a scan that fails keeps what it added before the event that failed, and is repeated from the same block |
| Inputter.InputterWorker.ReceiveEvent | internal/sequencers/inputter/inputter.go:134-147 | a live event moves the start of the next scan to the block before it, added or not |
| Inputter.AddAllFinds | internal/convenience/repository/input_repository.go:64-73 | after any deliveries an index has the row it had, or else an unprocessed one with the sender, payload, block and time of the first event with the index |
| Inputter.RedeliveryChangesNothing | internal/sequencers/inputter/inputter.go:103-168 | in every run existing rows change by status updates of the rollup machine only, and no index gets a second row |
| Inputter.FirstDeliveryStays | internal/sequencers/inputter/inputter.go:103-168 | in every run the table has a row for exactly the indices delivered, with the content of the first delivery |
| Inputter.LiveEventsAreNotLost | internal/sequencers/inputter/inputter.go:128-168 | in every run a live event of block 1 or higher has its row, or the worker has yet to scan, from the block before it, or it was stopped right after the event could not be added |
| Inputter.FailuresLeadToScan | internal/sequencers/inputter/inputter.go:113-168 | from wherever it is, a running worker that loses its connection scans again, with its rows and its next start as they were |
| Inputter.StopsWhenTold | internal/sequencers/inputter/inputter.go:138-160 | in every run a worker stops when it is told to, and for no other reason |
| Inputter.FailedEventIsRecoveredIff | internal/sequencers/inputter/inputter.go:138-147 | after a live event that could not be added, the next complete scan stores it if and only if its block is not 0, which on a chain holds no events |
| Supervisor.StepKeepsInv | internal/supervisor/supervisor.go:42-85 | every step of the supervisor, a worker, the caller or a timer keeps the invariant |
| Supervisor.EveryRunIsSafe | internal/supervisor/supervisor.go:42-85 | over all interleavings: a worker starts only after all before it signalled ready, the wait group counts started minus done, a done worker has cancelled, and a nil return means that every started worker is done |
| Supervisor.ReturnReason | internal/supervisor/supervisor.go:73-84 | in every run the timeout error is returned if and only if the timer fired while the supervisor drained, and nil if and only if it heard that the wait group was empty |
| Supervisor.CleanDrainReturnsNil | internal/supervisor/supervisor.go:73-84 | from every reachable state in which it drains and all started workers have left, it can return nil |
| Supervisor.OneWorkerExits | internal/supervisor/supervisor.go:42-85 | a whole run with one worker that ends in nil |
| Supervisor.CallerIsToldFirst | internal/supervisor/supervisor.go:69-71 | in every run it serves, drains or returns only after it has told the caller, and not otherwise |
| Supervisor.CancelEndsWaiting | internal/supervisor/supervisor.go:55-71 | once the context is done it need not wait for a worker, and can tell the caller and drain |
| Supervisor.ReadySignalIsTrueIff | internal/supervisor/supervisor.go:55-71 | when the caller is told ready, all workers are if and only if no worker timed out and the context was not done in the start loop |
| Supervisor.ReadyMeansReadyOrCancelled | internal/supervisor/supervisor.go:55-71 | the caller is told ready only when all workers are or the context is cancelled |
| Supervisor.ReadyWithoutAReadyWorker | internal/supervisor/supervisor.go:60-71 | a run in which the caller is told ready although the only worker never was |
| Supervisor.StepLowersRank | internal/supervisor/supervisor.go:42-85 | every step lowers a bound on the steps left |
| Supervisor.EveryRunEnds | internal/supervisor/supervisor.go:42-85 | no run of n workers is longer than 7n + 7 steps, and a run cannot go on if and only if the supervisor has returned and every started worker has left |
| BlockScan.FindMatchingDataCommitment | internal/dataavailability/celestia_commits.go:66-101 | the first event of the window that covers the height, compared as signed numbers |
| BlockScan.FirstMatchIsFirst | internal/dataavailability/celestia_commits.go:82-98 | nothing before the event that is returned covers the height |
| BlockScan.AdjacentCoverOnce | internal/dataavailability/celestia_commits.go:85 | commitments with adjacent ranges cover every height from the first start up to the last end exactly once, and no other |
| BlockScan.NegativeBounds | internal/dataavailability/celestia_commits.go:85 | bounds from 2^63 on are compared as negative numbers |
| BlockScan.GetDataCommitment | internal/dataavailability/celestia_commits.go:26-64 | the loop with its clamped and wrapping bounds is the recursive scan |
| BlockScan.WindowsIsCeiling | internal/dataavailability/celestia_commits.go:48-52 | a scan has ceil(blocks / 10000) windows |
| BlockScan.LowestEndIs | internal/dataavailability/celestia_commits.go:48-52 | where the lowest window ends, in closed form |
| BlockScan.ScanDecides | internal/dataavailability/celestia_commits.go:39-63 | when the arithmetic does not wrap, the scan ends within its windows and finds nothing if and only if no event from the lowest block to the head covers the height, or there is nothing to scan |
| BlockScan.NoMatchTakesAllWindows | internal/dataavailability/celestia_commits.go:48-63 | without a match the scan takes exactly ceil(blocks / 10000) windows |
| BlockScan.ScanFailsIff | internal/dataavailability/celestia_commits.go:48-63 | on a node that rejects reversed ranges the scan fails if and only if it wraps and no event above its lowest window covers the height; a scan that wraps and does not fail finds such an event |
| BlockScan.YoungChainFails | internal/dataavailability/celestia_commits.go:39-52 | a chain of 5000 blocks with a matching event in which nothing is scanned |
| Tar.ExtractFileFromTarball | npm-package/src/cartesi-rollups-hl-graphql.js:115-140 | the loop is the fold of its rounds, from offset 0 |
| Tar.OffsetsStayAligned | npm-package/src/cartesi-rollups-hl-graphql.js:137-138 | on any bytes every header is read at a multiple of 512 |
| Tar.OctalRoundTrip | npm-package/src/cartesi-rollups-hl-graphql.js:127-130 | parsing undoes printing of octal sizes |
| Tar.HeaderFields | npm-package/src/cartesi-rollups-hl-graphql.js:126-130 | name and size of a ustar header are read back |
| Tar.NulEndsLine | npm-package/src/cartesi-rollups-hl-graphql.js:126 | a NUL takes what follows it up to the end of its line; the next line is read on |
| Tar.NumberEnds | npm-package/src/cartesi-rollups-hl-graphql.js:127-130 | a number ends before the first character that is no octal digit |
| Tar.NumberIsSigned | npm-package/src/cartesi-rollups-hl-graphql.js:127-130 | it may stand behind a space and a sign |
| Tar.UnreadableSizeLoops | npm-package/src/cartesi-rollups-hl-graphql.js:122-138 | when the archive starts with a header of another file whose size is no number, the loop stays there for any number of rounds |
| Tar.NegativeSize | npm-package/src/cartesi-rollups-hl-graphql.js:132-134 | a negative size yields nothing, unless it reaches in front of the archive: then the end is counted from the back |
| Tar.RoundsUp | npm-package/src/cartesi-rollups-hl-graphql.js:137-138 | rounding up with a 32-bit mask leads to the next header, below 2^31 |
| Tar.MaskWraps | npm-package/src/cartesi-rollups-hl-graphql.js:137-138 | for any number at all, masking rounds down to a multiple of 512 and wraps around to a signed 32-bit integer |
| Tar.FirstNamesakeIsExtracted | npm-package/src/cartesi-rollups-hl-graphql.js:115-140 | from any archive under 2^31 bytes the reader returns the bytes of the first member with the name, after one round for each member up to it, whatever follows |
| Tar.MissingNameLoops | npm-package/src/cartesi-rollups-hl-graphql.js:122-139 | without the name and with zero bytes at the end, the loop runs for any number of rounds |
| Tar.TerminatesIff | npm-package/src/cartesi-rollups-hl-graphql.js:115-140 | on an archive closed by any number of zero bytes the reader ends if and only if the name is there or there are no zero bytes |

## Left out

- SQL text, the SQL engine, locks, logging, timers and sleeps: statements act on tables as values, each locked method is
  one step, and clauses are lists of conditions with numbered arguments.
- How the database compares a column with an argument: filters are proved for every such comparison (`Semantics`).
- ABI decoding and the split into vouchers and notices of the second output version: what a blob decodes to is data.
- A decoder or a report repository that is nil, negative indices, and payloads shorter than a selector, which are
  run-time panics of the decoder.
- Adding a voucher or a notice under a freely chosen input index: no code in the repository calls it, and it would break
  the invariant that unprocessed inputs have no outputs.
- Database faults in the rollup machine other than primary keys; the synchronizer's faults are modelled. The status
  that a refused finish leaves in the input object is not: nothing reads it before it is set again.
- The synchronizer, the listener and the inputter at work on the same tables as the rollup machine at the same time,
  but for status updates beside the inputter.
- Inputs that arrive between a scan and the subscription that follows it: the source accepts that they may be missed.
- Iterator errors of the inputter's scan, which the source does not check: a scan in the model completes or reports.
- SyncTables.SyncedTablesAreTheFeedsIff: says nothing of feeds that deliver an output, a report or an input key twice;
  SyncTables.ResponseHandledIff and Repository.RunKeepsLastContent cover what the code does with repeated keys.
- A list query counts and selects in two statements; the model takes both from one state of the table.
- Names of tar members that are not ASCII, the prefix field of long names, and links with a size.
- What the block scan finds after the arithmetic wrapped on a node that answers reversed ranges.
- Tar.ExtractFileFromTarball: the source's loop has no bound on its rounds, the method takes one so that it ends; the
  lemmas speak of every bound.
- BlockScan.GetDataCommitment: the same.
- Nonodo.NonodoModel.FinishAndGetNext: the method exists twice in the source with one body and is modelled once.
- The cursor code is a parameter of pages and walks; Cursor.Base64IsSound shows that the program's code qualifies.
- Supervisor: a caller that never receives the ready signal, and a worker whose Start never returns, stop a run short
  of its end; safety holds for these runs as well.
- GraphQL and HTTP wiring, release downloads, other chains' clients, proof conversion: I/O or plain field copying.
