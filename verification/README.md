# Steward verification

A Dafny model of the steward, the store-and-forward proxy between LLM clients and Butler, with proofs
about its sync protocols, parsers, arithmetic and caches. `dafny verify dfyconfig.toml` checks it.

## How the model is built

A protocol is a system of atomic steps: a `State`, an `Action` for everything that the steward, the
database, Butler or another process may do next, a `Step` that says which actions are possible and what
they do, and `Exec` for whole runs (`Runs`). Main results hold in every run. Go types whose methods change fields
are classes; their methods are proved to perform runs of the steps (a ghost `trace`), so what is proved
of runs holds of them.

| files | what they model |
|---|---|
| `UsagePipeline`, `RequestLog`, `Pages` | a usage log from its offer through the bounded queue and `llm_requests` to Butler |
| `CursorSync`, `KeySync`, `ExperimentStore` | cursor pagination, API key rows, experiments and their arms |
| `WorkTicker`, `EvalDispatch`, `RunQueue` | jobs from Butler: lease, dispatch, acknowledge; the eval bundle; the queue of runs and its claims |
| `RunOutbox`, `SharedOutbox`, `ScoreOutbox` | run statuses, and eval results with their scores, going up |
| `EventStream`, `Sse`, `Anthropic`, `ClaudeMetadata` | AWS event-stream frames, server-sent events, usage and request metadata |
| `ArmSelection`, `ExperimentRouter` | weighted choice of an arm, cached routing |
| `HllManager`, `MetadataIndex`, `ActiveKeys` | counters and sketches written back under concurrent adds; index backfill and cleanup, beside the writer's cache of active names |
| `KeyCache`, `ProxyKeyCache` | the API key cache and the two linked proxy key caches |
| `Billing`, `GoInt` | prices, costs and session totals; 64-bit wrap-around |
| `Runs`, `Wrappers` | runs of step systems; shared types and facts |

## Assumptions

- A database statement is atomic. It, and every request to Butler, succeeds, fails without effect, or
  takes effect although it reports an error (`Outcome`).
- Butler, whose code is not part of this repository, keeps the contracts stated at the `Butler` classes:
  an accepted batch is kept; a status update replaces the earlier one; work is leased from the pending jobs.
- For cursor sync: record stamps are distinct and increase, and a page is the first 200 records stamped
  strictly after the cursor, in order. `CursorSync.LostExactlyWhenTiedAcrossTheBoundary` says what happens
  otherwise.
- The fresh id of a request log occurs nowhere else; API key hashes are distinct for distinct keys.
- JSON decoding and hashing are arbitrary functions, and an encrypted provider key stands for what decrypting
  it gives. `now()` is a clock that does not go back.
- One results reporter runs on the tables of runs and scores. The steward starts one for each organisation
  (internal/steward/workers.go:110-127) over queries that do not look at the organisation;
  `SharedOutbox.AgreesAtHomeExactlyWhenAlone` says what that does to the results.
- A sketch is marshalled and estimated in one atomic step. The code does both outside the manager's lock
  (internal/repositories/hll_manager.go:164-169), while adds may change the same sketch.
- The time that a caller reads for a request and the router's own times are readings of one clock, and the rows
  of experiments are listed in the same order as long as they do not change.
- Weights of experiment arms come from 32-bit columns, so that their 64-bit sum does not wrap.

## Where the code does something else than its documentation says or suggests

- Filters: an absent metadata key passes a filter for the empty string
  (`ExperimentRouter.FilterRuleHoldsExactlyWhen`).
- Routing: a cached answer may be outside the experiment's window, after its end or before its start
  (`ExperimentRouter.AssignedOutsideTheWindow`, `ExperimentRouter.CachedIsUncachedExactlyWhen`).
- Arms: a sticky value and a weight sum that is a positive multiple of 2^32 divide by zero
  (`ArmSelection.SelectArm`, `ArmSelection.WeightsThatDivideByZero`).
- Run outbox: an update between fetch and mark, or stamped no later than the mark, is not reported
  (`RunOutbox.GuardIsExact`).
- Reporters: with several organisations, the reporter of another one may take a run's status to its own Butler
  and mark it (`SharedOutbox.AgreesAtHomeExactlyWhenAlone`).
- Scores: a score that is added to a result of the batch after the scores were fetched is lost for good, and so is
  an open one with at least 2000 older open ones (`ScoreOutbox.CanBeLostExactlyWhen`,
  `ScoreOutbox.MustBeLostExactlyWhen`, `ScoreOutbox.LostForGood`). What is left behind blocks younger scores
  (`ScoreOutbox.BlockedForGood`). A rewrite between fetch and mark is not reported (`ScoreOutbox.GuardIsExact`).
- Counters: a flush that fails is not repeated until its key gets another value
  (`HllManager.UnpersistedUntilTheNextAdd`).
- Index: the writer may go on with a set of active names from before an activation, or with an empty one after a
  failed query, and a finished backfill does not cover the rows it writes then
  (`ActiveKeys.IndexedForGoodExactlyWhen`).
- Index jobs: a batch size of zero never ends (`MetadataIndex.LoopEndsExactlyWhen`).
- Prices: the remote list hides a model's fallback rate for cache creation (`Billing.MergedPrices`), and a
  refresh leaves fallback-only models without a price for a moment (`Billing.UnpricedInBetweenExactlyWhen`).
- API keys: a cached rejection of a revoked or unknown key is reported as inactive
  (`KeyCache.HitRepeatsTheAnswerExactlyWhen`).
- Proxy keys: a hit does not compare the owner (`ProxyKeyCache.TransparentExactlyWhen`), and the values of an
  invalidated key are not dead: a lookup of the key for another provider makes them good again
  (`ProxyKeyCache.InvalidatedValueReturnsExactlyWhen`).
- Eval jobs: a bundle with an item whose request is not logged fails at every delivery
  (`EvalDispatch.DispatchSucceedsExactlyWhen`).
- Event streams: the check of the payload bounds cannot fail (`EventStream.PayloadBoundsNeverFail`).

## Model

| member | source | states |
|---|---|---|
| `UsagePipeline.SafeInEveryRun` | internal/requestlog/writer.go:36-139 | In every interleaving of offers, takes, inserts, crashes, and of fetch, send and mark steps of all reporters, each of them failing or not: every log offered is in exactly one of dropped, queued, being written, insert-failed, lost in a crash, stored unsynced, stored synced, and no other log is anywhere; the queue holds at most 1000 and is first in, first out; a row marked synced has an organisation and was accepted by Butler. |
| `UsagePipeline.RowsAreKept` | internal/repositories/steward.go:114-136 | From any safe state on, no run removes a stored row, changes its organisation, clears its synced flag, or takes anything back from Butler. |
| `UsagePipeline.MarkingIsExact` | internal/repositories/steward.go:114-136 | Marking a fetched page removes exactly that page from the unsynced rows of its organisation and changes no other organisation's. |
| `UsagePipeline.RoundDrains` | internal/stewardclient/reporter.go:115-146 | One undisturbed fetch, send and mark moves exactly its page from unsynced to marked and accepted. |
| `UsagePipeline.EveryRowCanBeDelivered` | internal/stewardclient/reporter.go:112-147 | In every safe state with an idle reporter there is a run of ceil(k / limit) rounds after which all k unsynced rows of the organisation are accepted and marked, and no other organisation's unsynced rows have changed: nothing stored is lost to the reporter. |
| `Pages.SelectPage` | internal/repositories/steward.go:40-56 | The answer to `ORDER BY ... LIMIT n`: distinct candidates, in rank order, min(n, count) of them, none ranked above a candidate left out. |
| `Pages.ShortPageIsAll` | internal/stewardclient/reporter.go:143-145 | A page shorter than its limit holds every candidate. |
| `RequestLog.RequestTable.FetchUnsyncedRecords` | internal/repositories/steward.go:40-99 | A page of the organisation's unsynced rows, or an error; by the rows' own creation times, it is in order and none of it is younger than a row left out; always an error for a negative limit. |
| `RequestLog.RequestTable.MarkSynced` | internal/repositories/steward.go:114-136 | Exactly the given rows become synced; an error leaves open whether they did. |
| `RequestLog.Reporter.FlushPage` | internal/stewardclient/reporter.go:115-146 | One turn of the flush is a run of pipeline steps and reports success exactly if no statement or request failed; then at most one non-empty page was acknowledged by Butler and marked, and another turn is asked for exactly when the page was full. |
| `RequestLog.Reporter.Flush` | internal/stewardclient/reporter.go:112-147 | A flush terminates, is a run of pipeline steps whatever fails, and succeeds exactly if no statement or request failed; then, with a positive batch size b, Butler has acknowledged just the batches it returns, which deliver every unsynced row of the organisation once, oldest first, in ceil(k / b) batches. |
| `RequestLog.DrainedCompletely` | internal/stewardclient/reporter.go:112-147 | The batches of such a flush hold each row of the organisation that was unsynced at the start exactly once, in the order of the rows' creation times, in exactly ceil(k / b) batches; exactly these rows are marked and every other row is as before. |
| `Wrappers.BatchesIsCeiling` | internal/stewardclient/reporter.go:112-147 | Working off k rows in batches of at most b takes exactly ceil(k / b) batches. |
| `RequestLog.Writer.WriteRequestLog` | internal/requestlog/writer.go:48-55 | An offer to a queue of 1000 drops the log, to a shorter one appends it; it is the pipeline step `Offer`. |
| `RequestLog.Writer.WriteNext` | internal/requestlog/writer.go:70-75 | One receive and insert takes the oldest log, stores it unsynced with its organisation or not at all, and is a run of two pipeline steps. |
| `RequestLog.Writer.DrainAndStop` | internal/requestlog/writer.go:76-80 | After `done` is closed everything still queued is taken, in order, before the writer stops. |
| `CursorSync.MirrorInEveryRun` | internal/stewardclient/keysync.go:63-136 | However syncs, failures at any request or row, restarts and Butler's own writes interleave, every record of Butler stamped at or before the cursor is held locally in Butler's current version. |
| `CursorSync.CursorNeverDecreases` | internal/stewardclient/keysync.go:63-86 | In every run without a restart of the process the cursor does not go back. |
| `CursorSync.WritesLieAfterTheCursor` | internal/stewardclient/keysync.go:63-86 | In every reachable state, whatever Butler writes next lies after the cursor, so that a later page returns it. |
| `CursorSync.PageShrinksRest` | internal/stewardclient/keysync.go:89-136 | Each page removes exactly its own records from what lies after the cursor, and nothing does after a short page; this is why the fetch loop ends. |
| `CursorSync.CompleteAfterShortPage` | internal/stewardclient/keysync.go:130-135 | The page that ends a fetch completes the mirror: with the collected records upserted, everything Butler has is held. |
| `CursorSync.LostExactlyWhenTiedAcrossTheBoundary` | internal/stewardclient/keysync.go:124-132 | For any stamps: a record after the cursor that a page leaves out is skipped by the new cursor if and only if it is tied with the newest record of that page, so that the tie straddles the page boundary. |
| `CursorSync.TiesAreLost` | internal/stewardclient/keysync.go:124-132 | Such a loss for every number of records above 200: a sync against equally stamped records advances the cursor past one it never held and that no later page returns. |
| `KeySync.KeyStore.UpsertRow` | internal/repositories/steward.go:139-172 | One row takes the version upserted, keeps its creation time, and no other row changes; a hash that another row has is an error without effect. |
| `KeySync.KeyStore.UpsertAPIKeys` | internal/repositories/steward.go:139-172 | The rows are upserted one by one; success means all of them, an error leaves exactly those before it, and every ending is a run of protocol steps. |
| `KeySync.KeySyncer.RaiseCursor` | internal/stewardclient/keysync.go:124-128 | The watermark rises to the newest stamp of the page and never falls. |
| `KeySync.KeySyncer.Fetch` | internal/stewardclient/keysync.go:89-136 | The fetch loop terminates; it ends in an error exactly if a request failed, and otherwise with records whose upsert completes the mirror. |
| `KeySync.KeySyncer.Sync` | internal/stewardclient/keysync.go:63-86 | A sync is a run of protocol steps and succeeds exactly if no request and no row failed; then the local rows mirror Butler completely, and otherwise the cursor stays. |
| `ExperimentStore.ArmsMirroredExactlyWhen` | internal/repositories/experiments.go:83-96 | After an upsert the local arms of an experiment are those of the record if and only if each listed arm belongs to it, by the row it already has or else by its first insert. |
| `ExperimentStore.UpsertShows` | internal/repositories/experiments.go:30-100 | For arms that keep their experiment the upsert never violates a key, leaves exactly the record's row and arms, and touches no other experiment. |
| `ExperimentStore.UpsertKeepsOrg` | internal/repositories/experiments.go:40-66 | An upsert leaves the organisation of an experiment that is there, and a new one gets that of its record. |
| `ExperimentStore.Store.UpsertExperiments` | internal/repositories/experiments.go:30-100 | All records or none take effect; it is the protocol step `UpsertBatch`, so `CursorSync.MirrorInEveryRun` applies to experiments, and rows and arms show the mirrored versions. |
| `WorkTicker.DoneJobsWereExecuted` | internal/stewardclient/workticker.go:127-180 | In every run, with answers lost at any point, leases that run out and crashes: a job that Butler has as done was dispatched successfully, one it has as failed was refused, and no job is executed more often than it was leased. |
| `WorkTicker.ExecutionsAreBounded` | internal/stewardclient/workticker.go:127-180 | In every run a job is executed at most once, and once more for each time its lease ran out. |
| `WorkTicker.RepeatsExactlyWhen` | internal/stewardclient/workticker.go:252-276 | From any reachable state a job can be executed again, or at all, if and only if its mark has not reached Butler or it still waits in the tick: execution is at least once, and a lost acknowledgement can always repeat it. |
| `WorkTicker.Ticker.Dispatch` | internal/stewardclient/workticker.go:182-223 | Each of the six job types calls exactly its own configured syncer or executor; any other item calls nothing and does not succeed. |
| `WorkTicker.Ticker.Work` | internal/stewardclient/workticker.go:150-172 | One item is dispatched once and then marked with its own result. |
| `WorkTicker.Ticker.Tick` | internal/stewardclient/workticker.go:127-180 | Every item of a delivered batch is dispatched and marked, in order and whatever became of the others; the two counters are the numbers of successes and failures, and the whole tick is a run of the job protocol. |
| `RunQueue.ClaimsAreBounded` | internal/repositories/replay.go:57-194 | Without any assumption on callers: a run has at most one committed claim more than it has been put back to pending, however often it is redelivered and however many workers claim, roll back or lose the answer to their commit; no two open claims hold the same run. |
| `RunQueue.HistoriesCount` | internal/repositories/replay.go:128-194 | What is counted there: commits of claims that took effect, and status updates that put a run back to pending. |
| `RunQueue.StatusesOnlyAdvance` | internal/repositories/replay.go:128-194 | If status updates never write an earlier status, every run only moves from pending to running to completed or failed and keeps its creation time. |
| `RunQueue.AtMostOneClaim` | internal/repositories/replay.go:128-163 | Under that condition no run is ever claimed twice. |
| `RunQueue.StartedRunsAreNeverSelected` | internal/repositories/replay.go:128-163 | Under that condition a run that has left pending is never offered to a worker again, even when the commit of its claim reported an error. |
| `RunQueue.ClaimedAgainExactlyWhenPending` | internal/repositories/replay.go:128-194 | From any reachable state there is a continuation that puts nothing back to pending and claims a run, or claims it once more, if and only if the run is pending now; so one put back after a claim can always be claimed a second time. |
| `RunQueue.RedeliveryKeepsProgress` | internal/repositories/replay.go:57-110 | A redelivered job refreshes only the columns Butler owns: status, times, error, summary, claims and the set of claimable runs stay. |
| `RunQueue.ReplayRepository.UpsertReplayRun` | internal/repositories/replay.go:57-110 | A first delivery inserts the run with the delivered status, spec and creation time (or now) and nothing else set, and if it is pending it can be claimed at once; a redelivery renews the spec and leaves the rest; both wait for a transaction that holds the row, and are runs of queue steps. |
| `RunQueue.ReplayRepository.ClaimPendingReplayRun` | internal/repositories/replay.go:128-163 | While other workers claim, commit and roll back in between: a claim takes a pending run that nobody holds and that no such run is older than, starts exactly that one and returns it as running; it reports an error exactly if a statement failed, and no work only if no pending run was free. |
| `RunQueue.ReplayRepository.SelectOldestPending` | internal/repositories/replay.go:135-148 | The locking select finds an oldest pending run that no transaction holds, or none exactly when there is none. |
| `RunQueue.ReplayRepository.UpdateReplayRunStatus` | internal/repositories/replay.go:166-194 | The four branches of the status update set exactly their columns of exactly that run, after waiting for a transaction that holds it; success exactly if the run exists and the statement did not fail. |
| `RunQueue.ReplayRepository.UpdateReplayRunSummary` | internal/repositories/replay.go:196-223 | The summary and the update time of exactly that run are set, after waiting for a transaction that holds it; success exactly if the run exists and the statement did not fail. |
| `EvalDispatch.DispatchSucceedsExactlyWhen` | internal/steward/steward.go:57-80 | An undisturbed dispatch succeeds if and only if the run's set is the bundle's or is there, and every item that neither the table nor an earlier item has, has its set, a logged request, and an id that no stored or inserted item has. |
| `EvalDispatch.RetryReachesTheSameState` | internal/steward/steward.go:57-80 | If an undisturbed dispatch of a bundle would succeed, then after one cut off behind any statement the next one succeeds too and reaches the same database. |
| `EvalDispatch.AnyNumberOfRetries` | internal/steward/steward.go:57-80 | The same after any number of dispatches, each cut off anywhere. |
| `EvalDispatch.StoredRunsAreComplete` | internal/steward/steward.go:57-80 | In every interleaving of dispatchers, failures, crashes and worker updates, a stored eval run has its eval set and every item of the bundle that first inserted it. |
| `EvalDispatch.DispatchRuns` | internal/steward/steward.go:57-80 | An undisturbed dispatch is such a run, statement after statement, from any state with an idle dispatcher. |
| `EvalDispatch.LastStatementRuns` | internal/steward/steward.go:57-80 | Its last statement stores the run and ends it, and a worker may then set the run's status. |
| `EvalDispatch.StatementStores` | internal/repositories/eval.go:78-139 | Row by row, what any statement of any dispatcher stores: a set is replaced, an item is inserted unless its set has that request, a run takes the bundle's columns but keeps its status if it is there; nothing else changes. |
| `EvalDispatch.StatusStaysUntilWork` | internal/repositories/eval.go:106-139 | In every run, however often its job is delivered again, a stored eval run keeps its status until a worker sets it. |
| `EvalDispatch.PerformedIsSettled` | internal/repositories/eval.go:78-139 | Each of the three upserts is idempotent. |
| `EvalDispatch.EvalRepository.ExecuteEval` | internal/steward/steward.go:57-80 | Set, items and run are upserted in this order up to the first failure; success exactly if there is a bundle and no statement failed. Then the set is stored, of every new pair of set and request the first item, and the run with the bundle's columns and, if it was there, its old status; whatever fails, stored runs keep their status. |
| `RunOutbox.AgreementInGuardedRuns` | internal/stewardclient/resultsreporter.go:97-136 | In every run whose writes keep the guard, a row that the unsynced query skips has the same reported fields at Butler as locally. |
| `RunOutbox.GuardIsExact` | internal/repositories/replay.go:255-281 | A write that keeps the guard (the row is not between its fetch and its mark, and its last mark was earlier, or no reported field changes) keeps the invariant; behind any other write there is a run without further writes in which a skipped row differs from what Butler has. |
| `RunOutbox.LateWriteIsLost` | internal/repositories/replay.go:272-281 | The interleaving: a row rewritten between its post and its mark is skipped from then on although Butler has the older content. |
| `RunOutbox.WriteStampedBeforeTheMarkIsLost` | internal/repositories/replay.go:255-281 | The same happens to a row rewritten after its mark but stamped with the very same or any earlier time, because the query compares with `<` and a transaction stamps with its begin time. |
| `RunOutbox.FlushRuns` | internal/stewardclient/resultsreporter.go:185-225 | One tick is a run of outbox steps and succeeds exactly if nothing failed; then exactly one page, in the order of the rows' update times, was posted with the contents it was fetched with, and stamped. |
| `SharedOutbox.AgreesAtHomeExactlyWhenAlone` | internal/steward/workers.go:110-127 | With reporters of several organisations on the table, each with its own Butler: skipped rows agree with the Butler of their own organisation in all runs, even without failures or interleaved writes, if and only if no reporter runs but that of the one organisation whose rows the table holds. |
| `ScoreOutbox.BucketScores` | internal/stewardclient/resultsreporter.go:249-252 | The bucket of each result holds its scores in the order of the page. |
| `ScoreOutbox.BuildPayloads` | internal/stewardclient/resultsreporter.go:254-288 | One payload per result, in order, with that result's scores; the collected ids are exactly those of the results and of the scores in the payloads. |
| `ScoreOutbox.BucketingIsAPartition` | internal/stewardclient/resultsreporter.go:249-288 | Of the fetched scores exactly those whose result is in the batch are sent, each once and under its own result. |
| `ScoreOutbox.MarkedIsDelivered` | internal/stewardclient/resultsreporter.go:231-304 | In every run, whatever is written between the fetches, the post and the marks and whatever fails: every marked result, and some version of every marked score, has reached Butler. |
| `ScoreOutbox.AgreementInGuardedRuns` | internal/stewardclient/resultsreporter.go:231-304 | In every run in which no score is given new content between its fetch and its mark, a marked score has the same content at Butler as locally. |
| `ScoreOutbox.GuardIsExact` | internal/repositories/eval.go:325-342 | That guard is exact: behind any other rewrite the tick, if it just finishes, marks a score whose older content Butler has. |
| `ScoreOutbox.CanBeLostExactlyWhen` | internal/stewardclient/resultsreporter.go:242-304 | For a score that Butler does not have, in any state in which a tick has its results: the tick, without a failure but with any writes in between, can lose it for good if and only if it is not there yet (it may be added to a result of the batch after the fetch), or its result is marked already, or its result is in the batch and at least 2000 other open scores are not younger. |
| `ScoreOutbox.MustBeLostExactlyWhen` | internal/stewardclient/resultsreporter.go:242-304 | It must lose it, whatever is written meanwhile and however equal times are ordered, if and only if the score is there and its result is marked already, or is in the batch with at least 2000 older open scores. |
| `Pages.OnEveryPageExactlyWhen` | internal/repositories/eval.go:374-412 | A candidate is on every answer to `ORDER BY ... LIMIT n` if and only if fewer than n others are not younger. |
| `Pages.OnNoPageExactlyWhen` | internal/repositories/eval.go:374-412 | And on none if and only if at least n are older. |
| `ScoreOutbox.LeftBehindForGood` | internal/stewardclient/resultsreporter.go:229-230 | An open score whose result is already marked is never sent again in any run, however often it is rewritten. |
| `ScoreOutbox.LostForGood` | internal/stewardclient/resultsreporter.go:229-252 | What such a tick has lost never reaches Butler in any run behind it. |
| `ScoreOutbox.AScoreIsLost` | internal/stewardclient/resultsreporter.go:229-252 | For every number of scores of one new result above 2000, the tick loses the youngest for good, whatever is written meanwhile. |
| `ScoreOutbox.TheOnlyScoreIsLost` | internal/repositories/eval.go:294-342 | A run with a single score in the whole table, added after the fetch of the scores, that loses it for good. |
| `ScoreOutbox.BlockedForGood` | internal/repositories/eval.go:401-412 | At least 2000 scores left behind keep every younger score from Butler in every run, whether its result is marked or not. |
| `ScoreOutbox.BlockingIsReachable` | internal/repositories/eval.go:401-412 | Such states are reached from the empty tables, for every number of scores of one result from 4000 on. |
| `ScoreOutbox.EvalOutbox.FlushEvalResults` | internal/stewardclient/resultsreporter.go:231-304 | A tick, with the worker's writes between any two of its statements, is a run of outbox steps. It is broken exactly if something failed; otherwise nothing was open, or the two fetches, the post and the two marks were each made once, in this order. |
| `EventStream.WalkInvertsEncode` | internal/provider/bedrock.go:75-111 | Walking the concatenated encodings of any frames visits exactly their payloads, in order, and leaves exactly the bytes after them when these are too few for a prelude. |
| `EventStream.WalkedIsEncoded` | internal/provider/bedrock.go:75-111 | Conversely every body that the walk accepts is the encoding of some frames followed by a tail of fewer than 12 bytes. |
| `EventStream.BrokenIsEncoded` | internal/provider/bedrock.go:75-111 | And every body that it refuses is the encoding of some frames followed by lengths that fail the check of that error. |
| `EventStream.PayloadBoundsNeverFail` | internal/provider/bedrock.go:87-98 | The third error of the loop cannot occur, and each frame consumes at least 16 bytes and no more than there are. |
| `EventStream.ParseEventStream` | internal/provider/bedrock.go:75-119 | On every byte string: the error of the first bad frame, or the usage, field by field, of the last readable payload with positive input plus output, or zeros when there is none. |
| `EventStream.ParseResponse` | internal/provider/bedrock.go:33-44 | A body recognised as an event stream is walked, any other is decoded as JSON, and nothing else happens. |
| `EventStream.JsonBodiesAreNotEventStreams` | internal/provider/bedrock.go:123-130 | A body that starts with JSON white space or `{` and is shorter than 150,994,944 bytes takes the JSON path. |
| `EventStream.TheBoundIsTight` | internal/provider/bedrock.go:123-130 | At exactly that length a body starting with a tab is taken for an event stream. |
| `EventStream.EncodedFramesAreEventStreams` | internal/provider/bedrock.go:123-130 | Every non-empty run of encoded frames, whatever follows it, takes the event-stream path. |
| `EventStream.EventStreamExactlyWhen` | internal/provider/bedrock.go:123-130 | The prelude test takes exactly the bodies of at least 16 bytes whose first frame passes the checks of the walk. |
| `EventStream.Uint32RoundTrip` | internal/provider/bedrock.go:84-85 | A 32-bit length written big-endian is read back. |
| `Sse.ScanEvents` | internal/provider/anthropic.go:64-79 | The line loop yields the events of the body's lines. |
| `Sse.DispatchSnoc` | internal/provider/anthropic.go:64-79 | Line by line: just a data line delivers an item, what follows its prefix, under the name of the last event line before it. |
| `Sse.CarriageReturnIsDropped` | internal/provider/anthropic.go:64-67 | A line may end in carriage return and line feed. |
| `Sse.LastLine` | internal/provider/anthropic.go:64-67 | The last line may lack its line feed. |
| `Sse.ParseInvertsPrint` | internal/provider/anthropic.go:60-79 | For every list of events without line breaks and with lines within the 64 KiB limit, the loop sees exactly these events, in order, on their printed form. |
| `Sse.OverlongLineHidesTheRest` | internal/provider/anthropic.go:64-67 | A longer line ends the scan: nothing behind it is seen, and nothing before it is lost. |
| `Sse.IsSseExactlyWhen` | internal/provider/anthropic.go:110-113 | A body is a stream if and only if it is white space and then `event:` or `data:`. |
| `Sse.PrintedIsSse` | internal/provider/anthropic.go:110-113 | A printed stream is recognised as one. |
| `Sse.LastIsLastReadable` | internal/provider/anthropic.go:83-98 | The value that the loop keeps is that of the last readable event of its name, and none exactly if there is no such event. |
| `Anthropic.ParseStreamingResponse` | internal/provider/anthropic.go:60-108 | Field by field: model and input side of a stream are those of its last readable start, the output count is the last readable one, and the input count includes the cache counts. |
| `Anthropic.ParseResponse` | internal/provider/anthropic.go:43-53 | A stream is parsed as a stream, any other body as JSON, with an error exactly when that fails. |
| `Anthropic.StreamingAgreesWithJson` | internal/provider/anthropic.go:43-130 | With a last readable `message_start` and a last readable `message_delta`, among any other events, a stream gives the metrics of the JSON document of the assembled message. |
| `Anthropic.OverlongLineLosesTheDelta` | internal/provider/anthropic.go:64-67 | A stream with a line over the limit reports the usage of what came before that line. |
| `ClaudeMetadata.ParseSseResponse` | internal/claudecode/parser.go:127-180 | The message assembled from a stream has its readable content blocks in order and its last non-empty stop reason. |
| `ClaudeMetadata.BlockOf` | internal/claudecode/parser.go:147-163 | An event delivers a block exactly if it is a readable `content_block_start`. |
| `ClaudeMetadata.BlocksAreCollected` | internal/claudecode/parser.go:147-163 | The blocks of all events are put one behind the other, and no event takes one away. |
| `ClaudeMetadata.StopReasonIsLastNonEmpty` | internal/claudecode/parser.go:165-176 | The stop reason is the last readable one that is not empty, or empty if there is none. |
| `ClaudeMetadata.SortedNames` | internal/claudecode/parser.go:108-112 | The tool names come out strictly sorted and complete, in whatever order the map is visited. |
| `ClaudeMetadata.SortedListingIsUnique` | internal/claudecode/parser.go:108-112 | A set of names has only one strictly sorted listing, so map order cannot show. |
| `ClaudeMetadata.DetectPlanMode` | internal/claudecode/parser.go:185-206 | Plan mode is one of Read, Grep and Glob among the tools, without Write and Edit. |
| `ClaudeMetadata.CountRoles` | internal/claudecode/parser.go:72-81 | The counters are the numbers of user and of assistant messages. |
| `ClaudeMetadata.ReadBlocks` | internal/claudecode/parser.go:95-106 | Number of tool uses, presence of thinking, and the set of non-empty tool names. |
| `ClaudeMetadata.ParseRequestResponse` | internal/claudecode/parser.go:51-114 | An error exactly when request or response cannot be read, else the metadata that `IsMetadata` describes. |
| `ClaudeMetadata.MetadataIsUnique` | internal/claudecode/parser.go:51-114 | That description leaves no choice. |
| `ClaudeMetadata.BothFormatsGiveTheSameMetadata` | internal/claudecode/parser.go:51-180 | A stream and the JSON document of the message it carries give the same metadata. |
| `ClaudeMetadata.AssembleInvertsStream` | internal/claudecode/parser.go:127-180 | Streaming a message and assembling it gives the message back. |
| `ArmSelection.SelectArm` | internal/proxy/experimentrouter.go:141-171 | No arm exactly when the weights sum to at most zero, a division by zero exactly for a sticky value and a positive sum that is a multiple of 2^32, and otherwise the arm that the draw picks, which has positive weight; the fallback to the last arm is unreachable. |
| `ArmSelection.WeightsThatDivideByZero` | internal/proxy/experimentrouter.go:151-156 | Weights within a 32-bit column for which every sticky value divides by zero. |
| `ArmSelection.SomeArmIsPicked` | internal/proxy/experimentrouter.go:163-170 | For any integer weights, every draw below the sum picks exactly one arm, and it has positive weight. |
| `ArmSelection.DrawsForAnyWeights` | internal/proxy/experimentrouter.go:163-168 | For any integer weights, arm i is picked by as many draws as the peak of the cumulated weights rises there, cut off at the sum. |
| `ArmSelection.ExactlyWeightManyDraws` | internal/proxy/experimentrouter.go:163-168 | For non-negative weights exactly w_i of the W draws pick arm i. |
| `ArmSelection.HashesForCount` | internal/proxy/experimentrouter.go:151-156 | The exact number of hash values below any bound that go to arm i. |
| `ArmSelection.HashBias` | internal/proxy/experimentrouter.go:151-156 | Of the 2^32 hash values between w_i * floor(2^32 / W) and w_i * ceil(2^32 / W) go to arm i, for every W below 2^32. |
| `ExperimentRouter.MatchesFilters` | internal/proxy/experimentrouter.go:129-136 | True exactly when every filter key reads as its value, an absent key reading as the empty string; the order of iteration does not matter. |
| `ExperimentRouter.FilterRuleHoldsExactlyWhen` | internal/proxy/experimentrouter.go:56-60 | The documented rule, an exact-match value for every key, holds on all metadata if and only if no filter asks for the empty string. |
| `ExperimentRouter.Store.ListActiveExperiments` | internal/repositories/experiments.go:104-161 | Each active experiment of the organisation whose window contains the time, once, and no other. |
| `ExperimentRouter.FirstMatch` | internal/proxy/experimentrouter.go:73-100 | In terms of the request: there is no route exactly when every experiment of the list is passed over, by status, API key, a filter or weights; else the first one that is not assigns the arm that its draw picks, the hash of the sticky value if there is one and the random number otherwise. |
| `ExperimentRouter.AnswersExactlyWhen` | internal/proxy/experimentrouter.go:73-171 | This description holds of exactly the answers of the model. |
| `ExperimentRouter.StickyChoiceIsStable` | internal/proxy/experimentrouter.go:138-161 | While the list is unchanged, two answers to a request agree if they were drawn alike, or if the first experiment not passed over has a sticky key for which the request's metadata has a non-empty value. |
| `ExperimentRouter.EveryAnswerIsJustified` | internal/proxy/experimentrouter.go:105-126 | In every run of overlapping requests, changes of the store and failures, the list that serves a request is one that the store gave for its organisation: cached less than one TTL ago, or in answer to this very request, or, only after this request's own query failed, an older one or none. |
| `ExperimentRouter.Router.GetExperiments` | internal/proxy/experimentrouter.go:105-126 | With other requests and changes of the store between its statements: the list is the cached one exactly if that is fresh at the first look, and then nothing is asked; otherwise the store is asked exactly once, a successful answer is the list, and only its failure brings an older list or none. |
| `ExperimentRouter.Router.Route` | internal/proxy/experimentrouter.go:63-101 | The answer is the first match, for the same draw, on that list, and is subject to the same rule on queries; an assigned experiment was active and in its window at the list's query and allows the request, and its arm has positive weight. |
| `ExperimentRouter.SameDeciderExactlyWhen` | internal/proxy/experimentrouter.go:59-59 | Over unchanged rows, the lists of two times have the same deciding experiment if and only if no eligible experiment, in listing order up to the decider, has a window edge between the two times. |
| `ExperimentRouter.CachedIsUncachedExactlyWhen` | internal/proxy/experimentrouter.go:59-59 | Over unchanged rows a cached answer is the one that the store's own list at the request's time would give, for the same draw, exactly under that condition, but for two divisions by zero. |
| `ExperimentRouter.WindowIsMissedByAtMost` | internal/proxy/experimentrouter.go:105-126 | In every run, an experiment on a cached list may have ended before the request's time by less than one TTL and the duration of its query, or start after it, but not after the look at the cache. |
| `ExperimentRouter.AssignedOutsideTheWindow` | internal/proxy/experimentrouter.go:59-59 | The documented rule that now is inside the window fails on both sides: runs in which a request is assigned an experiment one tick after its end, and one tick before its start. |
| `HllManager.CountsAreConserved` | internal/repositories/hll_manager.go:92-190 | In every interleaving of adds, registrations and the steps of a flush, for each key: adds = gain of the table + count in memory + counts in flight + lost; and every value added is in the sketch. |
| `HllManager.LossGrowsOnlyBySuchSteps` | internal/repositories/hll_manager.go:163-182 | The loss grows only when an entry cannot be marshalled, its update fails or meets no row, and then by exactly its count. |
| `HllManager.GainGrowsOnlyByUpdates` | internal/repositories/hll_manager.go:153-160 | The table's count grows only by an update that took effect, by exactly the count sent. |
| `HllManager.SuccessfulFlushPersistsAllAdded` | internal/repositories/hll_manager.go:137-190 | However a run went before, a flush of a key that succeeds persists every value added to it before it was marshalled, whatever is added meanwhile, and adds exactly the snapshot's count. |
| `HllManager.PersistedGrowsExactlyWhenLoaded` | internal/repositories/hll_manager.go:48-89 | The persisted sketch of a key only grows, in all runs, if and only if start-up loaded it; one that could not be loaded is replaced by the next flush. |
| `HllManager.UnpersistedUntilTheNextAdd` | internal/repositories/hll_manager.go:137-190 | In every reachable state: a value of a quiet key that did not get into the table stays out through any continuation without an add to its key, and with any one more value of that key a flush persists it and all else that was added. |
| `HllManager.FailedFlushLeavesItsKeyQuiet` | internal/repositories/hll_manager.go:137-190 | Such states occur: one failed update leaves a quiet key with a value that is not in the table. |
| `HllManager.Manager.AddValue` | internal/repositories/hll_manager.go:92-107 | Value, count and dirty mark of exactly that key, which is created if need be. |
| `HllManager.Manager.TakeSnapshot` | internal/repositories/hll_manager.go:138-147 | The snapshot is the counts of exactly the dirty entries, which are reset; sketches and other entries stay. |
| `HllManager.Manager.FlushKey` | internal/repositories/hll_manager.go:163-184 | Marshalling and update of one entry, with adds in between, is a run of manager steps that ends with the entry out of flight. |
| `HllManager.Manager.Flush` | internal/repositories/hll_manager.go:137-190 | A flush terminates and is a run of manager steps with one round for exactly the keys that were dirty. |
| `MetadataIndex.Table.UpdateBatch` | internal/repositories/metadata_keys.go:120-137 | One statement changes up to the limit of the rows in need and reports their number; a negative limit is an error. |
| `MetadataIndex.Table.Sweep` | internal/repositories/metadata_keys.go:119-180 | Backfill or cleanup with a non-zero batch size b terminates and succeeds exactly if no statement failed; then every row in need is changed, the result is their exact number n, and there were n / b + 1 statements; on an error only rows in need were changed and the result is the number in the finished batches. |
| `MetadataIndex.LoopEndsExactlyWhen` | internal/repositories/metadata_keys.go:132-146 | Of any run of more statements than there are rows in need, one changes fewer rows than asked for, which is what ends the loop, if and only if the batch size is positive; with a batch size of zero no statement ever does and the table stays as it is. |
| `MetadataIndex.SplitMetadata` | internal/requestlog/writer.go:87-98 | The writer indexes exactly the names of the set it got, with their raw values. |
| `MetadataIndex.OldRowsAreIndexedLikeNewOnes` | internal/repositories/metadata_keys.go:119-180 | After any sequence of backfills and cleanups the old rows are indexed as the writer splits new ones with the names then active. |
| `MetadataIndex.BackfilledValuesAreRawExactlyWhen` | internal/repositories/metadata_keys.go:120-129 | After a backfill every row with the key has its raw value in the index if and only if no row had another value there before. |
| `MetadataIndex.CleanupUndoesBackfillExactlyWhen` | internal/repositories/metadata_keys.go:152-161 | Cleanup after backfill restores the table, null counting as empty, if and only if it had no entry for the key. |
| `MetadataIndex.NothingElseChanges` | internal/repositories/metadata_keys.go:119-180 | No row of another API key, no raw metadata and no other name in an index changes. |
| `MetadataIndex.JobsCommute` | internal/repositories/metadata_keys.go:119-180 | Jobs for different names give the same table in either order. |
| `ActiveKeys.SplitsAlikeExactlyWhen` | internal/requestlog/writer.go:85-98 | A row is split as by the active names if and only if each of its names is in the writer's set just if it is active. |
| `ActiveKeys.IndexedForGoodExactlyWhen` | internal/repositories/active_keys_cache.go:38-82 | Once all rows are indexed by an active name, they stay so in all runs in which it stays active and no query fails, new rows included, if and only if the writer has no set without the name, in its hands or in a cache entry that is still good. |
| `ActiveKeys.ActivationHoldsExactlyWhen` | internal/repositories/metadata_keys.go:81-137 | After an activation, its invalidation and a finished backfill every row is indexed by the name, and for good in that sense if and only if the writer was not between its query and its insert with a set without the name. |
| `ActiveKeys.FailedQueryMisses` | internal/repositories/active_keys_cache.go:62-70 | One refused query makes the cache hold an empty set for a whole TTL. |
| `ActiveKeys.MissedUntilTheNextBackfill` | internal/repositories/metadata_keys.go:119-137 | A row missed that way stays without the name in every run until the name is backfilled once more, which indexes it. |
| `ActiveKeys.IndexWriter.GetActiveKeys` | internal/repositories/active_keys_cache.go:38-60 | The cached set exactly if its entry is good; otherwise one query, whose answer is cached unless it breaks off. |
| `ActiveKeys.IndexWriter.FetchActiveKeys` | internal/repositories/active_keys_cache.go:62-82 | The active names, an empty set for a refused query, an error for one that breaks off. |
| `ActiveKeys.IndexWriter.InvalidateAPIKey` | internal/repositories/active_keys_cache.go:86-91 | Exactly that API key's entry goes. |
| `ActiveKeys.IndexWriter.WriteLog` | internal/requestlog/writer.go:84-136 | A log is split by the set the writer got and inserted, or dropped when the insert fails; a log without an API key is not indexed. It is a run of these steps. |
| `KeyCache.AnswersAreFresh` | internal/auth/resolver.go:48-134 | In every run of overlapping lookups, storage changes, expiry, eviction and invalidation, an answer rests on a lookup of that key that ended at most one TTL ago and that read the storage truly at some instant of the run: accepted exactly if active then, with the same info. |
| `KeyCache.HitsAreAtMostOneTtlOld` | internal/auth/resolver.go:103-113 | If lookups take no time, what a hit answers held in storage at some instant within the last TTL. |
| `KeyCache.RevokedKeyIsAcceptedYet` | internal/auth/resolver.go:103-113 | The bound is tight: at every age up to the TTL there is a run in which a key that was revoked right after its lookup is accepted from the cache. |
| `KeyCache.HitRepeatsTheAnswerExactlyWhen` | internal/auth/resolver.go:52-100 | In every run, a hit comes at most one TTL after the end of the last lookup of its key, and repeats its answer if and only if that lookup found the key active or inactive. |
| `KeyCache.CachedRevocationReadsAsInactive` | internal/auth/resolver.go:52-100 | The other case: the first answer for a revoked key is that it is revoked, the next one from the cache that it is inactive. |
| `KeyCache.RevocationIsFinalExactlyWhen` | internal/auth/resolver.go:131-134 | A key that is no longer active is never accepted again, in any run without reactivation, if and only if the cache has no usable positive entry for it and no lookup that saw it active is under way. |
| `KeyCache.Resolver.GetFromCache` | internal/auth/resolver.go:103-113 | An entry answers up to and including its expiry; later it is removed. |
| `KeyCache.Resolver.Add` | internal/auth/resolver.go:115-129 | The entry is added; a full cache of 4096 drops exactly one other entry. |
| `KeyCache.Resolver.ResolveHash` | internal/auth/resolver.go:52-100 | A usable entry answers; otherwise a failed read is an error that caches nothing, and a successful one gives the answer of the key's status and an entry for one TTL. It is a run of cache steps that gives its answer. |
| `KeyCache.Resolver.ResolveAPIKey` | internal/auth/resolver.go:48-100 | The empty key is invalid without a lookup; any other is resolved by its hash. |
| `KeyCache.Resolver.InvalidateCache` | internal/auth/resolver.go:131-134 | Exactly that entry goes. |
| `ProxyKeyCache.HitsRestOnResolutions` | internal/auth/proxy_resolver.go:68-145 | In every run of overlapping lookups, a hit rests on the last resolution of its key, which ended less than one TTL ago, and returns the value of the last resolution of its key and provider; both read the storage truly at some instant. |
| `ProxyKeyCache.TransparentExactlyWhen` | internal/auth/proxy_resolver.go:68-138 | While the store does not change, in every run, any caller gets just what a full resolution gives if and only if it is the key's owner or the lookup is not a hit. |
| `ProxyKeyCache.HitForAnotherOwner` | internal/auth/proxy_resolver.go:76-96 | The other case, for every key, provider and pair of callers: after the owner's lookup the other is answered from the cache where a full resolution refuses. |
| `ProxyKeyCache.OneProviderStaysInStep` | internal/auth/proxy_resolver.go:76-82 | A key only ever used with one provider gets exactly what one resolution gave that ended less than one TTL ago. |
| `ProxyKeyCache.ServedAgainExactlyWhen` | internal/auth/proxy_resolver.go:76-127 | In every state within the bounds of the caches, a cached value is served in some run without a change of the store if and only if its key's entry is good, or a resolution of the key, under way or possible, is for another provider or gives this very value. |
| `ProxyKeyCache.InvalidatedValueReturnsExactlyWhen` | internal/auth/proxy_resolver.go:140-145 | Applied to the state after an invalidation: the orphaned value is served again in some run if and only if there is such a resolution. |
| `ProxyKeyCache.RevocationIsFinalExactlyWhen` | internal/auth/proxy_resolver.go:68-145 | A key that the store refuses is never answered from the cache again, in any run in which it stays refused, if and only if no good entry with a value is there and no resolution that saw it in order is under way. |
| `ProxyKeyCache.BoundedInEveryRun` | internal/auth/proxy_resolver.go:119-127 | In every run the caches hold at most 4096 and 16384 entries. |
| `ProxyKeyCache.ValueAgeIsUnbounded` | internal/auth/proxy_resolver.go:119-127 | For every key, two providers of it, two stores and every age there is a run in which lookups for one provider keep the value of the other alive that long past its change in the store. |
| `ProxyKeyCache.ProvKeysAreDistinct` | internal/auth/proxy_resolver.go:74-74 | Hash and provider can be read back from the joined cache key, whatever the provider's name contains. |
| `ProxyKeyCache.ResolvesExactlyWhen` | internal/auth/proxy_resolver.go:84-117 | The full resolution is the one answer that fits the store: each error, and the returned value and id, have their exact conditions on key, status, owner and mapping. |
| `ProxyKeyCache.RefusedExactlyWhen` | internal/auth/proxy_resolver.go:84-117 | A key is refused for every provider and caller if and only if it is unknown, inactive, or without a mapping that can be decrypted. |
| `ProxyKeyCache.ProxyResolver.LookUp` | internal/auth/proxy_resolver.go:84-117 | An error exactly if a read failed, and otherwise the answer that fits the store in this sense. |
| `ProxyKeyCache.ProxyResolver.CacheResults` | internal/auth/proxy_resolver.go:119-127 | Both results are cached, with evictions only where a cache is full, and within the bounds 4096 and 16384. |
| `ProxyKeyCache.ProxyResolver.ResolveProxyKey` | internal/auth/proxy_resolver.go:68-138 | A key without the prefix is not a proxy key. An unexpired entry beside a value of the provider answers, whatever the store says; otherwise the answer is an error exactly if a read failed, or else fits the store, and a successful one is cached for one TTL, by one read, evictions and one filling. |
| `ProxyKeyCache.ProxyResolver.InvalidateCache` | internal/auth/proxy_resolver.go:140-145 | Exactly the key's entry goes; values stay. |
| `Billing.BucketsPartitionExactlyWhen` | internal/pricing/service.go:256-263 | For non-negative usage the billed buckets are non-negative and sum to the reported input tokens if and only if the input counts do not overflow. |
| `Billing.EveryTokenPaysOneRateExactlyWhen` | internal/pricing/service.go:252-271 | For any counts that a provider reports, the bill equals one rate per token, each counted once, if and only if cache creation has a rate of its own, or regular tokens are free, or input plus cache creation fits 64 bits. |
| `Billing.BillAddsUp` | internal/pricing/service.go:264-271 | Output tokens pay the output rate, everything else is input cost, and the two add up to the total. |
| `Billing.AnthropicIsBilledPerToken` | internal/provider/anthropic.go:116-130 | The same equivalence for what the Anthropic parser makes of a response. |
| `Billing.BedrockIsBilledPerToken` | internal/provider/bedrock.go:132-143 | And for what the Bedrock parser makes of one. |
| `Billing.CostIsAdditive` | internal/pricing/service.go:256-271 | For a fixed price the cost of a sum of usage is the sum of the costs. |
| `Billing.SessionTotalsAreCostOfSum` | internal/repositories/claude_sessions.go:104-117 | After any sequence of updates with usage as the parsers report it and one price, among those of other sessions, a session's totals are its summed tokens and the cost of its summed usage. |
| `Billing.SessionTable.UpdateClaudeSessionStats` | internal/repositories/claude_sessions.go:104-117 | Exactly that session's totals grow by the update, or nothing changes; an unknown session is left out silently. |
| `Billing.Service.FetchRemote` | internal/pricing/service.go:116-155 | The table becomes that of the remote list, the last entry of an id counting; a failure leaves it alone. |
| `Billing.Service.MergeFallback` | internal/pricing/service.go:187-216 | Exactly the models that the table lacks are added. |
| `Billing.Service.LoadPricing` | internal/pricing/service.go:100-114 | Remote prices with the fallback filling in, or the fallback alone when there is no remote answer. |
| `Billing.Service.Refresh` | internal/pricing/service.go:218-234 | A refresh replaces the table by the merged one or leaves it alone; `between` is what is visible in the middle. |
| `Billing.Service.Calculate` | internal/pricing/service.go:236-272 | A model is billed at its own price, else at its alias's, else at nothing; the output cost is that of the output tokens. |
| `Billing.RemoteTableIsUnique` | internal/pricing/service.go:136-147 | A remote list determines its table. |
| `Billing.MergedPrices` | internal/pricing/service.go:198-210 | A model is priced exactly if one of the sources has it, and a fallback rate for cache creation survives exactly for models that the remote list does not have. |
| `Billing.UnpricedInBetweenExactlyWhen` | internal/pricing/service.go:218-234 | Of what `Service.Refresh` does: it leaves a model with a price but without one in between if and only if the remote source answers with a list that has neither the model nor its alias, while the fallback file has one of them. |
| `Billing.LastSuccessfulRefreshCounts` | internal/pricing/service.go:218-234 | After any number of refreshes the table is that of the last one that succeeded. |

## Left out

- HTTP handlers, middleware, configuration, migrations, body storage, upstream forwarding: plumbing.
- SQL text and JSON codecs: tables are maps with atomic statements, decoding is an arbitrary function.
- Experiment sync's own request loop (internal/stewardclient/experimentsync.go): line for line that of the key
  sync; the protocol steps, with `UpsertBatch` for its transaction, are shared and proved for both.
- Claiming and reporting of eval runs: the statements of replay runs on a table of the same shape.
- Flushing of replay results, cloud storage and provider key sync: the unversioned half of the score outbox, and
  syncs without a cursor.
- OpenAI, Gemini and the translator: the same last-wins shape, or a filter.
- `Close` does not wait for the writer's drain, so that everything queued is written on shutdown is not
  claimed; liveness under a constant stream of inserts is not either.
- EvalDispatch.RetryReachesTheSameState: rows are modelled without their timestamps, which a retry renews, and nobody else writes between the attempts.
- EvalDispatch.AnyNumberOfRetries: the same; what holds among other writers is `EvalDispatch.StoredRunsAreComplete`.
- SharedOutbox.AgreesAtHomeExactlyWhenAlone: each flush is one step without failures; its interleavings are those of `RunOutbox`.
- ExperimentRouter.Store.ListActiveExperiments: the two queries for experiments and arms are one, and arms come with their experiment in listing order.
- HllManager.CountsAreConserved: a process that dies loses the counts in memory and in flight; such an end of a run is not a step. Marshalling a sketch is one.
- HllManager.SuccessfulFlushPersistsAllAdded: a sketch is the set of its values, marshalled in one step; the estimate is not modelled.
- MetadataIndex.Table.Sweep: no other writer changes the table meanwhile, and a batch size of zero, for which the loop does not end, is excluded.
- KeyCache.Resolver.ResolveHash: the resolver's own lookup takes no time; lookups that overlap are covered by the step system. Updating the last-used time is left out.
- ProxyKeyCache.HitsRestOnResolutions: the two reads of one resolution, of the key and of its mapping, are one step.
- ProxyKeyCache.ProxyResolver.ResolveProxyKey: the resolver's own lookup takes no time; lookups that overlap are covered by the step system.
- WorkTicker.Ticker.Dispatch: a syncer or executor is a call that succeeds or not; what it does is modelled in its own module.
- Billing.SessionTotalsAreCostOfSum: prices and costs are real numbers, without floating-point or NUMERIC rounding.
- The order of eviction in the LRU caches: any entry may go.
