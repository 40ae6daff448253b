# Verified models of the monitoring service

Models, in Dafny, of the protocols and algorithms of a slope-monitoring service, with proofs about
every run and every input. Uploads, the site trigger and the QA workers are state machines whose steps are
single SQL statements or transactions, in any interleaving and with stops and lost acknowledgements
anywhere; beside each of the three stands a class that updates the same tables in place, and any sequence
of its operations is proved to end in the state the machine reaches. The NAV download and the RINEX cache
are classes over file state whose methods may be cut off at any file operation; their contracts give the
exact files left when they are not, and invariants that hold wherever they are. The algorithms are methods
with loops proved against a specification whose properties are then proved as lemmas. For every main
operation there is besides a lemma that says what it comes to in terms of its inputs alone, with the numbers
the code uses, so that neither the specification nor the method decides what is right.

| file | what it models |
|---|---|
| `UploadLedger.dfy`, `UploadRuns.dfy`, `UploadFinality.dfy`, `UploadAlone.dfy` | claiming, retaining, processing and marking uploads; what holds over every run; which rows are settled for good; what an undisturbed upload is answered |
| `BlastTrigger.dfy`, `BlastRuns.dfy`, `BlastExpiry.dfy`, `TimeoutSweep.dfy`, `ContractConfig.dfy` | START, RESET, TIMEOUT and ACK on the site trigger, the paging reconciler, and what devices are served |
| `QaLedger.dfy`, `QaWindow.dfy`, `QaBacklog.dfy`, `GpsTime.dfy` | QA workers, their lease and solution table; what one worker makes of one window; the backlog selector; GPS week and time of week |
| `NavDownload.dfy`, `NavProgress.dfy` | the resumable NAV transfer and bounded expansion; what is kept from attempt to attempt |
| `RinexCache.dfy`, `RinexResolver.dfy`, `RinexChoice.dfy` | the content-addressed cache, the choice of a navigation file, cache-first acquisition; what the choice comes to |
| `MutualInformation.dfy`, `MicSearch.dfy`, `MicMeaning.dfy` | mutual information, equal-frequency bins and the MIC grid search; entropies and perfect dependence |
| `Vibration.dfy`, `VibrationMeaning.dfy` | the accelerometer quality gate, PPA and PPV; what they mean for the samples |
| `FailureForecast.dfy`, `ForecastExact.dfy` | smoothing, the inverse-velocity fit and its suppression rules; exactly when a forecast is made and what it says |
| `NearestEpoch.dfy`, `QaPagination.dfy`, `UbxFrames.dfy`, `RawxTime.dfy`, `PurgedSplit.dfy`, `DisplaySampling.dfy` | epoch matching, cursor pagination, UBX frames and their time, purged cross-validation, display sampling |
| `Prelude.dfy`, `RealSums.dfy`, `Division.dfy` | shared types and arithmetic |

## Assumptions

- Every SQL statement, or every transaction where the code opens one, and every file operation is one
  atomic step. PostgreSQL's `now()` is the start time of its transaction, so two writers that take the row
  lock in one order may write times in the other; `BlastTrigger` keeps the two times apart.
- Floats are reals. `log`, `sqrt`, `median`, the RINEX parser, base64, gzip and JSON are parameters or
  abstract values; of `log` only log(ab) = log a + log b and log x >= 1 - 1/x are used, of `sqrt` only that it
  is the non-negative root.
- Times are integers in microseconds (milliseconds in the browser). SHA-256 is idealised: equal digests
  come from equal bytes.
- Servers of NAV files follow RFC 9110 sections 8.8.1, 13.1.5, 14.4 and 15.3.7: a strong ETag names one
  representation, and a 206 carries the bytes its Content-Range announces, or a beginning of them. The
  downloader falls back to Last-Modified where there is no strong ETag (scripts/ppk_qa_scheduler.py:216-221);
  that a Last-Modified value also names one representation is assumed as well, although section 8.8.2.2
  calls it implicitly weak. Clauses about sizes and about what a given reply does need neither.

## What turned out not to hold

Where an obvious claim is false of the code, the code is kept, a lemma with a concrete run or input shows
the failure, and the exact condition is proved.

- `processed` is not final: if the mark is committed but its caller sees an exception, the handler marks
  the row failed (run: `LostMarkUndoesProcessed`). Over any run a processed row is undone if and only if a
  request lost the acknowledgement of its mark and its own failure mark took effect later
  (`ProcessedUndoneExactly`); from any reachable state it is final if and only if no request is about to mark
  it failed (`ProcessedFinalExactly`).
- A `processing` row need not ever be settled: one whose owner died (run: `StopAbandons`) is never claimed
  again. No later run changes a processing row if and only if it has no owner (`AbandonedExactly`).
- The newest pending row need not mirror the trigger: a START whose transaction began after a RESET but
  took the lock first hides it (run: `LateStartHidesReset`). It mirrors the trigger after every prefix of a
  run if and only if transactions take the row lock in the order in which they began
  (`NewestMirrorsThroughoutExactly`). What an accepted ACK says about the active trigger does not depend on
  this, and STALE_PENDING is never reported.
- `COMPLETED` is not final for a fingerprint if reporting the committed window raises (run from an empty
  ledger: `LostReportRun`); its solutions stay. Over any run a completed job is undone if and only if such a
  report raised and that worker's FAILED update ran later (`CompletedUndoneExactly`); from any reachable state
  it is final if and only if no worker is reporting or failing it (`CompletedFinalExactly`).
- A 206 whose range ends before the last byte is handed over as a strict beginning of the version (input:
  `ShortRangeReturnsPrefix`; condition: `ResumedWholeExactly`). Only the caller's validation can reject it.
- Staging is not always cleared after bytes were handed over and not accepted: the caller handles
  ValueError and OSError (scripts/ppk_qa_scheduler.py:341-346), while corrupt deflate data raises zlib.error,
  which bounded_nav_decompress passes on (scripts/ppk_qa_scheduler.py:94). The product is then blocked, no later
  reply changing its files, if and only if the part was complete before, or the reply was a 200 with its
  length and a validator, or a 206 whose range ended the version (`UnhandledSticksExactly`). Inputs: a gzip
  header followed by a deflate block of the reserved type (`ReservedBlockBlocks`), and for every such body one
  honest 200 (`CorruptTransferBlocks`) or the honest rest of a transfer cut off earlier
  (`CorruptResumeBlocks`).
- A first completed store into the RINEX cache resolves exactly when nothing was left behind under another
  name (`FirstStoreResolvesExactly`; inputs: `KilledWriteBreaks`, `OtherNameBreaks`); an artifact called
  `manifest.json` is overwritten by its own manifest (input: `ManifestNameBreaks`) and resolves only if one
  other complete copy was left. An unusable entry stays unusable (`ManifestIsFinal`).
- `leadLow <= lead` fails for leads of less than an hour (input: `ShortLeadExists`). It holds exactly when
  the fitted line is not below zero one hour ahead, which is an inequality on the sums the fit is made of
  (`LowerEndExactly`).
- A waveform may return one row more than its limit, exactly when rows reach beyond the last full stride;
  for every limit this happens (`WaveformBound`, `WaveformExceeds`). A historical window never does.

## Model

| member | source | states |
|---|---|---|
| UploadLedger.NextKeepsInv | services/ingestion_service/file_upload_repository.py:41-87 | every single statement of every request, returning, raising before or after its effect, or cut off, keeps the ledger invariant: one owner a name, counters equal claims, retained bytes never change |
| UploadRuns.RunKeepsInv | apps/api/routers/v1/ingest.py:42-128 | so does every interleaving of any number of requests |
| UploadRuns.ExclusiveProcessing | services/ingestion_service/file_upload_repository.py:41-87 | in every interleaving at most one request a file name is between its claim and its mark, and until it fails the row says `processing` |
| UploadRuns.AttemptsCountClaims | services/ingestion_service/file_upload_repository.py:62-77 | the attempt counter is the stored one plus the number of claims granted; rows and retained payloads are never lost or replaced |
| UploadRuns.AnswersAgree | services/ingestion_service/file_upload_repository.py:89-146 | all requests ever answered 200 for a name, fresh or duplicate, sent the same bytes, and those are the retained ones |
| UploadRuns.ProcessedIsRetained | apps/api/routers/v1/ingest.py:69-117 | a row that became processed has its original bytes retained |
| UploadRuns.ProcessedLeftOnlyByItsOwner | services/ingestion_service/file_upload_repository.py:229-257 | a step changes a processed row if and only if it is the statement with which its own owner marks it failed |
| UploadRuns.ProcessedIsFinal | apps/api/routers/v1/ingest.py:117-128 | over every run in which no acknowledgement of a mark is lost, a processed row never changes |
| UploadFinality.ProcessedUndoneExactly | apps/api/routers/v1/ingest.py:117-128 | over any run from stored tables, a row is processed after some prefix and not after a longer one, if and only if a request lost the acknowledgement of its mark and its own failure mark took effect later |
| UploadFinality.ProcessedFinalExactly | services/ingestion_service/file_upload_repository.py:229-257 | in any reachable state some later run changes a processed row if and only if a request is about to mark it failed |
| UploadRuns.LostMarkUndoesProcessed | apps/api/routers/v1/ingest.py:117-128 | a run, for every file name, in which a processed row becomes failed |
| UploadRuns.AbandonedIsStuck | services/ingestion_service/file_upload_repository.py:62-87 | no later run changes a processing row without an owner |
| UploadFinality.AbandonedExactly | apps/api/routers/v1/ingest.py:42-128 | a processing row is changed by no later run if and only if it has no owner: every owner can still mark it failed |
| UploadRuns.StopAbandons | services/ingestion_service/file_upload_repository.py:42-61 | for every file name, a run from empty tables that leaves such a row: claimed, and the process dies |
| UploadLedger.UploadService.InsertOnConflictDoNothing | services/ingestion_service/file_upload_repository.py:42-61 | inserts a processing row if and only if there was none, and then counts one claim |
| UploadLedger.UploadService.RetryIfFailed | services/ingestion_service/file_upload_repository.py:62-77 | claims a row if and only if it was failed, adding one attempt |
| UploadLedger.UploadService.InsertPayload | services/ingestion_service/file_upload_repository.py:97-116 | retains the payload if and only if none was retained |
| UploadLedger.UploadService.Mark | services/ingestion_service/file_upload_repository.py:229-257 | sets the status of an existing row and nothing else |
| UploadLedger.UploadService.Statement | apps/api/routers/v1/ingest.py:42-128 | the pending statement of a request, and where its handler goes on, refine one move of the state machine |
| UploadLedger.UploadService.Serve | apps/api/routers/v1/ingest.py:42-128 | serving any schedule ends in the state the machine reaches |
| UploadAlone.UndisturbedUpload | apps/api/routers/v1/ingest.py:42-128 | from every reachable state, an upload that nobody disturbs: a new name ends processed and answered 200; a failed one likewise for absent or its retained bytes, else failed again and 409; a processed one is answered 200 as a duplicate exactly for its retained bytes and else 409, unchanged; any other 409, unchanged |
| UploadAlone.DuplicateExactly | apps/api/routers/v1/ingest.py:50-66 | the comparing statement answers 200 with duplicate true if and only if the retained bytes were sent |
| UploadAlone.RaisingAnswers500 | apps/api/routers/v1/ingest.py:117-128 | a statement that raises before the claim answers 500 and leaves the tables alone; behind it the row is marked failed and then 500 answered |
| UploadAlone.LostAcknowledgement | apps/api/routers/v1/ingest.py:117-128 | a lost acknowledgement writes what returning writes and goes on as raising does; a dying process writes and answers nothing |
| UploadAlone.FailedThenRepeated | apps/api/routers/v1/ingest.py:42-128 | when processing of a new name raises, the next upload succeeds with the same bytes and conflicts with any others |
| BlastExpiry.ServedAlikeExactly | services/device_config_service/blast_expiry.py:5-17 | two timeout values serve every start alike at every instant exactly when they yield the same minutes |
| BlastExpiry.ServedIffTimingKnown | services/device_config_service/blast_expiry.py:5-17 | a command has not expired exactly when its start is known, its timeout is a positive whole number or its text, and fewer than that many times sixty million microseconds have passed |
| BlastRuns.RunKeepsInv | services/blast_service.py:5-61 | every run of START, RESET, TIMEOUT, ACK and registration steps keeps the invariant tying config, pending, timeout and ack rows together |
| BlastTrigger.NewestIsNewest | services/device_config_service/trigger_ack_service.py:72-77 | the row the query orders first is the latest by time, then id, among the base's trigger rows |
| BlastRuns.AcceptedExactly | services/device_config_service/trigger_ack_service.py:62-111 | an ACK is accepted, for a base and row, exactly when sender and role are authorised, the value is the active trigger's, and the row is the newest one and carries that value |
| BlastRuns.StalePendingNeverReported | services/device_config_service/trigger_ack_service.py:80-82 | in no reachable state is an ACK rejected as STALE_PENDING |
| BlastRuns.NewestMirrorsThroughoutExactly | services/device_config_service/config_repository.py:173-209 | after every prefix of a run the newest pending row of each base is the one written with its trigger, if and only if transactions take the row lock in the order in which they began |
| BlastRuns.LockOrderAcceptsActive | services/device_config_service/trigger_ack_service.py:62-111 | if start times agree with lock order, the ACK of an authorised device carrying the active value is always accepted, on the row written with it |
| BlastRuns.LateStartHidesReset | services/device_config_service/config_repository.py:181-209 | a run in which a RESET is active but the newest pending row is a START, so the RESET cannot be acknowledged |
| BlastRuns.LateStartIsOutOfOrder | services/device_config_service/config_repository.py:181-209 | that run is the one thing lock order rules out |
| BlastRuns.AckedOnceByBase | services/device_config_service/trigger_ack_service.py:97-111 | `acked_at` is set only through an accepted ACK of the base itself and never changes afterwards; pending rows are never removed or altered otherwise |
| BlastRuns.TimeoutsLoggedOnceAndNotEarly | services/device_config_service/blast_timeout_reconciler.py:9-28 | in every reachable state each start is logged as timed out at most once, only past its own timeout, and only while still the active command: the reset its transaction wrote is the next trigger row of that base |
| BlastRuns.TimesOutExactly | services/device_config_service/blast_timeout_reconciler.py:9-28 | in every reachable state a TIMEOUT switches an active trigger off if and only if the minutes in the pending row written with it have passed, sixty million microseconds each; then it is logged and a reset row written, else nothing changes |
| BlastRuns.TenMinutes | services/device_config_service/blast_timeout_reconciler.py:9-28 | a trigger started for ten minutes goes off exactly from six hundred million microseconds on |
| BlastRuns.CommandsWrite | services/device_config_service/config_repository.py:173-209 | the config and pending rows a START or RESET writes |
| BlastRuns.AuthorisedExactly | services/device_config_service/trigger_ack_service.py:31-62 | an ACK is authorised for a base exactly from that base or a rover of its site, in its own role with or without the GNSS prefix, if the site has that one base |
| BlastRuns.UnauthorisedExactly | services/device_config_service/trigger_ack_service.py:31-62 | which reason refuses any other ACK; NON_AUTHORITATIVE_BASE never does |
| BlastRuns.RefusedExactly | services/device_config_service/trigger_ack_service.py:62-82 | which reason refuses an authorised ACK in a reachable state |
| BlastRuns.AckLeaves | services/device_config_service/trigger_ack_service.py:84-111 | an ACK adds exactly one log entry, and its time to the newest row if the base itself sent it first |
| BlastTrigger.TriggerStore.SetSiteTrigger | services/device_config_service/config_repository.py:173-209 | refuses bad values, unknown bases and non-positive timeouts without a trace; otherwise writes config and pending rows of the trigger and, if given, of the timeout |
| BlastTrigger.TriggerStore.TriggerBlast | services/blast_service.py:5-40 | a START transaction is the START step of the machine; it succeeds exactly for a known base and a positive timeout |
| BlastTrigger.TriggerStore.ResetBlast | services/blast_service.py:42-61 | a RESET transaction is the RESET step and leaves the timeout alone; it succeeds exactly for a known base |
| BlastTrigger.TriggerStore.ExpireOne | services/device_config_service/blast_timeout_reconciler.py:9-28 | a TIMEOUT transaction is the TIMEOUT step; it reports true exactly when an active trigger has no usable limit or its minutes have passed, and it is then off and logged |
| BlastTrigger.TriggerStore.Judge | services/device_config_service/trigger_ack_service.py:62-82 | for every sender authorised for the base this settles the decision of the machine, reason and row included; no reason means that the value is active and the newest row carries it |
| BlastTrigger.TriggerStore.RecordAck | services/device_config_service/trigger_ack_service.py:97-110 | only the base's own ACK stamps the row, only once; every accepted ACK is logged |
| BlastTrigger.TriggerStore.AcknowledgeTriggerStart | services/device_config_service/trigger_ack_service.py:21-111 | an ACK transaction is the ACK step of the machine, with its answer |
| BlastTrigger.TriggerStore.Step | services/blast_service.py:5-61 | any one transaction on the tables is one step of the machine |
| BlastTrigger.TriggerStore.Serve | services/blast_service.py:5-61 | any sequence of transactions ends in the state the machine reaches |
| TimeoutSweep.FetchPage | services/device_config_service/blast_timeout_reconciler.py:38-53 | a page is the first active triggers beyond the cursor, in order, and full unless none are left |
| TimeoutSweep.VisitExtendsSwept | services/device_config_service/blast_timeout_reconciler.py:54-60 | one more visit resets exactly that trigger, exactly if its check fires, judged on the state the sweep began with |
| TimeoutSweep.RemainingCandidates | services/device_config_service/blast_timeout_reconciler.py:38-60 | although visits rewrite rows, what a page query beyond the cursor sees is exactly the unvisited part of the triggers active at the start |
| TimeoutSweep.PageStep | services/device_config_service/blast_timeout_reconciler.py:38-60 | a page extends the visited triggers in order without gap; a short page leaves none |
| TimeoutSweep.VisitPage | services/device_config_service/blast_timeout_reconciler.py:54-60 | the inner loop visits its page in order and adds up what it reset |
| TimeoutSweep.ReconcileOnce | services/device_config_service/blast_timeout_reconciler.py:31-63 | with no other writer, for every batch limit from 1 to 1000: terminates, visits every trigger active at the start exactly once, resets exactly those whose minutes have passed at their visit, and returns that count |
| TimeoutSweep.ExpiredAtStartIsReset | services/device_config_service/blast_timeout_reconciler.py:31-63 | whatever had expired when the sweep began is off when it ends |
| ContractConfig.Compose | services/device_config_service/config_repository.py:44-63 | for every contract key which source wins, and its conversion: text, flags, numbers and nulls as the code coerces them, an error exactly when a conversion fails; a device's own trigger and timeout rows never count unless it is the base |
| ContractConfig.PrecedenceExactly | services/device_config_service/config_repository.py:44-53 | whose value counts for a key: a base's own row; another device's own row unless the key is site-wide; else the base's row, else the default |
| ContractConfig.ConversionsMean | services/device_config_service/config_repository.py:54-62 | numbers are cut off towards zero, flags are one and zero, and a text is on in four spellings |
| ContractConfig.RoverServed | services/device_config_service/config_repository.py:44-63 | what a device that is not the base is served: its own period and record time, the trigger and timeout of the base |
| ContractConfig.NotConvertibleExactly | services/device_config_service/config_repository.py:54-61 | serving fails exactly when the winning value of a numeric key is null or a text that is no number |
| ContractConfig.ServedAgain | services/device_config_service/config_repository.py:44-63 | conversion settles: what was served, written back as config rows of a base, is served again unchanged, whatever the defaults |
| ContractConfig.ComposeBattery | services/device_config_service/config_repository.py:27-34 | the calibration block names exactly the current inventory, with the values of the last row of each, and no other device |
| ContractConfig.LastRowExactly | services/device_config_service/config_repository.py:27-34 | the calibration of a device is that of its last row, or missing |
| ContractConfig.SiteBase | services/device_config_service/config_repository.py:127-136 | finds the site's base: BASE-01 before all others, else the smallest id |
| ContractConfig.SiteBaseUnique | services/device_config_service/config_repository.py:127-136 | the ordering leaves one answer |
| ContractConfig.SiteBaseExactly | services/device_config_service/config_repository.py:127-136 | BASE-01 if it is at the site, else the least id among the base devices there, else none |
| ContractConfig.GetContractConfig | services/device_config_service/config_repository.py:119-171 | unknown devices are refused; otherwise the site's base is looked up, its trigger goes through one TIMEOUT transaction, and the rows of device and base are read in two statements, with any other writers between all of these; trigger and timeout served are the base's at that last reading; an active trigger's minutes had not passed at the expiry step, unless it was started after it |
| ContractConfig.RowsOfExactly | services/device_config_service/config_repository.py:152-159 | the rows of a device are its trigger and timeout as stored, and its other rows |
| ContractConfig.ExpiredIsReset | services/device_config_service/config_repository.py:146-151 | after the expiry step no active trigger of that base is past its time |
| ContractConfig.ActiveOnlyByStart | services/device_config_service/config_repository.py:146-151 | over any run without a START of a base, a trigger active at its end is the unchanged one from its beginning |
| ContractConfig.SiteServedAlike | services/device_config_service/config_repository.py:44-63 | all devices of a site that has a base are served the same trigger and timeout |
| QaLedger.StoreAllExactly | scripts/ppk_qa_worker.py:350-380 | a batch with distinct epochs is stored if and only if no epoch collides with other content; the table is then the old one followed by exactly the missing rows |
| QaLedger.StoredBatchIsThere | scripts/ppk_qa_worker.py:350-380 | afterwards every epoch of the batch is in the table once with exactly its values, nothing is changed or removed, and epochs stay unique |
| QaLedger.BuiltRowsBelong | scripts/ppk_qa_worker.py:328-349 | the rows built from a solver result are non-empty, distinct, and decode into the requested window of their site and rover |
| QaLedger.NextKeepsInv | scripts/ppk_qa_worker.py:300-395 | every step of every worker, failures, stops and lock losses included, keeps the invariant and only appends to the solution table |
| QaLedger.RunKeepsInv | scripts/ppk_qa_worker.py:300-395 | so does every interleaving of any number of workers |
| QaLedger.OneWorkerAtATime | scripts/ppk_qa_worker.py:300-303 | no two workers are between lock and unlock |
| QaLedger.SolutionsOnlyGrow | scripts/ppk_qa_worker.py:350-380 | over any run and continuation the solution table is a growing prefix with at most one row an epoch |
| QaLedger.CompletedWindowsStayStored | scripts/ppk_qa_worker.py:350-385 | however a run continues, every epoch of a completed job stays stored once with its values, and the job counts exactly its rows |
| QaLedger.StoredUnlessColliding | scripts/ppk_qa_worker.py:350-395 | from any reachable state a window is stored and completed if none of its epochs collides; else the table is untouched and the job goes on to fail |
| QaLedger.AttemptsCountClaims | scripts/ppk_qa_worker.py:322-327 | attempts equal the stored ones plus the claims granted |
| QaLedger.CompletedLeftOnlyByItsWorker | scripts/ppk_qa_worker.py:387-391 | a completed job stops being completed exactly by the FAILED update of the worker still failing it |
| QaLedger.CompletedIsFinal | scripts/ppk_qa_worker.py:307-310 | while reports of committed windows do not raise, COMPLETED is final for its fingerprint |
| QaLedger.CompletedUndoneExactly | scripts/ppk_qa_worker.py:385-391 | over any run a job is completed after some prefix and not after a longer one, if and only if the report of a worker that committed it raised and that worker wrote FAILED later |
| QaLedger.CompletedFinalExactly | scripts/ppk_qa_worker.py:385-391 | in any reachable state some later run undoes a completed job if and only if a worker is reporting or failing it |
| QaLedger.RaisingReportUndoesCompleted | scripts/ppk_qa_worker.py:385-391 | from any committed window, a raising report leads to FAILED with the solutions kept |
| QaLedger.LostReportRun | scripts/ppk_qa_worker.py:385-391 | a run of one worker from an empty ledger: completed after five moves, failed after seven, its row still stored |
| QaLedger.QaDatabase.FetchExisting | scripts/ppk_qa_worker.py:355-360 | the rows of one epoch |
| QaLedger.QaDatabase.StoreWindow | scripts/ppk_qa_worker.py:350-380 | stores all values or none, with the error met first; for distinct epochs it stores exactly when none collides, and then appends exactly the missing rows |
| QaLedger.QaDatabase.ClaimWindow | scripts/ppk_qa_worker.py:304-327 | takes a job if and only if it is new, failed, or running since at least 1,800,000,000 microseconds; then only its row changes: one attempt more, the lease renewed, the solution count kept; these are the check and claim moves of the machine |
| QaLedger.QaDatabase.CheckLease | scripts/ppk_qa_worker.py:304-320 | the check of the ledger row is the check move: leave when completed, end the session when active, go on otherwise |
| QaLedger.QaDatabase.UpsertRunning | scripts/ppk_qa_worker.py:322-327 | the upsert is the claim move |
| QaLedger.QaDatabase.SolveWindow | scripts/ppk_qa_worker.py:328-349 | reading the solver result is the solve move |
| QaLedger.QaDatabase.StoreAndComplete | scripts/ppk_qa_worker.py:350-385 | the transaction that stores the rows and completes the job is the store move |
| QaLedger.QaDatabase.UpdateFailed | scripts/ppk_qa_worker.py:387-391 | the FAILED update is the failure move |
| QaLedger.QaDatabase.Step | scripts/ppk_qa_worker.py:300-395 | any one statement, transaction or failure of a worker is one move of the machine |
| QaLedger.QaDatabase.Serve | scripts/ppk_qa_worker.py:300-395 | any schedule of any number of workers ends in the state the machine reaches |
| QaLedger.CollectRows | scripts/ppk_qa_worker.py:328-349 | the loop over solver results refines the row-building function, errors in the order they are met |
| QaWindow.CheckExactly | scripts/ppk_qa_worker.py:304-321 | a worker goes on to claim exactly for a job that is new, failed, or running for at least thirty minutes; a live lease ends its session, a completed job is left |
| QaWindow.ClaimWrites | scripts/ppk_qa_worker.py:322-327 | the row a claim writes |
| QaWindow.StaleLeaseRecovered | scripts/ppk_qa_worker.py:136-143 | a running job whose worker died is claimed by the next worker once thirty minutes have passed, with one attempt more |
| QaWindow.BuiltExactly | scripts/ppk_qa_worker.py:328-349 | a solver result becomes rows, one for each solution in the window with its time and fix, exactly when there is one, all are of 2026 with time zone and of different times, and the source is known |
| QaWindow.BuildErrors | scripts/ppk_qa_worker.py:328-349 | which error any other result meets |
| QaWindow.StoredExactly | scripts/ppk_qa_worker.py:350-380 | rows of distinct epochs are stored exactly when the table agrees with each of them, and the table then holds its rows and these |
| QaWindow.WindowCompleted | scripts/ppk_qa_worker.py:300-395 | an undisturbed worker with a claimable job and a storable result leaves it completed with the count of its rows, the rows stored and the lock free |
| QaWindow.WindowFailed | scripts/ppk_qa_worker.py:328-391 | any other result leaves it failed, the table as it was and the lock free |
| QaWindow.FailureMoves | scripts/ppk_qa_worker.py:386-395 | a raising solver, transaction or report lead to FAILED and the release of the lock; a stop releases it at once |
| QaBacklog.SortOrders | scripts/ppk_qa_backlog.py:114 | sorting orders by start and rover, in either direction |
| QaBacklog.EligibleMembers | scripts/ppk_qa_backlog.py:89-113 | the filter keeps exactly the eligible candidates |
| QaBacklog.EligibleExactly | scripts/ppk_qa_backlog.py:89-113 | a window is eligible exactly when it is not solved, every job of it failed fewer times than the maximum, and no cooldown lies ahead or is malformed |
| QaBacklog.PrecedesExactly | scripts/ppk_qa_backlog.py:114 | the later hour first when newest first, else the earlier; the rover id decides within an hour |
| QaBacklog.SelectionIsFirstEligible | scripts/ppk_qa_backlog.py:82-115 | the selection is in order, within the limit, contains only eligible candidates, and leaves an eligible one out only when full and never before one it took |
| QaBacklog.SelectWindows | scripts/ppk_qa_backlog.py:82-115 | the loops over jobs and candidates compute that selection, for limits from 1 to 3 only |
| QaBacklog.StoredHourIsNeverSelected | scripts/ppk_qa_backlog.py:66-72 | once any worker run has stored an epoch, its hour is never selected for that rover again, in any continuation and whatever else the selector is given |
| GpsTime.DecodeUndoesEncode | scripts/ppk_qa_worker.py:24-31 | the selector's decode returns the encoded instant for all of 2026, and stamps satisfy the table's checks |
| GpsTime.EncodeExactly | scripts/ppk_qa_worker.py:24-31 | weeks of 604800 seconds from 6 January 1980, eighteen seconds ahead, for exactly the instants of 2026 |
| GpsTime.EncodePreservesOrder | scripts/ppk_qa_worker.py:24-31 | week and time of week order instants exactly as time does |
| GpsTime.HourContains | scripts/ppk_qa_backlog.py:68 | truncation to the hour recovers the window an instant lies in |
| NavDownload.NavCache.Discard | scripts/ppk_qa_scheduler.py:164-166 | cut off anywhere, the metadata never outlives the part that was unlinked first |
| NavDownload.NavCache.ResumePoint | scripts/ppk_qa_scheduler.py:171-187 | resumes exactly from a part with matching metadata and a size within the recorded total, which it leaves alone; else clears both |
| NavDownload.NavCache.Transfer | scripts/ppk_qa_scheduler.py:256-281 | whatever sizes reads come in: returns staged bytes and body exactly when the body has the announced length (or fits the limit, when none is announced), else the error that applies; cut off only when file operations run out, each having staged a byte; the part grows by a beginning of the body, never past its announced length |
| NavDownload.NavCache.Resume | scripts/ppk_qa_scheduler.py:222-235 | the exact outcome and files of a 206; wherever it is cut off the part stays a beginning of the version its metadata names, and no staged byte of a continued part is lost |
| NavDownload.NavCache.Restart | scripts/ppk_qa_scheduler.py:236-255 | the exact outcome and files of a 200, which voids what was staged; with a length and a validator, metadata is in place before the first new byte, so a part cut off there can be resumed |
| NavDownload.NavCache.Download | scripts/ppk_qa_scheduler.py:168-281 | one attempt: with enough file operations exactly the specified outcome and files for every reply and staging, a complete part being returned without transfer; cut off anywhere, staging stays a beginning of one version within total and limit; what is returned is what that version or checked body says |
| NavDownload.NavCache.Acquire | scripts/ppk_qa_scheduler.py:326-358 | promotes exactly the returned bytes its caller accepts, and clears staging after accepted or refused bytes, but not after an exception the caller does not handle |
| NavDownload.PrefixContinues | scripts/ppk_qa_scheduler.py:222-235 | a staged beginning continued by the bytes of the announced range is again a beginning |
| NavDownload.ReturnedIsDelivered | scripts/ppk_qa_scheduler.py:168-281 | whatever an attempt returns is the staged version, that version up to the end of the 206 range, or the body of the 200, which with an announced length is the whole version |
| NavDownload.SizeCapExactly | scripts/ppk_qa_scheduler.py:256-281 | the size cap fires exactly for a 200 of unknown length whose body is too long |
| NavDownload.ResumedWholeExactly | scripts/ppk_qa_scheduler.py:227-235 | a 206 for a resumable part is handed over exactly when it continues the part with a whole range; the caller then gets the whole version if and only if that range reached its end, and else a strict beginning |
| NavDownload.ShortRangeReturnsPrefix | scripts/ppk_qa_scheduler.py:227-235 | an honest 206 for the second of three bytes, with the first staged, is handed over as two bytes |
| NavDownload.ClearedUnlessUnhandled | scripts/ppk_qa_scheduler.py:338-358 | after bytes were returned staging is cleared exactly when the caller handles its own verdict |
| NavDownload.UnhandledIsStuck | scripts/ppk_qa_scheduler.py:171-187 | a complete part whose validation raises an unhandled exception is left alone by every later attempt |
| NavDownload.UnhandledSticksExactly | scripts/ppk_qa_scheduler.py:341-346 | after bytes that raise such an exception, whatever the reply: the part is complete, and no later reply changes the files, exactly when it was complete before, or a 200 gave its length and a validator, or a 206 ended the version |
| NavDownload.CorruptTransferBlocks | scripts/ppk_qa_scheduler.py:341-346 | from an empty directory one honest 200 with such a body, of any size within the limit, blocks the product |
| NavDownload.CorruptResumeBlocks | scripts/ppk_qa_scheduler.py:222-235 | so does the honest rest of such a body after a transfer cut off behind any of its bytes |
| NavDownload.ReservedBlockBlocks | scripts/ppk_qa_scheduler.py:79-96 | an eleven-byte input: a gzip header and a deflate block of the reserved type |
| NavDownload.RunAttempts | scripts/ppk_qa_scheduler.py:149-284 | over any sequence of attempts, each cut off anywhere, against a remote file that may change: after each, staging is a beginning of the version it names and a promoted file was accepted, within the limit, and is a beginning of one version or the body of a 200 of the sequence; an attempt without a reply or with a continuing 206 never shortens the part; each attempt with enough file operations has exactly the specified effect |
| NavProgress.ResumableExactly | scripts/ppk_qa_scheduler.py:171-187 | when staged bytes can be resumed, field by field, up to 31,457,280 bytes |
| NavProgress.ValidatorExactly | scripts/ppk_qa_scheduler.py:216-221 | which version a reply names: never that of a weak entity tag |
| NavProgress.FailureKeepsStaging | scripts/ppk_qa_scheduler.py:208-215 | no reply, and a reply of another status, leave resumable bytes and their metadata as they were |
| NavProgress.MismatchDiscards | scripts/ppk_qa_scheduler.py:210-235 | an HTML page, and a 206 that does not continue the staged bytes, discard them |
| NavProgress.EarlyEndOf206 | scripts/ppk_qa_scheduler.py:256-281 | a continuing 206 whose body ends early adds exactly what was delivered, and can be resumed |
| NavProgress.EarlyEndOf200 | scripts/ppk_qa_scheduler.py:236-281 | so can a 200 with length and validator whose body ends early |
| NavProgress.ReturnedOf200 | scripts/ppk_qa_scheduler.py:236-281 | a 200 is handed over exactly when its body has the length it gave, or none was given, within the limit |
| NavProgress.ContinuedTransferArrives | scripts/ppk_qa_scheduler.py:168-284 | while replies are missing or continue the version the part never shrinks, and once everything has arrived the whole version is promoted, or refused by its validation |
| NavProgress.TransferArrives | scripts/ppk_qa_scheduler.py:168-284 | from an empty directory, through any number of interruptions, to the promoted whole |
| NavProgress.RunUncut | scripts/ppk_qa_scheduler.py:149-284 | attempts that are not cut short leave in the directory what the replies make of it |
| NavDownload.BoundedDecompress | scripts/ppk_qa_scheduler.py:79-96 | expansion returns the content exactly when both sizes are within bounds and the stream ends cleanly; an oversized one is refused before its end is seen; a corrupt deflate stream raises the one error that is no ValueError |
| NavProgress.ExpandedExactly | scripts/ppk_qa_scheduler.py:79-96 | expansion within 31,457,280 bytes in and 83,886,080 out, and which error any other stream meets |
| RinexCache.Cache.FindExisting | services/rinex_service/cache.py:121-127 | none without a manifest, an error unless exactly one other file stands beside it |
| RinexCache.Cache.WriteEntry | services/rinex_service/cache.py:65-98 | what a store leaves in a directory without a manifest, for every place it may be stopped |
| RinexCache.Cache.StoreBytes | services/rinex_service/cache.py:30-98 | one store changes only the directory of its own digest; with a manifest present it changes nothing and returns the stored artifact |
| RinexCache.Cache.Resolve | services/rinex_service/cache.py:99-119 | reads the sole artifact, checks its hash, and returns the manifest's metadata, or says what is wrong |
| RinexCache.FirstStoreResolvesExactly | services/rinex_service/cache.py:121-127 | over whatever stopped stores left, the first completed store resolves if and only if the leftovers are clean, and then holds exactly the bytes and its manifest |
| RinexCache.KilledWriteBreaks | services/rinex_service/cache.py:65-98 | killed while writing and stored again under the same name: the temporary file makes the entry unusable |
| RinexCache.OtherNameBreaks | services/rinex_service/cache.py:65-98 | stopped before the manifest and stored again under another name: unusable |
| RinexCache.ManifestNameBreaks | services/rinex_service/cache.py:65-98 | one undisturbed store of an artifact called manifest.json: unusable |
| RinexCache.ManifestIsFinal | services/rinex_service/cache.py:53-64 | once a manifest stands, no sequence of later attempts changes the directory |
| RinexCache.RunResolves | services/rinex_service/cache.py:30-119 | stops between artifact and manifest retried under the same name, one completed store, then anything: resolving and storing give exactly the stored bytes with the first store's metadata |
| RinexResolver.ScoresDiffer | services/rinex_service/resolver.py:42-47 | two different candidates never have equal scores |
| RinexResolver.CandidateOf | services/rinex_service/resolver.py:27-47 | a manifest yields the candidate the filters allow, and unreadable ones are skipped |
| RinexResolver.Resolve | services/rinex_service/resolver.py:23-51 | for every scan order, returns the candidate whose score is above all others, and fails only when there is none |
| RinexResolver.ChoiceUnique | services/rinex_service/resolver.py:48-51 | that candidate is determined by the cache alone |
| RinexResolver.CandidatesPersist | services/rinex_service/cache.py:53-64 | no later store or stopped attempt takes a candidate away |
| RinexResolver.TryProvider | services/rinex_service/acquisition.py:57-66 | the cache becomes what fetch and store make of it, and the answer is its choice, given exactly when it now has a candidate |
| RinexResolver.Ensure | services/rinex_service/acquisition.py:44-70 | a hit, with the cache untouched, if and only if a candidate was cached; otherwise providers are asked in order up to the first whose store gives the cache a candidate, and it fails exactly when all were asked and none did; whatever is returned is the cache's choice afterwards |
| RinexResolver.EnsureTwice | services/rinex_service/acquisition.py:44-70 | asking again is a hit on the same artifact, whatever providers would now answer |
| RinexChoice.ResolvesExactly | services/rinex_service/cache.py:99-127 | an entry resolves exactly when it holds the bytes of its digest under one name and a manifest |
| RinexChoice.CandidateExactly | services/rinex_service/resolver.py:27-41 | the candidates are exactly the resolvable entries whose manifest, or else file, offers navigation data of the day, for the station or for none in particular |
| RinexChoice.ChoicePrefers | services/rinex_service/resolver.py:42-51 | the choice matches the station if any candidate does; among equals it is global, then mixed, then of the greatest digest |
| RinexChoice.AlteredIsRefused | services/rinex_service/cache.py:99-119 | altered content is corruption, unaltered content is returned with the name and source of its manifest |
| RinexChoice.UnsafeIsRemoved | services/rinex_service/cache.py:65-98 | unsafe content is refused and leaves neither file nor manifest |
| RinexChoice.StoreRecords | services/rinex_service/cache.py:65-98 | what a first store records |
| RinexChoice.StopsLeave | services/rinex_service/cache.py:65-98 | what each place a store may be stopped at leaves behind |
| MutualInformation.TotalTranspose | ml/pipeline/graph_builder/adjacency_strategy.py:140-145 | summing by rows or by columns gives the same total |
| MutualInformation.MutualInfoNonNegative | ml/pipeline/graph_builder/adjacency_strategy.py:137-150 | mutual information of every joint distribution is at least 0 |
| MutualInformation.MutualInfoAtMostLogRows | ml/pipeline/graph_builder/adjacency_strategy.py:137-150 | and at most the logarithm of its number of rows |
| MutualInformation.MutualInfoSymmetric | ml/pipeline/graph_builder/adjacency_strategy.py:137-150 | exchanging the series leaves it unchanged |
| MutualInformation.MutualInfoBounds | ml/pipeline/graph_builder/adjacency_strategy.py:137-150 | hence it lies between 0 and log(min(nx, ny)) |
| MicMeaning.InfoIsEntropies | ml/pipeline/graph_builder/adjacency_strategy.py:137-150 | mutual information is the sum of the marginal entropies less the joint entropy |
| MicSearch.EqualFrequencyBins | ml/pipeline/graph_builder/adjacency_strategy.py:124-134 | the value ranked r gets bin r * bins / n; clipping to the last bin never acts |
| MicSearch.BinsFollowValues | ml/pipeline/graph_builder/adjacency_strategy.py:124-134 | a larger value never falls into a smaller bin |
| MicSearch.BinsAreEven | ml/pipeline/graph_builder/adjacency_strategy.py:124-134 | every bin holds n / bins values or one more |
| MicSearch.JointIsDistribution | ml/pipeline/graph_builder/adjacency_strategy.py:138-142 | the normalised histogram sums to one |
| MicSearch.FillJoint | ml/pipeline/graph_builder/adjacency_strategy.py:138-142 | counting into a matrix and dividing gives the empirical joint distribution |
| MicSearch.MutualInformationFromBins | ml/pipeline/graph_builder/adjacency_strategy.py:137-150 | the nested accumulating loop computes the mutual information of that joint |
| MicSearch.GridReach | ml/pipeline/graph_builder/adjacency_strategy.py:187-193 | the two loop bounds try exactly the grids with both sides at least 2 and at most B(n) cells |
| MicSearch.BoundaryGridTried | ml/pipeline/graph_builder/adjacency_strategy.py:187-193 | trying grids of at most b cells differs from trying those of fewer exactly when some grid has just b cells; in exact arithmetic b is eight for 32 points (8^5 = 32^3), and the grid of two by four cells is tried |
| MicSearch.ScoreBounds | ml/pipeline/graph_builder/adjacency_strategy.py:194-196 | every normalised score lies in [0, 1] |
| MicSearch.Score | ml/pipeline/graph_builder/adjacency_strategy.py:190-195 | one grid's score comes from the bins of both orders |
| MicSearch.MicUnique | ml/pipeline/graph_builder/adjacency_strategy.py:186-197 | the maximum over the tried grids is one value |
| MicSearch.MicSymmetric | ml/pipeline/graph_builder/adjacency_strategy.py:180-197 | exchanging the series leaves the MIC unchanged |
| MicSearch.MicExhaustiveSearch | ml/pipeline/graph_builder/adjacency_strategy.py:173-197 | returns the maximum score over exactly those grids, in [0, 1], and the final clip changes nothing |
| MicMeaning.BinExactly | ml/pipeline/graph_builder/adjacency_strategy.py:124-134 | the bin of a rank, as an inequality between whole numbers |
| MicMeaning.CellCounts | ml/pipeline/graph_builder/adjacency_strategy.py:138-142 | a cell of the histogram counts the points in both bins |
| MicMeaning.ScoreExactly | ml/pipeline/graph_builder/adjacency_strategy.py:194-195 | a score times the logarithm of the smaller side is the difference of entropies of the binned series |
| MicMeaning.SelfScore | ml/pipeline/graph_builder/adjacency_strategy.py:180-197 | on a square grid whose bins divide the points, a series scores one with itself |
| MicMeaning.SelfMic | ml/pipeline/graph_builder/adjacency_strategy.py:180-197 | hence its MIC with itself is one as soon as such a grid is tried |
| MicSearch.NormalizedRows | ml/pipeline/graph_builder/adjacency_strategy.py:92-98 | every row sums to one afterwards, except a row summing to zero, which is left alone |
| Vibration.OrderedIffNoDrop | ml/pipeline/feature_engineering/vibration.py:47-53 | comparing neighbours decides strict order of all pairs, and order implies distinct indices |
| Vibration.IndexCount | ml/pipeline/feature_engineering/vibration.py:45-46 | as many distinct indices as samples exactly when none repeats |
| Vibration.AnalyzeAccelWindow | ml/pipeline/feature_engineering/vibration.py:33-90 | rejected exactly when empty or not strictly ordered; accepted exactly when no reason applies; the reasons are exactly those that apply; rate, median and maximum gap are reported exactly when there are positive steps, the rate being the one whose period is the median and the maximum a step no other exceeds |
| VibrationMeaning.OrderReasonsMean | ml/pipeline/feature_engineering/vibration.py:45-53 | the reasons about order and length, from the samples alone |
| VibrationMeaning.LargeGapMeans | ml/pipeline/feature_engineering/vibration.py:69-70 | a gap is large exactly when some step exceeds a non-zero median by the factor |
| VibrationMeaning.RateMeans | ml/pipeline/feature_engineering/vibration.py:64-68 | the rate is outside exactly when it leaves the tolerance |
| VibrationMeaning.StepsExactly | ml/pipeline/feature_engineering/vibration.py:55-59 | the steps that count are the positive ones, in seconds |
| VibrationMeaning.DurationMeans | ml/pipeline/feature_engineering/vibration.py:60 | the duration is last less first, never negative |
| Vibration.CumulativeTrapezoid | ml/pipeline/feature_engineering/vibration.py:126-131 | the loop computes the trapezoid integral at every sample |
| Vibration.DetrendForgetsConstant | ml/pipeline/feature_engineering/vibration.py:92-94 | a constant added to every value is removed with the mean |
| Vibration.BallSum | ml/pipeline/feature_engineering/vibration.py:114-123 | the triangle inequality for three-axis vectors |
| Vibration.VelocityBound | ml/pipeline/feature_engineering/vibration.py:114-131 | through the integration loop, speed is at most peak acceleration times elapsed time |
| Vibration.ComputeVibrationMetrics | ml/pipeline/feature_engineering/vibration.py:96-124 | the method returns the metrics or the first error that applies |
| VibrationMeaning.MetricsMean | ml/pipeline/feature_engineering/vibration.py:96-131 | for every strictly ordered window and known sensor: PPA times 9.80665 is the greatest length of the measured vectors less their mean, PPV the greatest length, in millimetres a second, of velocities that start at rest and grow by the mean of neighbouring accelerations times the time between them |
| VibrationMeaning.NoMetricsExactly | ml/pipeline/feature_engineering/vibration.py:96-112 | which windows have no metrics, and why |
| VibrationMeaning.HalfMetreASecond | ml/pipeline/feature_engineering/vibration.py:114-124 | three samples a second apart that measure 1, 0 and -1 m/s2 have a PPV of 500 mm/s |
| Vibration.PeakVelocityBound | ml/pipeline/feature_engineering/vibration.py:96-124 | PPV <= 9.80665 * PPA * duration in ms for every window the gate does not reject |
| Vibration.ConstantOffsetIgnored | ml/pipeline/feature_engineering/vibration.py:92-124 | adding a constant vector to all samples changes neither PPA nor PPV nor any error |
| FailureForecast.Smooth | apps/frontend/src/components/TimeToFailure.jsx:18-24 | the two loops compute the moving average with its truncated windows at both edges |
| FailureForecast.SmoothingKeepsOrder | apps/frontend/src/components/TimeToFailure.jsx:18-24 | smoothing a non-increasing series gives a non-increasing one, edges included, for every width |
| FailureForecast.NoMovementNoForecast | apps/frontend/src/components/TimeToFailure.jsx:37-46 | a window whose displacement never increases yields no forecast |
| FailureForecast.CovarianceStep | apps/frontend/src/components/TimeToFailure.jsx:50-54 | each point adds its deviations from all earlier points to n*sxy - sx*sy |
| FailureForecast.DenominatorSign | apps/frontend/src/components/TimeToFailure.jsx:54-55 | the denominator is never negative, and zero if and only if all kept times are equal |
| FailureForecast.AscendingDenominator | apps/frontend/src/components/TimeToFailure.jsx:46-55 | for ascending times it is strictly positive whenever the fit is reached |
| FailureForecast.RisingTogether | apps/frontend/src/components/TimeToFailure.jsx:53-56 | Chebyshev's inequality for the fit's numerator |
| FailureForecast.NormalEquations | apps/frontend/src/components/TimeToFailure.jsx:56-57 | the residuals of the fitted line sum to zero, also weighted by time |
| FailureForecast.LeastSquares | apps/frontend/src/components/TimeToFailure.jsx:48-57 | no line has a smaller summed squared residual than the fitted one |
| FailureForecast.NoAccelerationNoForecast | apps/frontend/src/components/TimeToFailure.jsx:58 | inverse velocities that never fall give no forecast |
| FailureForecast.AscendingForecast | apps/frontend/src/components/TimeToFailure.jsx:27-58 | for ascending points a forecast is made only if some kept velocity exceeds an earlier one |
| FailureForecast.ForecastMeaning | apps/frontend/src/components/TimeToFailure.jsx:58-71 | a forecast's line falls, is above zero now and zero after the lead, at most 240 hours away; the band reaches 15 to 45 percent past the lead, and its lower end is at most the lead if and only if the lead is at least an hour |
| FailureForecast.LowerEndExactly | apps/frontend/src/components/TimeToFailure.jsx:58-71 | the lower end is at most the lead if and only if an inequality on the sums the fit uses holds: the fitted line is not below zero one hour ahead |
| FailureForecast.ShortLeadExists | apps/frontend/src/components/TimeToFailure.jsx:58-71 | six readings whose forecast has its lower end after its lead |
| FailureForecast.EstimateFailure | apps/frontend/src/components/TimeToFailure.jsx:27-72 | the loops and early returns compute the specified forecast |
| ForecastExact.ForecastExactly | apps/frontend/src/components/TimeToFailure.jsx:27-72 | a forecast is made exactly from six known readings with five recent ones and four rising steps, if the least-squares line through those falls, is above zero now and not after ten days; it then says that line, its zero, the largest inverse velocity with twelve percent, and a band of fifteen percent and the error in units of the intercept, at most forty-five |
| ForecastExact.NoLineNoForecast | apps/frontend/src/components/TimeToFailure.jsx:46-55 | without four rising steps, or with all at one time, there is none |
| ForecastExact.RecentExactly | apps/frontend/src/components/TimeToFailure.jsx:27-36 | the recent readings are the known ones of the last 43,200,000 milliseconds |
| ForecastExact.SmoothedExactly | apps/frontend/src/components/TimeToFailure.jsx:18-24 | each value becomes the mean of itself and up to three neighbours on either side |
| ForecastExact.MovingExactly | apps/frontend/src/components/TimeToFailure.jsx:37-46 | the fitted points are exactly the steps that rise by more than 0.05 mm a day, with their hours and days per millimetre |
| ForecastExact.LineIsFitted | apps/frontend/src/components/TimeToFailure.jsx:48-57 | the only line whose errors sum to zero, also weighted with the hours, is the fitted one |
| NearestEpoch.BisectLeft | apps/api/routers/v1/sensors.py:151 | splits an ascending list into the elements below and not below the value |
| NearestEpoch.NeighboursSuffice | apps/api/routers/v1/sensors.py:151-154 | the nearer of the two neighbours is nearest among all base epochs |
| NearestEpoch.MatchRover | apps/api/routers/v1/sensors.py:147-159 | the loop counts the rover epochs with any base epoch within the tolerance and finds the minimum over all pairs |
| NearestEpoch.WithinExactly | apps/api/routers/v1/sensors.py:151-156 | a rover epoch matches when some base epoch is at most the tolerance earlier or later |
| NearestEpoch.CountIsSetSize | scripts/ppk_qa_worker.py:287 | on distinct epochs the quadratic count is the size of a set |
| NearestEpoch.EndpointAgreesWithWorker | scripts/ppk_qa_worker.py:287 | endpoint and worker report the same number whatever order their lists are in |
| QaPagination.ListPage | apps/api/routers/v1/ppk.py:222-327 | refuses bad limits and cursors; else the first rows behind the cursor, and a cursor of the last one exactly when more follow |
| QaPagination.AfterIsSuffix | apps/api/routers/v1/ppk.py:268-275 | behind the cursor of a row stand exactly the rows after it in the ordered query |
| QaPagination.OwnCursorAccepted | apps/api/routers/v1/ppk.py:222-242 | the column checks make every cursor the server hands out acceptable to it |
| QaPagination.FetchPage | apps/api/routers/v1/ppk.py:262-327 | a request with the server's own cursor always gets the next rows |
| QaPagination.PageIs | apps/api/routers/v1/ppk.py:262-290 | behind the first a rows, the server's page is the next rows of the one-shot query |
| QaPagination.AnyPageSizes | apps/api/routers/v1/ppk.py:262-290 | following cursors with any page sizes yields the next rows of the one-shot query, no gap and no repeat |
| QaPagination.AppendPage | apps/frontend/src/pages/PPKQACharts.jsx:99-118 | the row loop goes on exactly while every row is displayable and no epoch repeats; its order check never fires |
| QaPagination.KeysSeparateEpochs | apps/frontend/src/pages/PPKQACharts.jsx:99-118 | displayable rows share a key exactly when their epochs are equal |
| QaPagination.DisplayableExactly | apps/frontend/src/pages/PPKQACharts.jsx:99-112 | which rows can be shown |
| QaPagination.LoadableExactly | apps/frontend/src/pages/PPKQACharts.jsx:62-127 | fifty pages of 500 rows are enough up to 25,000 rows, and rows load exactly when all can be shown and no two share week and time of week |
| QaPagination.LoadQaPages | apps/frontend/src/pages/PPKQACharts.jsx:62-127 | terminates; succeeds if and only if fifty pages are enough and the rows asked for are displayable with distinct epochs; then holds exactly the first `limit` rows of the one-shot query and says whether there are more |
| UbxFrames.Checksum | ml/pipeline/preprocessing/g4_parser.py:118-122 | the loop, reduced at every byte, is a plain and a weighted sum reduced once |
| UbxFrames.DecodeUbx | ml/pipeline/preprocessing/g4_parser.py:103-125 | accepts exactly the valid frames and returns them unchanged |
| UbxFrames.UbxValid | scripts/prepare_itb_uploads.py:25-36 | true exactly for valid frames |
| UbxFrames.CanonicalRawxUtc | ml/pipeline/preprocessing/gnss_rawx_time.py:15-41 | accepts exactly a valid RAWX frame of at least 24 bytes with usable timing fields whose GNSS time is within ten seconds of the source time, or of it taken as the wall clock seven hours ahead; the time it returns depends on the frame alone; which error applies |
| UbxFrames.CanonicalAgain | ml/pipeline/preprocessing/gnss_rawx_time.py:15-41 | the time a frame proved, stored and read again with that frame, is proved again, and so is its wall clock |
| RawxTime.FrameProvesItsInstant | ml/pipeline/preprocessing/gnss_rawx_time.py:29-35 | a frame with the GPS week and time of week of an instant of 2026 and eighteen leap seconds proves that instant |
| RawxTime.FieldsExactly | ml/pipeline/preprocessing/gnss_rawx_time.py:29-33 | which timing fields are usable |
| RawxTime.ConsistentExactly | ml/pipeline/preprocessing/gnss_rawx_time.py:36-41 | a source time is accepted within ten seconds of the instant or of the wall clock seven hours ahead |
| RawxTime.RoundedToNearest | ml/pipeline/preprocessing/gnss_rawx_time.py:34 | times are rounded to the nearest microsecond, halves to the even one |
| RawxTime.ValidExactly | ml/pipeline/preprocessing/gnss_rawx_time.py:18-28 | what a RAWX frame must be, byte by byte |
| UbxFrames.JoinRawx | scripts/ppk_qa_worker.py:42-64 | joins exactly when every row is a valid RAWX frame |
| UbxFrames.RawxMeasurementCount | scripts/ppk_qa_worker.py:66-79 | a count exactly for valid RAWX frames with room for just that many measurements |
| UbxFrames.SumsAfterUpdate | ml/pipeline/preprocessing/g4_parser.py:118-122 | how changing one byte changes both sums |
| UbxFrames.SingleByteChangeRejected | ml/pipeline/preprocessing/g4_parser.py:103-125 | changing any single byte of a valid frame makes it invalid |
| UbxFrames.SwapUnnoticedExactly | ml/pipeline/preprocessing/g4_parser.py:103-125 | exchanging two checksummed bytes outside the length field goes unnoticed exactly when their difference times their distance is a multiple of 256 |
| UbxFrames.AdjacentSwapRejected | ml/pipeline/preprocessing/g4_parser.py:103-125 | exchanging unequal neighbours is always rejected, length field included |
| UbxFrames.JoinSplitsBack | scripts/ppk_qa_worker.py:62-64 | the joined stream splits by declared lengths into exactly the frames that were joined |
| UbxFrames.BigEndianInjective | scripts/ppk_qa_worker.py:37 | eight bytes determine every length below 2^64 |
| UbxFrames.ComputeFingerprint | scripts/ppk_qa_worker.py:34-39 | hashing part by part hashes the length-prefixed concatenation |
| UbxFrames.FingerprintInjective | scripts/ppk_qa_worker.py:34-39 | two runs share a fingerprint only if every input agrees |
| PurgedSplit.SortSorts | ml/evaluation/cross_validation.py:55 | sorting keeps every event and orders by start, for any input order |
| PurgedSplit.SortIsStable | ml/evaluation/cross_validation.py:55 | events starting together keep their order |
| PurgedSplit.FoldsFit | ml/evaluation/cross_validation.py:57-67 | every fold has at least one test event and lies within the events |
| PurgedSplit.Split | ml/evaluation/cross_validation.py:45-82 | fails exactly for fewer than two splits, or for no more events than splits; else exactly `n_splits` folds, each as specified |
| PurgedSplit.FoldIsBlock | ml/evaluation/cross_validation.py:57-80 | a fold tests the k-th of the equal blocks behind the first, in order, and draws on everything before it |
| PurgedSplit.KeptExactly | ml/evaluation/cross_validation.py:69-75 | a candidate is trained on if and only if it ends at least the embargo before every test event of its fold starts |
| PurgedSplit.CandidatesStartEarlier | ml/evaluation/cross_validation.py:62-66 | candidates start no later than any test event |
| PurgedSplit.TestsAreConsecutive | ml/evaluation/cross_validation.py:60-66 | the test sets are consecutive disjoint blocks of equal size |
| PurgedSplit.UntestedTail | ml/evaluation/cross_validation.py:60-66 | beyond the first block only the remainder of the division is never tested |
| PurgedSplit.TrainingGrows | ml/evaluation/cross_validation.py:62-75 | each fold trains on at least what the fold before trained on |
| DisplaySampling.Bounded | services/monitoring_service/sensor_read_repository.py:15 | limits from 2 to 5000 are kept, others moved to the nearer end |
| DisplaySampling.KeepsFirstAndLast | services/monitoring_service/sensor_read_repository.py:170-176 | first and last rows are shown |
| DisplaySampling.GapAtMostStride | services/monitoring_service/sensor_read_repository.py:170-176 | neighbouring shown rows are at most the stride apart |
| DisplaySampling.CountKept | services/monitoring_service/sensor_read_repository.py:240-259 | the number of rows shown in closed form |
| DisplaySampling.WindowStrideIsFinest | services/monitoring_service/sensor_read_repository.py:19-26 | a stride stays within the limit if and only if it is at least the chosen one |
| DisplaySampling.WindowWithinLimit | services/monitoring_service/sensor_read_repository.py:19-26 | a historical window never shows more rows than its limit, for every row count |
| DisplaySampling.WaveformBound | services/monitoring_service/sensor_read_repository.py:11-16 | a waveform shows at most one row more, exactly when rows reach beyond the last full stride |
| DisplaySampling.WaveformStrideIsFinest | services/monitoring_service/sensor_read_repository.py:11-16 | a waveform takes the least stride of which its limit covers the rows |
| DisplaySampling.WaveformExceeds | services/monitoring_service/sensor_read_repository.py:11-16 | for every limit some row count shows that extra row |
| DisplaySampling.WindowDisplay | services/monitoring_service/sensor_read_repository.py:158-176 | the shown window is non-empty, within the limit, has the ends of the full one, and steps through it by at most the stride |

## Left out

- UploadLedger.UploadService.Statement: parsing, canonicalisation and telemetry between two statements of one upload are one step that may raise; they write neither of the two tables.
- ContractConfig.GetContractConfig: config values that are JSON lists or objects are not covered.
- BlastTrigger.TriggerStore.ExpireOne: timestamps so large that adding the timeout overflows are not covered.
- NavDownload.NavCache.Acquire: what expansion and validation make of returned bytes is a parameter with three verdicts; `VerdictOf` ties it to the expansion.
- NavDownload.RunAttempts: one scheduler process at a time; the file lock covers a transfer but not the caller's clean-up. The second (WRD_R) product and the validated-cache path of `nav_for` repeat the modelled ones.
- RinexCache.Cache.StoreBytes: stops are modelled, races of two processes storing the same content are not.
- QaPagination.LoadQaPages: the time cutoff is the same for all pages; the server recomputes it from the clock for each request when a time range is given. Coordinates the column checks already confine are not checked again.
- UbxFrames.CanonicalRawxUtc: how eight bytes are read as a double is a parameter, and the arithmetic on it is exact.
- FailureForecast.EstimateFailure: dates a browser cannot parse are not covered, and over the reals `isFinite` is always true.
- MicSearch.MicExhaustiveSearch: B(n) = n to the power 0.6 is a parameter between 0 and n; series of unequal length are not covered.
- MicSearch.BoundaryGridTried: the documentation speaks of fewer than B(n) cells (ml/pipeline/graph_builder/adjacency_strategy.py:157), the loops allow B(n). In binary64 32 ** 0.6 lies just below eight, so with 32 points the code itself does not show this difference of the exact model.
- Floating-point rounding: forecasts, MIC scores, PPA and PPV are exact reals.
- Sockets, signals, subprocesses (convbin, rnx2rtkp), connection pools, routing, authentication and header validation: outcomes of such calls are parameters or nondeterministic steps.
- Base64, gzip, JSON, CSV, regular expressions and RINEX parsing: their results are parameters or abstract values; a cursor token is the three values it encodes.
- SQL ordering, directory scans and `argsort` are modelled by what they return (an ordered list, a permutation). Device ids are naturals, so collation is numeric order.
- Audit logs, blast command rows and `ack_pending` are not modelled.
- The minepy path of `compute_mic`, the histogram fallback, inverse-distance weights and strategy selection: outside libraries, or easy.
- `parse_accel_csv_single_auxiliary_rawx` row rules, thresholds, list filters and registry getters: only easy members.
- The temporal sample builder and dataset schema: selections and masks with easy proofs.
- `timeout_is_current` in the blast router: it compares two clocks read at different moments.
