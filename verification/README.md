# TrackPal: models and proofs

A Dafny 4.11 model of the state machines and algorithms at the core of TrackPal, with the
properties that only hold because several operations work together. `dafny verify dfyconfig.toml`
checks the whole project.

| module | what it models |
|---|---|
| `Extractor`, `RoundScan`, `LookupPipeline` | the worker's lookup: extraction from mail, one fetch round, polling with retries up to a deadline |
| `ExportJobs`, `ExportProtocol`, `ExportRuns`, `ExportContinuity`, `ExportInterruption`, `ExportGuarantees`, `ExportCancel`, `ExportAttempts`, `ExportService` | the tenant data export: rows, replacement chain, worker loop with retries, swap in separate commits, cancel, cleanup |
| `HelpCompiler`, `HelpTours`, `HelpPublication`, `HelpCatalog` | the Help compiler and the catalog over its artifact |
| `StepUpLimiter` | the sliding-window limiter of step-up authentication and its client |
| `NonceCache`, `ExecutorRuntime` | replay protection and lease table of the executor |
| `DeliveryLog`, `LookupJobs` | at-most-once delivery, lookup job statuses, the cleanup pass |
| `SettingsCache` | the epoch-guarded settings cache of the frontend |
| `PhoneMigration` | the phone-normalising migration |
| `DemoLifecycle` | Demo Tenants: activation, status queries, credential replacement |
| `Common`, `Sorting`, `Text` | options, filters, the stable sort behind `sorted` and `list.sort`, string order |

Protocols are runs: a sequence of states linked by enabled steps, with every interleaving allowed.
Operations that change state in place are classes or methods whose contracts give the whole new
state through the same functions the runs are made of. Times are integers and no clock goes back.

## How time and atomicity are treated

- Lookup: every reading of the monotonic clock is one interaction that takes an arbitrary
  non-negative time; a sleep takes at least its argument; `asyncio.wait_for` cuts an operation off
  exactly at its timeout, and an operation that takes exactly its budget counts as finished.
- Export: a step is one committed statement or one storage call; each reads the clock once and finds
  it strictly later than the step before. `request_export` is one step. One worker loop. Database
  writes succeed and the store loses nothing by itself, but deletes may fail.
- Step-up limiter: each Redis pipeline is one step with one clock reading in microseconds; scores are
  whole seconds. Overlapping calls interleave between check and end.
- Nonce cache: a request reads the clock twice, as the handler does; the bound for one reading is
  proved as well.
- Lookup jobs: each operation is one step, except that cancelling is two (its unlocked read may be
  stale). The cleanup pass reads the clock three times.
- Settings: a load is one step up to its request, a completion is another.
- Demo: login and replacement are each a read step and a commit step.

## What the proofs found

- Export continuity holds at every step except in one situation, characterised exactly: the worker
  has stopped for a whole 24-hour cooldown between deleting the replaced object and clearing its row.
  `StalledSwapLosesDownload` is a run that gets there.
- A cancel that succeeds is lost exactly when the worker is past the post-upload checkpoint, whose
  ready commit does not look at the status, or at the end of a backoff, whose reset does not either.
- A cancelled attempt leaves its object behind for good exactly when an exception strikes between
  the upload and the checkpoint after it, or the checkpoint's delete fails.
- The docstring of `export_worker.py` promises three backoffs (5, 25 and 125 seconds); with three
  attempts the code sleeps two of them.
- The last comparison in the Help compiler, and every Spanish check of related topics and numbering,
  can never fail once the metadata parity check has passed.
- With k overlapping step-up calls a window can hold 2 + k failures, so the limit of three is exact
  only for calls made one after the other.
- The deployed replay settings (60-second skew, 60-second ttl) let one signed request through three
  times, or four when the handler stalls between its two clock readings.
- `is_duplicate` and the atomic insert disagree for, and only for, an empty message id.
- The two reads of a cancel are equivalent to its locked read alone, for every job that exists at the
  first one.
- The cleanup pass deletes only terminal jobs when its second clock reading is at most the time to
  live after its first and nobody creates jobs that are already expired, whatever falls between its
  steps. The clock condition is also necessary: a slower pass deletes jobs it never marked.
- A failed settings load is not guarded by the epoch: after a clear it lets the next load duplicate
  a fetch that is in flight, and for time zones, currencies and the mailbox it also wipes a value
  loaded since.
- Replacing demo credentials writes the version that was read plus one. Two overlapping replacements
  can write the same version, and a token minted between them survives the second. A token that a
  replacement has refused can even come back: a stale replacement that commits later puts an old
  version into the row again. `RefusedForEverIff` says exactly when tokens stay refused.
- An exception inside the swap, after the ready commit, takes the new job's download away. The
  download of the old job survives unless its object has just been deleted; in that case a tenant with
  no other download is left with an answer whose object is gone.

## Model

| member | source | states |
|---|---|---|
| `Extractor.ExtractFromBody` | worker/app/extractors/extractor.py:90-131 | the result is the capture of the first rule, in definition order, that matches the body as received, or failing all rules the normalised body; nothing when the subject does not match |
| `Extractor.MessageResultIff` | worker/app/extractors/extractor.py:182-193 | a message yields what the first matching rule captures in its body as received, else in the normalised body, and only if the body yields nothing the same for its subject line; in every case only under a subject that contains one of the patterns |
| `Extractor.InWindow` | worker/app/extractors/extractor.py:172-176 | exactly the messages at or after the cutoff with their indexes, in list order |
| `Extractor.NewestFirstOrder` | worker/app/extractors/extractor.py:172-180 | the in-place reverse sort puts exactly those messages newest first, ties in list order |
| `Extractor.ExtractNewestWithSource` | worker/app/extractors/extractor.py:156-193 | the returned message is the newest eligible one, ties to the earlier index, with its own result; nothing is returned exactly when no message is eligible |
| `RoundScan.Targets` | worker/app/pipeline/runner.py:191-202 | exactly the messages that mention the target, with their positions, in order |
| `RoundScan.RemovalKeepsOrder` | worker/app/pipeline/runner.py:145-160 | popping one candidate and filtering and sorting the rest again gives the old order without it |
| `RoundScan.ScanRejects` | worker/app/pipeline/runner.py:145-160 | rejecting the newest yielding message and starting over equals one more step of a single scan |
| `RoundScan.ScanStep` | worker/app/pipeline/runner.py:101-167 | one turn of the extract, judge and pop loop is one step of a single newest-first scan, whatever the verdict |
| `RoundScan.NewestYieldingIsNext` | worker/app/pipeline/runner.py:102-117 | in scan order only messages that yield nothing stand before the extracted one |
| `RoundScan.NothingYields` | worker/app/pipeline/runner.py:116-117 | when extraction finds nothing the scan ends with nothing and costs no time |
| `RoundScan.ScanFindsFirst` | worker/app/pipeline/runner.py:100-167 | a scan returns the first deliverable candidate of its order, nothing only if there is none, and runs out of time only past the deadline |
| `RoundScan.ScanFindsNewestAcceptable` | worker/app/pipeline/runner.py:100-167 | in terms of the fetched list alone: a hit is what the newest acceptable message delivers, and no hit means no message is acceptable |
| `LookupPipeline.EffectiveTimeout` | worker/app/pipeline/runner.py:47-57 | never more than the caller's timeout, never past the absolute deadline, and smaller than the timeout only because of that deadline |
| `LookupPipeline.SourceIsNewestYielding` | worker/app/pipeline/runner.py:102-121 | the source index that extraction reports is the newest yielding candidate of the round |
| `LookupPipeline.PickNewest` | worker/app/pipeline/runner.py:102-121 | one extraction over the remaining candidates picks their newest yielding one with its result |
| `LookupPipeline.JudgeNewest` | worker/app/pipeline/runner.py:119-167 | resolution under the remaining time, fingerprint and exclusion test decide accept, reject or late like the specification of a single message |
| `LookupPipeline.DeliveryIff` | worker/app/pipeline/runner.py:119-167 | what one message delivers, from rules and replies alone: a Netflix link as the non-empty code it resolves to, anything else as extracted, under its Message-ID and the fingerprint of the value, unless that pair is excluded |
| `LookupPipeline.AddressedIff` | worker/app/pipeline/runner.py:191-202 | a message is kept when the target is part of its subject or body or is one of its recipients |
| `LookupPipeline.RedeliveryRecognised` | worker/app/pipeline/fingerprint.py:13-36 | the same payload under the same Message-ID has the same fingerprint, whatever else differs |
| `LookupPipeline.PayloadsToldApart` | worker/app/pipeline/fingerprint.py:13-36 | different payloads of one message have different fingerprints, if the hash is injective |
| `LookupPipeline.SearchRound` | worker/app/pipeline/runner.py:100-167 | the loop that extracts, pops and sorts again returns exactly what one scan newest first returns, result and clock |
| `LookupPipeline.FetchWithRetry` | worker/app/pipeline/runner.py:175-188 | at most three provider calls, all but the last failing transiently, with at least one base delay before a second and three before a third, and a cut-off exactly at the budget |
| `LookupPipeline.FruitfulOutcome` | worker/app/pipeline/runner.py:122-167 | a delivered result was not excluded and a delivered Netflix result is a code |
| `LookupPipeline.PollRound` | worker/app/pipeline/runner.py:74-167 | each outcome of a round with its cause: timeouts past the deadline, failure after three transient replies, the provider's own terminal error, a hit that is the newest acceptable message |
| `LookupPipeline.PollUntil` | worker/app/pipeline/runner.py:74-172 | the polling loop up to a given deadline: number of rounds, provider calls, and which rounds were fruitless |
| `LookupPipeline.ExecuteLookup` | worker/app/pipeline/runner.py:60-172 | at most ceil(T / 4 s) rounds and three calls per round; not found implies that no fetched round held anything deliverable and the deadline has passed; a found result comes before the deadline, from the newest deliverable message of the last round, with the value, type, Message-ID and fingerprint that message delivers |
| `ExportJobs.QueryAnswers` | backend/app/repositories/export_jobs_repository.py:460-499 | the download query has an answer exactly when some ready, keyed, unexpired job exists, and answers only with such a job |
| `ExportJobs.AnswersIff` | backend/app/repositories/export_jobs_repository.py:460-499 | row by row: the answer is the download that became ready last, unless its replacement is pending or processing and there is another download; then it is the last of the others |
| `ExportJobs.CreatedLastExists` | backend/app/repositories/export_jobs_repository.py:40-56 | among the unexpired ready jobs there is one created last |
| `ExportProtocol.StepEffect` | backend/app/repositories/export_jobs_repository.py:135-325 | every step of the protocol changes the table in one of five ways, with everything else untouched |
| `ExportProtocol.StepKeepsRows` | backend/app/services/export_service.py:119-174 | rows stay consistent: keys only on ready rows and never shared, links to an older ready job of the same tenant, bounded expiry and cooldown |
| `ExportProtocol.StepKeepsWorker` | backend/app/services/export_worker.py:634-791 | what the worker holds stays consistent with the table and the store at every point of an attempt and of a swap |
| `ExportProtocol.StepKeepsBacked` | backend/app/services/export_service.py:353-410 | stored keys of unexpired jobs stay backed by objects through every step, except the one row between the delete and the commit that clears it |
| `ExportProtocol.RunKeepsInv` | backend/app/services/export_service.py:353-410 | all three invariants hold in every state of every run |
| `ExportContinuity.StepKeepsSwap` | backend/app/services/export_service.py:386-408 | during a swap the new job expires last, keeps its key, and while its cooldown covers the swap is the newest download |
| `ExportContinuity.AnswersAreBacked` | backend/app/repositories/export_jobs_repository.py:460-499 | every answer of the download query has its object, unless the swap that purges it has stalled for a whole cooldown |
| `ExportContinuity.StepKeepsLasting` | backend/app/services/export_service.py:353-410 | a downloadable job keeps its key until its expiry or is succeeded by one that lasts longer |
| `ExportContinuity.Continuity` | backend/app/services/export_service.py:353-410 | from the moment a job is downloadable until its expiry, at every step of every run, the download query answers and its answer is backed, unless the swap has stalled |
| `ExportContinuity.LostExactly` | backend/app/repositories/export_jobs_repository.py:488-499 | the query answers with a job whose object is gone exactly when that job is the old one of a swap that deleted its object, has stalled for a whole cooldown, and has left that job next in line behind one that is itself being replaced |
| `ExportContinuity.StalledSwapLosesDownload` | backend/app/services/export_service.py:386-408 | a reachable state at exactly one cooldown of stall in which the query answers with an unexpired job whose object is gone |
| `ExportInterruption.InterruptedSwap` | backend/app/services/export_worker.py:749-791 | when an exception strikes between the ready commit and the end of a swap and the handler resets the job, the query answers exactly if the tenant has another download, only with such a job, and the answer can be downloaded exactly when the swap had not deleted its object |
| `ExportInterruption.CoveredSwapServes` | backend/app/services/export_service.py:386-408 | while a swap is covered by the new cooldown its tenant has an answer and every answer has its object |
| `ExportInterruption.InterruptedSwapLosesDownload` | backend/app/services/export_service.py:386-408 | a reachable state in which the tenant is served, and in which an exception leaves it with answers whose objects are gone |
| `ExportGuarantees.CooldownNeverEarlier` | backend/app/services/export_service.py:77-79 | no step moves a job's cooldown to an earlier time |
| `ExportGuarantees.RunKeepsCooldown` | backend/app/services/export_service.py:369-382 | the same over any stretch of a run |
| `ExportGuarantees.RequestsAreSpaced` | backend/app/services/export_service.py:135-160 | no request is accepted within 24 hours of an earlier accepted request or completion of the tenant |
| `ExportGuarantees.RefusedIff` | backend/app/services/export_service.py:135-146 | over every run a tenant is refused exactly during the 24 hours after one of its own accepted requests or completions |
| `ExportGuarantees.PendingIsClaimable` | backend/app/repositories/export_jobs_repository.py:135-325 | over every run, whenever the worker is idle exactly the pending jobs can be claimed, so none is stuck |
| `ExportGuarantees.StepKeepsSingle` | backend/app/services/export_service.py:147-172 | the invariant behind the single artifact is kept by every step when the tenant asks only while nothing is under way |
| `ExportGuarantees.OneArtifact` | backend/app/services/export_service.py:386-408 | such a tenant has at most one unexpired ready job with a key between swaps, and the download query answers with exactly that job |
| `ExportCancel.CancelFinalIff` | backend/app/services/export_worker.py:722-791 | a cancel that succeeds is final in every continuation if and only if the worker is not, for that job, past the post-upload checkpoint or at the end of a backoff |
| `ExportCancel.CancelIsFinal` | backend/app/services/export_worker.py:634-791 | in particular over every run, a cancel committed between the first checkpoint and the one after the upload never ends with the job ready, whatever exceptions and backoff follow |
| `ExportCancel.CancelLostAtConfirm` | backend/app/services/export_worker.py:722-739 | a reachable cancel that succeeds after the post-upload checkpoint and still ends ready |
| `ExportCancel.CancelLostInBackoff` | backend/app/services/export_worker.py:779-791 | a reachable cancel that succeeds after the last check of a backoff and ends pending |
| `ExportCancel.CancelledUpload` | backend/app/services/export_worker.py:716-730 | over every run, at every state after the worker has left the upload of a cancelled attempt, its object is there if and only if an exception struck before the post-upload checkpoint or the checkpoint's delete failed |
| `ExportCancel.CancelledUploadRemoved` | backend/app/services/export_worker.py:721-730 | once the checkpoint's delete succeeds, nothing of the cancelled attempt remains at any later step |
| `ExportCancel.OrphanForever` | backend/app/services/export_worker.py:716-730 | an object that nothing refers to is never deleted nor referred to again |
| `ExportCancel.GoneForGood` | backend/app/services/export_worker.py:716-719 | an object that is gone never comes back, since keys are fresh |
| `ExportCancel.OrphanedExactly` | backend/app/services/export_service.py:386-443 | the only steps that leave an object behind: an exception after the upload, a failed delete at the checkpoint, in a swap, or before a cleanup clears the row |
| `ExportCancel.CancelledUploadLeaks` | backend/app/services/export_worker.py:716-791 | a run without any failed delete after which the worker is idle, the job cancelled and its object left behind |
| `ExportAttempts.BackoffTotalClosedForm` | backend/app/services/export_worker.py:768-783 | k backoffs sleep (5^(k+1) - 5) / 4 seconds in total |
| `ExportAttempts.BackoffBound` | backend/app/services/export_worker.py:768-783 | with n attempts the total is at most (5^n - 5) / 4 seconds |
| `ExportAttempts.StepKeepsTrack` | backend/app/services/export_worker.py:634-791 | every step of anybody keeps the worker's position, the attempt counter, the failures and the backoff seconds of a claim in agreement, or settles the job |
| `ExportAttempts.ClaimSettles` | backend/app/services/export_worker.py:626-791 | over every run, whatever requests and cleanups interleave between a claim and the idle worker, a job that is not cancelled and has its tenant ends ready or failed; its counter grows by the failures, fewer than the maximum if ready and all of them if failed; the backoff steps are exactly those between the attempts, at most (5^n - 5) / 4 |
| `ExportService.SwappedIsRun` | backend/app/services/export_service.py:353-410 | from every state that is about to confirm, the procedure is two or four steps of the protocol, ending in the state it computes |
| `ExportService.SwappedOutcome` | backend/app/services/export_service.py:353-410 | afterwards the new job is ready with its key, 72 hours to live and a new cooldown, the replaced one has lost its key and nothing else, no other row has changed, and exactly the replaced object is gone, if its delete succeeded |
| `ExportService.Service.GetReadyByTenant` | backend/app/repositories/export_jobs_repository.py:40-56 | the unexpired ready job created last, or none exactly when there is none |
| `ExportService.Service.RequestExport` | backend/app/services/export_service.py:119-174 | accepted exactly outside a cooldown; then a pending job without key that names the current ready job as replaced, which gets the link back and keeps everything else; no other row and nobody's downloads change; it is the request step of the protocol, so what holds of runs holds of it |
| `ExportService.Service.CancelJob` | backend/app/repositories/export_jobs_repository.py:300-325 | succeeds exactly on a pending or processing job, whose key, links, counter and cooldown stay, and touches no other row and no object; for every position of the worker it is the cancel step of the protocol, and it is final in every continuation if and only if the worker is not about to overwrite the status |
| `ExportService.Service.ConfirmReplacementReady` | backend/app/services/export_service.py:353-410 | statement by statement it reaches the state of the protocol's swap |
| `ExportService.Service.CleanupExpired` | backend/app/services/export_service.py:413-443 | exactly the expired ready rows lose their keys, whether their delete succeeds or not; exactly the objects whose delete succeeds are gone; the count is the number of rows; nobody's downloads change |
| `ExportService.Service.ProcessJob` | backend/app/services/export_worker.py:626-791 | the whole call is a run of the protocol from the claimed job to the idle worker; on success the job is ready with the key of the first successful attempt, 72 hours to live and a new cooldown, the replaced job has lost its key, and the store gains the new object and what failed attempts uploaded and loses exactly the replaced object, if its delete succeeded; otherwise the job is failed and no other row has changed; failures are counted, and the one-second sleeps are the sum of the backoffs and within the bound |
| `ExportService.Service.FailAttempt` | backend/app/services/export_worker.py:749-791 | a failed attempt is counted; the last one fails the job without backoff, any other backs off its full time and resets the job to pending without lease; all of it steps of the protocol |
| `ExportService.Service.FinishAttempt` | backend/app/services/export_worker.py:711-747 | upload and swap as steps of the protocol: the new row, the cleared row, all other rows, and the exact store |
| `ExportService.Service.Rest` | backend/app/services/export_worker.py:778-783 | the number of one-second sleeps: all of them for a job that is not cancelled, one for a job that is |
| `HelpCompiler.TourEntries` | backend/app/help/compiler.py:550-620 | entries are accepted exactly when all are valid for the topic's targets and plans, and the plans default to the topic's |
| `HelpCompiler.CompileTopic` | backend/app/help/compiler.py:206-337 | a topic compiles exactly when it meets the audience, plan, route, target and tour rules, otherwise it fails with its id |
| `HelpCompiler.TopicFaultIff` | backend/app/help/compiler.py:242-337 | a page is refused exactly when it breaks one of the listed rules on audience, plans, route, targets, order or tour entries |
| `HelpCompiler.CompileLocale` | backend/app/help/compiler.py:152-170 | a locale compiles exactly when it has topics, all valid, with different ids; the result is sorted by id |
| `HelpCompiler.CompiledLocaleSorted` | backend/app/help/compiler.py:169-169 | topic ids of a compiled locale strictly ascend |
| `HelpCompiler.SameIdsAlign` | backend/app/help/compiler.py:172-173 | two locales with the same ids have the same id at every position |
| `HelpCompiler.ValidateMetadataParity` | backend/app/help/compiler.py:339-366 | passes exactly when the topics of the two locales agree, position by position, on everything that is not localized |
| `HelpCompiler.SameMetadataIff` | backend/app/help/compiler.py:339-366 | two editions of a page agree exactly when all thirteen non-localized items and every tour entry but its texts are equal |
| `HelpCompiler.ValidateRelatedTopics` | backend/app/help/compiler.py:418-428 | passes exactly when every related topic of both locales is a known id |
| `HelpCompiler.GroupSteps` | backend/app/help/compiler.py:373-392 | the dictionary holds exactly the releases that have entries, each with its steps in topic order |
| `HelpCompiler.CheckNumbering` | backend/app/help/compiler.py:396-405 | passes exactly for at most seven steps numbered 1 to n, and says which of the two rules was broken |
| `HelpCompiler.CompileRelease` | backend/app/help/compiler.py:394-409 | one release: its steps sorted by order and topic, its plans the sorted union of theirs |
| `HelpCompiler.CompileReleases` | backend/app/help/compiler.py:372-409 | succeeds exactly when every release is well numbered; releases ascend by name and each is made of its entries |
| `HelpCompiler.CompileTourReleases` | backend/app/help/compiler.py:368-416 | both locales, then the comparison of names, with the reason of each failure |
| `HelpPublication.SameOrder` | backend/app/help/compiler.py:395-395 | sorting steps commutes with dropping their localized text |
| `HelpPublication.NumberingParity` | backend/app/help/compiler.py:396-405 | the English numbering is right exactly when the Spanish one is |
| `HelpPublication.ReleaseParity` | backend/app/help/compiler.py:410-415 | the two locales get the same sequence of releases with the same plans and steps, up to title, content and summary |
| `HelpPublication.ParityNeverFails` | backend/app/help/compiler.py:410-415 | on topics that passed metadata parity the comparison of release names never finds a difference |
| `HelpPublication.RelatedParity` | backend/app/help/compiler.py:418-428 | the Spanish related topics are known exactly when the English ones are |
| `HelpPublication.CompileMirrored` | backend/app/help/compiler.py:368-416 | after metadata parity only the English numbering decides, and the tours agree |
| `HelpPublication.Assemble` | backend/app/help/compiler.py:172-177 | the cross-locale checks pass exactly on parity, known related topics and well-numbered English releases |
| `HelpPublication.Compile` | backend/app/help/compiler.py:142-204 | compilation succeeds exactly when the authoring rules are met, the numbering rule being that for every release the orders of its tour entries, one per entry, are 1 to n with n at most 7; then in each locale the topics are exactly the pages, every tour entry is a step of its release with its own order, target, condition, plans and texts or those of its page, and there are no other steps; it never fails on release parity and gives both locales the same tours |
| `HelpTours.StepOrigin` | backend/app/help/compiler.py:374-392 | every step of a release is the step of a tour entry of a topic of that locale |
| `HelpTours.StepPlaced` | backend/app/help/compiler.py:374-409 | every tour entry is a step of the release of its name |
| `HelpTours.AllPublished` | backend/app/help/compiler.py:374-409 | every authored tour entry becomes a step of the release it names, with its order and its own or its page's texts and plans, and no step comes from anywhere else |
| `HelpTours.NumberingIff` | backend/app/help/compiler.py:393-406 | the test on the sorted steps accepts exactly when the authored orders of every release are 1 to n with n at most 7 |
| `HelpTours.AllInOrder` | backend/app/help/compiler.py:393-411 | releases ascend by name, their steps are numbered from one, and a release lists exactly the plans of its steps |
| `HelpCatalog.TourOfValidTopic` | backend/app/help/compiler.py:277-337 | a topic with a tour is for tenant admins, on an admin route, with an admin target and plans that include the entry's |
| `HelpCatalog.AuthorizedFound` | backend/app/help/artifact.py:35-48 | a topic meant for the plan and audience is found by its id |
| `HelpCatalog.FoundIff` | backend/app/help/artifact.py:35-48 | a lookup answers with a topic if and only if it has that id, that audience and serves that plan |
| `HelpCatalog.IndexLists` | backend/app/help/artifact.py:123-131 | the index lists exactly the topics for the plan and audience, by order and then id |
| `HelpCatalog.IndexParity` | backend/app/help/artifact.py:123-131 | editions with equal metadata have the same index in both languages for every plan and audience |
| `HelpCatalog.SelectedTourResolves` | backend/app/help/artifact.py:57-81 | for every locale and plan the selected release has a step, and each step's topic is found by the catalog for that plan on an admin route and target |
| `HelpCatalog.SelectedTourShows` | backend/app/help/artifact.py:57-81 | the selected release serves the plan and has the name asked for, and shows exactly its steps for the plan, in order and without their plans |
| `HelpCatalog.TourServedIffOffered` | backend/app/help/artifact.py:50-81 | a tour is served for a plan exactly when some topic of the locale offers it |
| `HelpCatalog.DefaultTourIsFirst` | backend/app/help/artifact.py:63-69 | without a name the release with the least name among those serving the plan is selected |
| `StepUpLimiter.ExpiryDropsNothingLive` | backend/app/services/step_up_limiter.py:117-130 | key expiry never drops a failure that is still inside the window |
| `StepUpLimiter.CheckAgrees` | backend/app/services/step_up_limiter.py:121-130 | pruning, counting and extending the key keep the stored set in agreement with the log, and the count is exact |
| `StepUpLimiter.RecordAgrees` | backend/app/services/step_up_limiter.py:111-119 | adding, pruning and extending the key keep that agreement for the log with the new failure |
| `StepUpLimiter.StepKeepsInv` | backend/app/services/master_step_up.py:45-69 | live failures and calls in flight together never exceed 2 + k |
| `StepUpLimiter.CountIsExact` | backend/app/services/step_up_limiter.py:51-130 | in every run a check counts exactly the failures of the last 900 seconds since the last reset in an unpruned log |
| `StepUpLimiter.WindowBound` | backend/app/services/master_step_up.py:45-69 | with at most k overlapping calls no 900-second window between resets holds more than 2 + k failures |
| `StepUpLimiter.SequentialBound` | backend/app/services/master_step_up.py:45-69 | calls made one after the other put at most three failures in any window |
| `StepUpLimiter.BoundAttained` | backend/app/services/master_step_up.py:45-69 | for every k some run of overlapping calls reaches exactly 2 + k |
| `StepUpLimiter.Limiter.Check` | backend/app/services/step_up_limiter.py:51-68 | the exact cause of each answer: passed, blocked, unavailable, or the error of the unguarded time-to-live read; only the actor's key changes |
| `StepUpLimiter.Limiter.RecordFailure` | backend/app/services/step_up_limiter.py:70-80 | records under the actor's key when Redis answers, and reports when it does not |
| `StepUpLimiter.Limiter.RecordSuccess` | backend/app/services/step_up_limiter.py:82-93 | deletes the actor's key, or nothing when Redis does not answer |
| `StepUpLimiter.VerifyMasterStepUp` | backend/app/services/master_step_up.py:29-69 | the exact cause of each verdict: granted, 401, 429, 503, and the error that escapes; a 401 adds the failure to the actor's record, a grant that reaches Redis clears it, nothing else changes it; the bucket after the call, other actors untouched, and the run one call further |
| `StepUpLimiter.ThreeStrikes` | backend/app/services/step_up_limiter.py:51-68 | after three wrong passwords inside one window with no grant since, the next call whose check reaches Redis finds the limiter full, so it is neither granted nor told 401 |
| `StepUpLimiter.CallIsSteps` | backend/app/services/master_step_up.py:45-69 | a call, passed, blocked or cut off by Redis, is two, one or no enabled steps of the run, and leaves the bucket those steps leave |
| `StepUpLimiter.ObjectBound` | backend/app/services/step_up_limiter.py:51-130 | for a limiter used through whole calls, no actor ever has more than three failures in a window between resets, and its stored set counts them exactly |
| `NonceCache.NonceCache.Purge` | worker/app/protocol/replay.py:29-32 | the loop deletes exactly the expired nonces |
| `NonceCache.NonceCache.Consume` | worker/app/protocol/replay.py:18-27 | success exactly when no unexpired entry has the nonce and there is room; the table never exceeds its maximum |
| `NonceCache.TableIsHistory` | worker/app/protocol/replay.py:18-32 | in every run a nonce is unexpired in the table exactly when it was accepted less than a ttl ago |
| `NonceCache.AcceptancesApart` | worker/app/protocol/replay.py:18-27 | two acceptances of one nonce are at least a ttl apart |
| `NonceCache.TableBounded` | worker/app/protocol/replay.py:24-26 | the table never exceeds its maximum |
| `NonceCache.RefusedExactly` | worker/app/protocol/replay.py:21-27 | a verified request is refused exactly when its nonce was accepted in the last ttl or the maximum number of nonces were |
| `NonceCache.ReplayBound` | worker/app/main.py:216-235 | one signed request gets through at most floor(2 skew / ttl) + 2 times with two clock readings per request |
| `NonceCache.ReplayBoundOneReading` | worker/app/protocol/crypto.py:200-201 | and at most floor(2 skew / ttl) + 1 times with one |
| `NonceCache.OneReadingAttained` | worker/app/main.py:216-235 | the second bound is reached for every configuration |
| `NonceCache.TwoReadingsAttained` | worker/app/main.py:216-235 | the first bound is reached for every configuration |
| `ExecutorRuntime.StepKeeps` | worker/app/runtime.py:78-150 | accepting, ending a pipeline or callback, cancelling a task and releasing keep the one-to-one correspondence, the capacity and the count of sends |
| `ExecutorRuntime.RunKeepsInv` | worker/app/runtime.py:78-150 | the active table corresponds one to one to the unfinished executions in every interleaving |
| `ExecutorRuntime.LeaseHeldThroughout` | worker/app/runtime.py:95-117 | from acceptance to its end an execution holds the slot of its job under its own lease at every moment |
| `ExecutorRuntime.NeverOverCapacity` | worker/app/runtime.py:106-112 | the unfinished executions are as many as the table entries and never more than the capacity |
| `ExecutorRuntime.FinishedSentOnce` | worker/app/runtime.py:119-145 | over every run a finished execution attempted exactly one callback, with the outcome its pipeline ended with or the internal error if it raised, or none when its task was cancelled before the pipeline ended |
| `ExecutorRuntime.AcceptanceMeaning` | worker/app/runtime.py:95-117 | duplicate, conflict and busy say exactly what is running: the same lease, another lease, or a full table |
| `ExecutorRuntime.Runtime.Accept` | worker/app/runtime.py:78-117 | the answer and the new table for every command and context, mismatches refused without effect |
| `ExecutorRuntime.Runtime.Execute` | worker/app/runtime.py:119-150 | one callback with the pipeline's own outcome, or with the internal error if it raised, none when cancelled in the pipeline; the slot is freed exactly if it is still held under the execution's lease, and every other slot stays, however pipeline and callback ended |
| `ExecutorRuntime.Handle` | worker/app/main.py:105-157 | an execution is scheduled exactly when the table reserved a slot; the other answers are 409, 422 and 429 |
| `DeliveryLog.Log.RecordDeliveryAtomic` | backend/app/repositories/mailbox_dedupe_repository.py:108-163 | succeeds exactly when no row has the whole identity, and then adds one row |
| `DeliveryLog.Log.DeleteOlderThan` | backend/app/repositories/mailbox_dedupe_repository.py:91-105 | the loop removes exactly the rows before the cutoff and counts them |
| `DeliveryLog.ConflictIsIdentity` | backend/app/models/mail_code_delivery_log.py:14-36 | the two partial unique indexes together index the whole identity, message id absent or present |
| `DeliveryLog.InsertMatchesCheck` | backend/app/repositories/mailbox_dedupe_repository.py:16-42 | an insert conflicts exactly when the duplicate check says so, for absent and non-empty message ids |
| `DeliveryLog.CheckAgreesIff` | backend/app/repositories/mailbox_dedupe_repository.py:36-39 | the two agree on all logs exactly for message ids that are absent or non-empty |
| `DeliveryLog.EmptyIdSlipsThrough` | backend/app/repositories/mailbox_dedupe_repository.py:36-39 | a delivery under the empty message id is in conflict with itself but invisible to the check |
| `DeliveryLog.TableIsHistory` | backend/app/repositories/mailbox_dedupe_repository.py:91-163 | the table holds exactly the deliveries that no retention delete has reached |
| `DeliveryLog.RunKeepsUnique` | backend/app/models/mail_code_delivery_log.py:14-36 | no identity appears twice in any state of any run |
| `DeliveryLog.DeliveriesApart` | backend/app/repositories/mailbox_dedupe_repository.py:91-163 | two successful inserts of one identity are more than the retention period apart |
| `DeliveryLog.KeysSinceIsHistory` | backend/app/repositories/mailbox_dedupe_repository.py:67-88 | inside a window no longer than the retention the listing names exactly the deliveries since then |
| `DeliveryLog.KeysNewestFirst` | backend/app/repositories/mailbox_dedupe_repository.py:67-88 | the listing goes from the newest delivery to the oldest |
| `LookupJobs.Jobs.TransitionStatus` | backend/app/repositories/mailbox_lookup_repository.py:108-152 | accepted exactly for the seven listed pairs of statuses, refused without effect otherwise; the new row column by column: status, timestamps, executor, and for each note what is written, cleared or kept |
| `LookupJobs.Jobs.RecoverProcessingJob` | backend/app/repositories/mailbox_lookup_repository.py:155-166 | only a processing job returns to pending, without start time and executor, keeping or replacing its dispatch error |
| `LookupJobs.Jobs.CancelActiveJobIfPresent` | backend/app/repositories/mailbox_lookup_repository.py:60-91 | true exactly when both reads find the job active and visible; only then is it failed with the user-cancelled error, and no other column or row changes; it is the two cancel steps of the runs |
| `LookupJobs.Jobs.ExpireStaleJobs` | backend/app/repositories/mailbox_lookup_repository.py:169-184 | exactly the expired active jobs time out, with the timeout error and nothing else changed, and they are counted |
| `LookupJobs.Jobs.DeleteExpiredJobs` | backend/app/repositories/mailbox_lookup_repository.py:187-204 | exactly the jobs that expired by the cutoff are gone, and they are counted |
| `LookupJobs.RunKeepsInv` | backend/app/repositories/mailbox_lookup_repository.py:60-204 | in every run a completion time is present exactly in terminal states, a start time in processing and none in pending |
| `LookupJobs.TerminalIsFinal` | backend/app/repositories/mailbox_lookup_repository.py:11-14 | a terminal row never changes again and, once deleted, never comes back |
| `LookupJobs.TwoReadsAreOne` | backend/app/repositories/mailbox_lookup_repository.py:60-91 | over every run, for a job that exists at the unlocked read, the two reads of a cancel succeed exactly when the locked read alone would |
| `LookupJobs.CancelBeforeCreate` | backend/app/repositories/mailbox_lookup_repository.py:73-91 | for a job created between the two reads that fails: the cancel gives up although the locked read would find the job |
| `LookupJobs.RunCleanupOnce` | backend/app/services/mailbox_cleanup.py:25-53 | the pass leaves exactly the expired, then deleted, tables and returns how many jobs were timed out and how many rows were deleted |
| `LookupJobs.PassDeletesTerminal` | backend/app/services/mailbox_cleanup.py:33-43 | over every run, whatever other operations fall between the two steps, a delete removes only jobs that are terminal by then, if its cutoff is not after the clock of the expiry and no job was created in between already expired by the cutoff |
| `LookupJobs.CleanupSafeIff` | backend/app/services/mailbox_cleanup.py:33-43 | the converse, for two steps back to back: they delete only terminal jobs on every table exactly when the second clock reading is at most the time to live after the first |
| `LookupJobs.SlowPassDeletesPending` | backend/app/services/mailbox_cleanup.py:37-42 | a slower pass deletes a pending job it never marked |
| `SettingsCache.LoadedIsFresh` | frontend/src/store/settings.ts:259-422 | in every interleaving a cached value is marked loaded and came from a fetch of that resource started in the current epoch |
| `SettingsCache.LoadedIffStands` | frontend/src/store/settings.ts:259-422 | in every interleaving a resource is loaded exactly when a fetch of it started in the current epoch has succeeded and, for the three quiet resources, no fetch of it has failed since |
| `SettingsCache.PromptRunsAreSingle` | frontend/src/store/settings.ts:108-169 | when failures arrive in their own epoch, at most one fetch per resource and epoch is in flight and the marker names it |
| `SettingsCache.NoFailureIsPrompt` | frontend/src/store/settings.ts:108-169 | in particular in every run without failures |
| `SettingsCache.DuplicateAfterFailureIff` | frontend/src/store/settings.ts:277-283 | from any state without a duplicate, a failure lets the next load duplicate a fetch if and only if it is stale, another fetch of the resource is open in the current epoch, and it leaves the resource unloaded |
| `SettingsCache.RivalIsMarked` | frontend/src/store/settings.ts:108-169 | while every earlier failure came in its own epoch, that other fetch is the one marked in flight |
| `SettingsCache.FailureDropsIff` | frontend/src/store/settings.ts:330-338 | a failure removes a loaded value if and only if the resource is one of the three quiet ones and is loaded; while every earlier failure came in its own epoch, only a stale failure does |
| `SettingsCache.OnlyFailuresDrop` | frontend/src/store/settings.ts:259-422 | nothing but a clear or such a failure ever takes a loaded value away |
| `SettingsCache.StaleFailureWipes` | frontend/src/store/settings.ts:330-338 | for each quiet resource a run whose late failure wipes a value of the current epoch |
| `SettingsCache.StaleFailureRun` | frontend/src/store/settings.ts:415-421 | such a run exists for every resource |
| `SettingsCache.Store.StartLoad` | frontend/src/store/settings.ts:108-169 | a load starts a fetch only when nothing is loaded or in flight |
| `SettingsCache.Store.CompleteLoad` | frontend/src/store/settings.ts:264-276 | a success of the current epoch stores its value and clears the error of the loud resources; one of another epoch changes nothing but its own fetch |
| `SettingsCache.Store.FailLoad` | frontend/src/store/settings.ts:330-338 | a failure clears the marker whatever the epoch, and three resources also lose their value |
| `SettingsCache.Store.ClearSettingsCache` | frontend/src/store/settings.ts:224-247 | all slots empty, a new epoch, open fetches still open |
| `PhoneMigration.FixedPointIff` | backend/alembic/versions/cd2efe74cae5_normalize_phone_values.py:25-40 | the fixed points of the normaliser are exactly the non-empty digit strings |
| `PhoneMigration.NormalizeIs` | backend/alembic/versions/cd2efe74cae5_normalize_phone_values.py:25-40 | of every value exactly the digits before its first at-sign or colon count, in order |
| `PhoneMigration.ResultIsDigits` | backend/alembic/versions/cd2efe74cae5_normalize_phone_values.py:38-40 | every result is a non-empty digit string |
| `PhoneMigration.NormalizeIdempotent` | backend/alembic/versions/cd2efe74cae5_normalize_phone_values.py:25-40 | normalising a result changes nothing |
| `PhoneMigration.PhoneNormaliserIdempotent` | backend/alembic/versions/cd2efe74cae5_normalize_phone_values.py:25-40 | so the theorems about migrated tables apply to the phone normaliser |
| `PhoneMigration.Scan` | backend/alembic/versions/cd2efe74cae5_normalize_phone_values.py:69-85 | one table is refused exactly when two of its rows share canonical digits; otherwise the map holds exactly its digits and the updates exactly its changing rows |
| `PhoneMigration.CommonIsCross` | backend/alembic/versions/cd2efe74cae5_normalize_phone_values.py:110-113 | the key sets meet exactly when two rows of different tables share canonical digits |
| `PhoneMigration.Plan` | backend/alembic/versions/cd2efe74cae5_normalize_phone_values.py:60-122 | refused exactly on a collision within or across tables; the planned updates migrate every row |
| `PhoneMigration.Profiles.Upgrade` | backend/alembic/versions/cd2efe74cae5_normalize_phone_values.py:43-155 | raises exactly on a collision and then writes nothing; otherwise both tables are migrated |
| `PhoneMigration.MigratedRow` | backend/alembic/versions/cd2efe74cae5_normalize_phone_values.py:124-155 | a normalisable row ends at its canonical digits, a fixed point; any other row is unchanged |
| `PhoneMigration.MigratedPhonesDistinct` | backend/alembic/versions/cd2efe74cae5_normalize_phone_values.py:108-122 | after success all canonical phones of both tables differ pairwise |
| `PhoneMigration.MigrationIdempotent` | backend/alembic/versions/cd2efe74cae5_normalize_phone_values.py:43-155 | running the migration again succeeds and changes nothing |
| `DemoLifecycle.QueriesAgreeIff` | backend/app/models/tenant.py:48-52 | the status queries classify a demo like its derived status at all times exactly when its timestamps are paired, as the check constraint demands |
| `DemoLifecycle.QueriesPartition` | backend/app/repositories/tenants_repository.py:71-98 | the three status queries partition the demos and agree with the derived status |
| `DemoLifecycle.DemosNewestFirst` | backend/app/repositories/tenants_repository.py:71-98 | every query lists its demos from the newest to the oldest |
| `DemoLifecycle.RunKeepsInv` | backend/app/services/demo_lifecycle_service.py:69-98 | timestamps stay paired and 48 hours apart, and every version in sight is one the row has had |
| `DemoLifecycle.ActivatedOnce` | backend/app/services/demo_lifecycle_service.py:78-98 | in every interleaving a demo is activated at most once and expires exactly 48 hours later |
| `DemoLifecycle.WindowNeverMoves` | backend/app/services/demo_lifecycle_service.py:80-92 | the evaluation window never moves once started, and a deleted demo never comes back |
| `DemoLifecycle.StatusMonotone` | backend/app/models/tenant.py:150-164 | the derived status only moves forward over a run and in time |
| `DemoLifecycle.OldTokensRefused` | backend/app/services/demo_lifecycle_service.py:61-65 | without overlapping replacements a token minted before a replacement or password change is refused at every moment after it |
| `DemoLifecycle.ReplacementRefusesIff` | backend/app/services/demo_management_service.py:97-116 | right after a replacement every token that could exist is refused exactly when the version it read is the highest the row has had |
| `DemoLifecycle.RefusedForEverIff` | backend/app/services/demo_lifecycle_service.py:61-65 | every token that could exist at a replacement or password change is refused at every later moment of the run if and only if from then on no replacement commits a version read when the row had had fewer, and a password change finds the highest version in the row |
| `DemoLifecycle.RefusedTokenReturns` | backend/app/services/demo_management_service.py:113-115 | a run in which an undisturbed replacement refuses every earlier token and a stale one lets such a token in again |
| `DemoLifecycle.OverlapKeepsToken` | backend/app/services/demo_management_service.py:113-115 | a run of two overlapping replacements in which a token minted between them is still admitted |
| `DemoLifecycle.Account.EnsureDemoRequest` | backend/app/services/demo_lifecycle_service.py:47-66 | an expired demo is deleted, another version is refused, anything else is served; it is the request step of the runs |
| `DemoLifecycle.Account.ActivateDemoForLogin` | backend/app/services/demo_lifecycle_service.py:69-98 | the conditional update starts the demo only if nobody has meanwhile, and the returned row shows the start that won; it is the read step and the commit step of a login in the runs, token included |
| `DemoLifecycle.Account.ReplaceDemoCredentials` | backend/app/services/demo_management_service.py:97-125 | refused without effect when absent or expired; otherwise the version read plus one is written over whatever the row holds; it is the read step and the commit step of a replacement in the runs |

## Left out

- Cryptography of the executor protocol (HKDF, HMAC, AES-GCM): only the timestamp test is modelled, and a request is either genuine or not.
- IMAP, HTTP, storage and Redis clients, MIME parsing and callback delivery: they are oracles that answer, fail or take time.
- Regular expressions of the extraction catalog, body normalisers and the Netflix resolver: arbitrary functions.
- SHA-256, case folding, stripping and date printing in the lookup: arbitrary functions.
- YAML parsing, file traversal, unsafe-content patterns and the field vocabularies of the Help compiler: one abstract predicate over parsed fields; the type checks on raw frontmatter values are not modelled.
- Help search and release publication: easy members over the same artifact.
- CSV, JSON and ZIP building in the export worker.
- Several export workers, `recover_stale_leases` and row purges: one worker loop is assumed; any claimable job may be claimed, not only the oldest.
- Failed database writes. Exceptions inside `confirm_replacement_ready` are not steps of the runs: `ExportInterruption` states their effect for the handler's commits taken together, without anybody else in between and without the retry that may follow.
- The six checkpoints between the first one and the upload are one repeatable step.
- `cancel_export` before `cancel_job`: its purge of a key on a processing row never applies, because processing rows carry no key.
- ExportService.Service.ProcessJob: covers jobs that nobody cancels and keys that are always fresh; cancels are covered by the protocol's runs.
- The lookup execution coordinator, the executor registry and the auth service are not part of this model.
- ExecutorRuntime.Handle: a background task lost after its acceptance, or cancelled while waiting for the lock, is not modelled.
- The update, regenerate and revoke actions of the settings store: they write a slot without an epoch test, so a value they store is not the result of a load.
- A settings source that throws before its first await is not modelled.
- Member names of the limiter's sorted set carry eight random hex digits and are taken to be unique.
- `record_delivery`, the insert without conflict handling.
- PhoneMigration.FixedPointIff: assumes that digits are neither blank nor one of the two separators, and that the separators are not blank, as in Python.
- Usernames, passwords, locales, sessions and row-level security of Demo Tenants: only their lifecycle fields are modelled; `ensure_demo_request` for a user without a demo simply finds none.
