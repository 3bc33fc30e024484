# A verified model of the transactional core

The service finds events, archives what its users plan and visit, translates event texts, and keeps a table of its own
errors. Its difficult parts are small protocols over database rows and a few algorithms with an exact specification.
This project models them and proves what they promise.

| files | what they model |
|---|---|
| `EventOutcomes`, `DiscoveryTables`, `DiscoveryStore` | discovery runs: leases, candidates, drafts, completion; one step function for each locked section, and the services as methods that commit exactly that step |
| `DiscoverySystem`, `DiscoverySafety`, `DiscoveryTheorems`, `DiscoveryEffects` | all interleavings of those sections with a moving clock, submissions on the network, and staff; the invariant, the theorems over whole runs, and what each step does and answers |
| `RunnerFlow`, `RunnerEffects`, `DiscoveryReport` | the runner's exploration flow and its books, and the report as the server stores it |
| `ArchiveTables`, `ArchiveService`, `ArchiveSafety`, `ArchiveTheorems`, `ArchiveEffects` | statuses, visit records, collection items and the activity log, with cascades and idempotency tokens |
| `StatusRace`, `StatusRepair`, `PhotoUpload` | the insert race behind a completed visit, statement by statement; the repair migration; photo uploads under the record lock |
| `ErrorKeys`, `ErrorGroups`, `ErrorEffects` | the error table as a recency list, and the text that names a group |
| `Translation`, `TranslationFlow`, `TranslationEffects` | the source hash, submissions and display; the runner's batches with their retry budget |
| `PromptFrame` | stripping delimiter literals and the prompt frame around untrusted text |
| `ActivityCalendar`, `PythonText`, `Options` | the monthly listing against the date-jump search; Python's `strip`; the option type |

How the model is built:

- Code that changes rows is a class whose methods are proved equal to step functions on an immutable value of the tables;
  the theorems are about those functions and their runs.
- The `Effects` modules say what each call does and answers in terms of the rows before and after it, with constants in
  figures and without naming the step functions, so that they hold the step functions to account.
- A locked section or a service call is one atomic step. Between the two sections of a submission, between the statements
  of `_ensure_visited_status`, and between the statements of a photo upload, any other actor may act.
- Clocks, fresh tokens, answers from the network, the model's output and the parser's verdicts are inputs. Unicode
  normalisation, the quarantine of a translated text, the case-insensitive search and the removal of tracking parameters
  are arbitrary functions. SHA-256 is taken to be injective, so the hashed text stands for the hash.

Where the code differs from what is written about it, the model follows the code:

- `compute_fingerprint` says that a fingerprint computed from raw values always equals the stored one. It does exactly when
  neither part is cut just behind white space (`ErrorKeys.FingerprintAgreement`, with an instance in
  `ErrorKeys.FingerprintsCanDisagree`).
- `source_hash` separates the fields with a control character so that they cannot run into each other. A field can contain
  that character, and exactly then another source, different after normalisation too, has the same hash
  (`Translation.HashIdentifiesExactlyCleanSources`), and the translation of that other source can be displayed
  (`Translation.StaleTranslationIsDisplayed`). Both use two facts of Unicode normalisation: text on the two sides of the
  separator is normalised by itself, and no separator comes or goes (`Translation.KeepsSeparators`).
- A repeated `register_account_source` need not return its row. At the candidate cap it is refused; below the cap it fails
  with an integrity error if the source has been deleted or moved to another URL in the meantime
  (`DiscoveryTheorems.AccountRetry`, `DiscoveryTheorems.RetryAfterDeletedSource`). A `submit_candidate` begun after the row
  exists returns it, but one that was on the network already when the row was written is told the same three things
  (`DiscoveryTheorems.OvertakenSubmission`).
- Events that were given up keep their places among the 20 pending ones the server hands out. A batch makes progress
  exactly when one of those 20 is not given up (`TranslationFlow.EveryBatchMakesProgress`); otherwise nothing behind them is
  tried until staff change an event (`TranslationFlow.StarvationLasts`). Fewer than 20 given-up events are enough, not
  necessary.
- `complete_visit_with_record` says that a replay does nothing on the status side. That holds exactly while the status row
  exists; if the user has removed it, the replay creates it again (`ArchiveTheorems.ReplayedVisitChangesNothing`). And once
  the record is deleted, a replay is not "already created": it fails
  (`ArchiveTheorems.DeletedRecordIsNotRecreated`).
  A token sent again with another subject marks that subject visited and returns the old record
  (`ArchiveTheorems.SpentTokenReturnsItsRecord`).

## Model

| member | source | states |
|---|---|---|
| DiscoveryStore.Store.CreateRun | drafts/discovery_runs.py:206-219 | a run is created only while the runner is online and no run is active |
| DiscoveryStore.Store.Claim | drafts/discovery_runs.py:222-266 | every lapsed lease is re-queued or expired in the loop, then the oldest waiting run is leased under the given token |
| DiscoveryStore.Store.LockedRunWithValidLease | drafts/discovery_runs.py:269-277 | which of missing run, invalid lease and success is answered |
| DiscoveryStore.Store.RenewLease | drafts/discovery_runs.py:280-283 | only the expiry of that run moves |
| DiscoveryStore.Store.CompleteRun | drafts/discovery_runs.py:286-356 | the whole new row of the run: status, clamped counters, cleaned outcomes, error summary, cleared token |
| DiscoveryStore.Store.SubmitCandidateEarly | drafts/candidate_validation.py:310-341 | an existing row is returned before the cap is looked at |
| DiscoveryStore.Store.SaveFailedCandidate | drafts/candidate_validation.py:170-206 | renewal, cap and uniqueness of a rejected candidate, with the rollback at the cap |
| DiscoveryStore.Store.PromoteCandidate | drafts/candidate_validation.py:432-459 | the promoting section with its nested duplicate path and its rollback on an integrity error |
| DiscoveryStore.Store.SubmitAgentDraftLocked | drafts/agent_drafts.py:260-304 | duplicate before cap, and a foreign insert between the search and the insert |
| DiscoveryStore.RenewalIsIdempotent | drafts/candidate_validation.py:170-221 | a section nested in one that already renewed the lease commits the same state |
| EventOutcomes.CleanEventOutcomes | drafts/discovery_runs.py:56-103 | the loop keeps exactly the vetted reports, in order, up to 20, and counts what it drops |
| EventOutcomes.SanitizeIsExact | drafts/discovery_runs.py:56-103 | sanitising removes exactly the control characters, wherever they stand |
| EventOutcomes.ReportIsKeptExactly | drafts/discovery_runs.py:56-103 | the exact conditions under which a report with a URL, an outcome and a reason is kept, and under which URL |
| EventOutcomes.StoredOutcomesAreVetted | drafts/discovery_runs.py:56-103 | every stored outcome has a clean http(s) URL, an allowed reason, and if "created" a draft of the run |
| EventOutcomes.CombinedStatusMeaning | drafts/discovery_runs.py:118-150 | when a completed run is succeeded, failed or partially failed, in terms of its rows and counters |
| DiscoverySafety.FinishedIsTerminal | drafts/discovery_runs.py:305-356 | a completion always ends the run, with a token cleared and a finish time |
| DiscoverySafety.ClaimKeepsRuns | drafts/discovery_runs.py:222-266 | claiming keeps one active run, the lease contract of every run and the bound of two leases |
| DiscoveryTheorems.ApplyKeeps | drafts/discovery_runs.py:206-356 | every atomic step of every actor keeps the invariant |
| DiscoveryTheorems.EveryReachableStateIsSafe | drafts/candidate_validation.py:310-369 | in every interleaving: at most one active run, token set iff claimed, at most 10 candidates and 20 events a run, unique (run, URL) and draft URL, each source promoted once, leases within bounds, statuses explained |
| DiscoveryTheorems.TheEmptyDatabaseIsSafe | drafts/discovery_runs.py:206-219 | the invariant holds of the empty tables |
| DiscoveryTheorems.LiveLeaseIsNotRequeued | drafts/discovery_runs.py:230-277 | a lease that is valid is never one that the next claim re-queues |
| DiscoveryTheorems.LiveLeaseIsKept | drafts/discovery_runs.py:222-283 | nobody but its holder ends a lease before its time: whatever others do, the token stays valid until then |
| DiscoveryTheorems.CandidateWritesAreFenced | drafts/candidate_validation.py:170-206 | a step adds at most one candidate, and only under the live lease of its run |
| DiscoveryTheorems.DraftWritesAreFenced | drafts/agent_drafts.py:260-304 | drafts of a run are added only under its live lease |
| DiscoveryTheorems.EveryCandidateWasFenced | drafts/candidate_validation.py:310-369 | for each candidate row of a reachable state, the step that wrote it showed the token then current and unexpired |
| DiscoveryTheorems.EveryEventWasFenced | drafts/agent_drafts.py:260-304 | the same for each event draft of a run |
| DiscoveryTheorems.LapsedLeaseNeverRevives | drafts/discovery_runs.py:222-283 | once a token is not the live lease it never is again, whatever follows |
| DiscoveryTheorems.LapsedSubmitterWritesNothing | drafts/candidate_validation.py:310-341 | a submission whose lease lapsed or was re-claimed on the network writes nothing and is told so |
| DiscoveryTheorems.CandidateRepliesAreTrue | drafts/candidate_validation.py:170-206 | the row a submission is told of is its own, is new exactly if it says so, and the lease then runs the full time |
| DiscoveryTheorems.DraftRepliesAreTrue | drafts/agent_drafts.py:260-304 | the same for event drafts |
| DiscoveryTheorems.RunsEvolve | drafts/discovery_runs.py:222-356 | over any steps a run keeps its place or its measure falls, its expiry never moves back, and a finished run keeps every field |
| DiscoveryTheorems.FinishedRunIsFrozen | drafts/discovery_runs.py:305-356 | after the end the run, its candidates' statuses and its number of events stay as they are |
| DiscoveryTheorems.TerminalStatusStaysExplained | drafts/discovery_runs.py:118-150 | in every later state the stored status is the one recomputed from rows and counters; on a reported failure it is partial iff something was promoted |
| DiscoveryTheorems.CandidateRetryReturnsTheRow | drafts/candidate_validation.py:310-341 | a retry of `submit_candidate` finds its row however much later, at the cap as below it |
| DiscoveryTheorems.DraftRetryReturnsTheRow | drafts/agent_drafts.py:260-304 | a retry of `submit_agent_draft` that reaches the second locked section returns the stored draft, at the cap as below it |
| DiscoveryTheorems.AccountRetry | drafts/candidate_validation.py:399-459 | for every stored row and every verdict, exactly when a retry of `register_account_source` returns its row, is refused at the cap, or fails with an integrity error |
| DiscoveryTheorems.OvertakenSubmission | drafts/candidate_validation.py:310-369 | the same three answers, and exactly when each, for a second `submit_candidate` that was on the network when the row was written |
| DiscoveryTheorems.RetryAfterDeletedSource | drafts/candidate_validation.py:432-459 | the integrity error is reached: the source is deleted, the retry comes below the cap |
| DiscoveryTheorems.CreatedEventIsKnown | drafts/discovery_runs.py:340-343 | an event answered "created" is among the run's own URLs in every later state |
| DiscoveryTheorems.AbandonedRunExpiresInTime | drafts/discovery_runs.py:18-23 | with claims polled at gaps of at most P, a run whose holder goes silent is expired within 2 (lease + P) of its first claim |
| DiscoveryEffects.CandidateIsStored | drafts/candidate_validation.py:310-369 | for either way of ending a submission: without the live lease nothing is written; with it a new row is stored iff the run has fewer than 10 candidates and none with the URL; only the expiry of its run moves |
| DiscoveryEffects.StoredCandidateIsRight | drafts/candidate_validation.py:432-459 | the new row is promoted iff the verdict passes and no source had the URL, and is then linked to the one new source; otherwise it is rejected, unlinked, with its stage, and no source changes |
| DiscoveryEffects.CandidateSubmissionBegins | drafts/candidate_validation.py:310-341 | each answer of the early check exactly in its case, the row that is named, and that only a submission that may proceed goes on |
| DiscoveryEffects.EventIsStored | drafts/agent_drafts.py:260-304 | a known URL returns its draft, a run with 20 events is refused, any other URL is stored for the run unless staff insert it first |
| DiscoveryEffects.DraftSubmissionBegins | drafts/agent_drafts.py:260-275 | a submission goes on iff its lease is live |
| DiscoveryEffects.HeartbeatIsRecorded | drafts/discovery_runs.py:175-203 | what a sign of life and a farewell leave of the two times |
| DiscoveryEffects.RunIsCreated | drafts/discovery_runs.py:153-219 | a run is created iff the runner was heard of within 120 seconds, has not gone offline since, and no run is waiting or claimed; and the row it is |
| DiscoveryEffects.RunIsClaimed | drafts/discovery_runs.py:222-266 | nothing to do is answered iff no run is waiting or lapsed with a lease left; otherwise the named run is the oldest of those, leased for 1800 seconds under the token; every other run is untouched, re-queued or expired as its own fields say |
| DiscoveryEffects.ClaimedAndAbandonedRunExpires | drafts/discovery_runs.py:18-23 | the bound on an abandoned run, from the claim that first leased it |
| DiscoveryEffects.RunIsCompleted | drafts/discovery_runs.py:286-356 | a completion is accepted iff the lease is live, and writes its own run and nothing else: time, cleared token, cut counters, summary |
| RunnerFlow.FlowTally.TrySkipEvent | local_runner/exploration_flow.py:180-207 | which events are skipped, and what the tally then shows |
| RunnerFlow.FlowTally.FetchEvent | local_runner/exploration_flow.py:210-233 | the effect of each way a page can be read, blocked hosts included |
| RunnerFlow.FlowTally.InterpretEvent | local_runner/exploration_flow.py:245-279 | the effect of each interpretation that does not lead to a submission |
| RunnerFlow.FlowTally.SubmitInterpretedEvent | local_runner/exploration_flow.py:282-316 | the effect of each answer of the server |
| RunnerFlow.FlowTally.ProcessEvent | local_runner/exploration_flow.py:319-346 | one event adds exactly its row of the case table |
| RunnerFlow.RunExplorationFlow | local_runner/exploration_flow.py:426-477 | the loop over events and sources, with what a lost lease or an unexpected exception leaves behind |
| RunnerFlow.TheBooksBalance | local_runner/exploration_flow.py:155-346 | attempted equals failed + excluded + created + duplicate + unrecognised on a completed flow, and misses at most one on an aborted one; failed and excluded equal the recorded outcomes |
| RunnerEffects.EntryTellsItsCase | local_runner/exploration_flow.py:180-346 | for each of the 18 entries: it is added iff the event is in its case, said of the event and of the earlier events of its host that were read and came back blocked |
| RunnerEffects.CreatedIsTheServersWord | local_runner/exploration_flow.py:180-316 | created and duplicate iff the event was submitted and answered so, known_url iff the server knows the URL, host_blocked iff an earlier event of the host was read and blocked |
| RunnerEffects.BlockedHostsTell | local_runner/exploration_flow.py:210-233 | the blocked hosts are those of the events that were read and came back blocked |
| RunnerEffects.EventCountsAndStops | local_runner/exploration_flow.py:180-346 | an event is an attempt iff its URL is unknown to the server, and stops the flow iff the lease is lost or something unexpected is raised |
| RunnerEffects.AttemptsAreTheUnknownEvents | local_runner/exploration_flow.py:319-346 | a completed flow has attempted exactly as many events as have unknown URLs |
| RunnerEffects.SourcesStopAtTheFirst | local_runner/exploration_flow.py:349-371 | sources go on iff none that is confirmed Korean meets a conflict or a crash, and the first such answer decides the end |
| RunnerEffects.FlowEnds | local_runner/exploration_flow.py:426-477 | what the caller gets for each way a flow can end |
| RunnerFlow.ClampsAreTheIdentity | drafts/discovery_runs.py:301-303 | for at most 20 events the server's clamps change nothing |
| RunnerFlow.OutcomeSurvives | drafts/discovery_runs.py:56-103 | exactly which recorded outcomes the server keeps |
| RunnerFlow.TheReportIsStoredWhole | drafts/discovery_runs.py:340-343 | the stored list is the reported one iff every recorded outcome has a sound URL, a reason if it is an exclusion, and a draft of the run if it says created |
| DiscoveryReport.AnsweredUrlIsKnown | drafts/discovery_runs.py:340-343 | a URL that some earlier step answered "created" passes the cross-check of the completion report |
| DiscoveryReport.SoundOnesAreKept | drafts/discovery_runs.py:56-103 | the cleaning keeps, in order, all recorded outcomes that pass its tests, whatever stands between them |
| DiscoveryReport.TheRunTellsWhatTheRunnerSaw | local_runner/runner.py:92-151 | runner and server together, for completed and aborted flows and any URLs: if the runner's answers are ones the server gave, in every later state the run holds the runner's counters, each outcome with a sound URL in order, and the very list iff all URLs are sound; the counters balance up to one event of an aborted flow, and the status follows |
| ArchiveService.Archive.RecordActivity | archive/services.py:51-76 | an entry is appended unless its user, kind and operation key are taken |
| ArchiveService.Archive.CreateUserEventStatus | archive/services.py:167-205 | duplicate check, visit-record check, row and log entry |
| ArchiveService.Archive.MarkVisited | archive/services.py:208-236 | the row reads visited, a change is logged |
| ArchiveService.Archive.MarkMissed | archive/services.py:254-277 | refused where a visit record exists, otherwise the row reads missed |
| ArchiveService.Archive.RevertToPlanned | archive/services.py:280-308 | refused where a visit record exists, otherwise planned with the override |
| ArchiveService.Archive.RemoveUserEventStatus | archive/services.py:311-327 | the row goes, the removal is logged |
| ArchiveService.Archive.CompleteVisitWithRecord | archive/services.py:656-687 | status, record and log in one transaction, with the inner savepoint and the outer rollback |
| ArchiveService.Archive.CreateVisitRecord | archive/services.py:571-621 | insert and log stand or fall together; a clash returns the holder of the token or fails |
| ArchiveService.Archive.CreateCollectionItem | archive/services.py:343-430 | quantity check, owner check, event taken from the visit record, token clash |
| ArchiveService.Archive.UpdateCollectionItem | archive/services.py:439-568 | merged checks, the loop that sets the fields, the model's own check, the log entry |
| ArchiveService.Archive.UpdateVisitRecord | archive/services.py:690-695 | date and review change, the subject does not |
| ArchiveTheorems.StepKeeps | archive/services.py:126-695 | every service call and every deletion with its cascades keeps the archive's invariant |
| ArchiveTheorems.RunKeeps | archive/models.py:195-437 | so does every run of calls |
| ArchiveTheorems.EmptyArchiveIsSound | archive/models.py:195-437 | the invariant holds of the empty tables |
| ArchiveTheorems.CallsStayWithTheirUser | archive/services.py:343-373 | a call about one user's rows leaves every other user's statuses, visit records and items alone, links included |
| ArchiveTheorems.RecordedVisitReadsVisited | archive/querysets.py:33-62 | where a visit record exists the derived status of its row is visited on every date |
| ArchiveTheorems.DerivedStatusInFull | archive/querysets.py:33-62 | exactly when the derived status is visited and when it is missed; the search for visit records decides nothing in a sound archive |
| ArchiveTheorems.TimeOnlyTurnsPlannedIntoMissed | archive/querysets.py:33-62 | without writes a later date turns planned into missed and nothing else, and leaves overridden rows and personal entries alone |
| ArchiveTheorems.OneVisitRecordPerToken | archive/models.py:223-236 | two visit records that ever hold one user's token, at any two moments of a run with deletions, are the same row |
| ArchiveTheorems.OneItemPerToken | archive/models.py:317-337 | the same for collection items |
| ArchiveTheorems.EveryRetryNamesTheSameRecord | archive/services.py:656-687 | all requests of a user with one token that succeed name the same record |
| ArchiveTheorems.SpentTokenReturnsItsRecord | archive/services.py:590-687 | a token that a record holds returns that record for any subject, and changes no table iff that subject's status row is there and visited |
| ArchiveTheorems.ReplayedVisitChangesNothing | archive/services.py:590-611 | a replay returns its record, and changes no table iff the status row still exists |
| ArchiveTheorems.ReplayedItemChangesNothing | archive/services.py:382-402 | a replay of an item returns it and changes no table |
| ArchiveTheorems.DeletedRecordIsNotRecreated | archive/models.py:425-434 | once a record is gone, by itself or with its event or personal entry, its token fails for ever and changes nothing, the status included |
| ArchiveTheorems.DeletedItemIsNotRecreated | archive/models.py:425-434 | the same for collection items |
| ArchiveTheorems.KeysNeverVanish | archive/models.py:385-434 | operation keys stay in the activity log through every call and every deletion |
| ArchiveTheorems.PatchInFull | archive/services.py:469-520 | exactly which patches of an item are accepted, what the row then holds, and that the model's own check never fires |
| ArchiveEffects.VisitIsRecorded | archive/services.py:571-687 | a request whose subject exists and whose token is not spent records the visit under a new id: the record as given, the row visited, the log entries for both, all else unchanged |
| ArchiveEffects.VisitFailsOrRepeats | archive/services.py:590-611 | a request fails iff its subject is missing or its token is logged and no record holds it, and then changes nothing; a held token names its record |
| ArchiveEffects.VisitIsUpdated | archive/services.py:690-695 | the whole new row |
| ArchiveEffects.StatusIsCreated | archive/services.py:167-205 | each refusal in its case, else the row and the entry |
| ArchiveEffects.StatusIsMoved | archive/services.py:208-308 | for each of the three moves: the refusals, the status and override written, and the entry exactly for a change |
| ArchiveEffects.StatusIsRemoved | archive/services.py:311-327 | the row goes and the removal is logged |
| ArchiveEffects.ItemIsCreated | archive/services.py:343-430 | each refusal in its case, the repeated token, and the stored item with the event of its visit record |
| ArchiveEffects.PatchIsAccepted | archive/services.py:469-520 | a patch is accepted iff the quantities after it are sound, what it links exists and is the owner's, and an event given alone is that of the visit record |
| ArchiveEffects.PatchIsRefused | archive/services.py:439-520 | a refused patch changes nothing and is told missing or wrong |
| ArchiveEffects.ItemIsPatched | archive/services.py:478-568 | each field has the last value given for it or its old one, a new visit record decides the event, and a change of quantities, wish or date is logged |
| ArchiveEffects.VisitIsDeleted | archive/models.py:223-300 | the record goes, items and log entries lose their links to it, nothing else changes |
| ArchiveEffects.ItemIsDeleted | archive/models.py:282-337 | the item goes, log entries lose their links to it, nothing else changes |
| ArchiveEffects.EventIsDeleted | archive/models.py:195-300 | exactly the event's statuses and visit records go with it; items and log stay, less their links to what is gone |
| ArchiveEffects.EntryIsDeleted | archive/models.py:195-215 | the same for a personal entry |
| ArchiveEffects.DerivedStatusSpelledOut | archive/querysets.py:33-62 | a planned, not overridden event that ended before today reads missed; every other row reads as stored |
| ArchiveSafety.SetFieldsMerges | archive/services.py:518-520 | setting field after field amounts to merging the patch into the row |
| ArchiveSafety.PatchedItemIsOk | archive/services.py:478-517 | after an accepted patch quantities are sound and the linked visit record is the owner's, with the item's event |
| ArchiveSafety.EventDeletionKeeps | archive/models.py:263-300 | deleting an event, with its cascades and cleared links, keeps quantities, links, agreement, tokens and the story of the log |
| ArchiveSafety.EntryDeletionKeeps | archive/models.py:195-215 | the same for a personal entry |
| ArchiveTheorems.ItemsOutliveTheirEvent | archive/models.py:282-300 | every item outlives its event; exactly the links into what is gone are cut |
| ArchiveTheorems.LogExplainsStatuses | archive/models.py:370-437 | the activity log alone tells every user's status at every existing event |
| StatusRepair.FixPlannedStatusWithExistingVisitRecord | archive/migrations/0016_fix_planned_status_with_existing_visit_record.py:22-34 | the loop repairs exactly the stale rows |
| StatusRepair.RepairReachesAgreement | archive/migrations/0016_fix_planned_status_with_existing_visit_record.py:22-34 | from any tables agreement is reached, a row changes iff it disagreed, and no smaller change would do |
| StatusRace.EnsureVisitedSurvivesTheRace | archive/services.py:624-653 | with others inserting, changing and deleting between any two statements: exactly one row at the commit, reading visited, at most two creation attempts, nothing written by an exception, and what others must have done for the creation to fail |
| StatusRace.UndisturbedRunIsOneStep | archive/services.py:624-653 | left alone, the statements amount to the one step used in the archive model |
| PhotoUpload.PhotosStayWithinBounds | archive/services.py:726-741 | in every interleaving of uploads and deletions at most five photos a record and at most one per token |
| PhotoUpload.AnyFewPhotosAreSound | archive/models.py:240-260 | any tables within the bounds are a possible start |
| PhotoUpload.AnswersAreRight | archive/services.py:726-748 | what each answer means, that the limit is reported only for a missing photo, and that the unique constraint never has to step in |
| PhotoUpload.ReplayReturnsThePhoto | archive/services.py:728-732 | the replay of a token whose photo exists returns that photo, five photos or not |
| PhotoUpload.UndisturbedUpload | archive/services.py:726-748 | an upload left alone returns the photo of its token, or is refused at five photos, or adds its photo, each exactly in its case, and gives the lock back |
| PhotoUpload.DeletionsDoThis | archive/models.py:240-260 | a record goes with its photos unless an upload holds it; a photo goes alone |
| ErrorKeys.NormalizeTwice | core/error_groups.py:62-72 | a second normalisation only drops trailing white space, and changes nothing iff the cut is not behind white space |
| ErrorKeys.NormalizeThrice | core/error_groups.py:62-72 | a third changes nothing |
| ErrorKeys.CleaningKeepsWhatIsSeen | core/error_groups.py:62-66 | cleaning loses no character that can be seen and keeps their order |
| ErrorKeys.WordsStayApart | core/error_groups.py:62-66 | two tidy words with control characters between them come out with exactly one space between them |
| ErrorKeys.NormalizeCuts | core/error_groups.py:69-72 | the cut keeps the first characters of the cleaned text |
| ErrorKeys.KeyIsInjective | core/error_groups.py:75-84 | different normalised parts give different keys |
| ErrorKeys.FingerprintAgreement | core/error_groups.py:75-84 | the precomputed fingerprint is the stored one iff neither part is cut behind white space |
| ErrorKeys.FingerprintsCanDisagree | core/client_error_views.py:128-139 | a location, with the line number that view appends, for which they differ |
| ErrorGroups.ErrorTable.TrimSource | core/error_groups.py:192-206 | the source is cut back to 250 rows by evicting exactly its oldest |
| ErrorGroups.ErrorTable.UpsertErrorGroup | core/error_groups.py:151-189 | update, else insert, else update again when another transaction inserted first |
| ErrorGroups.ErrorTable.RecordError | core/error_groups.py:112-148 | one recorded error is one step of the table under its stored key |
| ErrorGroups.ErrorTable.PruneStale | core/error_groups.py:209-223 | exactly the stale groups go, or are only counted |
| ErrorGroups.TableRefinesRecency | core/error_groups.py:151-223 | after any calls each source holds exactly its k most recently recorded fingerprints, k up to 250, with true counts and dates |
| ErrorGroups.RecordedGroupIsThere | core/error_groups.py:192-206 | the group just recorded is in the table |
| ErrorEffects.EachCallDoesThis | core/error_groups.py:151-223 | any call of any sequence: recording a known group counts on in it; a new one evicts nothing below 250 groups of its source and exactly the oldest at 250; a prune removes exactly the groups not seen since; all other rows stay |
| ErrorEffects.SourceIsAsFullAsItCanBe | core/error_groups.py:192-206 | without prunes a source has as many groups as the lesser of 250 and the number of its distinct fingerprints |
| ErrorGroups.KeysStandForFingerprints | core/error_groups.py:125-127 | two errors share a group iff their stored fingerprints are equal |
| Translation.HashPinsCleanSource | events/content_translation.py:61-65 | without separators in the normalised text, the hash tells a source from every other |
| Translation.HashIdentifiesExactlyCleanSources | events/content_translation.py:61-65 | the hash identifies a source up to normalisation iff no field holds the separator, for any normalisation that keeps separators, as NFC does |
| Translation.EventRow.SubmitTranslation | events/translation_queue.py:93-129 | each refusal in its order, and the stored JSON language by language |
| Translation.SubmissionsRespectWhatIsThere | events/translation_queue.py:93-129 | a manual row is never changed, and a submission that follows a saved one at once changes nothing |
| TranslationEffects.SubmissionIsAnswered | events/translation_queue.py:93-129 | each answer exactly in its case; what is stored and quarantined for each language; nothing else changes |
| TranslationEffects.SavedTranslationIsShown | events/content_translation.py:255-266 | after a saved submission each language that passed is shown, in its normal form, until the hash of the source changes |
| TranslationEffects.ManualTranslationStays | events/translation_queue.py:93-129 | a manual translation survives any submission and is shown iff it bears the hash of the source |
| Translation.NoTextIsSavedTwiceRunning | events/translation_queue.py:93-129 | over all histories a source is saved again only after another hash was saved in between |
| Translation.DisplayedTranslationIsNeverStale | events/content_translation.py:255-266 | over all histories, a displayed translation passed quarantine against a source with the current hash, and against the current source itself if that holds no separator |
| Translation.StaleTranslationIsDisplayed | events/content_translation.py:61-65 | a current source can be shown with the translation of another one iff it holds a separator, given texts that pass quarantine for the other one |
| TranslationFlow.PendingEvents | events/translation_queue.py:29-51 | the loop returns the first pending events with their hashes |
| TranslationEffects.WaitingEventsAreListed | events/translation_queue.py:29-51 | exactly the published events without a manual or a current translation wait, in id order, with their hashes |
| TranslationEffects.TwentyAreHandedOut | events/translation_queue.py:29-51 | the first 20 of them are handed out |
| TranslationEffects.TryDoesThis | local_runner/translation_flow.py:128-142 | what each answer makes of the event, the counts, the record of failures and the end of the batch |
| TranslationEffects.BatchTriesInOrder | local_runner/translation_flow.py:145-181 | a batch tries the handed-out events that failed less than twice, in order, each once, up to the limit, and stops early only when a try stops it |
| TranslationFlow.Runner.TranslateOne | local_runner/translation_flow.py:128-142 | what one submission does at the server and whether it counts as success |
| TranslationFlow.Runner.TranslatePendingBatch | local_runner/translation_flow.py:145-181 | a batch of tries: skips, counts, forgiven keys, and the stop on an outage |
| TranslationFlow.RetriesAreBounded | local_runner/translation_flow.py:145-181 | over all batches, whatever staff change and whatever replies get lost, no (event, hash) has more than two recorded failures since its last success, and a batch makes at most `limit` attempts |
| TranslationFlow.EveryBatchMakesProgress | local_runner/translation_flow.py:145-181 | a batch without edits and without abort reduces the remaining budget iff some fetched event is not given up, and never adds to it |
| TranslationFlow.EveryEventEndsTranslatedOrGivenUp | local_runner/translation_flow.py:145-181 | after as many such batches as there is budget, every pending event is translated or given up iff each batch began with something to try or with everything settled |
| TranslationFlow.WithFewGivenUpEveryEventEnds | events/translation_queue.py:29-51 | fewer than 20 given-up events at the start of each batch are enough for that |
| TranslationFlow.GivenUpEventsStarveTheRest | events/translation_queue.py:29-51 | when all fetched events are given up a batch does nothing at all |
| TranslationFlow.StarvationLasts | events/translation_queue.py:29-51 | from then on no batch does anything until staff change an event |
| PromptFrame.StripDelimiterLiterals | drafts/llm_extraction.py:106-113 | the nested loops end and compute the fixpoint |
| PromptFrame.StrippedIsClean | drafts/llm_extraction.py:106-113 | the result is free of literals, a subsequence of the input, and the input itself iff that was clean |
| PromptFrame.StrippingReadsOnce | drafts/llm_extraction.py:106-113 | the passes come to one reading from left to right that drops a tag as soon as it is complete |
| PromptFrame.AnyTagMayGoFirst | drafts/llm_extraction.py:106-113 | the order of the removals does not matter: with any one occurrence of a tag removed first, the result is the same |
| PromptFrame.CleanPageIsPassedOn | drafts/llm_extraction.py:116-127 | clean titles and texts reach the prompt as their first 255 and 8000 characters; only the first 510 and 16000 count |
| PromptFrame.DelimitersMakeNoDifference | drafts/llm_extraction.py:116-127 | a delimiter among those makes no difference to what reaches the prompt |
| PromptFrame.UserContentInFull | drafts/llm_extraction.py:130-134 | the whole prompt |
| PromptFrame.EachDelimiterOccursOnce | drafts/llm_extraction.py:116-134 | after truncation each of the four delimiters occurs in the prompt at exactly one place |
| PromptFrame.FrameIsUnambiguous | drafts/llm_extraction.py:130-134 | cutting at the delimiters gives back exactly the scoped title and text |
| PromptFrame.ScopedFieldIsHarmless | local_runner/translation_flow.py:35-42 | a field of an event enters the translation prompt without its tags, and unchanged if it was clean and short |
| PromptFrame.FieldIsCutThenStripped | local_runner/translation_flow.py:35-42 | only the first 4000 characters of a field count, and a tag among them makes no difference |
| PromptFrame.OrdinaryEventIsPassedOn | local_runner/translation_flow.py:45-49 | clean fields stand in the prompt as they are, each behind its name |
| PromptFrame.EachTagOccursOnce | local_runner/translation_flow.py:45-72 | each of the two tags occurs in the whole translation prompt at exactly one place |
| PromptFrame.TranslationFrameIsUnambiguous | local_runner/translation_flow.py:45-72 | cutting the prompt at its tags gives back exactly the block of labelled fields |
| ActivityCalendar.OneMonthEach | archive/activity_calendar_queries.py:89-92 | every date lies in exactly one month |
| ActivityCalendar.GoodsAcquiredItems | archive/activity_calendar_queries.py:141-154 | the loop lists the goods of a month |
| ActivityCalendar.LogEntryItems | archive/activity_calendar_queries.py:157-193 | the loop lists the log entries of a month |
| ActivityCalendar.InterestAddedFallbackItems | archive/activity_calendar_queries.py:196-225 | the loop lists the interests that have no log entry |
| ActivityCalendar.InListForMonth | archive/activity_calendar_queries.py:228-250 | what a month lists, source by source, for the wanted kinds |
| ActivityCalendar.AMonthListsWhatTheRowsShow | archive/activity_calendar_queries.py:95-250 | an item is listed iff a row calls for it, with each of the five forms said of the row: spans overlap the month, goods stand at the day they were acquired or else entered, interests only without a log row |
| ActivityCalendar.OneItemAnEvent | archive/activity_calendar_queries.py:95-124 | one more planned event puts exactly its item into the list, or none |
| ActivityCalendar.OneItemAVisit | archive/activity_calendar_queries.py:127-138 | the same for a visit |
| ActivityCalendar.OneItemAGoodsRow | archive/activity_calendar_queries.py:141-154 | the same for an item of the collection |
| ActivityCalendar.OneItemALogRow | archive/activity_calendar_queries.py:157-193 | the same for a log row |
| ActivityCalendar.OneItemAnInterest | archive/activity_calendar_queries.py:196-225 | the same for an interest |
| ActivityCalendar.MatchesAreListed | archive/activity_calendar_queries.py:253-334 | a source yields a match date iff some month lists a matching item on it |
| ActivityCalendar.SearchEqualsBruteForce | archive/activity_calendar_queries.py:337-376 | the search is the latest date over all months of a listed item that matches, and none iff there is none |
| ActivityCalendar.TheSearchFindsWhatIsShown | archive/activity_calendar_queries.py:337-376 | nothing for a blank query, otherwise the latest date among the items that the rows call for and that match |
| PythonText.StripIsExact | archive/activity_calendar_queries.py:337-376 | stripping takes off exactly the white space at the two ends |
| ActivityCalendar.EventIsFoundAtItsStart | archive/activity_calendar_queries.py:253-264 | a planned event that matches is found at its start, whatever its end |
| ActivityCalendar.ReversedEventIsNotListed | events/services.py:80-81 | some month lists an event iff its end is not before the month of its start: why the period check is needed |

## Left out

- HTTP, views, serializers, templates, permissions, pagination, the staff console and the JavaScript: plumbing and display.
- Fetching, DNS, robots.txt, parsing, the language model and subprocesses: their results are inputs. The verdict of a validation between two locked sections is arbitrary, which covers the checks made there (reuse of a recent failure, duplicates).
- The clock is read once for each locked section; reads a moment apart inside one section are not told apart.
- Exceptions that Python itself raises on odd values (an unhashable outcome, a URL that cannot be split while tracking parameters are removed) are not modelled on the server side.
- URLs: the removal of tracking parameters is one arbitrary function, and a draft is known by the URL it leaves. Field checks and the intake note of a submitted draft, and the first drafts made after a promotion, are not part of this model.
- Heartbeat phases and details; only the two times that decide whether the runner is online are kept.
- The interpreter's output carries no source URL of its own, so an event is submitted under the URL it was found at.
- Message sanitising, e-mail masking, and the hourly limit on new groups, which rests on the cache's expiry and is not a bound.
- The rules that quarantine a translated field are one arbitrary predicate over the language and the texts.
- TranslationFlow.Queue: events are rows with fixed positions; an event that is written later is an unpublished row until then.
- Palette slots: the release rule is not kept by every step that changes a category.
- Interests, personal-entry fields, nicknames and account flags: mostly easy members. Deleting a user, which takes all rows along, is not modelled.
- Visit records, items and statuses written before the activity log existed may lack log entries; the archive's runs start from tables in which each token is logged, such as the empty ones.
- Analytics rows and the deletion of image files on commit: best effort, no part of the invariants.
- `mark_missed` and `revert_to_planned` look for a visit record before they take any lock; agreement is claimed for whole calls only.
- ArchiveTables.Db: a status row is keyed by user and subject, which its unique constraints guarantee, instead of its own id; how that uniqueness survives concurrent inserts is the subject of StatusRace.
- Foreign keys checked at commit: a row that vanishes between the view's lookup and the service call is answered as not found.
- PhotoUpload.World: a photo becomes visible with its commit, and the deletion of a record with its photos is one step that waits for the lock.
- ErrorGroups.Group: the columns for the error type and location are the parts of the key; `record_error` swallowing its own exceptions is not modelled.
