# Verified model of the desktop backend's job registry and archive index

This project models, in Dafny, two stateful components of the Tauri backend and proves what they promise.

**The job registry** (`src-tauri/src/job_registry.rs`, with the delivery loop of accepted jobs in
`src-tauri/src/commands.rs`). `JobLifecycle` is one job: its status machine, worker gate, stopwatch and published
snapshots, with every operation as a function of the record and the clock. `JobTable` and `SubscriptionTable` hold
what must be true of the tables of jobs and of subscriptions; `RegistryState` puts them together as one value and
shows that each kind of step keeps it sound; `JobRegistry` is the class whose methods are the critical sections,
proved against those functions, and `RegistryRuns` is about any sequence of them. `SubscriptionProtocol` is the
snapshot delivery protocol (`forward_latest_values` and `acknowledge_subscription`) as a transition system whose steps
are the single lock sections, so every interleaving of publisher, forwarding task and client is a run. `AcceptedFeed`
does the same for the feed of accepted jobs.

**The archive index** (`src-tauri/src/archive_index.rs`, `src-tauri/src/archive_selection.rs`). `TreeIndex` and
`ArchiveIndexing` are the incremental construction of the tree index with its synthesised folders and memory budget;
`NaturalOrder` and `EntryOrder` the orders listings are sorted by; `Paging` and `Browsing` the cursors and the paged,
sorted answers; `PathKeys` and `DragSelection` path sets and the two ways of resolving a drag; `IndexSessions` the
registry of sessions, and `IndexWorkers` every interleaving of their workers with their closing. `Decimal`,
`StringOrder`, `ArchiveTypes` and `Wrappers` are shared vocabulary.

Check everything with `dafny verify dfyconfig.toml`.

## Reading the model

- A method of a class is one critical section of the source; `Valid()` (or `ValidTables()`, `ValidFeed()`) is what
  every one of them keeps, from the constructor on, so it holds in every reachable state.
- Clock readings are parameters. An operation on a job reads the clock twice: `now` in `publish_record`, `later` when
  the snapshot is built. Instants are nanoseconds and durations are not bounded by 64-bit seconds.
- The 64-bit counters that number jobs, snapshots, catalogs, acceptances, subscriptions and finished jobs stay bounded:
  running out is modelled as the source treats it, and theorems that need a counter say so.
- Revisions that the source carries as decimal strings are numbers, except in cursors, job, session and subscription
  ids, and the catalog, where their text matters.
- The lower-case mapping of characters beyond ASCII is a parameter (`CaseTable`, and `lower` in searches), and so is
  the hash that signs cursors (`Signer`).
- Sorting with the standard library is modelled by a sort that always permutes and, where the comparison is transitive,
  sorts; then a correct sort has only one result.

- Where a method is proved against a function, that function's answer is also stated in plain terms: what a snapshot,
  a catalog line, an indexed entry or an outcome shows is written field by field (`Shows`, `Describes`, `Represents`,
  `ReportsOutcome`), and what an operation makes of a job by its kind and the job's status alone (`EndsAs`,
  `CoreMakes`, `RequestMakes`).

## Where the naive claim is false

- `job_registry.rs:1039`: a direct `Paused` event pauses a job in any status that is not terminal, one being cancelled
  included. `CancelStepIff` and `GateStepIff` say exactly when that loses a cancellation or leaves the worker gate
  wrong; `DirectPauseLosesCancel` shows every pending cancellation can be lost so. No caller in the repository emits
  one.
- `job_registry.rs:167-174`: handling an acknowledgement takes the flow lock twice, and a second acknowledgement of the
  same revision between the two stays queued. It ends delivery exactly when a newer value is current by then, or is
  taken while it is queued: `HopelessStepIff`. Then at most one more value is delivered, in any run (`HopelessForever`,
  with `DuplicateInWindowStrands` as an example); otherwise the duplicate is handled without harm (`OthersSettle`).
- `job_registry.rs:1096`: when terminal sequence numbers run out, `commit_completed` has already ended the job but
  publishes nothing, so no finish time is recorded: `TimeStepIff`.
- `archive_index.rs:796-805`: the ratio comparison is that of the fractions unless different cross products both
  saturate (`RatioExactIff`), and it is transitive exactly when no ratio tells two tied ones apart (`RatiosChainIff`).
  What breaks that is saturation (`SaturationLosesOrder`) and an entry of size zero packed to zero, which ties with
  every other (`ExactRatiosChainIff`).
- `archive_index.rs:834-838`: a text that is no timestamp can stand between timestamps against their order:
  `StampsChainIff`, `MixedStampsCycle`; `StampsTransitiveIff` says exactly which entries can still be sorted.
- `archive_index.rs:726-728`: a search skips a path that is shorter in bytes than the query, although its lower-cased
  text may be longer: `SearchIsSubstring` says exactly what is found, `LongerLowercaseIsMissed` what is not.
- `archive_index.rs:608-612`: an entry refused for its metadata leaves its child links behind. The listing of a folder
  filters them out, so `ListingIsExact` holds all the same.
- `archive_index.rs:365-453` and `commands.rs:2638-2686`: the index stores file copies as files, skips a file whose
  path has no segments and keeps the last of several entries with one key; the fresh listing drops copies and drags out
  all the others: `FilesAgreeIff`, `AnswersDifferByImpliedFolders`.

## Model

| member | source | states |
|---|---|---|
| SubscriptionProtocol.Acknowledge | src-tauri/src/job_registry.rs:524-544 | refused exactly when something is in flight and the revision exceeds it, or when it is the first acknowledgement of the revision in flight and the channel has no room; every other acknowledgement is answered with success, and only that first one is queued and raises the flag |
| SubscriptionProtocol.InitInvariant | src-tauri/src/job_registry.rs:148-159 | a new forwarder satisfies the invariant that ties the flow, the channel, the forwarder's position and the three histories together |
| SubscriptionProtocol.StepKeepsInvariant | src-tauri/src/job_registry.rs:138-196 | every step of publisher, forwarder and client but a duplicate acknowledgement inside the two-lock window keeps the invariant |
| SubscriptionProtocol.StepKeepsInvariantIff | src-tauri/src/job_registry.rs:164-177 | of the invariant, its account of acknowledgements included, the duplicate in the window is the only step that breaks it, and always does; what it does to delivery is stated from EveryRunIsTracked on |
| SubscriptionProtocol.RunKeepsInvariant | src-tauri/src/job_registry.rs:138-196 | so every run without such a duplicate keeps the invariant |
| SubscriptionProtocol.AcksOnceAvoidsWindow | src-tauri/src/job_registry.rs:524-544 | a client that acknowledges no revision twice never produces the duplicate, from any state of the invariant |
| SubscriptionProtocol.AcksOnceKeepsInvariant | src-tauri/src/job_registry.rs:524-544 | so every state such a client reaches from the start satisfies the invariant |
| SubscriptionProtocol.StepIsSafe | src-tauri/src/job_registry.rs:138-196 | every step, whatever the client acknowledges, keeps: claims strictly increase, all but the last are acknowledged, a task that may put another in flight has the last acknowledged, and the channel has room |
| SubscriptionProtocol.RunIsSafe | src-tauri/src/job_registry.rs:138-196 | so does every run |
| SubscriptionProtocol.DeliverySafety | src-tauri/src/job_registry.rs:138-196 | for every interleaving and every client, duplicates in the window included: deliveries strictly increase, all but the last were acknowledged, nothing in flight means the current value was the last delivered, the channel holds at most two commands, and an acknowledgement is refused exactly when something is in flight and it names a revision beyond all that were ever put in flight; any delivered revision can be acknowledged again |
| SubscriptionProtocol.StopAlwaysFits | src-tauri/src/job_registry.rs:546-556 | in every run, ending a subscription puts the stop into a running task's channel: it is never full |
| SubscriptionProtocol.StopEndsDelivery | src-tauri/src/job_registry.rs:161-195 | nothing is delivered after a stop is taken, in any run |
| SubscriptionProtocol.HandshakeFacts | src-tauri/src/job_registry.rs:164-177 | in states of the invariant: the queued flag is up exactly when the channel holds the acknowledgement of the revision in flight (or it was just taken), and the first acknowledgement of the revision in flight is never swallowed |
| SubscriptionProtocol.SettlingStepDecreases | src-tauri/src/job_registry.rs:161-195 | once publishing stops, every step the forwarder or an acknowledging client can take reduces the work left |
| SubscriptionProtocol.SettlingIsBounded | src-tauri/src/job_registry.rs:161-195 | so at most thirty steps and two sends remain, in any order, and none of them stops a live subscription |
| SubscriptionProtocol.SettlingProgress | src-tauri/src/job_registry.rs:161-195 | and until the protocol is quiet some such step is possible, at worst acknowledging the last delivery |
| SubscriptionProtocol.QuiescentHoldsNewest | src-tauri/src/job_registry.rs:161-195 | when it is quiet the client holds the publisher's newest snapshot |
| SubscriptionProtocol.SettlesToNewest | src-tauri/src/job_registry.rs:161-195 | from every live state of the invariant a run of such steps ends quiet, with the newest snapshot delivered last |
| SubscriptionProtocol.EveryRunIsTracked | src-tauri/src/job_registry.rs:138-196 | without any assumption about the client, every reachable state is regular, holds a surplus acknowledgement, or is doomed |
| SubscriptionProtocol.HopelessStepIff | src-tauri/src/job_registry.rs:164-177 | a live subscription becomes hopeless exactly by a duplicate in the window that finds a newer value current, or by a newer value taken while the surplus acknowledgement is queued |
| SubscriptionProtocol.HopelessForever | src-tauri/src/job_registry.rs:161-195 | a hopeless subscription delivers at most one more value and never comes to rest with the newest, in any run |
| SubscriptionProtocol.OthersSettle | src-tauri/src/job_registry.rs:161-195 | every other live subscription, duplicates or not, can still be brought to rest with the newest snapshot delivered last |
| SubscriptionProtocol.StrandedForever | src-tauri/src/job_registry.rs:164-177 | a subscription with its flag up and no acknowledgement queued never delivers again, whatever happens |
| SubscriptionProtocol.DuplicateInWindowStrands | src-tauri/src/job_registry.rs:164-177 | a concrete run in which the duplicate strands it |
| AcceptedFeed.ContiguousAppend | src-tauri/src/job_registry.rs:330-333 | an acceptance with the next revision keeps the queue contiguous |
| AcceptedFeed.DropAcknowledged | src-tauri/src/job_registry.rs:461-467 | acknowledging a queued revision leaves exactly the later acceptances, still contiguous |
| AcceptedFeed.InitFeed | src-tauri/src/commands.rs:2366-2371 | a subscriber that starts at or after the last acknowledgement satisfies the feed's invariant |
| AcceptedFeed.FeedStepIff | src-tauri/src/commands.rs:2372-2400 | every step of registry and loop keeps the invariant, except exactly an acknowledgement beyond what the loop is certain to send |
| AcceptedFeed.FeedRun | src-tauri/src/commands.rs:2372-2400 | every run in which acknowledgements stay within what was sent or is on its way keeps it |
| AcceptedFeed.FeedDelivers | src-tauri/src/commands.rs:2370-2402 | such a subscriber receives the acceptances after its start in order, once each, without gaps, and all of them whenever the loop waits with nothing unseen, although the channel conflates |
| AcceptedFeed.Drains | src-tauri/src/commands.rs:2372-2400 | while nothing is accepted or acknowledged the loop delivers everything and comes to rest after exactly the computed number of steps |
| AcceptedFeed.EarlyAckLoses | src-tauri/src/job_registry.rs:449-471 | an acknowledgement out of the loop's reach takes an undelivered acceptance out of the feed |
| AcceptedFeed.LostForever | src-tauri/src/commands.rs:2372-2400 | and no run delivers it any more |
| JobLifecycle.PublishingKeepsFacts | src-tauri/src/job_registry.rs:1211-1236 | publishing changes numbering, stopwatch and snapshot and nothing else |
| JobLifecycle.TerminalIsAbsorbing | src-tauri/src/job_registry.rs:576-711 | after a terminal status no run of operations changes the record: status, revision, summary and all |
| JobLifecycle.CancelStepIff | src-tauri/src/job_registry.rs:978-1060 | a pending cancellation survives an operation exactly when the operation is not a direct pause event on a live record |
| JobLifecycle.CancelIsKept | src-tauri/src/job_registry.rs:978-1101 | over every run without direct pauses it stays cancelling or becomes cancelled, without a summary |
| JobLifecycle.AcceptedCancelWins | src-tauri/src/job_registry.rs:576-622 | an accepted request cancels the token, opens the worker gate and wins over everything emitted later |
| JobLifecycle.DirectEventOutcome | src-tauri/src/job_registry.rs:978-1060 | from the kind of a direct event and the status alone: a job ends completed, failed or cancelled exactly when the event says so and it was not cancelling, cancelled when it was, and starts, pauses and resumes exactly as the event asks |
| JobLifecycle.DirectEventEffects | src-tauri/src/job_registry.rs:1000-1058 | a direct event changes the last failure only when the job fails, the summary only when it is cancelled, and nothing of the controls; a job that ends takes the number offered |
| JobLifecycle.CoreEventOutcome | src-tauri/src/job_registry.rs:908-975 | an event of the engine cancels, starts or leaves the status, sets the kind on a start, and keeps a failure with its message |
| JobLifecycle.RequestOutcomes | src-tauri/src/job_registry.rs:576-711 | what a cancel, pause and resume request makes of status, gate, token and remembered status, and what each leaves alone |
| JobLifecycle.CommitOutcome | src-tauri/src/job_registry.rs:1062-1101 | a commit completes a job with its summary, or cancels it without one if it was cancelling |
| JobLifecycle.ConfigureOutcome | src-tauri/src/job_registry.rs:398-417 | recovery facts are attached as given and change nothing else |
| JobLifecycle.EndsIff | src-tauri/src/job_registry.rs:908-1101 | for every operation on a live job and each terminal status: the job ends in it exactly when the operation is one that ends jobs so |
| JobLifecycle.EndHasCause | src-tauri/src/job_registry.rs:576-1101 | over every run that ends a job, one step ended it, and the status it ended in is that step's doing |
| JobLifecycle.DirectPauseLosesCancel | src-tauri/src/job_registry.rs:1039-1043 | a direct pause, a resume and a commit complete any job whose cancellation was accepted |
| JobLifecycle.StepKeepsLawful | src-tauri/src/job_registry.rs:1211-1289 | every operation keeps: a summary only on completed jobs, a pause remembers queued or running, a sequence number only after the end, and while no counter is exhausted the snapshot shows the record, field by field: id, kind, status, flags, failure, summary, and actions and artifacts exactly once completed |
| JobLifecycle.RunKeepsLawful | src-tauri/src/job_registry.rs:576-1101 | the same over every run |
| JobLifecycle.StepNumbersSnapshot | src-tauri/src/job_registry.rs:1227-1234 | an operation either publishes one snapshot with the next revision or leaves the last one in place |
| JobLifecycle.SnapshotsAreNumbered | src-tauri/src/job_registry.rs:1211-1240 | the snapshots of a run carry consecutive revisions |
| JobLifecycle.NewJobFacts | src-tauri/src/job_registry.rs:225-297 | a new job waits, with its id, kind and start, nothing attached, and a first snapshot that shows it |
| JobLifecycle.PublishesIff | src-tauri/src/job_registry.rs:1211-1240 | exactly which operations publish a snapshot: those on a live record with a revision left that change something or end it with a number |
| JobLifecycle.UnnumberedEnd | src-tauri/src/job_registry.rs:1048-1096 | a job that ends without a number is not announced; an event closes its publication, a commit does not |
| JobLifecycle.LastPublishedShows | src-tauri/src/job_registry.rs:1211-1289 | over every run, the last snapshot published from a record that is still current shows the record as it is then |
| JobLifecycle.FlagsPredictRequests | src-tauri/src/job_registry.rs:1249-1255 | the can-pause, can-resume and can-cancel flags of a current snapshot tell exactly which requests would change the job's status, and can-dismiss exactly when a cancellation would change nothing at all |
| JobLifecycle.RequestsPublishIff | src-tauri/src/job_registry.rs:576-711 | while revisions last, a request publishes a snapshot exactly when its flag is up, except that cancelling a job being cancelled publishes one too |
| JobLifecycle.FailureOutcome | src-tauri/src/job_dto.rs:251-268 | reporting a command error ends a job as cancelled exactly when it was being cancelled or the error is the cancellation, and exactly otherwise as failed, with the failure and a retry exactly when the error allows one |
| JobLifecycle.GateStepIff | src-tauri/src/job_registry.rs:1039-1043 | the worker gate is closed exactly while the job is paused, and only a direct pause or resumption at odds with the status breaks that |
| JobLifecycle.GateFollowsPause | src-tauri/src/job_registry.rs:576-711 | over every run without such events |
| JobLifecycle.ResumeUndoesPause | src-tauri/src/job_registry.rs:628-711 | a resume after a pause restores the status, opens the gate and leaves the active time where it was |
| JobLifecycle.ElapsedGrows | src-tauri/src/job_registry.rs:1256-1261 | between operations the active time grows with the clock exactly while the status counts: constant in a pause, frozen after the end |
| JobLifecycle.StepKeepsTime | src-tauri/src/job_registry.rs:1211-1226 | an operation changes no active time at its own instant |
| JobLifecycle.TimeStepIff | src-tauri/src/job_registry.rs:1096 | the stopwatch stays sound exactly unless the job ends without a sequence number |
| JobLifecycle.RunAccountsTime | src-tauri/src/job_registry.rs:1211-1261 | over every run under a nondecreasing clock the shown active time grows by the total length of the unpaused intervals |
| JobLifecycle.ElapsedIsActiveTime | src-tauri/src/job_registry.rs:1256-1261 | so from creation on it equals that total |
| JobLifecycle.SnapshotElapsedIsMonotone | src-tauri/src/job_registry.rs:1256-1261 | a published snapshot shows the active time at its own clock reading, and never less than the one it replaces |
| JobLifecycle.PublishedShowsForward | src-tauri/src/job_registry.rs:1211-1261 | over every run whose clock readings, those of snapshots included, never go back, the snapshots start at the active time of the start or above and never show less |
| JobLifecycle.PublishedElapsedIsMonotone | src-tauri/src/job_registry.rs:1256-1261 | so no snapshot of such a run shows less active time than any published before it |
| JobTable.ApplyNumbers | src-tauri/src/job_registry.rs:1242-1247 | an operation hands out at most one sequence number, to the job it ends, and a job has one exactly when it has ended unless the numbers ran out |
| JobTable.EditKeepsJobs | src-tauri/src/job_registry.rs:576-1101 | every operation on one job keeps the table: ids, laws of every record, distinct sequence numbers, at most 256 jobs |
| JobTable.NextJobIsFresh | src-tauri/src/job_registry.rs:226-227 | until the numbers run out the next job id was never issued and names no job in the table |
| JobTable.FindOldestEnded | src-tauri/src/job_registry.rs:1325-1329 | the eviction candidate is the numbered job that ended before all others |
| JobTable.EvictionStep | src-tauri/src/job_registry.rs:1324-1332 | one turn of eviction removes one ended job, keeps the table sound, and keeps only jobs that ended later than every one evicted |
| JobTable.EvictionCount | src-tauri/src/job_registry.rs:1323-1334 | a finished eviction leaves 99 ended jobs, or all that have no number if those are more |
| JobTable.EvictionIsDetermined | src-tauri/src/job_registry.rs:1323-1334 | two finished evictions of the same jobs leave the same jobs, numbered or not |
| JobTable.RetentionBound | src-tauri/src/job_registry.rs:1324 | while sequence numbers last, fewer than a hundred ended jobs remain when eviction stops |
| JobTable.QuietEditKeepsListing | src-tauri/src/job_registry.rs:970-974 | an operation that leaves the status, or exhausts the job's counters, leaves the published catalog true |
| JobTable.ListJobs | src-tauri/src/job_registry.rs:1303-1314 | the catalog lists exactly the jobs of the table in ascending id order, each line with the id, revision, kind, status and end of its job |
| JobTable.AscendingIsUnique | src-tauri/src/job_registry.rs:1314 | there is only one such order |
| SubscriptionTable.NextIdIsFresh | src-tauri/src/job_registry.rs:440-441 | a new subscription id names no live subscription |
| SubscriptionTable.SubscriptionIdInjective | src-tauri/src/job_registry.rs:440-441 | ids made from different numbers differ, so none is ever reused |
| SubscriptionTable.RegisterKeepsTable | src-tauri/src/job_registry.rs:481-498 | a registration within the limits keeps them: 512 in all, 16 a job, owners and live jobs |
| SubscriptionTable.ShrinkKeepsTable | src-tauri/src/job_registry.rs:546-574 | removals keep them, as long as followed jobs stay |
| SubscriptionTable.LeavingKeepsTable | src-tauri/src/job_registry.rs:1336-1348 | jobs that leave take their subscriptions along, so no subscription outlives its job |
| SubscriptionTable.RemoveAll | src-tauri/src/job_registry.rs:566-572 | the removal loop removes exactly the collected ids |
| RegistryState.CatalogAdvances | src-tauri/src/job_registry.rs:1296-1302 | catalogs replace each other only with strictly larger revisions |
| RegistryState.CatalogIsTrue | src-tauri/src/job_registry.rs:1292-1317 | in every sound state whose catalog is not closed, the catalog names exactly the live jobs, in ascending order, each with its current status, and its kind at the revision shown, unless a counter of that job is exhausted |
| RegistryState.AnnouncedIff | src-tauri/src/job_registry.rs:964-974 | while catalog revisions last, an operation publishes the catalog again exactly when it publishes a snapshot and, if it is an event of the job's work, changes the status |
| RegistryState.SubscriptionsAreLive | src-tauri/src/job_registry.rs:429-522 | every job subscription names a live job and belongs to its task window, every other to the main window, within the limits |
| RegistryState.EndedJobIsFrozen | src-tauri/src/job_registry.rs:576-1101 | an operation on an ended job changes nothing at all in the registry |
| JobLifecycle.UnpublishedIsQuiet | src-tauri/src/job_registry.rs:964-974 | an operation that publishes no snapshot changes nothing, or leaves the record without a claim to be current |
| RegistryState.EditKeepsSound | src-tauri/src/job_registry.rs:576-1101 | every operation on one job keeps jobs, catalog and subscriptions sound together |
| RegistryState.AdmissionKeepsSound | src-tauri/src/job_registry.rs:225-297 | an admission after eviction keeps them sound |
| RegistryState.RefusalUndoesAdmission | src-tauri/src/job_registry.rs:291-294 | taking the refused job out again leaves exactly the jobs that were kept |
| RegistryState.RefusalKeepsSound | src-tauri/src/job_registry.rs:291-294 | so does an admission undone because the catalog cannot be published |
| RegistryState.CapacityKeepsSound | src-tauri/src/job_registry.rs:231-234 | a refusal for want of room never follows an eviction and changes the job counter alone |
| RegistryState.DismissalKeepsSound | src-tauri/src/job_registry.rs:361-375 | a dismissal keeps them sound |
| RegistryState.DismissFlag | src-tauri/src/job_registry.rs:1249-1255 | in every sound state the can-dismiss flag of a current snapshot says whether a dismissal would remove the job |
| RegistryState.RegistrationKeepsSound | src-tauri/src/job_registry.rs:429-522 | a registration keeps them sound and takes an unused id |
| RegistryRuns.SectionKeepsSound | src-tauri/src/job_registry.rs:225-1101 | every critical section keeps jobs, catalog and subscriptions sound |
| RegistryRuns.RunKeepsSound | src-tauri/src/job_registry.rs:225-1101 | so does every run of them |
| RegistryRuns.CatalogsAdvance | src-tauri/src/job_registry.rs:1292-1317 | over every run the catalog stays or gets a larger revision, and stays closed once closed |
| RegistryRuns.SectionFollows | src-tauri/src/job_registry.rs:225-1101 | a critical section changes a job by an operation on it or not at all, removes it only after its end, and never brings an id back |
| RegistryRuns.JobIdsAreNotReused | src-tauri/src/job_registry.rs:226-227 | over every run a job id that left the table never returns while ids last |
| RegistryRuns.SubscriptionIdsAreNotReused | src-tauri/src/job_registry.rs:440-441 | over every run a subscription id that left the table never returns |
| RegistryRuns.JobHistory | src-tauri/src/job_registry.rs:225-1101 | over every run a job goes through exactly the operations performed on it, so every theorem about a job's runs holds in the registry |
| RegistryRuns.SubscriptionHistory | src-tauri/src/job_registry.rs:1336-1348 | over every run a subscription to a job lives exactly as long as the job, unless it is dropped, and keeps its owner and what it follows |
| RegistryRuns.OnlyEndedJobsLeave | src-tauri/src/job_registry.rs:361-375 | over every run a job leaves the table only after those operations ended it |
| RegistryRuns.CancelledJobStaysCancelled | src-tauri/src/job_registry.rs:576-622 | over every run without direct pauses of it, a job whose cancellation was accepted stays cancelling or becomes cancelled, without a summary |
| RegistryRuns.EndedJobStaysAsItEnded | src-tauri/src/job_registry.rs:576-1101 | over every run an ended job stays as it ended, status, revision, summary and all |
| JobRegistry.SettleStep | src-tauri/src/job_registry.rs:1215-1226 | the bookkeeping of pauses and finish, step by step, is the function the time theorems are about |
| JobRegistry.PublishStep | src-tauri/src/job_registry.rs:1211-1236 | publishing a record step by step is the function the snapshot theorems are about, exhaustion included; what the snapshot then shows is in StepKeepsLawful |
| JobRegistry.DirectStep | src-tauri/src/job_registry.rs:987-1045 | the status transition of a direct event, with the rewriting of an end into a cancellation, is the function DirectEventOutcome is about |
| JobRegistry.JobRegistry.constructor | src-tauri/src/job_registry.rs:199-217 | the empty registry is valid |
| JobRegistry.JobRegistry.PublishCatalog | src-tauri/src/job_registry.rs:1292-1317 | the next revision with a list of exactly the jobs, each line its job's id, revision, kind and status; or the end of catalog publication |
| JobRegistry.JobRegistry.AllocateTerminalSequence | src-tauri/src/job_registry.rs:1242-1247 | the next number, or none once they ran out |
| JobRegistry.JobRegistry.CancelJobSubscriptions | src-tauri/src/job_registry.rs:1336-1348 | exactly the subscriptions to the job go |
| JobRegistry.JobRegistry.EvictOldestTerminalJobs | src-tauri/src/job_registry.rs:1323-1334 | eviction terminates, removes ended jobs only, earliest first and with their subscriptions, never below 99, and stops only when it cannot go on |
| JobRegistry.JobRegistry.TakeJobId | src-tauri/src/job_registry.rs:226-227 | job ids are the numbers in order, written in decimal, until they saturate |
| JobRegistry.JobRegistry.TryCreateUnpublishedJob | src-tauri/src/job_registry.rs:225-297 | refused for capacity exactly when 256 jobs are held and eviction cannot help; otherwise the whole new registry, as a run of one section: admitted under a new id beside the retained jobs, with at most 99 ended ones, and announced, or taken out again when the catalog is exhausted |
| JobRegistry.JobRegistry.TryAcceptJob | src-tauri/src/job_registry.rs:324-336 | refused for capacity exactly when 256 jobs are held and eviction cannot help; otherwise the whole new registry is that of the admission or of its refusal, an accepted job takes the next acceptance revision and the end of the queue, and a refusal leaves the feed alone |
| JobRegistry.JobRegistry.RemoveJobIfTerminal | src-tauri/src/job_registry.rs:361-375 | exactly the ended jobs, those whose current snapshot allows it, are dismissed, with their subscriptions, and the catalog follows |
| JobRegistry.JobRegistry.ConfigureRecoveryFacts | src-tauri/src/job_registry.rs:398-417 | the record and the catalog; refused exactly for an ended or closed record, or for the counter that is exhausted |
| JobRegistry.JobRegistry.RequestCancel | src-tauri/src/job_registry.rs:576-622 | the whole new registry; answered with the job's new status and revision exactly when the job had ended, or its revision and the catalog's were not exhausted |
| JobRegistry.JobRegistry.RequestPause | src-tauri/src/job_registry.rs:628-671 | the whole new registry; only a queued or running job is paused, and any other answers with what it is; no answer exactly when a counter is exhausted |
| JobRegistry.JobRegistry.RequestResume | src-tauri/src/job_registry.rs:673-711 | the whole new registry; only a paused job is resumed, and any other answers with what it is; no answer exactly when a counter is exhausted |
| JobRegistry.JobRegistry.EmitJobEvent | src-tauri/src/job_registry.rs:908-975 | the whole new registry: core completions and failures are published but end no job, a core cancellation does |
| JobRegistry.JobRegistry.EmitDirectEvent | src-tauri/src/job_registry.rs:978-1060 | the whole new registry, with the catalog announced exactly when the status changed or the job ended |
| JobRegistry.JobRegistry.FinishEvent | src-tauri/src/job_registry.rs:1048-1058 | an ended job is numbered before it is published, or closed when numbers ran out |
| JobRegistry.JobRegistry.CommitCompleted | src-tauri/src/job_registry.rs:1062-1101 | the whole new registry; success for an ended job, and otherwise exactly unless a counter is exhausted, with the error of the first that is |
| JobRegistry.JobRegistry.RegisterMainSubscription | src-tauri/src/job_registry.rs:429-447 | the feed of accepted jobs (and the catalog, lines 503-522) can be followed by the main window only, within the limit, each refusal exactly when it is due; the returned id is that of the next number, unused before (until job ids run out) and now of this subscription |
| JobRegistry.JobRegistry.RegisterJobSubscription | src-tauri/src/job_registry.rs:474-500 | a live job can be followed by its task window only, within both limits, each refusal by an equivalence and in order; the returned id is that of the next number, unused before (until job ids run out) and now of this subscription |
| JobRegistry.JobRegistry.AcknowledgeSubscription | src-tauri/src/job_registry.rs:524-544 | only the owner's acknowledgement counts; it is refused exactly when something is in flight and the revision exceeds it, or for want of room for the first one of the revision in flight; only that one changes the subscription, and only by its flag and one command |
| JobRegistry.JobRegistry.Unsubscribe | src-tauri/src/job_registry.rs:546-556 | exactly the owner can end a subscription, and each refusal exactly when it is due |
| JobRegistry.JobRegistry.CleanupSubscription | src-tauri/src/job_registry.rs:558-562 | exactly that subscription goes |
| JobRegistry.JobRegistry.CleanupOwnerSubscriptions | src-tauri/src/job_registry.rs:564-574 | exactly the window's subscriptions go |
| JobRegistry.JobRegistry.AcknowledgeAcceptedJob | src-tauri/src/job_registry.rs:449-471 | accepted exactly from the main window for a queued job and revision; then exactly the later acceptances remain queued |
| NaturalOrder.AsciiFold | src-tauri/src/archive_index.rs:918-969 | lower-casing ASCII text keeps its length |
| NaturalOrder.CapitalsAreLowered | src-tauri/src/archive_index.rs:918-969 | exactly the twenty-six capitals change, each to its small letter |
| NaturalOrder.FoldOfAscii | src-tauri/src/archive_index.rs:855-862 | on ASCII text the byte folding and the character folding agree |
| NaturalOrder.TextReversal | src-tauri/src/archive_index.rs:855-916 | swapping the texts reverses the comparison |
| NaturalOrder.TextEqual | src-tauri/src/archive_index.rs:855-916 | only equal folded texts tie |
| NaturalOrder.TextChains | src-tauri/src/archive_index.rs:855-916 | the comparison is transitive |
| NaturalOrder.NaturalOrderLaws | src-tauri/src/archive_index.rs:855-916 | natural comparison is a total preorder whose ties are exactly the texts that are equal in lower case |
| NaturalOrder.AlignedRunsDecide | src-tauri/src/archive_index.rs:870-905 | after a common prefix that cuts no number, different digit runs decide exactly by unbounded decimal value, then by length |
| NaturalOrder.CharactersDecide | src-tauri/src/archive_index.rs:855-916 | after a common prefix different characters decide by code point, unless both are digits or one continues a number the other ends |
| NaturalOrder.PrefixComesFirst | src-tauri/src/archive_index.rs:855-916 | a text comes before every longer one that starts with it, even one that continues its last number |
| NaturalOrder.CompareDigitRuns | src-tauri/src/archive_index.rs:870-905 | the zero-skipping, pairwise and counting loops together compare two runs by value and length |
| NaturalOrder.WalkPairs | src-tauri/src/archive_index.rs:880-890 | the first differing digit of two equally long stretches orders their values |
| NaturalOrder.NaturalCmpAscii | src-tauri/src/archive_index.rs:918-969 | the two-index byte loop computes the comparison of the folded texts; its indices agree at every turn |
| NaturalOrder.NaturalCmpStreams | src-tauri/src/archive_index.rs:863-916 | the character loop computes the same comparison |
| NaturalOrder.NaturalCmp | src-tauri/src/archive_index.rs:855-916 | whichever loop runs, the answer is the one order |
| Decimal.LongerIsLarger | src-tauri/src/archive_index.rs:870-905 | without leading zeros the longer numeral is the larger number |
| Decimal.ToDecimal | src-tauri/src/archive_index.rs:989 | the numeral of a number denotes it, without leading zeros |
| Decimal.ParseInvertsToDecimal | src-tauri/src/archive_index.rs:999-1001 | parsing a printed 64-bit number gives it back |
| Decimal.ParseUnsignedIff | src-tauri/src/archive_index.rs:999-1001 | exactly the numerals up to the limit are parsed, with or without a plus sign |
| EntryOrder.ParseEpochTimestamp | src-tauri/src/archive_index.rs:841-853 | the parser returns exactly the signed decimal value times ten to the ninth, or none when it is no numeral or does not fit 128 bits |
| EntryOrder.InstantOfNumeral | src-tauri/src/archive_index.rs:841-853 | every decimal numeral, signed or not, with at most nine fractional digits denotes its seconds and fraction in nanoseconds, both with its sign, as far as 128 bits reach |
| EntryOrder.OnlyNumeralsAreInstants | src-tauri/src/archive_index.rs:841-853 | no other text denotes an instant |
| EntryOrder.FractionNanos | src-tauri/src/archive_index.rs:848-851 | the scaling loop pads the fraction to nine digits |
| EntryOrder.AddNanos | src-tauri/src/archive_index.rs:852 | the two checked operations give the exact sum or none |
| EntryOrder.HalfSecondBeforeEpoch | src-tauri/src/archive_index.rs:843-852 | "-0.5" is half a second before the epoch |
| EntryOrder.StampsChainIff | src-tauri/src/archive_index.rs:834-838 | timestamps are ordered transitively exactly when no other text stands between two of them against their order |
| EntryOrder.MixedStampsCycle | src-tauri/src/archive_index.rs:834-838 | "9" < "10" < "1x" < "9" |
| EntryOrder.RatioOutcomes | src-tauri/src/archive_index.rs:796-805 | two ratios tie exactly when their cross products are equal or both saturate, and otherwise the smaller, unsaturated product comes first |
| EntryOrder.RatioExactIff | src-tauri/src/archive_index.rs:796-805 | the comparison of two ratios is that of the fractions exactly unless different cross products both saturate |
| EntryOrder.RatiosChainIff | src-tauri/src/archive_index.rs:796-805 | for every set of ratios, the comparison is transitive exactly when no ratio tells two tied ones apart |
| EntryOrder.ExactRatiosChainIff | src-tauri/src/archive_index.rs:796-805 | where every two compare as fractions, that is exactly when no entry is zero by zero or all tie |
| EntryOrder.SaturationLosesOrder | src-tauri/src/archive_index.rs:796-805 | saturated products tie different ratios against a third |
| EntryOrder.ValueChains | src-tauri/src/archive_index.rs:749-784 | every column compares transitively; timestamps and ratios where ties agree, all others on all entries |
| EntryOrder.EntryReversal | src-tauri/src/archive_index.rs:749-784 | swapping entries reverses their comparison, and only equal paths tie |
| EntryOrder.EntryChains | src-tauri/src/archive_index.rs:749-784 | the whole comparison, folders first and ties broken, is transitive in both directions where the column is so among folders and among the other entries |
| EntryOrder.SortIsStrictTotalOrder | src-tauri/src/archive_index.rs:749-784 | on such entries with distinct paths it is a strict total order for every key, ascending and descending |
| EntryOrder.StampsTransitiveIff | src-tauri/src/archive_index.rs:749-784 | for each timestamp column and direction, the whole comparison is transitive on entries exactly when any two with a text between their timestamps that is none are themselves ordered as the texts are |
| EntryOrder.ColumnDecides | src-tauri/src/archive_index.rs:749-784 | for all twenty-one keys and both directions: folders first, then what the column puts first, absent values last when it ascends, then the name and the path, which do not turn around |
| EntryOrder.ParseInvertsKeyName | src-tauri/src/archive_index.rs:749-784 | a request text asks for a column exactly when it is the column's name; every other text asks for the order by name |
| EntryOrder.NameFollowsLastSlash | src-tauri/src/archive_index.rs:971-973 | the name of an entry is what follows the last slash of its path |
| PathKeys.NormalizationsAgree | src-tauri/src/archive_index.rs:975-977 | normalising a path and taking its key are the same function, and give the join of its segments |
| PathKeys.SegmentLaws | src-tauri/src/archive_index.rs:975-977 | the segments of a path are those before and after any slash or backslash, and of a text without either itself, unless it is empty or a point |
| PathKeys.KeyRoundTrip | src-tauri/src/archive_selection.rs:11-13 | taking a key is idempotent |
| PathKeys.SegmentsOfJoin | src-tauri/src/archive_selection.rs:11-13 | clean segments survive joining and splitting |
| PathKeys.SplitOfJoin | src-tauri/src/archive_index.rs:638 | splitting a key at slashes inverts joining |
| PathKeys.JoinedIsKey | src-tauri/src/archive_selection.rs:11-13 | joined clean segments are a key |
| PathKeys.WithinIsSegmentPrefix | src-tauri/src/archive_selection.rs:69-71 | on keys, the textual test is exactly a nonempty prefix of the segments |
| PathKeys.CoveredContents | src-tauri/src/archive_selection.rs:33-36 | the selection holds exactly the covered entries |
| PathKeys.Select | src-tauri/src/archive_selection.rs:44-66 | the covered entries in listing order once each, or the first request that covers nothing |
| PathKeys.MarkRoots | src-tauri/src/archive_selection.rs:49-55 | the inner loop marks exactly the roots that cover the key |
| TreeIndex.GrowthKeepsShape | src-tauri/src/archive_index.rs:632-695 | linking a path and creating its folders keeps the tree well formed at every prefix |
| TreeIndex.FoldersAlongContents | src-tauri/src/archive_index.rs:661-690 | the folders created are exactly the missing prefixes down to the given depth |
| TreeIndex.LinkAlongContents | src-tauri/src/archive_index.rs:642-660 | the links added are exactly those between consecutive prefixes |
| TreeIndex.ListingIsExact | src-tauri/src/archive_index.rs:243-244 | the filtered child listing of a folder is exactly the indexed paths whose parent it is |
| TreeIndex.AncestorsAreIndexed | src-tauri/src/archive_index.rs:632-695 | every proper ancestor of an indexed path is indexed |
| TreeIndex.ReachableFromRoot | src-tauri/src/archive_index.rs:642-660 | every indexed path is reached from the root by child links through indexed paths |
| TreeIndex.AddLinkWeight | src-tauri/src/archive_index.rs:658-660 | a new link adds its length and 32 to the weight of the index, a present one nothing |
| TreeIndex.PutEntryWeight | src-tauri/src/archive_index.rs:606-613 | storing an entry adds at most its length, its diagnostics and 128 |
| ArchiveIndexing.ArchiveIndex.constructor | src-tauri/src/archive_index.rs:578-590 | the empty index is valid and within its budget |
| ArchiveIndexing.ArchiveIndex.LinkChild | src-tauri/src/archive_index.rs:643-660 | one link with its growth |
| ArchiveIndexing.ArchiveIndex.CreateFolder | src-tauri/src/archive_index.rs:661-690 | one missing folder with its growth |
| ArchiveIndexing.ArchiveIndex.ExtendBranch | src-tauri/src/archive_index.rs:641-693 | one turn of the ancestor loop |
| ArchiveIndexing.ArchiveIndex.LinkSegments | src-tauri/src/archive_index.rs:638-695 | the loop over the segments: every prefix linked to its parent, the missing folders created |
| ArchiveIndexing.ArchiveIndex.EnsureAncestors | src-tauri/src/archive_index.rs:632-695 | the links and folders of the whole path, and a growth equal to the weight added |
| ArchiveIndexing.ArchiveIndex.Insert | src-tauri/src/archive_index.rs:592-615 | the whole new index for accepted and refused entries, its counts, both limits, and the shape kept either way; an accepted entry is shown under its key with the listed kind and every listed field; the estimate covers the contents while every insertion is accepted |
| ArchiveIndexing.ArchiveIndex.IndexListing | src-tauri/src/archive_index.rs:142-165 | an unrefused listing gives the index of the whole listing, its counts and statistics, within budget; otherwise the index of everything up to the first entry that is due to be refused, with that refusal |
| ArchiveIndexing.ArchiveIndex.InsertEach | src-tauri/src/archive_index.rs:142-165 | the visitor stops at the first refusal and nowhere else |
| ArchiveIndexing.ArchiveIndex.InsertNext | src-tauri/src/archive_index.rs:592-615 | when an entry is refused, and for what, as a function of the index before it |
| ArchiveIndexing.ArchiveIndex.LoadDirectory | src-tauri/src/archive_index.rs:222-232 | an on-demand directory is loaded once: the index is that after exactly its entries in order, those due to be refused leaving their links and folders, and the directory is listed even if empty |
| ArchiveIndexing.ArchiveIndex.CurrentStatistics | src-tauri/src/archive_index.rs:617-619 | the statistics are the counts, with a total only if some entry had a size |
| ArchiveIndexing.InsertedShape | src-tauri/src/archive_index.rs:592-615 | after an insertion, refused or not, the tree is well formed |
| ArchiveIndexing.DtoRepresents | src-tauri/src/archive_index.rs:697-720 | the entry an index stores has the key as its path, the kind the listed kind maps to, by equivalences, every listed field, and the checksum in eight upper-case hexadecimal digits |
| ArchiveIndexing.ParseInvertsUpperHex | src-tauri/src/archive_index.rs:697-720 | reading such a text gives the checksum back |
| ArchiveIndexing.TallyOfListing | src-tauri/src/archive_index.rs:592-619 | within the limit the statistics of a listing are its number of entries and the saturated sum of the sizes it reports, present exactly if it reports one |
| ArchiveIndexing.FilledContents | src-tauri/src/archive_index.rs:142-165 | every offered entry counts, and where none is refused all of them are in the index |
| Paging.CursorRoundTrip | src-tauri/src/archive_index.rs:987-1004 | a cursor decodes to its offset in its own scope |
| Paging.ForeignCursorRefused | src-tauri/src/archive_index.rs:991-1004 | a cursor of a scope with another signature is refused |
| Paging.AcceptedCursors | src-tauri/src/archive_index.rs:991-1004 | every accepted cursor consists of the version, this scope's signature and a numeral of the offset |
| Paging.PageAdvances | src-tauri/src/archive_index.rs:246-256 | a page holds the entries from its offset to its end, as many as were asked for unless the listing ends sooner, and its cursor points there exactly when entries remain |
| Paging.PageSize | src-tauri/src/archive_index.rs:248 | an asked limit from 1 to 512 is the page's size, none means 200, zero 1, and more 512 |
| Paging.PageOf | src-tauri/src/archive_index.rs:246-256 | a page is refused exactly for a cursor that does not decode or points past the end, each with its error |
| Paging.FollowFrom | src-tauri/src/archive_index.rs:246-263 | following cursors with any limits covers the listing from any offset on |
| Paging.PagesPartitionListing | src-tauri/src/archive_index.rs:240-264 | from the first page on, any limits end after at most one page an entry and concatenate to the listing |
| Browsing.SortedListingUnique | src-tauri/src/archive_index.rs:245 | entries have only one sorted listing |
| Browsing.SortableIsTransitive | src-tauri/src/archive_index.rs:749-784 | where timestamps and ratio ties agree among folders and among the other entries, the comparison is transitive |
| Browsing.SortedIsTransitive | src-tauri/src/archive_index.rs:245 | entries that have a sorted listing at all are compared transitively |
| Browsing.SortEntries | src-tauri/src/archive_index.rs:245 | the sort returns every entry once, and the sorted listing wherever the comparison is transitive |
| Browsing.ChildrenPage | src-tauri/src/archive_index.rs:240-264 | a page of children is cut from a list of exactly the indexed paths whose parent is the folder, sorted wherever the comparison is transitive on them |
| Browsing.SearchPage | src-tauri/src/archive_index.rs:315-341 | a page of a search is cut from such a list of exactly the entries that match the trimmed, lower-cased query |
| Browsing.PagesMakeTheListing | src-tauri/src/archive_index.rs:240-264 | pages fetched one after the other, with any limits, until no cursor is returned are the sorted listing, every entry once |
| Browsing.RequestedOrder | src-tauri/src/archive_index.rs:241-245 | a request without a key sorts by name, one with a column's name by that column, and ascends unless it says otherwise |
| Browsing.ScopesDiffer | src-tauri/src/archive_index.rs:247 | for keys without a NUL, the text a cursor is signed with tells listing, key and direction apart |
| Browsing.AsciiSearch | src-tauri/src/archive_index.rs:722-735 | on ASCII text the window search is substring search in the lower-cased path |
| Browsing.SearchIsSubstring | src-tauri/src/archive_index.rs:722-734 | one rule for all texts: a path is found exactly when its lowered text contains the query and the query is not longer in bytes |
| Browsing.SearchFinds | src-tauri/src/archive_index.rs:315-318 | so a search finds exactly those indexed entries, by their whole path |
| Browsing.LongerLowercaseIsMissed | src-tauri/src/archive_index.rs:726-728 | a text that grows when lowered is not found by its own lowered text |
| DragSelection.IndexContents | src-tauri/src/archive_index.rs:592-615 | an index of any listing shows at every listed path the last entry of its key, kind and every field, and besides them exactly the folders that entries lie beneath, with nothing known about them |
| DragSelection.RefusedInsertionLeaves | src-tauri/src/archive_index.rs:592-615 | a refused entry leaves the folders above it, a folder in its own place if it was one, and nothing else |
| DragSelection.RefuseLinks | src-tauri/src/archive_index.rs:385-405 | a request is refused exactly when it names an indexed entry that is no file and no folder |
| DragSelection.DragEntries | src-tauri/src/archive_index.rs:406-416 | the cached answer is exactly the files and folders a request names or lies above, in path order; links refused exactly when named, else the first request that covers nothing exactly when there is one, else refused exactly when nothing is draggable |
| DragSelection.DragAllEntries | src-tauri/src/archive_index.rs:443-453 | exactly the files and folders no exclusion names or lies above, in path order |
| DragSelection.DragFromListing | src-tauri/src/commands.rs:2638-2673 | the listed answer is exactly the plain files and folders a request names or lies above, in listing order; the first request that covers nothing exactly when there is one, else a named link exactly when there is one, else refused exactly when nothing is draggable |
| DragSelection.ListedPathAgreesIff | src-tauri/src/archive_index.rs:406-453 | for every listing, a listed path is in both answers or in neither exactly unless it is chosen and has an entry that differs: a nameless one, the last copy of a file where nothing else is taken, or one replaced by an entry that is not dragged out |
| DragSelection.FilesAgreeIff | src-tauri/src/commands.rs:2638-2673 | for every listing, index and listing drag out the same files, for a selection and for exclusions, exactly when no entry that differs is chosen |
| DragSelection.AnswersDifferByImpliedFolders | src-tauri/src/commands.rs:2638-2673 | for every listing, exactly when no entry that differs is chosen, the cached answer is the listed one and, besides it, the chosen folders that the listing implies without listing them |
| DragSelection.ExtraFoldersAreImplied | src-tauri/src/archive_index.rs:406-453 | a path that is not listed is in the cached answer exactly if it is a chosen folder the listing implies, and never in the listed one |
| DragSelection.CoverageAgrees | src-tauri/src/archive_index.rs:406-408 | a request covers an indexed path exactly when it covers a listed one |
| DragSelection.RelistImpliesCached | src-tauri/src/archive_index.rs:365-416 | whenever the listing answers a selection so does the index, with the same files exactly unless one that differs is selected |
| DragSelection.CachedWithoutRelist | src-tauri/src/archive_index.rs:365-416 | where no covered entry is a file copy or shares its key, the index answers where the listing refuses only with folders the listing implies |
| IndexSessions.HistoryRevision | src-tauri/src/archive_index.rs:1010-1012 | the snapshots of a session are numbered from one, up to saturation |
| IndexSessions.NewIdIsFresh | src-tauri/src/archive_index.rs:95-96 | a new session id was never used |
| IndexSessions.ArchiveIndexRegistry.constructor | src-tauri/src/archive_index.rs:62-68 | no sessions, and valid |
| IndexSessions.ArchiveIndexRegistry.Start | src-tauri/src/archive_index.rs:70-117 | each refusal exactly when it is due, never more than four sessions, and otherwise a session under the id of the next number, never used before, with a first snapshot that indexes and counts nothing |
| IndexSessions.ArchiveIndexRegistry.PublishProgress | src-tauri/src/archive_index.rs:455-489 | a live session gets the next snapshot, which indexes and shows the counts given and nothing final; a closed one nothing |
| IndexSessions.ArchiveIndexRegistry.Finish | src-tauri/src/archive_index.rs:491-543 | a live session gets its outcome as the next snapshot: failed with the error exactly for an error, empty exactly for no entries, ready exactly for some, with the counts given; a closed one nothing |
| IndexSessions.ArchiveIndexRegistry.RemoveSession | src-tauri/src/archive_index.rs:268-269 | the session leaves the table first |
| IndexSessions.ArchiveIndexRegistry.MarkCancelled | src-tauri/src/archive_index.rs:270 | then its worker is told |
| IndexSessions.ArchiveIndexRegistry.AnnounceCancelled | src-tauri/src/archive_index.rs:271-284 | and the cancellation is announced as the last snapshot, with the counts the removed record showed |
| IndexWorkers.StepKeepsWorld | src-tauri/src/archive_index.rs:134-168 | every step of any worker and of any closing keeps: no snapshot counts more than the worker's index, a worker at work has published no outcome, and every history is orderly |
| IndexWorkers.RunKeepsWorld | src-tauri/src/archive_index.rs:134-168 | so does every interleaving of them |
| IndexWorkers.CountsNeverFall | src-tauri/src/archive_index.rs:455-489 | in an orderly history counts never fall while indexing |
| IndexWorkers.OutcomeIsLate | src-tauri/src/archive_index.rs:491-543 | after an outcome only a cancellation can follow, after a cancellation nothing |
| IndexWorkers.SessionFacts | src-tauri/src/archive_index.rs:70-168 | for every interleaving of workers and closing from the start, and every session: revisions strictly increase below saturation, counts never fall while indexing, there is at most one outcome, a ready one has a positive final count equal to the discovered one, an empty one none, a failed one its failure, nothing follows a cancellation, and at most four sessions are live |
| IndexWorkers.EndedIffSettled | src-tauri/src/archive_index.rs:134-168 | in every run an open session shows an outcome exactly when its worker has ended |
| IndexWorkers.OutcomeIsTrue | src-tauri/src/archive_index.rs:142-168 | in every run a ready or empty session reports the statistics of exactly the entries its worker inserted |
| IndexWorkers.OutcomeHasCause | src-tauri/src/archive_index.rs:134-168 | in every run the outcome is that of the step that ended the visit: success when the listing was exhausted without a failure, and otherwise that refusal or failure itself |
| IndexWorkers.CancelledInsertsNoMore | src-tauri/src/archive_index.rs:145-148 | from the cancellation on a worker inserts at most the entry it already holds, in any run |
| StringOrder.CodePointLaws | src-tauri/src/archive_index.rs:749-784 | the byte order of text is a total order |
| StringOrder.FirstDifferenceDecides | src-tauri/src/archive_index.rs:749-784 | the first difference decides it, and a text comes before its extensions |
| StringOrder.SortStrings | src-tauri/src/job_registry.rs:1314 | the sort lists a set in ascending order without repetition |

## Left out

- Progress figures, notices and phase times of a job (`apply_event_to_progress`, `sync_core_progress`): they come from crates that are not part of this model; an event keeps its kind, code, retry flag and message.
- The cancellation token and the blocking of `wait_if_paused`: the token is a flag of the record, always present as in the source, and the gate is a flag without waiting threads.
- Timestamps kept as text (`created_at`, `updated_at`) and the archive format of a session: constant text.
- Hand-off coordinator leases, preview roots and their deletion, diagnostics, test-only event capture.
- Real threads, mutex poisoning, the async runtime and the windows: interleavings are those of the critical sections.
- Several registries in one process: they would share the counter of terminal sequence numbers, which is a field here.
- JobRegistry.JobRegistry.ForwarderMoves: stands for everything the forwarding task does to the shared flow and channel between critical sections; `SubscriptionProtocol` says what that can be.
- Finding the session of a drag, on-demand archives in drags, `password_for_archive` and `wait_for_change`: lookups in the table of sessions.
- Turning drag candidates into native items (`prepare_native_file_drag`): not part of this model.
- Browsing.ChildrenPage: where the comparison is not transitive it promises the entries but no order; the library sort may then also panic, which is not modelled.
- Browsing.SearchPage: trimming and lower-casing are the parameters `trim` and `lower`, about which nothing is assumed.
- IndexWorkers: why an insertion is refused for its metadata, when a publication is due and how a visit fails are choices of the run; an insertion past the entry limit is always refused.
- The number of bytes of an entry's diagnostics is summed without the wrap-around of a machine word.
- Accounts, LocalSend, hosted transport, default handlers, dialogs, the TypeScript front end, packaging.
