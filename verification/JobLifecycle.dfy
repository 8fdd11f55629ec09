/**
 * One job record of the registry: its status machine, worker gate, time accounting and published snapshots.
 *
 * An operation is a function of the record and a `Tick`: the clock readings made inside the critical section and
 * the terminal sequence number the process-wide counter would hand out. Instants are nanoseconds.
 */
module JobLifecycle {
  import opened Wrappers

  const COMMAND_ERROR_CANCELLED := "cancelled"

  datatype JobStatus = Queued | Running | Paused | Cancelling | Completed | Failed | Cancelled

  predicate IsTerminal(status: JobStatus) {
    status.Completed? || status.Failed? || status.Cancelled?
  }

  datatype JobKind =
    | ZipCreate | ZipExtract | SevenZCreate | SevenZExtract | RarExtract | TarGzCreate | TarZstdCreate | TarZstdExtract
    | TzapCreate | TzapExtract | AppleArchiveCreate | AppleArchiveExtract | ArchiveExtract
    | RawStreamExtract | TestArchive

  datatype EventKind =
    | Started | EntryStarted | BytesProcessed | PhaseStarted | PhaseBytesProcessed | EntryFinished | Paused | Resumed
    | Warning | Completed | Failed | Cancelled

  /** The parts of an event that the record keeps; its progress figures are not modelled. */
  datatype Event = Event(
    kind: EventKind, jobKind: Option<JobKind>, code: Option<string>, retryable: Option<bool>, message: Option<string>)

  datatype CoreEvent =
    | CoreStarted(kind: JobKind) | CoreProgress | CoreCompleted | CoreFailed(message: string)
    | CoreCancelled(message: string)

  datatype CommandError = CommandError(code: string, message: string, retryable: bool)

  datatype Summary = Summary(writtenEntries: nat, skippedEntries: Option<nat>, writtenBytes: nat, warnings: seq<string>)

  datatype ArtifactKind = Archive | Directory
  datatype Artifact = Artifact(artifactId: string, kind: ArtifactKind, path: string)
  datatype ActionKind = Open | Reveal
  datatype Action = Action(actionId: string, kind: ActionKind, artifactId: string)

  /** What a failed job needs to be started again; its contents do not matter here. */
  datatype Retry = Retry(description: string)

  /** What `configure_recovery_facts` attaches to a job. */
  datatype Recovery = Recovery(actions: seq<Action>, artifacts: seq<Artifact>, retry: Option<Retry>)

  datatype Allowed = Allowed(pause: bool, resume: bool, cancel: bool, dismiss: bool)

  datatype Snapshot = Snapshot(
    revision: nat, jobId: string, kind: JobKind, status: JobStatus, can: Allowed, activeElapsedMillis: nat,
    latestFailure: Option<Event>, recovery: Recovery, terminalSummary: Option<Summary>)

  /** The instants and durations a record keeps. */
  datatype Stopwatch = Stopwatch(startedAt: nat, pausedAt: Option<nat>, pausedDuration: nat, finishedAt: Option<nat>)

  datatype JobRecord = JobRecord(
    id: string, kind: JobKind, status: JobStatus, pausedFrom: Option<JobStatus>, summary: Option<Summary>,
    cancelRequested: bool, gateClosed: bool, revision: nat, latestFailure: Option<Event>, recovery: Recovery,
    terminalSequence: Option<nat>, publicationClosed: bool, watch: Stopwatch, snapshot: Snapshot)

  /** `later` is the clock reading of the snapshot, made after that of the record's own bookkeeping. */
  datatype Tick = Tick(now: nat, later: nat, sequence: Option<nat>)

  // ---------------------------------------------------------------------------------------------
  // Time and snapshots
  // ---------------------------------------------------------------------------------------------

  /** `saturating_duration_since` and `saturating_sub`. */
  function Since(later: nat, earlier: nat): nat {
    if later < earlier then 0 else later - earlier
  }

  /** The active time of a job as its snapshot computes it at instant `at`. */
  function Elapsed(watch: Stopwatch, at: nat): nat {
    var now := if watch.finishedAt.Some? then watch.finishedAt.value else at;
    var pause := if watch.pausedAt.Some? then Since(now, watch.pausedAt.value) else 0;
    Since(Since(now, watch.startedAt), watch.pausedDuration + pause)
  }

  function Millis(nanoseconds: nat): (millis: nat)
    ensures millis <= U64_MAX
    ensures millis < U64_MAX ==> millis * 1_000_000 <= nanoseconds < (millis + 1) * 1_000_000
    ensures millis == U64_MAX ==> nanoseconds >= U64_MAX * 1_000_000
  {
    var millis := nanoseconds / 1_000_000;
    if millis > U64_MAX then U64_MAX else millis
  }

  function AllowedIn(status: JobStatus): Allowed {
    match status
    case Queued | Running => Allowed(true, false, true, false)
    case Paused => Allowed(false, true, true, false)
    case Cancelling => Allowed(false, false, false, false)
    case Completed | Failed | Cancelled => Allowed(false, false, false, true)
  }

  function ShownRecovery(record: JobRecord): Recovery {
    var retryable := record.latestFailure.Some? && record.latestFailure.value.retryable == Some(true);
    Recovery(if record.status.Completed? then record.recovery.actions else [],
             if record.status.Completed? then record.recovery.artifacts else [],
             if retryable then record.recovery.retry else None)
  }

  /** `snapshot_dto`, given the active time to show. */
  function SnapshotOf(record: JobRecord, activeElapsedMillis: nat): Snapshot {
    Snapshot(record.revision, record.id, record.kind, record.status, AllowedIn(record.status), activeElapsedMillis,
             record.latestFailure, ShownRecovery(record), record.summary)
  }

  /** The pause and finish bookkeeping at the head of `publish_record`. */
  function Settle(watch: Stopwatch, status: JobStatus, now: nat): Stopwatch {
    var paused :=
      if status.Paused? then
        (if watch.pausedAt.Some? then watch else watch.(pausedAt := Some(now)))
      else if watch.pausedAt.Some? then
        watch.(pausedAt := None, pausedDuration := watch.pausedDuration + Since(now, watch.pausedAt.value))
      else watch;
    if IsTerminal(status) && watch.finishedAt.None? then paused.(finishedAt := Some(now)) else paused
  }

  datatype Publication = Publication(record: JobRecord, ok: bool)

  function PublishRecord(record: JobRecord, tick: Tick): Publication {
    if record.publicationClosed then Publication(record, false)
    else
      var watch := Settle(record.watch, record.status, tick.now);
      if record.revision >= U64_MAX then Publication(record.(watch := watch, publicationClosed := true), false)
      else
        var next := record.(watch := watch, revision := record.revision + 1);
        Publication(next.(snapshot := SnapshotOf(next, Millis(Elapsed(watch, tick.later)))), true)
  }

  function NewJob(id: string, kind: JobKind, startedAt: nat): JobRecord {
    JobRecord(id, kind, JobStatus.Queued, None, None, false, false, 1, None, Recovery([], [], None), None, false,
              Stopwatch(startedAt, None, 0, None),
              Snapshot(1, id, kind, JobStatus.Queued, Allowed(true, false, true, false), 0, None,
                  Recovery([], [], None), None))
  }

  // ---------------------------------------------------------------------------------------------
  // The operations
  // ---------------------------------------------------------------------------------------------

  datatype Op =
    | RequestCancel
    | RequestPause
    | RequestResume
    | EmitCore(core: CoreEvent)
    | EmitDirect(event: Event)
    | Commit(summary: Summary)
    | Configure(recovery: Recovery)

  /** What an operation does to the record before it publishes, if it does. */
  datatype Edit = Unchanged | Publish(record: JobRecord) | Unpublished(record: JobRecord)

  /** A record no operation changes any more: the job has ended, or its counters are exhausted. */
  predicate Immutable(record: JobRecord) {
    IsTerminal(record.status) || record.publicationClosed
  }

  /** The end of both event operations: a job that has just ended is numbered. */
  function Finished(record: JobRecord, tick: Tick): Edit {
    if IsTerminal(record.status) && record.terminalSequence.None? then
      if tick.sequence.None? then Unpublished(record.(publicationClosed := true))
      else Publish(record.(terminalSequence := tick.sequence))
    else Publish(record)
  }

  function StartedStatus(status: JobStatus): JobStatus {
    if status.Queued? || status.Running? then JobStatus.Running else status
  }

  function CoreFailure(message: string): Event {
    Event(EventKind.Failed, None, None, None, Some(message))
  }

  /** `emit_job_event`: a core completion or failure is published, but ends no job. */
  function OnCoreEvent(record: JobRecord, event: CoreEvent, tick: Tick): Edit {
    match event
    case CoreCompleted => Publish(record)
    case CoreFailed(message) => Publish(record.(latestFailure := Some(CoreFailure(message))))
    case CoreStarted(kind) => Finished(record.(kind := kind, status := StartedStatus(record.status)), tick)
    case CoreCancelled(_) => Finished(record.(status := JobStatus.Cancelled), tick)
    case CoreProgress => Finished(record, tick)
  }

  function CancelledEvent(jobKind: Option<JobKind>): Event {
    Event(EventKind.Cancelled, jobKind, Some(COMMAND_ERROR_CANCELLED), Some(true), Some("Archive job cancelled."))
  }

  /** A job being cancelled turns the end of its work into its cancellation. */
  function Rewritten(status: JobStatus, event: Event): Event {
    if status.Cancelling? && (event.kind.Completed? || event.kind.Failed?) then CancelledEvent(event.jobKind) else event
  }

  function DirectStatus(status: JobStatus, kind: EventKind): JobStatus {
    match kind
    case Started => StartedStatus(status)
    case Completed => JobStatus.Completed
    case Failed => JobStatus.Failed
    case Cancelled => JobStatus.Cancelled
    case Paused => JobStatus.Paused
    case Resumed => if status.Paused? then JobStatus.Running else status
    case _ => status
  }

  /** `emit_direct_event`. */
  function OnDirectEvent(record: JobRecord, emitted: Event, tick: Tick): Edit {
    var event := Rewritten(record.status, emitted);
    Finished(record.(status := DirectStatus(record.status, event.kind),
                     summary := if event.kind.Cancelled? then None else record.summary,
                     latestFailure := if event.kind.Failed? then Some(event) else record.latestFailure), tick)
  }

  /** `commit_completed`; without a sequence number the status is set but nothing is published. */
  function OnCommit(record: JobRecord, summary: Summary, tick: Tick): Edit {
    var ended := if record.status.Cancelling? then record.(summary := None, status := JobStatus.Cancelled)
                 else record.(summary := Some(summary), status := JobStatus.Completed);
    if tick.sequence.None? then Unpublished(ended) else Publish(ended.(terminalSequence := tick.sequence))
  }

  function OnPause(record: JobRecord): Edit {
    if record.status.Queued? || record.status.Running? then
      Publish(record.(pausedFrom := Some(record.status), status := JobStatus.Paused, gateClosed := true))
    else Unchanged
  }

  function OnResume(record: JobRecord): Edit {
    if record.status.Paused? then
      var status := if record.pausedFrom.Some? then record.pausedFrom.value else JobStatus.Running;
      Publish(record.(gateClosed := false, status := status, pausedFrom := None))
    else Unchanged
  }

  function Prepare(record: JobRecord, op: Op, tick: Tick): Edit {
    if Immutable(record) then Unchanged
    else
      match op
      case RequestCancel =>
          Publish(record.(cancelRequested := true, gateClosed := false, status := JobStatus.Cancelling))
      case RequestPause => OnPause(record)
      case RequestResume => OnResume(record)
      case EmitCore(event) => OnCoreEvent(record, event, tick)
      case EmitDirect(event) => OnDirectEvent(record, event, tick)
      case Commit(summary) => OnCommit(record, summary, tick)
      case Configure(recovery) => Publish(record.(recovery := recovery))
  }

  /** Every operation on one record; `ok` says whether a snapshot was published. */
  function Perform(record: JobRecord, op: Op, tick: Tick): Publication {
    match Prepare(record, op, tick)
    case Unchanged => Publication(record, false)
    case Publish(next) => PublishRecord(next, tick)
    case Unpublished(next) => Publication(next, false)
  }

  function Apply(record: JobRecord, op: Op, tick: Tick): JobRecord {
    Perform(record, op, tick).record
  }

  datatype Step = Step(op: Op, tick: Tick)

  function After(record: JobRecord, steps: seq<Step>): JobRecord
    decreases |steps|
  {
    if steps == [] then record else After(Apply(record, steps[0].op, steps[0].tick), steps[1..])
  }

  /** Publishing changes the numbering, the stopwatch and the snapshot, and nothing else. */
  lemma PublishingKeepsFacts(record: JobRecord, tick: Tick)
    ensures var after := PublishRecord(record, tick).record;
      && after.status == record.status && after.summary == record.summary && after.gateClosed == record.gateClosed
      && after.cancelRequested == record.cancelRequested && after.pausedFrom == record.pausedFrom
      && after.terminalSequence == record.terminalSequence && after.recovery == record.recovery
      && after.kind == record.kind && after.id == record.id && after.latestFailure == record.latestFailure
  {
  }

  // ---------------------------------------------------------------------------------------------
  // Terminal statuses are absorbing, and cancellation is not lost
  // ---------------------------------------------------------------------------------------------

  lemma {:induction false} TerminalIsAbsorbing(record: JobRecord, steps: seq<Step>)
    requires IsTerminal(record.status)
    ensures After(record, steps) == record
    decreases |steps|
  {
    if steps != [] {
      TerminalIsAbsorbing(record, steps[1..]);
    }
  }

  predicate IsDirectPause(op: Op) {
    op.EmitDirect? && op.event.kind.Paused?
  }

  predicate IsDirectResume(op: Op) {
    op.EmitDirect? && op.event.kind.Resumed?
  }

  predicate NoDirectPause(steps: seq<Step>)
    decreases |steps|
  {
    steps == [] || (!IsDirectPause(steps[0].op) && NoDirectPause(steps[1..]))
  }

  /** The job was told to cancel and has not ended in any other way. */
  predicate CancelPending(record: JobRecord) {
    (record.status.Cancelling? || record.status.Cancelled?) && record.summary == None
  }

  function Outcome(record: JobRecord, edit: Edit): JobRecord {
    if edit.Unchanged? then record else edit.record
  }

  /** The facts an operation settles before it publishes stay settled. */
  lemma ApplyKeepsFacts(record: JobRecord, op: Op, tick: Tick)
    ensures var after, edited := Apply(record, op, tick), Outcome(record, Prepare(record, op, tick));
      && after.status == edited.status && after.summary == edited.summary && after.gateClosed == edited.gateClosed
      && after.cancelRequested == edited.cancelRequested && after.pausedFrom == edited.pausedFrom
      && after.terminalSequence == edited.terminalSequence && after.recovery == edited.recovery
      && after.kind == edited.kind && after.id == edited.id && after.latestFailure == edited.latestFailure
  {
    var edit := Prepare(record, op, tick);
    if edit.Publish? {
      PublishingKeepsFacts(edit.record, tick);
    }
  }

  /** The facts only requests, commits and recovery facts change. */
  predicate SameControls(record: JobRecord, after: JobRecord) {
    && after.cancelRequested == record.cancelRequested && after.gateClosed == record.gateClosed
    && after.pausedFrom == record.pausedFrom && after.recovery == record.recovery && after.id == record.id
  }

  lemma DirectEventFacts(record: JobRecord, emitted: Event, tick: Tick)
    requires !Immutable(record)
    ensures var edited, kind := Outcome(record, Prepare(record, EmitDirect(emitted), tick)),
        Rewritten(record.status, emitted).kind;
      && edited.status == DirectStatus(record.status, kind) && edited.gateClosed == record.gateClosed
      && edited.kind == record.kind && SameControls(record, edited)
      && edited.latestFailure == (if kind.Failed? then Some(emitted) else record.latestFailure)
      && edited.summary == if kind.Cancelled? then None else record.summary
  {
  }

  /** What a direct event makes of a job, from the event's kind and the job's status alone. */
  lemma DirectEventOutcome(record: JobRecord, event: Event, tick: Tick)
    requires !Immutable(record)
    ensures var after := Apply(record, EmitDirect(event), tick);
      var cancelling, kind := record.status.Cancelling?, event.kind;
      && (after.status.Completed? <==> kind.Completed? && !cancelling)
      && (after.status.Failed? <==> kind.Failed? && !cancelling)
      && (after.status.Cancelled? <==> kind.Cancelled? || (cancelling && (kind.Completed? || kind.Failed?)))
      && (after.status.Paused? <==> kind.Paused? || (record.status.Paused? && !EndsJob(kind) && !kind.Resumed?))
      && (after.status.Running? <==>
            || (kind.Started? && record.status.Queued?) || (kind.Resumed? && record.status.Paused?)
            || (record.status.Running? && !EndsJob(kind) && !kind.Paused?))
      && (after.status.Cancelling? <==> cancelling && !EndsJob(kind) && !kind.Paused?)
      && (after.status.Queued? <==> record.status.Queued? && !EndsJob(kind) && !kind.Paused? && !kind.Started?)
  {
    ApplyKeepsFacts(record, EmitDirect(event), tick);
    DirectEventFacts(record, event, tick);
  }

  /** What else a direct event changes: the failure it reports, the summary a cancelled job loses, and its number. */
  lemma DirectEventEffects(record: JobRecord, event: Event, tick: Tick)
    requires !Immutable(record)
    ensures var after := Apply(record, EmitDirect(event), tick);
      && after.latestFailure == (if after.status.Failed? then Some(event) else record.latestFailure)
      && after.summary == (if after.status.Cancelled? then None else record.summary)
      && after.kind == record.kind && SameControls(record, after)
      && (IsTerminal(after.status) && record.terminalSequence.None? ==> after.terminalSequence == tick.sequence)
  {
    ApplyKeepsFacts(record, EmitDirect(event), tick);
    DirectEventFacts(record, event, tick);
    DirectEventOutcome(record, event, tick);
  }

  predicate EndsJob(kind: EventKind) {
    kind.Completed? || kind.Failed? || kind.Cancelled?
  }

  lemma CoreEventFacts(record: JobRecord, event: CoreEvent, tick: Tick)
    requires !Immutable(record)
    ensures CoreMakes(record, event, Outcome(record, Prepare(record, EmitCore(event), tick)))
  {
  }

  /** The engine's end of work is reported otherwise, unless it was cancelled; a failure is kept with its message. */
  predicate CoreMakes(record: JobRecord, event: CoreEvent, after: JobRecord) {
    && (event.CoreCancelled? ==> after.status.Cancelled?)
    && (event.CoreStarted? && record.status.Queued? ==> after.status.Running?)
    && (!event.CoreCancelled? && !(event.CoreStarted? && record.status.Queued?) ==> after.status == record.status)
    && after.kind == (if event.CoreStarted? then event.kind else record.kind)
    && (event.CoreFailed? ==> ReportsFailure(after.latestFailure, event.message))
    && (!event.CoreFailed? ==> after.latestFailure == record.latestFailure)
    && after.summary == record.summary && SameControls(record, after)
  }

  /** What an event of the archive engine makes of a job. */
  lemma CoreEventOutcome(record: JobRecord, event: CoreEvent, tick: Tick)
    requires !Immutable(record)
    ensures CoreMakes(record, event, Apply(record, EmitCore(event), tick))
  {
    ApplyKeepsFacts(record, EmitCore(event), tick);
    CoreEventFacts(record, event, tick);
  }

  predicate ReportsFailure(failure: Option<Event>, message: string) {
    && failure.Some? && failure.value.kind.Failed? && failure.value.message == Some(message)
    && failure.value.retryable == None && failure.value.code == None
  }

  predicate IsRequest(op: Op) {
    op == RequestCancel || op == RequestPause || op == RequestResume
  }

  /** What a request makes of a job that has not ended. */
  predicate RequestMakes(record: JobRecord, op: Op, after: JobRecord) {
    && (op == RequestCancel ==>
          && after.status.Cancelling? && after.cancelRequested && !after.gateClosed
          && after.pausedFrom == record.pausedFrom)
    && (op == RequestPause && (record.status.Queued? || record.status.Running?) ==>
          after.status.Paused? && after.gateClosed && after.pausedFrom == Some(record.status))
    && (op == RequestResume && record.status.Paused? ==>
          && !after.gateClosed && after.pausedFrom == None
          && (record.pausedFrom.Some? ==> after.status == record.pausedFrom.value)
          && (record.pausedFrom.None? ==> after.status.Running?))
    && after.kind == record.kind && after.summary == record.summary && after.recovery == record.recovery
    && after.latestFailure == record.latestFailure && after.terminalSequence == record.terminalSequence
    && after.id == record.id && (op != RequestCancel ==> after.cancelRequested == record.cancelRequested)
  }

  lemma RequestFacts(record: JobRecord, op: Op, tick: Tick)
    requires !Immutable(record) && IsRequest(op)
    ensures RequestMakes(record, op, Outcome(record, Prepare(record, op, tick)))
    ensures Prepare(record, op, tick) == Unchanged
        <==> || (op == RequestPause && !record.status.Queued? && !record.status.Running?)
             || (op == RequestResume && !record.status.Paused?)
  {
  }

  /** A pause of a job that does not wait or run, and a resumption of one that is not paused, change nothing. */
  lemma RequestOutcomes(record: JobRecord, op: Op, tick: Tick)
    requires !Immutable(record) && IsRequest(op)
    ensures RequestMakes(record, op, Apply(record, op, tick))
    ensures op == RequestPause && !record.status.Queued? && !record.status.Running? ==>
              Apply(record, op, tick) == record
    ensures op == RequestResume && !record.status.Paused? ==> Apply(record, op, tick) == record
  {
    ApplyKeepsFacts(record, op, tick);
    RequestFacts(record, op, tick);
  }

  /** A commit completes a job with its summary, unless the job is being cancelled. */
  lemma CommitOutcome(record: JobRecord, summary: Summary, tick: Tick)
    requires !Immutable(record)
    ensures var after := Apply(record, Commit(summary), tick);
      && (record.status.Cancelling? ==> after.status.Cancelled? && after.summary == None)
      && (!record.status.Cancelling? ==> after.status.Completed? && after.summary == Some(summary))
      && after.kind == record.kind && after.latestFailure == record.latestFailure && SameControls(record, after)
      && (tick.sequence.Some? ==> after.terminalSequence == tick.sequence)
  {
    ApplyKeepsFacts(record, Commit(summary), tick);
  }

  /** Recovery facts are attached as they are given, and change nothing else. */
  lemma ConfigureOutcome(record: JobRecord, recovery: Recovery, tick: Tick)
    requires !Immutable(record)
    ensures var after := Apply(record, Configure(recovery), tick);
      && after.recovery == recovery && after.status == record.status && after.kind == record.kind
      && after.summary == record.summary && after.latestFailure == record.latestFailure
      && SameControls(record.(recovery := recovery), after)
  {
    ApplyKeepsFacts(record, Configure(recovery), tick);
  }

  // Which operation ends a job, and how.

  predicate Completes(record: JobRecord, op: Op) {
    !record.status.Cancelling? && (op.Commit? || (op.EmitDirect? && op.event.kind.Completed?))
  }

  predicate Fails(record: JobRecord, op: Op) {
    !record.status.Cancelling? && op.EmitDirect? && op.event.kind.Failed?
  }

  predicate Cancels(record: JobRecord, op: Op) {
    || (op.EmitCore? && op.core.CoreCancelled?)
    || (op.EmitDirect? && op.event.kind.Cancelled?)
    || (record.status.Cancelling?
        && (op.Commit? || (op.EmitDirect? && (op.event.kind.Completed? || op.event.kind.Failed?))))
  }

  predicate EndsAs(record: JobRecord, op: Op, status: JobStatus) {
    match status
    case Completed => Completes(record, op)
    case Failed => Fails(record, op)
    case Cancelled => Cancels(record, op)
    case _ => false
  }

  lemma EndsIff(record: JobRecord, op: Op, tick: Tick, status: JobStatus)
    requires Lawful(record) && !Immutable(record) && IsTerminal(status)
    ensures Apply(record, op, tick).status == status <==> EndsAs(record, op, status)
  {
    match op
    case EmitDirect(event) => DirectEventOutcome(record, event, tick);
    case EmitCore(event) => CoreEventOutcome(record, event, tick);
    case Commit(summary) => CommitOutcome(record, summary, tick);
    case Configure(recovery) => ConfigureOutcome(record, recovery, tick);
    case _ => RequestOutcomes(record, op, tick);
  }

  /** Over every run that ends a job, one step ended it, and how it ended is that step's doing. */
  lemma {:induction false} EndHasCause(record: JobRecord, steps: seq<Step>) returns (k: nat)
    requires Lawful(record) && SnapshotSound(record)
    requires !IsTerminal(record.status) && IsTerminal(After(record, steps).status)
    ensures k < |steps|
    ensures var before := After(record, steps[..k]);
      && !Immutable(before) && EndsAs(before, steps[k].op, After(record, steps).status)
      && After(record, steps) == Apply(before, steps[k].op, steps[k].tick)
    decreases |steps|
  {
    var next := Apply(record, steps[0].op, steps[0].tick);
    StepKeepsLawful(record, steps[0].op, steps[0].tick);
    if IsTerminal(next.status) {
      k := 0;
      TerminalIsAbsorbing(next, steps[1..]);
      EndsIff(record, steps[0].op, steps[0].tick, next.status);
    } else {
      var j := EndHasCause(next, steps[1..]);
      k := j + 1;
      assert steps[..k][1..] == steps[1..][..k - 1];
    }
  }

  lemma EditKeepsCancel(record: JobRecord, op: Op, tick: Tick)
    requires CancelPending(record) && !Immutable(record)
    ensures CancelPending(Outcome(record, Prepare(record, op, tick))) <==> !IsDirectPause(op)
  {
    if op.EmitDirect? {
      DirectEventFacts(record, op.event, tick);
    }
  }

  /** The one operation that loses an accepted cancellation is a direct pause event. */
  lemma CancelStepIff(record: JobRecord, op: Op, tick: Tick)
    requires CancelPending(record)
    ensures CancelPending(Apply(record, op, tick)) <==> Immutable(record) || !IsDirectPause(op)
  {
    ApplyKeepsFacts(record, op, tick);
    if !Immutable(record) {
      EditKeepsCancel(record, op, tick);
    }
  }

  lemma {:induction false} CancelIsKept(record: JobRecord, steps: seq<Step>)
    requires CancelPending(record) && NoDirectPause(steps)
    ensures CancelPending(After(record, steps))
    decreases |steps|
  {
    if steps != [] {
      CancelStepIff(record, steps[0].op, steps[0].tick);
      CancelIsKept(Apply(record, steps[0].op, steps[0].tick), steps[1..]);
    }
  }

  /** From an accepted request on, whatever was asked before and is emitted after. */
  lemma AcceptedCancelWins(record: JobRecord, tick: Tick, steps: seq<Step>)
    requires Lawful(record) && !Immutable(record) && NoDirectPause(steps)
    ensures var asked := Apply(record, RequestCancel, tick);
      asked.cancelRequested && !asked.gateClosed && CancelPending(asked) && CancelPending(After(asked, steps))
  {
    ApplyKeepsFacts(record, RequestCancel, tick);
    CancelIsKept(Apply(record, RequestCancel, tick), steps);
  }

  /** With a direct pause event an accepted cancellation can end in completion, summary included. */
  lemma DirectPauseLosesCancel(record: JobRecord, jobKind: Option<JobKind>, summary: Summary, tick: Tick)
    requires Lawful(record) && CancelPending(record) && !Immutable(record) && record.revision < U64_MAX - 3
        && tick.sequence.Some?
    ensures var paused := Apply(record, EmitDirect(Event(EventKind.Paused, jobKind, None, None, None)), tick);
      var done := Apply(Apply(paused, RequestResume, tick), Commit(summary), tick);
      done.status.Completed? && done.summary == Some(summary)
  {
    var pause := EmitDirect(Event(EventKind.Paused, jobKind, None, None, None));
    var paused := Apply(record, pause, tick);
    DirectPausePauses(record, jobKind, tick);
    var resumed := Apply(paused, RequestResume, tick);
    ApplyKeepsFacts(paused, RequestResume, tick);
    StepNumbersSnapshot(paused, RequestResume, tick);
    ApplyKeepsFacts(resumed, Commit(summary), tick);
  }

  lemma DirectPausePauses(record: JobRecord, jobKind: Option<JobKind>, tick: Tick)
    requires Lawful(record) && !Immutable(record) && record.revision < U64_MAX
    ensures var paused := Apply(record, EmitDirect(Event(EventKind.Paused, jobKind, None, None, None)), tick);
      && paused.status.Paused? && !paused.publicationClosed && paused.revision == record.revision + 1
      && paused.pausedFrom == record.pausedFrom && paused.terminalSequence == None
  {
    var pause := EmitDirect(Event(EventKind.Paused, jobKind, None, None, None));
    ApplyKeepsFacts(record, pause, tick);
    StepNumbersSnapshot(record, pause, tick);
  }

  // ---------------------------------------------------------------------------------------------
  // What every reachable record satisfies
  // ---------------------------------------------------------------------------------------------

  /** Every counter the record needed so far was available. */
  predicate Current(record: JobRecord) {
    !record.publicationClosed && (IsTerminal(record.status) ==> record.terminalSequence.Some?)
  }

  predicate Lawful(record: JobRecord) {
    && 1 <= record.revision <= U64_MAX
    && (record.summary.Some? ==> record.status.Completed?)
    && (record.pausedFrom.Some? ==> record.pausedFrom.value.Queued? || record.pausedFrom.value.Running?)
    && (record.terminalSequence.Some? ==> IsTerminal(record.status))
  }

  predicate OutcomeShownWhenCompleted(snapshot: Snapshot) {
    snapshot.terminalSummary.Some? || snapshot.recovery.artifacts != [] || snapshot.recovery.actions != [] ==>
      snapshot.status.Completed?
  }

  /** What a snapshot shows of a record, apart from the time. */
  predicate Shows(snapshot: Snapshot, record: JobRecord) {
    && snapshot.jobId == record.id && snapshot.revision == record.revision
    && snapshot.kind == record.kind && snapshot.status == record.status
    && snapshot.latestFailure == record.latestFailure && snapshot.terminalSummary == record.summary
    && ShowsControls(snapshot.can, record.status) && ShowsRecovery(snapshot.recovery, record)
  }

  predicate ShowsControls(can: Allowed, status: JobStatus) {
    && (can.pause <==> status.Queued? || status.Running?)
    && (can.resume <==> status.Paused?)
    && (can.cancel <==> !status.Cancelling? && !IsTerminal(status))
    && (can.dismiss <==> IsTerminal(status))
  }

  /** Artifacts and actions once the job has completed, and the retry while the last failure allows one. */
  predicate ShowsRecovery(shown: Recovery, record: JobRecord) {
    && (record.status.Completed? ==>
          shown.actions == record.recovery.actions && shown.artifacts == record.recovery.artifacts)
    && (!record.status.Completed? ==> shown.actions == [] && shown.artifacts == [])
    && shown.retry == if Retryable(record.latestFailure) then record.recovery.retry else None
  }

  predicate Retryable(failure: Option<Event>) {
    failure.Some? && failure.value.retryable == Some(true)
  }

  predicate SnapshotSound(record: JobRecord) {
    && record.snapshot.revision == record.revision
    && OutcomeShownWhenCompleted(record.snapshot)
    && (Current(record) ==> Shows(record.snapshot, record))
  }

  lemma SnapshotShows(record: JobRecord, activeElapsedMillis: nat)
    ensures Shows(SnapshotOf(record, activeElapsedMillis), record)
  {
  }

  lemma PreparedIsLawful(record: JobRecord, op: Op, tick: Tick)
    requires Lawful(record)
    ensures Lawful(Outcome(record, Prepare(record, op, tick)))
  {
  }

  /** An edit that publishes nothing leaves the record closed, or ended without a number. */
  lemma PreparedIsPublished(record: JobRecord, op: Op, tick: Tick)
    ensures var edit := Prepare(record, op, tick);
      && (edit.Publish? ==> !edit.record.publicationClosed)
      && (edit.Unpublished? ==>
          edit.record.publicationClosed || (IsTerminal(edit.record.status) && edit.record.terminalSequence.None?)
          || record.terminalSequence.Some?)
      && (!edit.Unchanged? ==>
            edit.record.revision == record.revision && edit.record.snapshot == record.snapshot
                && edit.record.watch == record.watch)
  {
  }

  lemma PublishingMakesSound(record: JobRecord, tick: Tick)
    requires Lawful(record) && !record.publicationClosed && record.snapshot.revision == record.revision
    requires OutcomeShownWhenCompleted(record.snapshot)
    ensures Lawful(PublishRecord(record, tick).record) && SnapshotSound(PublishRecord(record, tick).record)
  {
    PublishingKeepsFacts(record, tick);
  }

  lemma StepKeepsLawful(record: JobRecord, op: Op, tick: Tick)
    requires Lawful(record) && SnapshotSound(record)
    ensures Lawful(Apply(record, op, tick)) && SnapshotSound(Apply(record, op, tick))
  {
    PreparedIsLawful(record, op, tick);
    PreparedIsPublished(record, op, tick);
    var edit := Prepare(record, op, tick);
    if edit.Publish? {
      PublishingMakesSound(edit.record, tick);
    }
  }

  /**
   * Over every run: a summary, artifacts and actions are shown by completed jobs only, the snapshot carries the
   * record's revision, and while no counter is exhausted it shows the record as it is, field by field.
   */
  lemma {:induction false} RunKeepsLawful(record: JobRecord, steps: seq<Step>)
    requires Lawful(record) && SnapshotSound(record)
    ensures Lawful(After(record, steps)) && SnapshotSound(After(record, steps))
    decreases |steps|
  {
    if steps != [] {
      StepKeepsLawful(record, steps[0].op, steps[0].tick);
      RunKeepsLawful(Apply(record, steps[0].op, steps[0].tick), steps[1..]);
    }
  }

  /** The snapshots a run publishes. */
  function Published(record: JobRecord, steps: seq<Step>): seq<Snapshot>
    decreases |steps|
  {
    if steps == [] then []
    else
      var p := Perform(record, steps[0].op, steps[0].tick);
      (if p.ok then [p.record.snapshot] else []) + Published(p.record, steps[1..])
  }

  lemma PublishingNumbersSnapshot(record: JobRecord, tick: Tick)
    ensures var p := PublishRecord(record, tick);
      && (p.ok ==> p.record.revision == record.revision + 1 && Shows(p.record.snapshot, p.record)
                   && p.record.snapshot.activeElapsedMillis == Millis(Elapsed(p.record.watch, tick.later)))
      && (!p.ok ==>
          p.record.revision == record.revision && p.record.snapshot == record.snapshot && p.record.publicationClosed)
      && (record.revision < U64_MAX && !record.publicationClosed ==> p.ok && !p.record.publicationClosed)
  {
    var p := PublishRecord(record, tick);
    if p.ok {
      SnapshotShows(p.record.(snapshot := record.snapshot), Millis(Elapsed(p.record.watch, tick.later)));
    }
  }

  lemma StepNumbersSnapshot(record: JobRecord, op: Op, tick: Tick)
    ensures var p := Perform(record, op, tick);
      && (p.ok ==> p.record.revision == record.revision + 1 && Shows(p.record.snapshot, p.record)
                   && p.record.snapshot.activeElapsedMillis == Millis(Elapsed(p.record.watch, tick.later)))
      && (!p.ok ==> p.record.revision == record.revision && p.record.snapshot == record.snapshot)
      && (record.revision < U64_MAX && Prepare(record, op, tick).Publish? ==> p.ok && !p.record.publicationClosed)
  {
    PreparedIsPublished(record, op, tick);
    var edit := Prepare(record, op, tick);
    if edit.Publish? {
      PublishingNumbersSnapshot(edit.record, tick);
    }
  }

  /** Each job's snapshots are numbered without gaps or repetitions, in the order they are published. */
  lemma {:induction false} SnapshotsAreNumbered(record: JobRecord, steps: seq<Step>, i: nat)
    requires i < |Published(record, steps)|
    ensures Published(record, steps)[i].revision == record.revision + 1 + i
    decreases |steps|
  {
    var p := Perform(record, steps[0].op, steps[0].tick);
    StepNumbersSnapshot(record, steps[0].op, steps[0].tick);
    if !p.ok {
      SnapshotsAreNumbered(p.record, steps[1..], i);
    } else if i > 0 {
      SnapshotsAreNumbered(p.record, steps[1..], i - 1);
    }
  }

  /** What was published last is the snapshot the record holds. */
  lemma {:induction false} LastPublished(record: JobRecord, steps: seq<Step>)
    ensures var snapshots := Published(record, steps);
      After(record, steps).snapshot == if snapshots == [] then record.snapshot else snapshots[|snapshots| - 1]
    decreases |steps|
  {
    if steps != [] {
      StepNumbersSnapshot(record, steps[0].op, steps[0].tick);
      LastPublished(Apply(record, steps[0].op, steps[0].tick), steps[1..]);
    }
  }

  /** Over every run, while no counter is exhausted, the last snapshot published shows the job as it then is. */
  lemma LastPublishedShows(record: JobRecord, steps: seq<Step>)
    requires Lawful(record) && SnapshotSound(record)
    ensures var snapshots, after := Published(record, steps), After(record, steps);
      Current(after) && snapshots != [] ==> Shows(snapshots[|snapshots| - 1], after)
  {
    LastPublished(record, steps);
    RunKeepsLawful(record, steps);
  }

  /** A new job waits: nothing was asked of it, nothing has failed, and its snapshot shows that. */
  lemma NewJobFacts(id: string, kind: JobKind, startedAt: nat)
    ensures var record := NewJob(id, kind, startedAt);
      && record.id == id && record.kind == kind && record.status.Queued? && record.revision == 1
      && !record.cancelRequested && !record.gateClosed && record.pausedFrom == None && record.latestFailure == None
      && record.recovery == Recovery([], [], None) && Current(record) && Shows(record.snapshot, record)
      && record.snapshot.activeElapsedMillis == 0 && Elapsed(record.watch, startedAt) == 0
      && Lawful(record) && SnapshotSound(record) && GateSound(record)
      && TimeSound(record.watch, record.status, startedAt)
  {
  }

  /**
   * The flags of a current snapshot tell exactly which requests would change the job's status, and a job can be
   * dismissed exactly when not even a cancellation would change anything about it.
   */
  lemma FlagsPredictRequests(record: JobRecord, tick: Tick)
    requires Lawful(record) && SnapshotSound(record) && Current(record)
    ensures record.snapshot.can.pause <==> Apply(record, RequestPause, tick).status != record.status
    ensures record.snapshot.can.resume <==> Apply(record, RequestResume, tick).status != record.status
    ensures record.snapshot.can.cancel <==> Apply(record, RequestCancel, tick).status != record.status
    ensures record.snapshot.can.dismiss <==> Apply(record, RequestCancel, tick) == record
  {
    ApplyKeepsFacts(record, RequestPause, tick);
    ApplyKeepsFacts(record, RequestResume, tick);
    ApplyKeepsFacts(record, RequestCancel, tick);
    StepNumbersSnapshot(record, RequestCancel, tick);
  }

  /**
   * Which requests publish a snapshot while revisions last: those that change the status, and one more. Cancelling a
   * job that is being cancelled changes no status and still takes a revision.
   */
  lemma RequestsPublishIff(record: JobRecord, tick: Tick)
    requires Lawful(record) && SnapshotSound(record) && Current(record) && record.revision < U64_MAX
    ensures Perform(record, RequestPause, tick).ok <==> record.snapshot.can.pause
    ensures Perform(record, RequestResume, tick).ok <==> record.snapshot.can.resume
    ensures Perform(record, RequestCancel, tick).ok <==> record.snapshot.can.cancel || record.status.Cancelling?
  {
    StepNumbersSnapshot(record, RequestPause, tick);
    StepNumbersSnapshot(record, RequestResume, tick);
    StepNumbersSnapshot(record, RequestCancel, tick);
  }

  /** `JobEventDto::failed_from_command_error`. */
  function FailureEvent(kind: JobKind, error: CommandError): Event {
    Event(if error.code == COMMAND_ERROR_CANCELLED then EventKind.Cancelled else EventKind.Failed,
          Some(kind), Some(error.code), Some(error.retryable), Some(error.message))
  }

  /**
   * Reporting a command error ends the job: as cancelled exactly when it was being cancelled or the error is the
   * cancellation itself, and otherwise as failed, offering a retry exactly when the error allows one.
   */
  lemma FailureOutcome(record: JobRecord, kind: JobKind, error: CommandError, tick: Tick)
    requires Lawful(record) && !Immutable(record) && tick.sequence.Some? && record.revision < U64_MAX
    ensures var ended := Apply(record, EmitDirect(FailureEvent(kind, error)), tick);
      && IsTerminal(ended.status) && ended.terminalSequence == tick.sequence && ended.summary == None
      && (ended.status.Cancelled? <==> record.status.Cancelling? || error.code == COMMAND_ERROR_CANCELLED)
      && (ended.status.Failed? <==> !record.status.Cancelling? && error.code != COMMAND_ERROR_CANCELLED)
      && ended.snapshot.status == ended.status
      && (ended.status.Failed? ==>
            && ShowsError(ended.snapshot.latestFailure, kind, error)
            && ended.snapshot.recovery.retry == if error.retryable then record.recovery.retry else None)
  {
    var op := EmitDirect(FailureEvent(kind, error));
    DirectEventOutcome(record, FailureEvent(kind, error), tick);
    ApplyKeepsFacts(record, op, tick);
    StepNumbersSnapshot(record, op, tick);
  }

  predicate ShowsError(failure: Option<Event>, kind: JobKind, error: CommandError) {
    && failure.Some? && failure.value.jobKind == Some(kind) && failure.value.code == Some(error.code)
    && failure.value.message == Some(error.message) && failure.value.retryable == Some(error.retryable)
  }

  // ---------------------------------------------------------------------------------------------
  // The worker gate
  // ---------------------------------------------------------------------------------------------

  /** A job that has not ended holds its worker back exactly while it is paused. */
  predicate GateSound(record: JobRecord) {
    IsTerminal(record.status) || (record.gateClosed <==> record.status.Paused?)
  }

  lemma EditKeepsGate(record: JobRecord, op: Op, tick: Tick)
    requires GateSound(record) && Lawful(record) && !Immutable(record)
    ensures GateSound(Outcome(record, Prepare(record, op, tick))) <==>
              !(if record.status.Paused? then IsDirectResume(op) else IsDirectPause(op))
  {
    if op.EmitDirect? {
      DirectEventFacts(record, op.event, tick);
    }
  }

  /** Only a direct pause of an unpaused job, or a direct resumption of a paused one, breaks the agreement. */
  lemma GateStepIff(record: JobRecord, op: Op, tick: Tick)
    requires GateSound(record) && Lawful(record)
    ensures GateSound(Apply(record, op, tick)) <==>
              Immutable(record) || !(if record.status.Paused? then IsDirectResume(op) else IsDirectPause(op))
  {
    ApplyKeepsFacts(record, op, tick);
    if !Immutable(record) {
      EditKeepsGate(record, op, tick);
    }
  }

  predicate NoDirectControl(steps: seq<Step>)
    decreases |steps|
  {
    steps == [] || (!IsDirectPause(steps[0].op) && !IsDirectResume(steps[0].op) && NoDirectControl(steps[1..]))
  }

  lemma {:induction false} GateFollowsPause(record: JobRecord, steps: seq<Step>)
    requires GateSound(record) && Lawful(record) && SnapshotSound(record) && NoDirectControl(steps)
    ensures GateSound(After(record, steps))
    decreases |steps|
  {
    if steps != [] {
      GateStepIff(record, steps[0].op, steps[0].tick);
      StepKeepsLawful(record, steps[0].op, steps[0].tick);
      GateFollowsPause(Apply(record, steps[0].op, steps[0].tick), steps[1..]);
    }
  }

  /** Resuming undoes pausing: the job is where it was, its worker may go on, and only the pause is not counted. */
  lemma ResumeUndoesPause(record: JobRecord, pause: Tick, resume: Tick)
    requires Lawful(record) && !Immutable(record) && (record.status.Queued? || record.status.Running?)
        && record.revision < U64_MAX
    requires TimeSound(record.watch, record.status, pause.now) && pause.now <= resume.now
    ensures var back := Apply(Apply(record, RequestPause, pause), RequestResume, resume);
      && back.status == record.status && !back.gateClosed && back.pausedFrom == None
      && Elapsed(back.watch, resume.now) == Elapsed(record.watch, pause.now)
  {
    ApplyKeepsFacts(record, RequestPause, pause);
    StepNumbersSnapshot(record, RequestPause, pause);
    StepKeepsTime(record, RequestPause, pause);
    var paused := Apply(record, RequestPause, pause);
    ElapsedGrows(paused.watch, paused.status, pause.now, resume.now);
    ApplyKeepsFacts(paused, RequestResume, resume);
    StepKeepsTime(paused, RequestResume, resume);
  }

  // ---------------------------------------------------------------------------------------------
  // Time accounting
  // ---------------------------------------------------------------------------------------------

  /** Time counts as active unless the job is paused or has ended. */
  predicate Counting(status: JobStatus) {
    !status.Paused? && !IsTerminal(status)
  }

  predicate TimeSound(watch: Stopwatch, status: JobStatus, at: nat) {
    && (watch.pausedAt.Some? <==> status.Paused?)
    && (watch.finishedAt.Some? <==> IsTerminal(status))
    && var end := if watch.pausedAt.Some? then watch.pausedAt.value
                  else if watch.finishedAt.Some? then watch.finishedAt.value
                  else at;
       watch.startedAt + watch.pausedDuration <= end <= at
  }

  /** Between operations the clock adds active time exactly while the status counts. */
  lemma ElapsedGrows(watch: Stopwatch, status: JobStatus, since: nat, at: nat)
    requires TimeSound(watch, status, since) && since <= at
    ensures TimeSound(watch, status, at)
    ensures Elapsed(watch, at) == Elapsed(watch, since) + if Counting(status) then at - since else 0
  {
  }

  lemma SettleKeepsTime(watch: Stopwatch, before: JobStatus, status: JobStatus, now: nat)
    requires TimeSound(watch, before, now) && !IsTerminal(before)
    ensures TimeSound(Settle(watch, status, now), status, now)
    ensures Elapsed(Settle(watch, status, now), now) == Elapsed(watch, now)
  {
  }

  /** The operation would end the job, but there is no sequence number left to end it with. */
  predicate EndsUnnumbered(record: JobRecord, op: Op, tick: Tick) {
    && !Immutable(record) && tick.sequence.None?
    && (op.Commit? || (op.EmitCore? && op.core.CoreCancelled?)
        || (op.EmitDirect? && (op.event.kind.Completed? || op.event.kind.Failed? || op.event.kind.Cancelled?)))
  }

  /** An operation publishes all it does, unless it ends the job without a number. */
  lemma UnpublishedIff(record: JobRecord, op: Op, tick: Tick)
    requires Lawful(record)
    ensures Prepare(record, op, tick).Unpublished? <==> EndsUnnumbered(record, op, tick)
    ensures EndsUnnumbered(record, op, tick) ==> IsTerminal(Prepare(record, op, tick).record.status)
  {
  }

  /**
   * What ends without a number is not announced: the snapshot stays, and an event, unlike a commit, closes publication.
   */
  lemma UnnumberedEnd(record: JobRecord, op: Op, tick: Tick)
    requires Lawful(record) && EndsUnnumbered(record, op, tick)
    ensures var after := Apply(record, op, tick);
      && IsTerminal(after.status) && after.terminalSequence == None && !Perform(record, op, tick).ok
      && after.snapshot == record.snapshot && after.revision == record.revision && after.watch == record.watch
      && (after.publicationClosed <==> !op.Commit?)
  {
    UnpublishedIff(record, op, tick);
  }

  /** A record that was not published is unchanged, or no longer claims to be current. */
  lemma UnpublishedIsQuiet(record: JobRecord, op: Op, tick: Tick)
    requires Lawful(record) && !Perform(record, op, tick).ok
    ensures Apply(record, op, tick) == record || !Current(Apply(record, op, tick))
  {
    UnpublishedIff(record, op, tick);
    PreparedIsPublished(record, op, tick);
    var edit := Prepare(record, op, tick);
    if edit.Publish? {
      PublishingNumbersSnapshot(edit.record, tick);
    }
  }

  /** Exactly when an operation publishes a snapshot. */
  lemma PublishesIff(record: JobRecord, op: Op, tick: Tick)
    requires Lawful(record)
    ensures Perform(record, op, tick).ok
            <==> && !Immutable(record) && record.revision < U64_MAX && !EndsUnnumbered(record, op, tick)
                 && (op == RequestPause ==> record.status.Queued? || record.status.Running?)
                 && (op == RequestResume ==> record.status.Paused?)
  {
    UnpublishedIff(record, op, tick);
    PreparedIsPublished(record, op, tick);
    var edit := Prepare(record, op, tick);
    if edit.Publish? {
      PublishingNumbersSnapshot(edit.record, tick);
    }
  }

  lemma PublishingKeepsTime(record: JobRecord, edited: JobRecord, tick: Tick)
    requires TimeSound(record.watch, record.status, tick.now) && !IsTerminal(record.status)
    requires edited.watch == record.watch && !edited.publicationClosed
    ensures var after := PublishRecord(edited, tick).record;
      TimeSound(after.watch, after.status, tick.now)
          && Elapsed(after.watch, tick.now) == Elapsed(record.watch, tick.now)
  {
    SettleKeepsTime(record.watch, record.status, edited.status, tick.now);
  }

  /** An operation that keeps the time accounting sound also keeps the active time it finds. */
  lemma StepKeepsTime(record: JobRecord, op: Op, tick: Tick)
    requires Lawful(record) && TimeSound(record.watch, record.status, tick.now) && !EndsUnnumbered(record, op, tick)
    ensures var after := Apply(record, op, tick);
      TimeSound(after.watch, after.status, tick.now)
          && Elapsed(after.watch, tick.now) == Elapsed(record.watch, tick.now)
  {
    UnpublishedIff(record, op, tick);
    PreparedIsPublished(record, op, tick);
    var edit := Prepare(record, op, tick);
    if edit.Publish? {
      PublishingKeepsTime(record, edit.record, tick);
    }
  }

  /** Exactly an end without a sequence number breaks the accounting: the finish time is never recorded. */
  lemma TimeStepIff(record: JobRecord, op: Op, tick: Tick)
    requires Lawful(record) && TimeSound(record.watch, record.status, tick.now)
    ensures TimeSound(Apply(record, op, tick).watch, Apply(record, op, tick).status, tick.now)
        <==> !EndsUnnumbered(record, op, tick)
  {
    if EndsUnnumbered(record, op, tick) {
      UnpublishedIff(record, op, tick);
      PreparedIsPublished(record, op, tick);
    } else {
      StepKeepsTime(record, op, tick);
    }
  }

  /** The clock never goes back between the steps of a run, nor past its end. */
  predicate Clocked(since: nat, steps: seq<Step>, until: nat)
    decreases |steps|
  {
    if steps == [] then since <= until
    else since <= steps[0].tick.now <= steps[0].tick.later && Clocked(steps[0].tick.now, steps[1..], until)
  }

  predicate EndsNumbered(record: JobRecord, steps: seq<Step>)
    decreases |steps|
  {
    steps == [] || (!EndsUnnumbered(record, steps[0].op, steps[0].tick)
                    && EndsNumbered(Apply(record, steps[0].op, steps[0].tick), steps[1..]))
  }

  /** The reference: the lengths of all intervals of the run whose status counts. */
  function ActiveTime(record: JobRecord, since: nat, steps: seq<Step>, until: nat): nat
    requires Clocked(since, steps, until)
    decreases |steps|
  {
    if steps == [] then (if Counting(record.status) then until - since else 0)
    else (if Counting(record.status) then steps[0].tick.now - since else 0)
         + ActiveTime(Apply(record, steps[0].op, steps[0].tick), steps[0].tick.now, steps[1..], until)
  }

  lemma {:induction false} RunAccountsTime(record: JobRecord, since: nat, steps: seq<Step>, until: nat)
    requires Lawful(record) && SnapshotSound(record)
    requires Clocked(since, steps, until) && TimeSound(record.watch, record.status, since)
        && EndsNumbered(record, steps)
    ensures TimeSound(After(record, steps).watch, After(record, steps).status, until)
    ensures Elapsed(After(record, steps).watch, until)
        == Elapsed(record.watch, since) + ActiveTime(record, since, steps, until)
    decreases |steps|
  {
    if steps == [] {
      ElapsedGrows(record.watch, record.status, since, until);
    } else {
      var now := steps[0].tick.now;
      ElapsedGrows(record.watch, record.status, since, now);
      StepKeepsTime(record, steps[0].op, steps[0].tick);
      StepKeepsLawful(record, steps[0].op, steps[0].tick);
      RunAccountsTime(Apply(record, steps[0].op, steps[0].tick), now, steps[1..], until);
    }
  }

  /** From its creation on, a job's active time is the total time it spent in statuses other than paused. */
  lemma ElapsedIsActiveTime(id: string, kind: JobKind, startedAt: nat, steps: seq<Step>, until: nat)
    requires Clocked(startedAt, steps, until) && EndsNumbered(NewJob(id, kind, startedAt), steps)
    ensures Elapsed(After(NewJob(id, kind, startedAt), steps).watch, until)
            == ActiveTime(NewJob(id, kind, startedAt), startedAt, steps, until)
  {
    RunAccountsTime(NewJob(id, kind, startedAt), startedAt, steps, until);
  }

  /** A published snapshot shows the active time at its own clock reading, and later snapshots never show less. */
  lemma SnapshotElapsedIsMonotone(record: JobRecord, op: Op, tick: Tick, shownAt: nat)
    requires Lawful(record) && TimeSound(record.watch, record.status, shownAt) && shownAt <= tick.now <= tick.later
    requires !EndsUnnumbered(record, op, tick)
    requires record.snapshot.activeElapsedMillis == Millis(Elapsed(record.watch, shownAt))
    ensures var p := Perform(record, op, tick);
      && (p.ok ==> p.record.snapshot.activeElapsedMillis == Millis(Elapsed(p.record.watch, tick.later)))
      && record.snapshot.activeElapsedMillis <= p.record.snapshot.activeElapsedMillis
  {
    var p := Perform(record, op, tick);
    StepNumbersSnapshot(record, op, tick);
    if p.ok {
      ElapsedGrows(record.watch, record.status, shownAt, tick.now);
      StepKeepsTime(record, op, tick);
      ElapsedGrows(p.record.watch, p.record.status, tick.now, tick.later);
    }
  }

  /** No reading of the clock, those of the snapshots included, is before the one made before it. */
  predicate ReadsForward(since: nat, steps: seq<Step>)
    decreases |steps|
  {
    steps == [] || (since <= steps[0].tick.now <= steps[0].tick.later && ReadsForward(steps[0].tick.later, steps[1..]))
  }

  lemma {:induction false} ImmutablePublishesNothing(record: JobRecord, steps: seq<Step>)
    requires Immutable(record)
    ensures Published(record, steps) == []
    decreases |steps|
  {
    if steps != [] {
      ImmutablePublishesNothing(record, steps[1..]);
    }
  }

  /** One step of a run, up to the reading its snapshot is made at: time goes on, or the job is over. */
  lemma StepElapsed(record: JobRecord, since: nat, op: Op, tick: Tick)
    requires Lawful(record) && TimeSound(record.watch, record.status, since) && since <= tick.now <= tick.later
    ensures var p := Perform(record, op, tick);
      && (p.ok ==> p.record.snapshot.activeElapsedMillis == Millis(Elapsed(p.record.watch, tick.later)))
      && (EndsUnnumbered(record, op, tick) ==> !p.ok && Immutable(p.record))
      && (!EndsUnnumbered(record, op, tick) ==>
            && TimeSound(p.record.watch, p.record.status, tick.later)
            && Elapsed(record.watch, since) <= Elapsed(p.record.watch, tick.later))
  {
    var p := Perform(record, op, tick);
    StepNumbersSnapshot(record, op, tick);
    UnpublishedIff(record, op, tick);
    if !EndsUnnumbered(record, op, tick) {
      ElapsedGrows(record.watch, record.status, since, tick.now);
      StepKeepsTime(record, op, tick);
      ElapsedGrows(p.record.watch, p.record.status, tick.now, tick.later);
    }
  }

  /** The active times shown start at `floor` or above and never fall. */
  predicate ShownForward(floor: nat, snapshots: seq<Snapshot>)
    decreases |snapshots|
  {
    snapshots == []
        || (floor <= snapshots[0].activeElapsedMillis && ShownForward(snapshots[0].activeElapsedMillis, snapshots[1..]))
  }

  lemma {:induction false} ShownForwardAt(floor: nat, snapshots: seq<Snapshot>, i: nat)
    requires ShownForward(floor, snapshots) && i < |snapshots|
    ensures floor <= snapshots[i].activeElapsedMillis
        && ShownForward(snapshots[i].activeElapsedMillis, snapshots[i + 1..])
    decreases |snapshots|
  {
    if i > 0 {
      ShownForwardAt(snapshots[0].activeElapsedMillis, snapshots[1..], i - 1);
      assert snapshots[1..][i..] == snapshots[i + 1..];
    }
  }

  lemma {:induction false} PublishedShowsForward(record: JobRecord, since: nat, steps: seq<Step>)
    requires Lawful(record) && SnapshotSound(record) && TimeSound(record.watch, record.status, since)
        && ReadsForward(since, steps)
    ensures ShownForward(Millis(Elapsed(record.watch, since)), Published(record, steps))
    decreases |steps|
  {
    if steps != [] {
      var step, p := steps[0], Perform(record, steps[0].op, steps[0].tick);
      StepElapsed(record, since, step.op, step.tick);
      StepKeepsLawful(record, step.op, step.tick);
      if EndsUnnumbered(record, step.op, step.tick) {
        ImmutablePublishesNothing(p.record, steps[1..]);
      } else {
        PublishedShowsForward(p.record, step.tick.later, steps[1..]);
        var rest := Published(p.record, steps[1..]);
        assert Millis(Elapsed(record.watch, since)) <= Millis(Elapsed(p.record.watch, step.tick.later));
        assert Published(record, steps) == (if p.ok then [p.record.snapshot] else []) + rest;
        assert if p.ok then Published(record, steps)[1..] == rest else Published(record, steps) == rest;
      }
    }
  }

  /** Over every run whose clock never goes back, no snapshot shows less active time than one published before it. */
  lemma PublishedElapsedIsMonotone(record: JobRecord, since: nat, steps: seq<Step>, i: nat, j: nat)
    requires Lawful(record) && SnapshotSound(record) && TimeSound(record.watch, record.status, since)
    requires ReadsForward(since, steps) && i < j < |Published(record, steps)|
    ensures Published(record, steps)[i].activeElapsedMillis <= Published(record, steps)[j].activeElapsedMillis
  {
    var snapshots := Published(record, steps);
    PublishedShowsForward(record, since, steps);
    ShownForwardAt(Millis(Elapsed(record.watch, since)), snapshots, i);
    ShownForwardAt(snapshots[i].activeElapsedMillis, snapshots[i + 1..], j - i - 1);
  }
}
