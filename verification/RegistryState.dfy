/** The registry's state as a value, what must hold of it, and why each kind of step keeps it. */
module RegistryState {
  import opened Wrappers
  import opened StringOrder
  import opened JobLifecycle
  import opened JobTable
  import opened SubscriptionTable

  datatype State = State(
    nextJobId: nat, nextTerminalSequence: nat, nextSubscriptionId: nat,
    catalogRevision: nat, catalogClosed: bool, catalog: Catalog, jobs: Jobs, subscriptions: Subscriptions)

  /** With both job ids and catalog revisions exhausted, a refused admission can remove a live job's record. */
  predicate Exhausted(s: State) {
    s.nextJobId == U64_MAX && s.catalogClosed
  }

  datatype Part = JobsPart | CatalogPart | SubscriptionsPart

  ghost predicate PartSound(s: State, part: Part) {
    match part
    case JobsPart => JobsSound(s.jobs, s.nextJobId, s.nextTerminalSequence)
    case CatalogPart =>
      && s.catalogRevision <= U64_MAX && s.catalog.revision == s.catalogRevision
      && (!s.catalogClosed ==> Lists(s.catalog.jobs, s.jobs))
    case SubscriptionsPart => !Exhausted(s) ==> TableSound(s.subscriptions, s.nextSubscriptionId, s.jobs.Keys)
  }

  ghost predicate Sound(s: State) {
    forall part {:trigger PartSound(s, part)} :: PartSound(s, part)
  }

  /** The outcome of `publish_catalog` for the jobs of `t`: the next revision, or the end of all publication. */
  ghost predicate CatalogPublished(s: State, t: State) {
    if s.catalogClosed || s.catalogRevision >= U64_MAX then
      t.catalogClosed && t.catalog == s.catalog && t.catalogRevision == s.catalogRevision
    else
      && !t.catalogClosed && t.catalogRevision == s.catalogRevision + 1 && t.catalog.revision == t.catalogRevision
      && Lists(t.catalog.jobs, t.jobs)
  }

  predicate SameCatalog(s: State, t: State) {
    t.catalogClosed == s.catalogClosed && t.catalog == s.catalog && t.catalogRevision == s.catalogRevision
  }

  /** `s` with the catalog fields of `t`. */
  function WithCatalogOf(s: State, t: State): State {
    s.(catalogRevision := t.catalogRevision, catalogClosed := t.catalogClosed, catalog := t.catalog)
  }

  /** Catalogs replace each other only with larger revisions. */
  lemma CatalogAdvances(s: State, t: State)
    requires CatalogPublished(s, t) && PartSound(s, CatalogPart)
    ensures t.catalog == s.catalog || t.catalog.revision > s.catalog.revision
    ensures PartSound(t, CatalogPart)
  {
  }

  // ---------------------------------------------------------------------------------------------
  // What soundness says to the outside
  // ---------------------------------------------------------------------------------------------

  /** A line shows the current status, and the kind as of the revision it carries, which is no later than the job's. */
  predicate LineIsTrue(line: Descriptor, record: JobRecord) {
    && line.status == record.status && (line.terminal <==> IsTerminal(record.status))
    && line.revision <= record.revision && (line.revision == record.revision ==> line.kind == record.kind)
  }

  /** The published catalog names a job exactly when it is in the table, once, and with its current status. */
  lemma CatalogIsTrue(s: State, id: string)
    requires Sound(s) && !s.catalogClosed
    ensures Ascending(Ids(s.catalog.jobs)) && s.catalog.revision == s.catalogRevision
    ensures id in s.jobs <==> exists i :: 0 <= i < |s.catalog.jobs| && s.catalog.jobs[i].jobId == id
    ensures forall i :: 0 <= i < |s.catalog.jobs| && s.catalog.jobs[i].jobId == id && Current(s.jobs[id]) ==>
              LineIsTrue(s.catalog.jobs[i], s.jobs[id])
  {
    assert PartSound(s, CatalogPart);
    var descriptors := s.catalog.jobs;
    assert ListedAt(descriptors, s.jobs, id);
    if id in s.jobs {
      var i :| 0 <= i < |Ids(descriptors)| && Ids(descriptors)[i] == id;
      assert descriptors[i].jobId == id;
    }
    forall i | 0 <= i < |descriptors| && descriptors[i].jobId == id
      ensures id in s.jobs && (Current(s.jobs[id]) ==> LineIsTrue(descriptors[i], s.jobs[id]))
    {
      assert ShownAt(descriptors, s.jobs, i);
    }
  }

  /**
   * Every subscription to a job names a job of the table and belongs to that job's task window; all others are the main
   * window's.
   */
  lemma SubscriptionsAreLive(s: State, id: string)
    requires Sound(s) && !Exhausted(s) && id in s.subscriptions
    ensures |s.jobs| <= MAX_ADMITTED_JOBS && |s.subscriptions| <= MAX_PROCESS_SUBSCRIBERS
    ensures match s.subscriptions[id].jobId
            case None => s.subscriptions[id].owner == MAIN_WINDOW
            case Some(jobId) =>
              && jobId in s.jobs && s.subscriptions[id].owner == TaskWindow(jobId)
              && |Subscribers(s.subscriptions, jobId)| <= MAX_SUBSCRIBERS_PER_JOB
  {
    assert PartSound(s, SubscriptionsPart) && PartSound(s, JobsPart);
    assert SubscriptionAt(s.subscriptions, s.nextSubscriptionId, s.jobs.Keys, id);
  }

  // ---------------------------------------------------------------------------------------------
  // Operations on one job
  // ---------------------------------------------------------------------------------------------

  /** Events other than core completions and failures reach the catalog only when they change the status. */
  predicate Announced(before: JobRecord, op: Op, after: JobRecord) {
    || !(op.EmitDirect? || (op.EmitCore? && !op.core.CoreCompleted? && !op.core.CoreFailed?))
    || after.status != before.status || IsTerminal(after.status)
  }

  /** One operation on one job: what becomes of the record, the sequence counter and the catalog, and nothing else. */
  ghost predicate Edited(s: State, t: State, id: string, op: Op, tick: Tick)
    requires id in s.jobs
  {
    var p := Perform(s.jobs[id], op, tick);
    && t == WithCatalogOf(s, t).(jobs := s.jobs[id := p.record],
                                 nextTerminalSequence := SequencesAfter(s.nextTerminalSequence, s.jobs[id], p.record))
    && (if p.ok && Announced(s.jobs[id], op, p.record) then CatalogPublished(s, t) else SameCatalog(s, t))
  }

  /** Events of a job's work, as opposed to requests, commits, recovery facts and the engine's reports of an end. */
  predicate IsWorkEvent(op: Op) {
    op.EmitDirect? || (op.EmitCore? && (op.core.CoreStarted? || op.core.CoreProgress? || op.core.CoreCancelled?))
  }

  /** While catalog revisions last, the catalog is published again exactly when it should be: not for quiet work. */
  lemma AnnouncedIff(s: State, t: State, id: string, op: Op, tick: Tick)
    requires Sound(s) && id in s.jobs && Edited(s, t, id, op, tick) && !s.catalogClosed && s.catalogRevision < U64_MAX
    ensures t.catalogRevision == s.catalogRevision + 1
            <==> && t.jobs[id].revision > s.jobs[id].revision
                 && (IsWorkEvent(op) ==> t.jobs[id].status != s.jobs[id].status)
    ensures t.catalogRevision == s.catalogRevision + 1 || SameCatalog(s, t)
  {
    assert PartSound(s, JobsPart);
    assert JobAt(s.jobs, s.nextJobId, s.nextTerminalSequence, id);
    StepNumbersSnapshot(s.jobs[id], op, tick);
    PublishesIff(s.jobs[id], op, tick);
  }

  /** Publishing settles nothing that the announcement or the numbering depends on. */
  lemma PublishingDecidesNothing(record: JobRecord, edited: JobRecord, op: Op, tick: Tick, sequences: nat)
    requires Prepare(record, op, tick) == Publish(edited)
    ensures Perform(record, op, tick) == PublishRecord(edited, tick)
    ensures var after := PublishRecord(edited, tick).record;
      && Announced(record, op, after) == Announced(record, op, edited)
      && SequencesAfter(sequences, record, after) == SequencesAfter(sequences, record, edited)
  {
    PublishingKeepsFacts(edited, tick);
  }

  lemma UnchangedIsEdited(s: State, id: string, op: Op, tick: Tick)
    requires id in s.jobs && Prepare(s.jobs[id], op, tick) == Unchanged
    ensures Edited(s, s, id, op, tick)
  {
    assert s.jobs == s.jobs[id := s.jobs[id]];
  }

  /**
   * An operation on an ended job changes nothing in the registry: not the job, the counters, the catalog, nor any other
   * job.
   */
  lemma EndedJobIsFrozen(s: State, t: State, id: string, op: Op, tick: Tick)
    requires id in s.jobs && IsTerminal(s.jobs[id].status) && Edited(s, t, id, op, tick)
    ensures t == s
  {
    assert s.jobs == s.jobs[id := s.jobs[id]];
  }

  lemma EditKeepsCatalog(s: State, t: State, id: string, op: Op, tick: Tick)
    requires Sound(s) && id in s.jobs && Edited(s, t, id, op, tick)
    ensures PartSound(t, CatalogPart)
  {
    assert PartSound(s, JobsPart) && PartSound(s, CatalogPart);
    assert JobAt(s.jobs, s.nextJobId, s.nextTerminalSequence, id);
    var p := Perform(s.jobs[id], op, tick);
    if p.ok && Announced(s.jobs[id], op, p.record) {
      CatalogAdvances(s, t);
    } else if !s.catalogClosed {
      if !p.ok {
        UnpublishedIsQuiet(s.jobs[id], op, tick);
      }
      QuietEditKeepsListing(s.catalog.jobs, s.jobs, s.nextJobId, s.nextTerminalSequence, id, op, tick);
    }
  }

  lemma EditKeepsSound(s: State, t: State, id: string, op: Op, tick: Tick)
    requires Sound(s) && id in s.jobs && tick.sequence == NextSequence(s.nextTerminalSequence)
    requires Edited(s, t, id, op, tick)
    ensures Sound(t)
  {
    assert PartSound(s, JobsPart) && PartSound(s, SubscriptionsPart);
    EditKeepsJobs(s.jobs, s.nextJobId, s.nextTerminalSequence, id, op, tick);
    EditKeepsCatalog(s, t, id, op, tick);
    assert PartSound(t, JobsPart) && PartSound(t, SubscriptionsPart) && PartSound(t, CatalogPart);
  }

  // ---------------------------------------------------------------------------------------------
  // Admission and dismissal
  // ---------------------------------------------------------------------------------------------

  /** What eviction has done so far to the jobs and to the subscriptions that followed them. */
  ghost predicate Evicted(before: Jobs, subscribed: Subscriptions, after: Jobs, left: Subscriptions) {
    EvictedJobs(before, after) && left == WithoutJobs(subscribed, before.Keys - after.Keys)
  }

  lemma EvictingNothing(jobs: Jobs, subscriptions: Subscriptions)
    ensures Evicted(jobs, subscriptions, jobs, subscriptions)
  {
    assert WithoutJobs(subscriptions, jobs.Keys - jobs.Keys) == subscriptions;
  }

  lemma EvictionAdvances(
      before: Jobs, subscribed: Subscriptions, after: Jobs, left: Subscriptions, issued: nat, sequences: nat,
      oldest: string)
    requires Evicted(before, subscribed, after, left) && JobsSound(after, issued, sequences)
    requires OldestEnded(after, oldest) && |Ended(after)| >= MAX_RETAINED_TERMINAL_JOBS
    ensures JobsSound(after - {oldest}, issued, sequences) && |after - {oldest}| == |after| - 1
    ensures Evicted(before, subscribed, after - {oldest}, WithoutJobs(left, {oldest}))
  {
    EvictionStep(before, after, issued, sequences, oldest);
    GoneJobs(before, after, oldest);
    WithoutMoreJobs(subscribed, before.Keys - after.Keys, {oldest});
  }

  lemma GoneJobs(before: Jobs, after: Jobs, oldest: string)
    requires after.Keys <= before.Keys && oldest in after
    ensures before.Keys - (after - {oldest}).Keys == (before.Keys - after.Keys) + {oldest}
  {
  }

  /** The state after eviction, with the next job id taken. */
  function Cleared(s: State, kept: Jobs): State {
    s.(nextJobId := SaturatingAdd(s.nextJobId, 1), jobs := kept,
       subscriptions := WithoutJobs(s.subscriptions, s.jobs.Keys - kept.Keys))
  }

  /** Everything an admission does when the job gets a place beside the jobs that were kept. */
  ghost predicate Admitted(s: State, t: State, kept: Jobs, id: string, kind: JobKind, now: nat) {
    && t == WithCatalogOf(Cleared(s, kept), t).(jobs := kept[id := NewJob(id, kind, now)])
    && kept.Keys <= s.jobs.Keys && |kept| < MAX_ADMITTED_JOBS
    && CatalogPublished(s, t)
  }

  lemma AdmissionKeepsParts(s: State, t: State, kept: Jobs, id: string, kind: JobKind, now: nat)
    requires Sound(s) && Admitted(s, t, kept, id, kind, now)
    requires JobsSound(kept, t.nextJobId, s.nextTerminalSequence) && IssuedJob(t.nextJobId, id)
    ensures PartSound(t, JobsPart) && PartSound(t, CatalogPart)
  {
    assert PartSound(s, CatalogPart);
    AdmissionKeepsJobs(kept, t.nextJobId, t.nextTerminalSequence, id, kind, now);
    CatalogAdvances(s, t);
  }

  lemma EvictionKeepsSubscriptions(s: State, kept: Jobs, left: Subscriptions, jobs: set<string>)
    requires Sound(s) && !Exhausted(s) && kept.Keys <= s.jobs.Keys && kept.Keys <= jobs
    requires left == WithoutJobs(s.subscriptions, s.jobs.Keys - kept.Keys)
    ensures TableSound(left, s.nextSubscriptionId, jobs)
  {
    assert PartSound(s, SubscriptionsPart);
    LeavingKeepsTable(s.subscriptions, s.nextSubscriptionId, s.jobs.Keys, kept.Keys, jobs);
  }

  lemma AdmissionKeepsSound(s: State, t: State, kept: Jobs, id: string, kind: JobKind, now: nat)
    requires Sound(s) && Admitted(s, t, kept, id, kind, now) && !t.catalogClosed
    requires JobsSound(kept, t.nextJobId, s.nextTerminalSequence) && IssuedJob(t.nextJobId, id)
    ensures Sound(t)
  {
    AdmissionKeepsParts(s, t, kept, id, kind, now);
    EvictionKeepsSubscriptions(s, kept, t.subscriptions, t.jobs.Keys);
    assert PartSound(t, SubscriptionsPart);
  }

  /** The job is taken out again because the catalog cannot be published; the catalog is closed by then. */
  ghost predicate Refused(s: State, t: State, kept: Jobs, id: string) {
    && kept.Keys <= s.jobs.Keys && (s.catalogClosed || s.catalogRevision >= U64_MAX)
    && t == Cleared(s, kept).(jobs := kept - {id}, catalogClosed := true)
  }

  lemma RefusalUndoesAdmission(s: State, t: State, kept: Jobs, id: string, kind: JobKind, now: nat)
    requires Admitted(s, t, kept, id, kind, now) && t.catalogClosed
    ensures Refused(s, t.(jobs := t.jobs - {id}), kept, id)
  {
    assert t.jobs - {id} == kept - {id};
  }

  lemma RefusalKeepsSubscriptions(s: State, t: State, kept: Jobs, id: string)
    requires Sound(s) && Refused(s, t, kept, id) && s.nextJobId < U64_MAX && id !in s.jobs
    ensures TableSound(t.subscriptions, t.nextSubscriptionId, t.jobs.Keys)
  {
    assert t.jobs == kept;
    EvictionKeepsSubscriptions(s, kept, t.subscriptions, kept.Keys);
  }

  lemma RefusalKeepsSound(s: State, t: State, kept: Jobs, id: string)
    requires Sound(s) && Refused(s, t, kept, id) && JobsSound(kept, t.nextJobId, s.nextTerminalSequence)
    requires s.nextJobId < U64_MAX ==> id !in s.jobs
    ensures Sound(t)
  {
    assert PartSound(s, CatalogPart);
    ShrinkKeepsJobs(kept, t.nextJobId, t.nextTerminalSequence, t.jobs);
    if s.nextJobId < U64_MAX {
      RefusalKeepsSubscriptions(s, t, kept, id);
    }
    assert PartSound(t, JobsPart) && PartSound(t, SubscriptionsPart) && PartSound(t, CatalogPart);
  }

  /** A refusal for want of room changes the job counter alone: nothing was evicted. */
  lemma CapacityKeepsSound(s: State, kept: Jobs, left: Subscriptions)
    requires Sound(s) && Evicted(s.jobs, s.subscriptions, kept, left) && |kept| >= MAX_ADMITTED_JOBS
    ensures kept == s.jobs && left == s.subscriptions
    ensures Sound(s.(nextJobId := SaturatingAdd(s.nextJobId, 1)))
  {
    var t := s.(nextJobId := SaturatingAdd(s.nextJobId, 1));
    assert PartSound(s, JobsPart) && PartSound(s, SubscriptionsPart) && PartSound(s, CatalogPart);
    EvictingNothing(s.jobs, s.subscriptions);
    MoreIssuedKeepsJobs(s.jobs, s.nextJobId, t.nextJobId, s.nextTerminalSequence);
    assert PartSound(t, JobsPart) && PartSound(t, SubscriptionsPart) && PartSound(t, CatalogPart);
  }

  /** The dismiss flag of a current snapshot says whether the job can be dismissed. */
  lemma DismissFlag(s: State, id: string)
    requires Sound(s) && id in s.jobs && Current(s.jobs[id])
    ensures s.jobs[id].snapshot.can.dismiss <==> IsTerminal(s.jobs[id].status)
  {
    assert PartSound(s, JobsPart);
    assert JobAt(s.jobs, s.nextJobId, s.nextTerminalSequence, id);
  }

  ghost predicate Dismissed(s: State, t: State, id: string) {
    && t == WithCatalogOf(s, t).(jobs := s.jobs - {id}, subscriptions := WithoutJobs(s.subscriptions, {id}))
    && CatalogPublished(s, t)
  }

  lemma DismissalKeepsSound(s: State, t: State, id: string)
    requires Sound(s) && id in s.jobs && Dismissed(s, t, id)
    ensures Sound(t)
  {
    assert PartSound(s, JobsPart) && PartSound(s, SubscriptionsPart) && PartSound(s, CatalogPart);
    ShrinkKeepsJobs(s.jobs, s.nextJobId, s.nextTerminalSequence, t.jobs);
    CatalogAdvances(s, t);
    if !Exhausted(s) {
      assert s.jobs.Keys - t.jobs.Keys == {id};
      LeavingKeepsTable(s.subscriptions, s.nextSubscriptionId, s.jobs.Keys, t.jobs.Keys, t.jobs.Keys);
    }
    assert PartSound(t, JobsPart) && PartSound(t, SubscriptionsPart);
  }

  // ---------------------------------------------------------------------------------------------
  // Subscriptions
  // ---------------------------------------------------------------------------------------------

  function Registered(s: State, subscription: Subscription): State {
    s.(nextSubscriptionId := s.nextSubscriptionId + 1,
       subscriptions := s.subscriptions[SubscriptionId(s.nextSubscriptionId + 1) := subscription])
  }

  lemma RegistrationKeepsSound(s: State, subscription: Subscription)
    requires Sound(s) && s.nextSubscriptionId < U64_MAX && |s.subscriptions| < MAX_PROCESS_SUBSCRIBERS
    requires OwnedProperly(subscription, s.jobs.Keys)
    requires subscription.jobId.Some? ==>
        |Subscribers(s.subscriptions, subscription.jobId.value)| < MAX_SUBSCRIBERS_PER_JOB
    ensures Sound(Registered(s, subscription))
    ensures !Exhausted(s) ==> SubscriptionId(s.nextSubscriptionId + 1) !in s.subscriptions
  {
    var t := Registered(s, subscription);
    assert PartSound(s, JobsPart) && PartSound(s, SubscriptionsPart) && PartSound(s, CatalogPart);
    if !Exhausted(s) {
      RegisterKeepsTable(s.subscriptions, s.nextSubscriptionId, s.jobs.Keys, subscription);
    }
    assert PartSound(t, JobsPart) && PartSound(t, SubscriptionsPart) && PartSound(t, CatalogPart);
  }

  lemma UnsubscriptionKeepsSound(s: State, left: Subscriptions)
    requires Sound(s)
    requires forall id :: id in left ==> id in s.subscriptions && left[id] == s.subscriptions[id]
    ensures Sound(s.(subscriptions := left))
  {
    var t := s.(subscriptions := left);
    assert PartSound(s, JobsPart) && PartSound(s, SubscriptionsPart) && PartSound(s, CatalogPart);
    if !Exhausted(s) {
      ShrinkKeepsTable(s.subscriptions, s.nextSubscriptionId, s.jobs.Keys, left, s.jobs.Keys);
    }
    assert PartSound(t, JobsPart) && PartSound(t, SubscriptionsPart) && PartSound(t, CatalogPart);
  }

  lemma FlowChangeKeepsSound(s: State, id: string, subscription: Subscription)
    requires Sound(s) && id in s.subscriptions
    requires subscription.owner == s.subscriptions[id].owner && subscription.jobId == s.subscriptions[id].jobId
    ensures Sound(s.(subscriptions := s.subscriptions[id := subscription]))
  {
    var t := s.(subscriptions := s.subscriptions[id := subscription]);
    assert PartSound(s, JobsPart) && PartSound(s, SubscriptionsPart) && PartSound(s, CatalogPart);
    if !Exhausted(s) {
      FlowChangeKeepsTable(s.subscriptions, s.nextSubscriptionId, s.jobs.Keys, id, subscription);
    }
    assert PartSound(t, JobsPart) && PartSound(t, SubscriptionsPart) && PartSound(t, CatalogPart);
  }
}
